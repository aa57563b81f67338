/** One conversion of the pointer lowering: a variable, or a node that extends the place of a dereference,
    becomes the pointer to its place, and each of its users gets a dereference of that pointer. */
module PointerConvert {
  import opened Wrappers
  import opened PointerIr

  /** The operands of a user once the converted node is read through dereferences. */
  function Redirect(n: Id, u: Id, args: seq<Id>): (r: seq<Id>)
    ensures |r| == |args|
  {
    seq(|args|, k requires 0 <= k < |args| => if args[k] == n then DerefOf(n, u, k) else args[k])
  }

  /** A use of the node by a node of the program. */
  predicate UseOf(p: Program, n: Id, d: Id) {
    && d.DerefOf? && d.node == n
    && d.user in p.nodes && d.k < |p.nodes[d.user].args| && p.nodes[d.user].args[d.k] == n
  }

  function UsesOf(p: Program, n: Id): set<Id> {
    set u, k | u in p.nodes && 0 <= k < |p.nodes[u].args| && p.nodes[u].args[k] == n :: DerefOf(n, u, k)
  }

  function NewNodes(p: Program, n: Id, new_: Node): map<Id, Node> {
    map o | o in p.nodes.Keys + UsesOf(p, n) ::
      if o in UsesOf(p, n) then Node(Deref, [n])
      else if o == n then new_
      else Node(p.nodes[o].kind, Redirect(n, o, p.nodes[o].args))
  }

  /** The dereferences in front of a user, in the order of its operands. */
  function Derefs(n: Id, u: Id, args: seq<Id>, k: nat): seq<Id>
    requires k <= |args|
    decreases |args| - k
  {
    if k == |args| then []
    else (if args[k] == n then [DerefOf(n, u, k)] else []) + Derefs(n, u, args, k + 1)
  }

  /** A block once the users of the node have their dereferences; a variable leaves the block. */
  function Expand(p: Program, n: Id, list: seq<Id>): seq<Id> {
    if list == [] then [] else
    (if list[0] == n then (if IsLocal(p, n) then [] else [n])
     else if list[0] in p.nodes then Derefs(n, list[0], p.nodes[list[0]].args, 0) + [list[0]]
     else [list[0]]) + Expand(p, n, list[1..])
  }

  predicate IsLocal(p: Program, n: Id) {
    n in p.nodes && p.nodes[n].kind.Local?
  }

  function ExpandAll(p: Program, n: Id): seq<seq<Id>> {
    seq(|p.blocks|, b requires 0 <= b < |p.blocks| =>
      (if b == 0 && IsLocal(p, n) then [n] else []) + Expand(p, n, p.blocks[b]))
  }

  function Convert(p: Program, n: Id, new_: Node): Program {
    Program(NewNodes(p, n, new_), ExpandAll(p, n))
  }

  function Behind(p: Program, d: Id): Id
    requires Unary(p, d, Deref)
  {
    p.nodes[d].args[0]
  }

  /** The pointer node a variable-like node becomes, if it can be converted now. */
  function PointerNode(p: Program, n: Id): Option<Node> {
    if n !in p.nodes then None else
    var args := p.nodes[n].args;
    match p.nodes[n].kind
    case Local => if args == [] then Some(Node(Alloca, [])) else None
    case Field(f) =>
      if |args| == 1 && Unary(p, args[0], Deref) then Some(Node(FieldPointer(f), [Behind(p, args[0])])) else None
    case Index =>
      if |args| == 2 && Unary(p, args[0], Deref) then Some(Node(ElementPointer, [Behind(p, args[0]), args[1]]))
      else None
    case IndexPointer =>
      if |args| == 2 && Unary(p, args[0], Deref) then Some(Node(PointerElementPointer, [Behind(p, args[0]), args[1]]))
      else None
    case _ => None
  }

  /** The original node a node belongs to. */
  function Base(o: Id): Id {
    if o.Orig? then o else o.node
  }

  /** The node extends or names the place of its first operand. */
  predicate Extends(k: Kind) {
    k.Field? || k.Index? || k.IndexPointer? || k.AddressOf?
  }

  /** The operands of an original node come before it, and what it extends is variable-like; an inserted
      node dereferences a pointer. */
  ghost predicate NodeOk(p: Program, o: Id)
    requires o in p.nodes
  {
    if o.Orig? then
      && (Arity(p.nodes[o].kind) >= 0 ==> |p.nodes[o].args| == Arity(p.nodes[o].kind))
      && (Extends(p.nodes[o].kind) ==> VariableLike(p, p.nodes[o].args[0]))
      && (forall a :: a in p.nodes[o].args ==> Rank(Base(a)) < Rank(o) && (a.Orig? || a in p.nodes))
    else
      && o.DerefOf? && o.node.Orig? && o.node in p.nodes && Plain(p, o.node)
      && p.nodes[o] == Node(Deref, [o.node])
  }

  ghost predicate WellFormed(p: Program) {
    forall o :: o in p.nodes ==> NodeOk(p, o)
  }

  ghost predicate Convertible(p: Program, n: Id) {
    WellFormed(p) && PointerNode(p, n).Some? && n.Orig?
  }

  predicate Inserted(n: Id, o: Id) {
    o.DerefOf? && o.node == n
  }

  /** What converting a node relies on. */
  lemma ConvertibleNode(p: Program, n: Id, o: Id)
    requires Convertible(p, n) && o in p.nodes
    ensures VariableLike(p, n) && !p.nodes[n].kind.Deref?
    ensures !Inserted(n, o)
    ensures forall a :: a in p.nodes[o].args ==>
      !Inserted(n, a) && (o.Orig? ==> Rank(a) <= Rank(Base(a)) < Rank(o)) && (!o.Orig? ==> a.Orig? && a != n)
  {
    assert NodeOk(p, o);
    forall a | a in p.nodes[o].args ensures !Inserted(n, a) {
      if a in p.nodes {
        assert NodeOk(p, a);
      }
    }
  }

  function Converted(p: Program, n: Id): Program
    requires PointerNode(p, n).Some?
  {
    Convert(p, n, PointerNode(p, n).value)
  }

  lemma NodeAt(p: Program, n: Id, new_: Node, o: Id)
    requires forall x :: x in p.nodes ==> !Inserted(n, x)
    ensures UseOf(p, n, o) ==> o in NewNodes(p, n, new_) && NewNodes(p, n, new_)[o] == Node(Deref, [n])
    ensures !UseOf(p, n, o) ==> (o in NewNodes(p, n, new_) <==> o in p.nodes)
    ensures o in p.nodes && o != n ==>
      NewNodes(p, n, new_)[o] == Node(p.nodes[o].kind, Redirect(n, o, p.nodes[o].args))
    ensures n in p.nodes ==> NewNodes(p, n, new_)[n] == new_
  {
    assert UseOf(p, n, o) <==> o in UsesOf(p, n) by {
      if UseOf(p, n, o) {
        assert p.nodes[o.user].args[o.k] == n;
        assert DerefOf(n, o.user, o.k) == o;
      }
    }
  }

  /** The states of the two runs: what the node recorded as its place is now its value. */
  ghost predicate Related(p: Program, n: Id, s: State, t: State) {
    && s.mem == t.mem
    && s.addr.Keys <= p.nodes.Keys
    && (forall o :: o in s.env && o != n ==> o in t.env && t.env[o] == s.env[o])
    && (forall o :: o in s.addr && o != n ==> o in t.addr && t.addr[o] == s.addr[o])
    && (n in s.addr ==> n in t.env && t.env[n] == s.addr[n])
    && (IsLocal(p, n) ==> n in t.env && t.env[n] == Pointer(n, []))
  }

  lemma ConvertedNode(p: Program, n: Id, o: Id)
    requires Convertible(p, n)
    ensures UseOf(p, n, o) ==> Unary(Converted(p, n), o, Deref) && Converted(p, n).nodes[o].args == [n]
    ensures !UseOf(p, n, o) ==> (o in Converted(p, n).nodes <==> o in p.nodes)
    ensures o in p.nodes && o != n ==>
      Converted(p, n).nodes[o] == Node(p.nodes[o].kind, Redirect(n, o, p.nodes[o].args))
    ensures n in Converted(p, n).nodes && Converted(p, n).nodes[n] == PointerNode(p, n).value
    ensures Plain(Converted(p, n), n) && !RootVariable(Converted(p, n), n)
    ensures o != n && !Inserted(n, o) ==>
      (VariableLike(Converted(p, n), o) == VariableLike(p, o) && Plain(Converted(p, n), o) == Plain(p, o))
  {
    hide WellFormed, NodeOk, NewNodes;
    NoneInserted(p, n);
    NodeAt(p, n, PointerNode(p, n).value, o);
    NodeAt(p, n, PointerNode(p, n).value, n);
  }

  lemma NoneInserted(p: Program, n: Id)
    requires Convertible(p, n)
    ensures forall x :: x in p.nodes ==> !Inserted(n, x)
  {
    forall x | x in p.nodes ensures !Inserted(n, x) {
      ConvertibleNode(p, n, x);
    }
  }

  /** A dereference inserted for the node gives its users what the node gave them. */
  lemma ReadDeref(p: Program, n: Id, s: State, t: State, d: Id)
    requires Convertible(p, n) && Related(p, n, s, t) && UseOf(p, n, d)
    ensures RootVariable(p, n) && RootVariable(Converted(p, n), d)
    ensures VariableLike(p, n) && VariableLike(Converted(p, n), d)
    ensures Read(p, s, n).Some? ==> Read(Converted(p, n), t, d) == Read(p, s, n)
    ensures Place(p, s, n).Some? ==> Place(Converted(p, n), t, d) == Place(p, s, n)
    ensures AccessPlace(p, s, n).Some? ==> AccessPlace(Converted(p, n), t, d) == AccessPlace(p, s, n)
  {
    hide Converted, WellFormed, NodeOk;
    ConvertibleNode(p, n, n);
    ConvertedNode(p, n, d);
    ConvertedNode(p, n, n);
    assert Place(p, s, n) == Get(s.addr, n) == AccessPlace(p, s, n);
    var q := Converted(p, n);
    assert Place(q, t, d) == Below(q, t, n, Rank(d)) == Get(t.env, n);
    assert AccessPlace(q, t, d) == Place(q, t, d);
    assert Read(q, t, d) == LoadFrom(t, AccessPlace(q, t, d));
    assert Read(p, s, n) == LoadFrom(s, AccessPlace(p, s, n));
  }

  lemma {:induction false} RootSame(p: Program, n: Id, o: Id)
    requires Convertible(p, n) && o != n && !Inserted(n, o)
    ensures RootVariable(Converted(p, n), o) == RootVariable(p, o)
    decreases Rank(o)
  {
    hide Converted, WellFormed, NodeOk;
    var q := Converted(p, n);
    ConvertedNode(p, n, o);
    if Unary(p, o, AddressOf) {
      ConvertibleNode(p, n, o);
      ConvertibleNode(p, n, n);
      var v := p.nodes[o].args[0];
      assert v in p.nodes[o].args;
      if v == n {
        ConvertedNode(p, n, DerefOf(n, o, 0));
      } else {
        ConvertedNode(p, n, v);
        if Unary(p, v, Deref) {
          ConvertibleNode(p, n, v);
          var a := p.nodes[v].args[0];
          assert a in p.nodes[v].args;
          if a == n {
            ConvertedNode(p, n, DerefOf(n, v, 0));
          } else if Rank(a) < Rank(o) {
            RootSame(p, n, a);
          }
        }
      }
    }
  }

  lemma RedirectAt(p: Program, n: Id, u: Id, k: nat)
    requires Convertible(p, n) && u in p.nodes && u != n && k < |p.nodes[u].args|
    ensures u in Converted(p, n).nodes && |Converted(p, n).nodes[u].args| == |p.nodes[u].args|
    ensures Converted(p, n).nodes[u].kind == p.nodes[u].kind
    ensures var a := p.nodes[u].args[k];
      Converted(p, n).nodes[u].args[k] == (if a == n then DerefOf(n, u, k) else a) && !Inserted(n, a) &&
      (u.Orig? ==> Rank(Base(a)) < Rank(u)) && (!u.Orig? ==> a.Orig? && a != n)
    ensures p.nodes[u].args[k] == n ==> UseOf(p, n, DerefOf(n, u, k)) && u.Orig?
  {
    ConvertedNode(p, n, u);
    ConvertibleNode(p, n, u);
    assert p.nodes[u].args[k] in p.nodes[u].args;
  }

  /** Every other operand gives what it gave. */
  lemma {:induction false} ReadSame(p: Program, n: Id, s: State, t: State, o: Id)
    requires Convertible(p, n) && Related(p, n, s, t) && o != n && !Inserted(n, o)
    ensures Read(p, s, o).Some? ==> Read(Converted(p, n), t, o) == Read(p, s, o)
    ensures Place(p, s, o).Some? ==> Place(Converted(p, n), t, o) == Place(p, s, o)
    ensures AccessPlace(p, s, o).Some? ==> AccessPlace(Converted(p, n), t, o) == AccessPlace(p, s, o)
    decreases Rank(o), 1
  {
    hide Converted, WellFormed, NodeOk;
    var q := Converted(p, n);
    ConvertedNode(p, n, o);
    if Unary(p, o, Deref) {
      var a := p.nodes[o].args[0];
      RedirectAt(p, n, o, 0);
      BelowSame(p, n, s, t, o);
      if a == n {
        ReadDeref(p, n, s, t, DerefOf(n, o, 0));
      } else {
        RootSame(p, n, a);
      }
      assert AccessPlace(p, s, o).Some? ==> AccessPlace(q, t, o) == AccessPlace(p, s, o);
    } else if Unary(p, o, AddressOf) {
      var v := p.nodes[o].args[0];
      RedirectAt(p, n, o, 0);
      if v == n {
        ReadDeref(p, n, s, t, DerefOf(n, o, 0));
      } else if Rank(v) < Rank(o) {
        ReadSame(p, n, s, t, v);
      }
      assert Read(p, s, o).Some? ==> Read(q, t, o) == Place(q, t, q.nodes[o].args[0]);
    } else if o !in p.nodes {
      assert o !in q.nodes;
    } else {
      assert q.nodes[o].kind == p.nodes[o].kind && |q.nodes[o].args| == |p.nodes[o].args|;
      assert AccessPlace(p, s, o) == Place(p, s, o) && AccessPlace(q, t, o) == Place(q, t, o);
    }
  }

  /** The pointer a dereference looks through. */
  lemma {:induction false} BelowSame(p: Program, n: Id, s: State, t: State, o: Id)
    requires Convertible(p, n) && Related(p, n, s, t) && o != n && !Inserted(n, o) && Unary(p, o, Deref)
    ensures Unary(Converted(p, n), o, Deref)
    ensures Below(p, s, p.nodes[o].args[0], Rank(o)).Some? ==>
      Below(Converted(p, n), t, Converted(p, n).nodes[o].args[0], Rank(o)) == Below(p, s, p.nodes[o].args[0], Rank(o))
    decreases Rank(o), 0
  {
    hide Converted, WellFormed, NodeOk;
    var q := Converted(p, n);
    var a := p.nodes[o].args[0];
    RedirectAt(p, n, o, 0);
    if a == n {
      var d := DerefOf(n, o, 0);
      ReadDeref(p, n, s, t, d);
      assert Below(q, t, d, Rank(o)) == Read(q, t, d);
    } else {
      ConvertedNode(p, n, a);
      if !Plain(p, a) && Rank(a) < Rank(o) {
        ReadSame(p, n, s, t, a);
      }
    }
  }

  lemma NotUse(p: Program, n: Id, o: Id)
    requires Convertible(p, n) && o in p.nodes
    ensures !UseOf(p, n, o)
  {
    ConvertibleNode(p, n, o);
  }

  /** A node that was there keeps its form. */
  /** An operand of a node that was not converted. */
  lemma OldArgument(p: Program, n: Id, o: Id, k: nat)
    requires Convertible(p, n) && o in p.nodes && o != n && k < |p.nodes[o].args|
    ensures var q := Converted(p, n);
      && o in q.nodes && q.nodes[o].kind == p.nodes[o].kind && |q.nodes[o].args| == |p.nodes[o].args|
      && (q.nodes[o].args[k] in q.nodes || q.nodes[o].args[k].Orig?)
      && (o.Orig? ==> Rank(Base(q.nodes[o].args[k])) < Rank(o))
      && (VariableLike(p, p.nodes[o].args[k]) ==> VariableLike(q, q.nodes[o].args[k]))
      && (p.nodes[o].args[k] != n ==> q.nodes[o].args[k] == p.nodes[o].args[k])
  {
    hide Converted, WellFormed, NodeOk, UseOf;
    var a := p.nodes[o].args[k];
    RedirectAt(p, n, o, k);
    ConvertedNode(p, n, a);
    OperandKnown(p, o, a);
    if a == n {
      ConvertedNode(p, n, DerefOf(n, o, k));
    } else if a in p.nodes {
      NotUse(p, n, a);
    }
  }

  lemma OperandKnown(p: Program, o: Id, a: Id)
    requires WellFormed(p) && o in p.nodes && a in p.nodes[o].args
    ensures a in p.nodes || a.Orig?
  {
    assert NodeOk(p, o);
  }

  lemma OldNodeOk(p: Program, n: Id, o: Id)
    requires Convertible(p, n) && o in p.nodes && o != n
    ensures o in Converted(p, n).nodes && NodeOk(Converted(p, n), o)
  {
    assert NodeOk(p, o);
    hide Converted, WellFormed, UseOf, VariableLike;
    var q := Converted(p, n);
    ConvertedNode(p, n, o);
    NotUse(p, n, o);
    forall k | 0 <= k < |p.nodes[o].args|
      ensures q.nodes[o].args[k] in q.nodes || q.nodes[o].args[k].Orig?
      ensures o.Orig? ==> Rank(Base(q.nodes[o].args[k])) < Rank(o)
      ensures VariableLike(p, p.nodes[o].args[k]) ==> VariableLike(q, q.nodes[o].args[k])
      ensures p.nodes[o].args[k] != n ==> q.nodes[o].args[k] == p.nodes[o].args[k]
    {
      OldArgument(p, n, o, k);
    }
    if !o.Orig? {
      ConvertibleNode(p, n, n);
      ConvertedNode(p, n, o.node);
      assert q.nodes[o].args == [o.node];
    }
  }

  lemma ConvertedNodeOk(p: Program, n: Id, o: Id)
    requires Convertible(p, n) && o in Converted(p, n).nodes
    ensures NodeOk(Converted(p, n), o)
  {
    ConvertedNode(p, n, o);
    hide Converted, WellFormed, NodeOk;
    if o == n {
      NewNodeOk(p, n);
    } else if o in p.nodes {
      OldNodeOk(p, n, o);
    } else {
      NewUseOk(p, n, o);
    }
  }

  lemma NewNodeOk(p: Program, n: Id)
    requires Convertible(p, n)
    ensures n in Converted(p, n).nodes && NodeOk(Converted(p, n), n)
  {
    var q := Converted(p, n);
    ConvertedNode(p, n, n);
    ConvertibleNode(p, n, n);
    assert NodeOk(p, n);
    hide Converted, WellFormed;
    forall a | a in q.nodes[n].args ensures Rank(Base(a)) < Rank(n) && (a.Orig? || a in q.nodes) {
      NewArgument(p, n, a);
      ConvertedNode(p, n, a);
    }
  }

  lemma NewUseOk(p: Program, n: Id, o: Id)
    requires Convertible(p, n) && UseOf(p, n, o)
    ensures o in Converted(p, n).nodes && NodeOk(Converted(p, n), o)
  {
    ConvertedNode(p, n, o);
    ConvertedNode(p, n, n);
    hide Converted, WellFormed;
  }

  lemma NewArgument(p: Program, n: Id, a: Id)
    requires Convertible(p, n) && a in PointerNode(p, n).value.args
    ensures Rank(Base(a)) < Rank(n) && (a.Orig? || a in p.nodes) && !Inserted(n, a)
  {
    ConvertibleNode(p, n, n);
    assert NodeOk(p, n);
    if !(a in p.nodes[n].args) {
      var d := p.nodes[n].args[0];
      assert d in p.nodes[n].args && p.nodes[d].args == [a] && a in p.nodes[d].args;
      assert NodeOk(p, d);
      ConvertibleNode(p, n, d);
    }
  }

  lemma ConvertedWellFormed(p: Program, n: Id)
    requires Convertible(p, n)
    ensures WellFormed(Converted(p, n))
  {
    forall o | o in Converted(p, n).nodes ensures NodeOk(Converted(p, n), o) {
      ConvertedNodeOk(p, n, o);
    }
  }
}
