/** The last step of the pointer lowering: a dereference becomes a load in front of each user that reads
    it, and a write through it becomes a store. */
module PointerLoads {
  import opened Wrappers
  import opened PointerIr

  predicate LoadedFor(d: Id, o: Id) {
    o.LoadOf? && o.node == d
  }

  predicate LateKind(k: Kind) {
    !k.Local? && !k.Field? && !k.Index? && !k.IndexPointer? && !k.AddressOf?
  }

  /** A load stands for a dereference that is gone. */
  predicate Gone(p: Program, o: Id) {
    o.LoadOf? ==> o.node !in p.nodes && !o.node.LoadOf?
  }

  /** Only dereferences are left of the variable-like nodes; a dereference of one comes after it. */
  ghost predicate LateNode(p: Program, o: Id)
    requires o in p.nodes
  {
    && LateKind(p.nodes[o].kind)
    && (p.nodes[o].kind.Deref? ==>
      && |p.nodes[o].args| == 1
      && (VariableLike(p, p.nodes[o].args[0]) ==> Rank(p.nodes[o].args[0]) < Rank(o)))
    && (o.LoadOf? ==> p.nodes[o].kind.Load?)
    && Gone(p, o)
    && forall a :: a in p.nodes[o].args ==> Gone(p, a)
  }

  ghost predicate Late(p: Program) {
    forall o :: o in p.nodes ==> LateNode(p, o)
  }

  ghost predicate Loadable(p: Program, d: Id) {
    Late(p) && Unary(p, d, Deref) && !VariableLike(p, p.nodes[d].args[0])
  }

  /** The operand that is written through becomes the pointer; any other becomes a load. */
  function LoadArgs(d: Id, a: Id, u: Id, node: Node): (r: seq<Id>)
    ensures |r| == |node.args|
  {
    seq(|node.args|, k requires 0 <= k < |node.args| =>
      if node.args[k] != d then node.args[k]
      else if Written(node, k) then a
      else LoadOf(d, u, k))
  }

  predicate Written(node: Node, k: nat) {
    node.kind.Write? && |node.args| == 2 && k == 1
  }

  function LoadKind(d: Id, node: Node): Kind {
    if node.kind.Write? && |node.args| == 2 && node.args[1] == d then Store else node.kind
  }

  predicate LoadUse(p: Program, d: Id, o: Id) {
    && LoadedFor(d, o)
    && o.user in p.nodes && o.k < |p.nodes[o.user].args| && p.nodes[o.user].args[o.k] == d
    && !Written(p.nodes[o.user], o.k)
  }

  function LoadUses(p: Program, d: Id): set<Id> {
    set u, k |
      u in p.nodes && 0 <= k < |p.nodes[u].args| && p.nodes[u].args[k] == d && !Written(p.nodes[u], k) ::
      LoadOf(d, u, k)
  }

  function LoadNodes(p: Program, d: Id, a: Id): map<Id, Node> {
    map o | o in (p.nodes.Keys - {d}) + LoadUses(p, d) ::
      if o in LoadUses(p, d) then Node(Load, [a])
      else Node(LoadKind(d, p.nodes[o]), LoadArgs(d, a, o, p.nodes[o]))
  }

  /** The loads in front of a user, in the order of its operands. */
  function Loads(d: Id, u: Id, node: Node, k: nat): seq<Id>
    requires k <= |node.args|
    decreases |node.args| - k
  {
    if k == |node.args| then []
    else (if node.args[k] == d && !Written(node, k) then [LoadOf(d, u, k)] else []) + Loads(d, u, node, k + 1)
  }

  function LoadList(p: Program, d: Id, list: seq<Id>): seq<Id> {
    if list == [] then [] else
    (if list[0] == d then []
     else if list[0] in p.nodes then Loads(d, list[0], p.nodes[list[0]], 0) + [list[0]]
     else [list[0]]) + LoadList(p, d, list[1..])
  }

  function Loaded(p: Program, d: Id): Program
    requires Unary(p, d, Deref)
  {
    Program(LoadNodes(p, d, p.nodes[d].args[0]),
      seq(|p.blocks|, b requires 0 <= b < |p.blocks| => LoadList(p, d, p.blocks[b])))
  }

  lemma LoadedNode(p: Program, d: Id, o: Id)
    requires Loadable(p, d)
    ensures LoadUse(p, d, o) ==> o in Loaded(p, d).nodes && Loaded(p, d).nodes[o] == Node(Load, [p.nodes[d].args[0]])
    ensures !LoadUse(p, d, o) ==> (o in Loaded(p, d).nodes <==> o in p.nodes && o != d)
    ensures o in p.nodes && o != d ==> !LoadedFor(d, o)
    ensures o in p.nodes && o != d ==>
      Loaded(p, d).nodes[o] == Node(LoadKind(d, p.nodes[o]), LoadArgs(d, p.nodes[d].args[0], o, p.nodes[o]))
  {
    assert LateNode(p, d);
    if o in p.nodes {
      assert LateNode(p, o);
    }
    assert LoadUse(p, d, o) <==> o in LoadUses(p, d) by {
      if LoadUse(p, d, o) {
        assert p.nodes[o.user].args[o.k] == d && LoadOf(d, o.user, o.k) == o;
      }
    }
  }

  /** The states of the two runs, with the exception of what a node that is about to run has recorded. */
  ghost predicate Related(p: Program, d: Id, s: State, t: State, x: Id) {
    && s.mem == t.mem
    && s.addr.Keys <= p.nodes.Keys
    && (forall o :: o in s.env ==> !LoadedFor(d, o) && o in t.env && t.env[o] == s.env[o])
    && (forall o :: o in s.addr && o != d ==> o in t.addr && t.addr[o] == s.addr[o])
    && (forall u :: u in s.addr && u != x && Unary(p, u, Deref) && p.nodes[u].args[0] == d ==>
          LoadOf(d, u, 0) in t.env && t.env[LoadOf(d, u, 0)] == s.addr[u])
  }

  lemma PlainSame(p: Program, d: Id, o: Id)
    requires Loadable(p, d) && o != d && !LoadedFor(d, o)
    ensures VariableLike(Loaded(p, d), o) == VariableLike(p, o)
    ensures RootVariable(Loaded(p, d), o) == RootVariable(p, o) == VariableLike(p, o)
    ensures Plain(Loaded(p, d), o) == Plain(p, o)
    ensures o in p.nodes && p.nodes[o].kind.Constant? ==>
      o in Loaded(p, d).nodes && Loaded(p, d).nodes[o].kind == p.nodes[o].kind
  {
    LoadedNode(p, d, o);
  }

  /** Every other operand gives what it gave. */
  lemma ReadSame(p: Program, d: Id, s: State, t: State, x: Id, o: Id)
    requires Loadable(p, d) && Related(p, d, s, t, x) && o != d && !LoadedFor(d, o)
    requires VariableLike(p, o) ==> o != x
    ensures Read(p, s, o).Some? ==> Read(Loaded(p, d), t, o) == Read(p, s, o)
    ensures AccessPlace(p, s, o).Some? ==> AccessPlace(Loaded(p, d), t, o) == AccessPlace(p, s, o)
  {
    hide Loaded;
    var q := Loaded(p, d);
    LoadedNode(p, d, o);
    PlainSame(p, d, o);
    if VariableLike(p, o) {
      PlaceSame(p, d, s, t, x, o);
    }
  }

  lemma PlaceSame(p: Program, d: Id, s: State, t: State, x: Id, o: Id)
    requires Loadable(p, d) && Related(p, d, s, t, x) && o != d && VariableLike(p, o) && o != x
    ensures AccessPlace(p, s, o).Some? ==> AccessPlace(Loaded(p, d), t, o) == AccessPlace(p, s, o)
  {
    LoadedNode(p, d, o);
    var b := p.nodes[o].args[0];
    assert b in p.nodes[o].args && LateNode(p, o) && LateNode(p, d);
    if b == d {
      LoadedNode(p, d, LoadOf(d, o, 0));
      assert LoadUse(p, d, LoadOf(d, o, 0));
    } else {
      PlainSame(p, d, b);
    }
    hide Loaded, Late, Related;
    var q := Loaded(p, d);
    if b == d {
      var l := LoadOf(d, o, 0);
      assert q.nodes[o] == Node(Deref, [l]);
      assert !RootVariable(q, l) && Plain(q, l);
      assert AccessPlace(q, t, o) == Place(q, t, o) == Get(t.env, l);
      assert RootVariable(p, d) && AccessPlace(p, s, o) == Get(s.addr, o);
      if o in s.addr {
        RelatedLink(p, d, s, t, x, o);
      }
    } else {
      assert q.nodes[o] == Node(Deref, [b]);
      RelatedPlain(p, d, s, t, x, o);
      RelatedPlain(p, d, s, t, x, b);
      if VariableLike(p, b) {
        assert AccessPlace(p, s, o) == Get(s.addr, o) && AccessPlace(q, t, o) == Get(t.addr, o);
      } else {
        assert AccessPlace(p, s, o) == Place(p, s, o) == Below(p, s, b, Rank(o));
        assert AccessPlace(q, t, o) == Place(q, t, o) == Below(q, t, b, Rank(o));
        assert !Plain(p, b) && Rank(b) < Rank(o) ==> Read(p, s, b) == Read(q, t, b);
      }
    }
  }

  lemma RelatedLink(p: Program, d: Id, s: State, t: State, x: Id, o: Id)
    requires Related(p, d, s, t, x) && o != x && Unary(p, o, Deref) && p.nodes[o].args[0] == d && o in s.addr
    ensures Get(t.env, LoadOf(d, o, 0)) == Some(s.addr[o])
  {
  }

  lemma RelatedPlain(p: Program, d: Id, s: State, t: State, x: Id, o: Id)
    requires Related(p, d, s, t, x)
    ensures o in s.env ==> Get(t.env, o) == Some(s.env[o])
    ensures o in s.addr && o != d ==> Get(t.addr, o) == Some(s.addr[o])
    ensures s.mem == t.mem
  {
  }

  lemma GoneSame(p: Program, d: Id, b: Id)
    requires Loadable(p, d) && Gone(p, b)
    ensures Gone(Loaded(p, d), b)
  {
    if b.LoadOf? {
      LoadedNode(p, d, b.node);
    }
  }

  lemma GoneLoad(p: Program, d: Id, l: Id)
    requires Loadable(p, d) && LoadedFor(d, l)
    ensures Gone(Loaded(p, d), l) && !d.LoadOf?
  {
    LoadedNode(p, d, d);
    assert LateNode(p, d);
  }

  lemma LoadedNodeOk(p: Program, d: Id, o: Id)
    requires Loadable(p, d) && o in Loaded(p, d).nodes
    ensures LateNode(Loaded(p, d), o)
  {
    var q := Loaded(p, d);
    LoadedNode(p, d, o);
    LoadedNode(p, d, d);
    assert LateNode(p, d);
    var a := p.nodes[d].args[0];
    assert a in p.nodes[d].args;
    hide Loaded;
    GoneSame(p, d, a);
    if LoadUse(p, d, o) {
      GoneLoad(p, d, o);
    } else {
      assert LateNode(p, o);
      GoneSame(p, d, o);
      forall k | 0 <= k < |p.nodes[o].args| ensures Gone(q, q.nodes[o].args[k]) {
        var b := p.nodes[o].args[k];
        assert b in p.nodes[o].args;
        GoneSame(p, d, b);
        GoneLoad(p, d, LoadOf(d, o, k));
      }
      if p.nodes[o].kind.Deref? {
        assert p.nodes[o].args[0] in p.nodes[o].args;
        LoadedNode(p, d, p.nodes[o].args[0]);
        LoadedNode(p, d, LoadOf(d, o, 0));
      }
    }
  }
}
