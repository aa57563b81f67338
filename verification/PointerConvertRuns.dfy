/** Converting one node keeps every run. */
module PointerConvertRuns {
  import opened PointerIr
  import opened PointerConvert

  /** The outcomes of the two runs correspond; nothing is said where the first is stuck. */
  ghost predicate RelatedOutcome(p: Program, n: Id, a: Outcome, b: Outcome) {
    match a
    case Next(s) => b.Next? && Related(p, n, s, b.st)
    case Goto(c, s) => b.Goto? && b.block == c && Related(p, n, s, b.st)
    case Done(v, mem) => b == Done(v, mem)
    case Stuck => true
  }

  lemma FetchSame(p: Program, n: Id, s: State, t: State, u: Id, k: nat)
    requires Convertible(p, n) && Related(p, n, s, t) && u in p.nodes && u != n && k < |p.nodes[u].args|
    ensures u in Converted(p, n).nodes && |Converted(p, n).nodes[u].args| == |p.nodes[u].args|
    ensures LazyFetch(p, s, p.nodes[u].kind, k, p.nodes[u].args[k]).Some? ==>
      LazyFetch(Converted(p, n), t, p.nodes[u].kind, k, Converted(p, n).nodes[u].args[k])
      == LazyFetch(p, s, p.nodes[u].kind, k, p.nodes[u].args[k])
    ensures LazyFetch(p, s, p.nodes[u].kind, k, p.nodes[u].args[k]).Some? && p.nodes[u].args[k] == n ==> n in s.addr
  {
    hide Converted, WellFormed, NodeOk, Related, RootVariable;
    RedirectAt(p, n, u, k);
    ConvertibleNode(p, n, n);
    var a := p.nodes[u].args[k];
    if a == n {
      ReadDeref(p, n, s, t, DerefOf(n, u, k));
      assert Place(p, s, n) == Get(s.addr, n) == AccessPlace(p, s, n);
      assert Read(p, s, n) == LoadFrom(s, AccessPlace(p, s, n));
    } else {
      ReadSame(p, n, s, t, a);
    }
  }

  lemma SetSame(p: Program, n: Id, s: State, t: State, u: Id, v: Val, mem: Mem)
    requires Related(p, n, s, t) && u in p.nodes && u != n
    ensures Related(p, n, State(s.env[u := v], s.addr, mem), State(t.env[u := v], t.addr, mem))
    ensures Related(p, n, State(s.env, s.addr[u := v], mem), State(t.env, t.addr[u := v], mem))
    ensures Related(p, n, State(s.env, s.addr, mem), State(t.env, t.addr, mem))
    ensures s.mem == t.mem
  {
  }

  lemma ApplySame(p: Program, n: Id, m: Meaning, s: State, t: State, u: Id, k: Kind, v: seq<Val>)
    requires Related(p, n, s, t) && u in p.nodes && u != n
    requires Arity(k) >= 0 ==> |v| == Arity(k)
    ensures RelatedOutcome(p, n, Apply(m, s, u, k, v), Apply(m, t, u, k, v))
  {
    hide Related, FieldOf, ElementOf, OffsetOf, LoadAt, StoreAt;
    SetSame(p, n, s, t, u, Undef, s.mem);
    match Apply(m, s, u, k, v) {
      case Next(r) =>
        if VariableKind(k) {
          SetSame(p, n, s, t, u, r.addr[u], r.mem);
        } else {
          SetSame(p, n, s, t, u, if u in r.env then r.env[u] else Undef, r.mem);
        }
      case Goto(_, _) =>
      case Done(_, _) =>
      case Stuck =>
    }
  }

  lemma ExecSame(p: Program, n: Id, m: Meaning, s: State, t: State, u: Id)
    requires Convertible(p, n) && Related(p, n, s, t) && m.mode.Lazy? && u != n
    ensures RelatedOutcome(p, n, Exec(p, m, s, u), Exec(Converted(p, n), m, t, u))
    ensures !Exec(p, m, s, u).Stuck? ==> u in p.nodes && (n in p.nodes[u].args ==> n in s.addr)
  {
    hide Converted, WellFormed, NodeOk, Related, Apply, LazyFetch;
    if Enabled(p, m.mode, s, u) {
      var q := Converted(p, n);
      var node := p.nodes[u];
      ConvertedNode(p, n, u);
      assert q.nodes[u].kind == node.kind;
      forall k | 0 <= k < |node.args|
        ensures Fetch(q, m.mode, t, node.kind, k, q.nodes[u].args[k]) == Fetch(p, m.mode, s, node.kind, k, node.args[k])
        ensures node.args[k] == n ==> n in s.addr
      {
        FetchSame(p, n, s, t, u, k);
      }
      assert Enabled(q, m.mode, t, u);
      assert Operands(q, m.mode, t, q.nodes[u]) == Operands(p, m.mode, s, node);
      ApplySame(p, n, m, s, t, u, node.kind, Operands(p, m.mode, s, node));
    }
  }

  /** The dereferences in front of a user run, and change nothing the first run knows. */
  lemma {:induction false} DerefsRun(p: Program, n: Id, m: Meaning, s: State, t: State, u: Id, k: nat)
    requires Convertible(p, n) && Related(p, n, s, t) && m.mode.Lazy?
    requires u in p.nodes && u != n && k <= |p.nodes[u].args|
    requires n in p.nodes[u].args ==> n in s.addr
    ensures var r := ExecList(Converted(p, n), m, t, Derefs(n, u, p.nodes[u].args, k));
      r.Next? && Related(p, n, s, r.st)
    decreases |p.nodes[u].args| - k
  {
    hide Converted, WellFormed, NodeOk, Read;
    var args := p.nodes[u].args;
    if k < |args| {
      if args[k] == n {
        var q, d := Converted(p, n), DerefOf(n, u, k);
        RedirectAt(p, n, u, k);
        ConvertedNode(p, n, d);
        DerefRuns(p, n, m, s, t, d);
        var t1 := t.(addr := t.addr[d := t.env[n]]);
        DerefsRun(p, n, m, s, t1, u, k + 1);
        ExecFirst(q, m, t, d, t1, Derefs(n, u, args, k + 1));
      } else {
        DerefsRun(p, n, m, s, t, u, k + 1);
        assert [] + Derefs(n, u, args, k + 1) == Derefs(n, u, args, k + 1);
      }
    }
  }

  lemma DerefRuns(p: Program, n: Id, m: Meaning, s: State, t: State, d: Id)
    requires Convertible(p, n) && Related(p, n, s, t) && m.mode.Lazy? && UseOf(p, n, d) && n in s.addr
    ensures n in t.env && Exec(Converted(p, n), m, t, d) == Next(t.(addr := t.addr[d := t.env[n]]))
    ensures Related(p, n, s, t.(addr := t.addr[d := t.env[n]]))
  {
    hide WellFormed, NodeOk;
    ConvertibleNode(p, n, n);
    ConvertedNode(p, n, n);
    ConvertedNode(p, n, d);
    if d in p.nodes {
      ConvertibleNode(p, n, d);
      assert false;
    }
    var q := Converted(p, n);
    hide Converted;
    assert Read(q, t, n) == Get(t.env, n);
    assert q.nodes[d] == Node(Deref, [n]);
    assert Fetch(q, m.mode, t, Deref, 0, n) == Get(t.env, n);
    assert Enabled(q, m.mode, t, d);
    assert Operands(q, m.mode, t, q.nodes[d]) == [t.env[n]];
  }

  /** The pointer node starts from the pointer the dereference looks through. */
  lemma NodeBase(p: Program, n: Id, s: State, t: State)
    requires Convertible(p, n) && Related(p, n, s, t) && !IsLocal(p, n)
    ensures |p.nodes[n].args| >= 1 && |PointerNode(p, n).value.args| == |p.nodes[n].args|
    ensures Place(p, s, p.nodes[n].args[0]).Some? ==>
      Read(Converted(p, n), t, PointerNode(p, n).value.args[0]) == Place(p, s, p.nodes[n].args[0])
  {
    hide Converted, WellFormed, NodeOk, RootVariable, Related;
    var d := p.nodes[n].args[0];
    assert d in p.nodes[n].args;
    var a := p.nodes[d].args[0];
    BaseBefore(p, n, d, a);
    ReadSame(p, n, s, t, a);
    assert Place(p, s, d) == Below(p, s, a, Rank(d));
  }

  lemma BaseBefore(p: Program, n: Id, d: Id, a: Id)
    requires Convertible(p, n) && d in p.nodes[n].args && d in p.nodes && p.nodes[d].args == [a]
    ensures a != n && !Inserted(n, a)
  {
    ConvertibleNode(p, n, n);
    ConvertibleNode(p, n, d);
    assert a in p.nodes[d].args;
    assert NodeOk(p, n) && NodeOk(p, d);
  }

  /** The other operand, an index, is the same. */
  lemma NodeIndex(p: Program, n: Id, s: State, t: State)
    requires Convertible(p, n) && Related(p, n, s, t) && |p.nodes[n].args| == 2
    ensures |PointerNode(p, n).value.args| == 2 && PointerNode(p, n).value.args[1] == p.nodes[n].args[1]
    ensures Read(p, s, p.nodes[n].args[1]).Some? ==>
      Read(Converted(p, n), t, p.nodes[n].args[1]) == Read(p, s, p.nodes[n].args[1])
  {
    assert p.nodes[n].args[1] in p.nodes[n].args;
    ConvertibleNode(p, n, n);
    hide Converted, WellFormed, NodeOk, RootVariable, Related, Read;
    ReadSame(p, n, s, t, p.nodes[n].args[1]);
  }

  lemma NodeFetches(p: Program, n: Id, m: Meaning, s: State, t: State)
    requires Convertible(p, n) && Related(p, n, s, t) && m.mode.Lazy? && !IsLocal(p, n)
    requires Enabled(p, m.mode, s, n)
    ensures var new_ := PointerNode(p, n).value;
      Ready(Converted(p, n), m.mode, t, new_) &&
      Operands(Converted(p, n), m.mode, t, new_) == Operands(p, m.mode, s, p.nodes[n])
  {
    hide Converted, WellFormed, NodeOk, RootVariable, Related, Read, Place, AccessPlace;
    NodeBase(p, n, s, t);
    if |p.nodes[n].args| == 2 {
      NodeIndex(p, n, s, t);
    }
    var new_ := PointerNode(p, n).value;
    forall i | 0 <= i < |new_.args|
      ensures Fetch(Converted(p, n), m.mode, t, new_.kind, i, new_.args[i])
        == Fetch(p, m.mode, s, p.nodes[n].kind, i, p.nodes[n].args[i])
    {
      assert Fetch(p, m.mode, s, p.nodes[n].kind, i, p.nodes[n].args[i]).Some?;
    }
  }

  lemma NodeSet(p: Program, n: Id, s: State, t: State, v: Val)
    requires Related(p, n, s, t) && n in p.nodes
    requires IsLocal(p, n) ==> v == Pointer(n, [])
    ensures Related(p, n, s.(addr := s.addr[n := v]), t.(env := t.env[n := v]))
    ensures IsLocal(p, n) ==> Related(p, n, s.(addr := s.addr[n := v]), t)
    ensures s.mem == t.mem
  {
  }

  lemma PointerArity(p: Program, n: Id)
    requires PointerNode(p, n).Some?
    ensures var k := PointerNode(p, n).value.kind;
      Arity(k) == Arity(p.nodes[n].kind) == |PointerNode(p, n).value.args| == |p.nodes[n].args| && Arity(k) >= 0
  {
  }

  lemma NodeApplies(p: Program, n: Id, m: Meaning, s: State, t: State, v: seq<Val>)
    requires PointerNode(p, n).Some? && Related(p, n, s, t) && !m.freshLocals
    requires |v| == |p.nodes[n].args|
    ensures |PointerNode(p, n).value.args| == |v|
    ensures Apply(m, s, n, p.nodes[n].kind, v).Next?
    ensures IsLocal(p, n) ==> Related(p, n, Apply(m, s, n, p.nodes[n].kind, v).st, t)
    ensures !IsLocal(p, n) ==>
      RelatedOutcome(p, n, Apply(m, s, n, p.nodes[n].kind, v), Apply(m, t, n, PointerNode(p, n).value.kind, v))
  {
    PointerArity(p, n);
    hide FieldOf, ElementOf, OffsetOf, LoadAt, Related;
    match Apply(m, s, n, p.nodes[n].kind, v) {
      case Next(r) => NodeSet(p, n, s, t, if n in r.addr then r.addr[n] else Undef);
      case Goto(_, _) => assert false;
      case Done(_, _) => assert false;
      case Stuck => assert false;
    }
  }

  /** The node itself: the place it recorded is the value its pointer form computes. */
  lemma NodeRuns(p: Program, n: Id, m: Meaning, s: State, t: State)
    requires Convertible(p, n) && Related(p, n, s, t) && m.mode.Lazy? && !m.freshLocals
    requires !Exec(p, m, s, n).Stuck?
    ensures Exec(p, m, s, n).Next?
    ensures IsLocal(p, n) ==> Related(p, n, Exec(p, m, s, n).st, t)
    ensures !IsLocal(p, n) ==> RelatedOutcome(p, n, Exec(p, m, s, n), Exec(Converted(p, n), m, t, n))
  {
    PointerArity(p, n);
    ConvertedNode(p, n, n);
    hide Converted, WellFormed, NodeOk, RootVariable, Related, Fetch, Apply, RelatedOutcome, Operands, Ready,
        PointerNode, Arity;
    NodeApplies(p, n, m, s, t, Operands(p, m.mode, s, p.nodes[n]));
    if !IsLocal(p, n) {
      NodeFetches(p, n, m, s, t);
      assert Enabled(Converted(p, n), m.mode, t, n);
    }
  }

  lemma UserRuns(p: Program, n: Id, m: Meaning, s: State, t: State, u: Id)
    requires Convertible(p, n) && Related(p, n, s, t) && m.mode.Lazy? && u in p.nodes && u != n
    requires !Exec(p, m, s, u).Stuck?
    ensures RelatedOutcome(p, n, Exec(p, m, s, u),
      ExecList(Converted(p, n), m, t, Derefs(n, u, p.nodes[u].args, 0) + [u]))
  {
    hide Converted, WellFormed, NodeOk, Related, Exec, Derefs;
    var q := Converted(p, n);
    ExecSame(p, n, m, s, t, u);
    DerefsRun(p, n, m, s, t, u, 0);
    var t1 := ExecList(q, m, t, Derefs(n, u, p.nodes[u].args, 0)).st;
    ExecSame(p, n, m, s, t1, u);
    ExecListConcat(q, m, t, Derefs(n, u, p.nodes[u].args, 0), [u]);
    assert ExecList(q, m, t1, [u]) == Exec(q, m, t1, u) by {
      assert [u][1..] == [];
    }
  }

  /** A block of the program and the expanded block. */
  lemma {:induction false} ExpandRuns(p: Program, n: Id, m: Meaning, s: State, t: State, list: seq<Id>)
    requires Convertible(p, n) && Related(p, n, s, t) && m.mode.Lazy? && !m.freshLocals
    ensures RelatedOutcome(p, n, ExecList(p, m, s, list), ExecList(Converted(p, n), m, t, Expand(p, n, list)))
    decreases |list|
  {
    hide Converted, WellFormed, NodeOk, Related, Derefs, PointerNode;
    if list != [] && !Exec(p, m, s, list[0]).Stuck? {
      var q, u, rest := Converted(p, n), list[0], Expand(p, n, list[1..]);
      var head := Expand(p, n, list)[..|Expand(p, n, list)| - |rest|];
      if u == n {
        NodeRuns(p, n, m, s, t);
        assert head == if IsLocal(p, n) then [] else [n];
        assert [n][1..] == [] && ExecList(q, m, t, [n]) == Exec(q, m, t, n);
      } else {
        UserRuns(p, n, m, s, t, u);
        assert head == Derefs(n, u, p.nodes[u].args, 0) + [u];
      }
      hide Exec;
      assert RelatedOutcome(p, n, Exec(p, m, s, u), ExecList(q, m, t, head));
      assert Expand(p, n, list) == head + rest;
      ExecListConcat(q, m, t, head, rest);
      match Exec(p, m, s, u) {
        case Next(s1) => ExpandRuns(p, n, m, s1, ExecList(q, m, t, head).st, list[1..]);
        case Goto(_, _) =>
        case Done(_, _) =>
      }
    }
  }

  /** The states on entry to a block: the variable's pointer is made at the front of the first one. */
  ghost predicate Entering(p: Program, n: Id, s: State, t: State, b: nat) {
    Related(p, n, s, if IsLocal(p, n) && b == 0 then t.(env := t.env[n := Pointer(n, [])]) else t)
  }

  /** A local variable has its slot once the first block was entered. */
  lemma Reentering(p: Program, n: Id, s: State, t: State, b: nat)
    requires Related(p, n, s, t) && PointerNode(p, n).Some?
    ensures Entering(p, n, s, t, b)
  {
    hide PointerNode, RootVariable;
    if IsLocal(p, n) && b == 0 {
      assert t.env[n := Pointer(n, [])] == t.env;
    }
  }

  lemma BlockRuns(p: Program, n: Id, m: Meaning, s: State, t: State, b: nat)
    requires Convertible(p, n) && m.mode.Lazy? && !m.freshLocals && b < |p.blocks| && Entering(p, n, s, t, b)
    ensures |Converted(p, n).blocks| == |p.blocks|
    ensures RelatedOutcome(p, n, ExecList(p, m, s, p.blocks[b]),
      ExecList(Converted(p, n), m, t, Converted(p, n).blocks[b]))
  {
    var q := Converted(p, n);
    if IsLocal(p, n) && b == 0 {
      var t1 := t.(env := t.env[n := Pointer(n, [])]);
      assert q.blocks[b] == [n] + Expand(p, n, p.blocks[b]);
      ConvertedNode(p, n, n);
      assert q.nodes[n] == Node(Alloca, []);
      hide Converted, WellFormed, NodeOk, Related;
      assert Exec(q, m, t, n) == Next(t1);
      assert [n][1..] == [] && ExecList(q, m, t, [n]) == Next(t1);
      ExpandRuns(p, n, m, s, t1, p.blocks[b]);
      ExecListConcat(q, m, t, [n], Expand(p, n, p.blocks[b]));
    } else {
      assert q.blocks[b] == Expand(p, n, p.blocks[b]);
      ExpandRuns(p, n, m, s, t, p.blocks[b]);
    }
  }

  /** Every run that is not stuck ends as before. */
  lemma {:induction false} RunsSame(p: Program, n: Id, m: Meaning, s: State, t: State, b: nat, fuel: nat)
    requires Convertible(p, n) && m.mode.Lazy? && !m.freshLocals && Entering(p, n, s, t, b)
    ensures !Run(p, m, s, b, fuel).Stuck? ==> Run(Converted(p, n), m, t, b, fuel) == Run(p, m, s, b, fuel)
    decreases fuel
  {
    hide Converted, WellFormed, NodeOk, PointerNode, Related;
    if fuel > 0 && b < |p.blocks| {
      BlockRuns(p, n, m, s, t, b);
      var q := Converted(p, n);
      var x, y := ExecList(p, m, s, p.blocks[b]), ExecList(q, m, t, q.blocks[b]);
      hide ExecList;
      match x {
        case Goto(c, s1) =>
          Reentering(p, n, s1, y.st, c);
          RunsSame(p, n, m, s1, y.st, c, fuel - 1);
        case Next(_) =>
        case Done(_, _) =>
        case Stuck =>
      }
    }
  }

  /** From the first block, with nothing recorded yet. */
  lemma ConversionPreserves(p: Program, n: Id, m: Meaning, s: State, fuel: nat)
    requires Convertible(p, n) && m.mode.Lazy? && !m.freshLocals && s.addr == map[]
    ensures !Run(p, m, s, 0, fuel).Stuck? ==> Run(Converted(p, n), m, s, 0, fuel) == Run(p, m, s, 0, fuel)
  {
    assert Entering(p, n, s, s, 0);
    RunsSame(p, n, m, s, s, 0, fuel);
  }
}
