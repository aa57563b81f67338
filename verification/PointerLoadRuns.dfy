/** Turning a dereference into loads and stores keeps every run. */
module PointerLoadRuns {
  import opened Wrappers
  import opened PointerIr
  import opened PointerLoads

  ghost predicate RelatedOutcome(p: Program, d: Id, a: Outcome, b: Outcome) {
    match a
    case Next(s) => b.Next? && Related(p, d, s, b.st, d)
    case Goto(c, s) => b.Goto? && b.block == c && Related(p, d, s, b.st, d)
    case Done(v, mem) => b == Done(v, mem)
    case Stuck => true
  }

  /** What a dereference gives is what a load from its pointer gives. */
  lemma ReadPointer(p: Program, d: Id, s: State, t: State, x: Id)
    requires Loadable(p, d) && Related(p, d, s, t, x)
    ensures AccessPlace(p, s, d).Some? ==> Read(Loaded(p, d), t, p.nodes[d].args[0]) == AccessPlace(p, s, d)
    ensures Read(p, s, d) == LoadFrom(t, AccessPlace(p, s, d))
  {
    var a := p.nodes[d].args[0];
    assert a in p.nodes[d].args && LateNode(p, d);
    PlainSame(p, d, a);
    ReadSame(p, d, s, t, x, a);
    hide Loaded, Late;
    assert !RootVariable(p, a);
    assert AccessPlace(p, s, d) == Place(p, s, d) == Below(p, s, a, Rank(d));
    assert Plain(p, a) ==> Read(p, s, a) == Get(s.env, a);
  }

  /** The loads of a user have run: each holds what the dereference gives now. */
  ghost predicate Primed(p: Program, d: Id, s: State, t: State, u: Id, k: nat) {
    u in p.nodes &&
    forall j :: k <= j < |p.nodes[u].args| && p.nodes[u].args[j] == d && !Written(p.nodes[u], j) ==>
      LoadOf(d, u, j) in t.env && Read(p, s, d) == Some(t.env[LoadOf(d, u, j)])
  }

  lemma LoadRuns(p: Program, d: Id, m: Meaning, s: State, t: State, u: Id, k: nat)
    requires Loadable(p, d) && Related(p, d, s, t, u) && m.mode.Lazy? && LoadUse(p, d, LoadOf(d, u, k))
    requires Read(p, s, d).Some?
    ensures var t1 := t.(env := t.env[LoadOf(d, u, k) := Read(p, s, d).value]);
      Exec(Loaded(p, d), m, t, LoadOf(d, u, k)) == Next(t1) && Related(p, d, s, t1, u)
  {
    hide Loaded, Late, Related, Read, AccessPlace, Place, RootVariable, LoadUse;
    var l := LoadOf(d, u, k);
    LoadedNode(p, d, l);
    ReadPointer(p, d, s, t, u);
    var q, a := Loaded(p, d), p.nodes[d].args[0];
    var t1 := t.(env := t.env[l := Read(p, s, d).value]);
    LoadRelated(p, d, s, t, u, k, Read(p, s, d).value);
    assert q.nodes[l] == Node(Load, [a]);
    assert Fetch(q, m.mode, t, Load, 0, a) == AccessPlace(p, s, d);
    assert Enabled(q, m.mode, t, l);
    assert Operands(q, m.mode, t, q.nodes[l]) == [AccessPlace(p, s, d).value];
  }

  lemma LoadRelated(p: Program, d: Id, s: State, t: State, u: Id, k: nat, v: Val)
    requires Loadable(p, d) && Related(p, d, s, t, u)
    ensures Related(p, d, s, t.(env := t.env[LoadOf(d, u, k) := v]), u)
  {
    hide Late;
  }

  /** The loads of the operands before k are as they were. */
  ghost predicate Untouched(d: Id, u: Id, k: nat, t: State, r: State) {
    forall j :: 0 <= j < k && LoadOf(d, u, j) in t.env ==>
      LoadOf(d, u, j) in r.env && r.env[LoadOf(d, u, j)] == t.env[LoadOf(d, u, j)]
  }

  lemma PrimedMore(p: Program, d: Id, s: State, t: State, u: Id, k: nat, r: State)
    requires u in p.nodes && k < |p.nodes[u].args| && Read(p, s, d).Some?
    requires var t1 := t.(env := t.env[LoadOf(d, u, k) := Read(p, s, d).value]);
      Untouched(d, u, k + 1, t1, r) && Primed(p, d, s, r, u, k + 1)
    ensures Untouched(d, u, k, t, r) && Primed(p, d, s, r, u, k)
  {
    hide Read;
    var l := LoadOf(d, u, k);
    assert r.env[l] == Read(p, s, d).value;
  }

  lemma PrimedSkip(p: Program, d: Id, s: State, t: State, u: Id, k: nat, r: State)
    requires u in p.nodes && k < |p.nodes[u].args| && (p.nodes[u].args[k] != d || Written(p.nodes[u], k))
    requires Untouched(d, u, k + 1, t, r) && Primed(p, d, s, r, u, k + 1)
    ensures Untouched(d, u, k, t, r) && Primed(p, d, s, r, u, k)
  {
    hide Read;
  }

  lemma {:induction false} LoadsRun(p: Program, d: Id, m: Meaning, s: State, t: State, u: Id, k: nat)
    requires Loadable(p, d) && Related(p, d, s, t, u) && m.mode.Lazy? && u in p.nodes && k <= |p.nodes[u].args|
    requires ReadBy(p, d, u) ==> Read(p, s, d).Some?
    ensures var r := ExecList(Loaded(p, d), m, t, Loads(d, u, p.nodes[u], k));
      r.Next? && Related(p, d, s, r.st, u) && Primed(p, d, s, r.st, u, k) && Untouched(d, u, k, t, r.st)
    decreases |p.nodes[u].args| - k
  {
    LoadsEnd(p, d, s, t, u, k);
    ExecNothing(Loaded(p, d), m, t);
    hide Loaded, Late, Related, Read, Exec, VariableLike, Primed, Untouched, ReadBy, LoadUse, ExecList;
    var args := p.nodes[u].args;
    var q, l := Loaded(p, d), LoadOf(d, u, k);
    if k < |args| && args[k] == d && !Written(p.nodes[u], k) {
      ReadAt(p, d, u, k);
      LoadRuns(p, d, m, s, t, u, k);
      var t1 := t.(env := t.env[l := Read(p, s, d).value]);
      LoadsRun(p, d, m, s, t1, u, k + 1);
      ExecFirst(q, m, t, l, t1, Loads(d, u, p.nodes[u], k + 1));
      PrimedMore(p, d, s, t, u, k, ExecList(q, m, t1, Loads(d, u, p.nodes[u], k + 1)).st);
    } else if k < |args| {
      LoadsRun(p, d, m, s, t, u, k + 1);
      assert [] + Loads(d, u, p.nodes[u], k + 1) == Loads(d, u, p.nodes[u], k + 1);
      PrimedSkip(p, d, s, t, u, k, ExecList(q, m, t, Loads(d, u, p.nodes[u], k + 1)).st);
    }
  }

  lemma LoadsEnd(p: Program, d: Id, s: State, t: State, u: Id, k: nat)
    requires u in p.nodes
    ensures Primed(p, d, s, t, u, |p.nodes[u].args|) && Untouched(d, u, k, t, t)
  {
  }

  lemma ExecNothing(q: Program, m: Meaning, t: State)
    ensures ExecList(q, m, t, []) == Next(t)
  {
  }

  /** The user reads the dereference. */
  ghost predicate ReadBy(p: Program, d: Id, u: Id) {
    u in p.nodes && exists j :: 0 <= j < |p.nodes[u].args| && p.nodes[u].args[j] == d && !Written(p.nodes[u], j)
  }

  lemma ReadAt(p: Program, d: Id, u: Id, k: nat)
    requires u in p.nodes && k < |p.nodes[u].args| && p.nodes[u].args[k] == d && !Written(p.nodes[u], k)
    ensures ReadBy(p, d, u) && LoadUse(p, d, LoadOf(d, u, k))
  {
  }

  /** What a user takes from an operand once its loads have run. */
  lemma FetchSame(p: Program, d: Id, s: State, t: State, u: Id, k: nat)
    requires Loadable(p, d) && Related(p, d, s, t, u) && Primed(p, d, s, t, u, 0)
    requires u in p.nodes && u != d && k < |p.nodes[u].args|
    requires p.nodes[u].kind.Write? ==> |p.nodes[u].args| == 2
    ensures u in Loaded(p, d).nodes && |Loaded(p, d).nodes[u].args| == |p.nodes[u].args|
    ensures LazyFetch(p, s, p.nodes[u].kind, k, p.nodes[u].args[k]).Some? ==>
      LazyFetch(Loaded(p, d), t, LoadKind(d, p.nodes[u]), k, Loaded(p, d).nodes[u].args[k])
      == LazyFetch(p, s, p.nodes[u].kind, k, p.nodes[u].args[k])
  {
    LoadedNode(p, d, u);
    var a := p.nodes[u].args[k];
    assert a in p.nodes[u].args;
    assert LateNode(p, u) && LateNode(p, d);
    assert (VariableLike(p, a) ==> a != u) && !LoadedFor(d, a) && LateKind(p.nodes[u].kind);
    if a == d && !Written(p.nodes[u], k) {
      LoadedNode(p, d, LoadOf(d, u, k));
      assert LoadUse(p, d, LoadOf(d, u, k));
    }
    hide Loaded, Late, Related, Read, AccessPlace, Place, RootVariable;
    if a != d {
      ReadSame(p, d, s, t, u, a);
    } else if Written(p.nodes[u], k) {
      ReadPointer(p, d, s, t, u);
    } else {
      LoadValue(Loaded(p, d), t, LoadOf(d, u, k));
    }
  }

  lemma LoadValue(q: Program, t: State, l: Id)
    requires l in q.nodes && q.nodes[l].kind.Load?
    ensures Read(q, t, l) == Get(t.env, l)
  {
  }

  lemma SetSame(p: Program, d: Id, s: State, t: State, u: Id, v: Val, mem: Mem)
    requires Related(p, d, s, t, u) && u in p.nodes && u != d && !LoadedFor(d, u)
    requires Unary(p, u, Deref) && p.nodes[u].args[0] == d ==> Get(t.env, LoadOf(d, u, 0)) == Some(v)
    ensures Related(p, d, State(s.env, s.addr[u := v], mem), State(t.env, t.addr[u := v], mem), d)
  {
  }

  lemma SetEnvSame(p: Program, d: Id, s: State, t: State, u: Id, v: Val, mem: Mem)
    requires Related(p, d, s, t, u) && u in p.nodes && u != d && !LoadedFor(d, u) && !VariableLike(p, u)
    ensures Related(p, d, State(s.env[u := v], s.addr, mem), State(t.env[u := v], t.addr, mem), d)
    ensures Related(p, d, State(s.env, s.addr, mem), State(t.env, t.addr, mem), d)
    ensures s.mem == t.mem
  {
  }

  lemma ApplySame(p: Program, d: Id, m: Meaning, s: State, t: State, u: Id, v: seq<Val>)
    requires Related(p, d, s, t, u) && u in p.nodes && u != d && !LoadedFor(d, u) && LateKind(p.nodes[u].kind)
    requires Arity(p.nodes[u].kind) >= 0 ==> |v| == Arity(p.nodes[u].kind)
    requires p.nodes[u].kind.Deref? && p.nodes[u].args == [d] ==> Get(t.env, LoadOf(d, u, 0)) == Some(v[0])
    ensures Arity(LoadKind(d, p.nodes[u])) == Arity(p.nodes[u].kind)
    ensures RelatedOutcome(p, d, Apply(m, s, u, p.nodes[u].kind, v), Apply(m, t, u, LoadKind(d, p.nodes[u]), v))
  {
    hide Related, FieldOf, ElementOf, OffsetOf, LoadAt, StoreAt;
    var k := p.nodes[u].kind;
    if k.Deref? {
      RelatedMem(p, d, s, t, u);
      SetSame(p, d, s, t, u, v[0], s.mem);
    } else {
      assert !VariableLike(p, u);
      SetEnvSame(p, d, s, t, u, Undef, s.mem);
      match Apply(m, s, u, k, v) {
        case Next(r) =>
          SetEnvSame(p, d, s, t, u, if u in r.env then r.env[u] else Undef, r.mem);
        case Goto(_, _) =>
        case Done(_, _) =>
        case Stuck =>
      }
    }
  }

  lemma RelatedMem(p: Program, d: Id, s: State, t: State, x: Id)
    requires Related(p, d, s, t, x)
    ensures s.mem == t.mem
  {
  }

  lemma UserRuns(p: Program, d: Id, m: Meaning, s: State, t: State, u: Id)
    requires Loadable(p, d) && Related(p, d, s, t, d) && m.mode.Lazy? && u != d && !Exec(p, m, s, u).Stuck?
    ensures u in p.nodes
    ensures RelatedOutcome(p, d, Exec(p, m, s, u), ExecList(Loaded(p, d), m, t, Loads(d, u, p.nodes[u], 0) + [u]))
  {
    hide Loaded, Late, Related, Read, Apply, LazyFetch, AccessPlace;
    var q, node := Loaded(p, d), p.nodes[u];
    RelatedBut(p, d, s, t, u);
    NeededReads(p, d, m, s, u);
    LoadsRun(p, d, m, s, t, u, 0);
    var t1 := ExecList(q, m, t, Loads(d, u, node, 0)).st;
    LoadedNode(p, d, u);
    forall k | 0 <= k < |node.args|
      ensures Fetch(q, m.mode, t1, LoadKind(d, node), k, q.nodes[u].args[k])
        == Fetch(p, m.mode, s, node.kind, k, node.args[k])
    {
      FetchSame(p, d, s, t1, u, k);
    }
    var v := Operands(p, m.mode, s, node);
    LateForm(p, u);
    if node.kind.Deref? && node.args == [d] {
      assert Fetch(p, m.mode, s, node.kind, 0, d) == LazyFetch(p, s, Deref, 0, d) == Read(p, s, d) by {
        DerefFetch(p, s, d);
      }
    }
    ApplySame(p, d, m, s, t1, u, v);
    assert Ready(q, m.mode, t1, q.nodes[u]);
    assert Operands(q, m.mode, t1, q.nodes[u]) == v;
    assert Exec(q, m, t1, u) == Apply(m, t1, u, LoadKind(d, node), v);
    ExecListConcat(q, m, t, Loads(d, u, node, 0), [u]);
    assert ExecList(q, m, t1, [u]) == Exec(q, m, t1, u) by {
      assert [u][1..] == [];
    }
  }

  lemma DerefFetch(p: Program, s: State, d: Id)
    ensures LazyFetch(p, s, Deref, 0, d) == Read(p, s, d)
  {
  }

  lemma LateForm(p: Program, u: Id)
    requires Late(p) && u in p.nodes
    ensures LateKind(p.nodes[u].kind) && (p.nodes[u].kind.Deref? ==> |p.nodes[u].args| == 1)
  {
    assert LateNode(p, u);
  }

  lemma RelatedBut(p: Program, d: Id, s: State, t: State, x: Id)
    requires Loadable(p, d) && Related(p, d, s, t, d)
    ensures Related(p, d, s, t, x)
  {
    assert LateNode(p, d);
  }

  lemma NeededReads(p: Program, d: Id, m: Meaning, s: State, u: Id)
    requires Late(p) && m.mode.Lazy? && !Exec(p, m, s, u).Stuck?
    ensures u in p.nodes && (ReadBy(p, d, u) ==> Read(p, s, d).Some?)
  {
    var node := p.nodes[u];
    if j :| 0 <= j < |node.args| && node.args[j] == d && !Written(node, j) {
      assert LateNode(p, u);
      assert Fetch(p, m.mode, s, node.kind, j, d).Some?;
      assert j == 1 && node.kind.Write? ==> |node.args| == 2;
      assert LazyFetch(p, s, node.kind, j, d) == Read(p, s, d);
    }
  }

  lemma NodeRuns(p: Program, d: Id, m: Meaning, s: State, t: State)
    requires Loadable(p, d) && Related(p, d, s, t, d) && !Exec(p, m, s, d).Stuck?
    ensures Exec(p, m, s, d).Next? && Related(p, d, Exec(p, m, s, d).st, t, d)
  {
    hide Operands, Ready, Late;
  }

  lemma {:induction false} ListRuns(p: Program, d: Id, m: Meaning, s: State, t: State, list: seq<Id>)
    requires Loadable(p, d) && Related(p, d, s, t, d) && m.mode.Lazy?
    ensures RelatedOutcome(p, d, ExecList(p, m, s, list), ExecList(Loaded(p, d), m, t, LoadList(p, d, list)))
    decreases |list|
  {
    hide Loaded, Late, Related, Exec, Loads;
    if list != [] && !Exec(p, m, s, list[0]).Stuck? {
      var q, u, rest := Loaded(p, d), list[0], LoadList(p, d, list[1..]);
      var head := LoadList(p, d, list)[..|LoadList(p, d, list)| - |rest|];
      if u == d {
        NodeRuns(p, d, m, s, t);
        assert head == [];
      } else {
        UserRuns(p, d, m, s, t, u);
        assert head == Loads(d, u, p.nodes[u], 0) + [u];
      }
      assert RelatedOutcome(p, d, Exec(p, m, s, u), ExecList(q, m, t, head));
      assert LoadList(p, d, list) == head + rest;
      ExecListConcat(q, m, t, head, rest);
      match Exec(p, m, s, u) {
        case Next(s1) => ListRuns(p, d, m, s1, ExecList(q, m, t, head).st, list[1..]);
        case Goto(_, _) =>
        case Done(_, _) =>
      }
    }
  }

  lemma BlockLoaded(p: Program, d: Id, b: nat)
    requires Unary(p, d, Deref)
    ensures |Loaded(p, d).blocks| == |p.blocks|
    ensures b < |p.blocks| ==> Loaded(p, d).blocks[b] == LoadList(p, d, p.blocks[b])
  {
  }

  lemma {:induction false} RunsSame(p: Program, d: Id, m: Meaning, s: State, t: State, b: nat, fuel: nat)
    requires Loadable(p, d) && Related(p, d, s, t, d) && m.mode.Lazy?
    ensures !Run(p, m, s, b, fuel).Stuck? ==> Run(Loaded(p, d), m, t, b, fuel) == Run(p, m, s, b, fuel)
    decreases fuel
  {
    hide Loaded, Late, Related, LoadList, ExecList;
    if fuel > 0 && b < |p.blocks| {
      var q := Loaded(p, d);
      BlockLoaded(p, d, b);
      ListRuns(p, d, m, s, t, p.blocks[b]);
      match ExecList(p, m, s, p.blocks[b]) {
        case Goto(c, s1) => RunsSame(p, d, m, s1, ExecList(q, m, t, q.blocks[b]).st, c, fuel - 1);
        case Next(_) =>
        case Done(_, _) =>
        case Stuck =>
      }
    }
  }

  /** Every run that is not stuck ends as before; only original names are known at its start. */
  lemma LoadingPreserves(p: Program, d: Id, m: Meaning, s: State, fuel: nat)
    requires Loadable(p, d) && m.mode.Lazy? && s.addr == map[] && forall o :: o in s.env ==> o.Orig?
    ensures !Run(p, m, s, 0, fuel).Stuck? ==> Run(Loaded(p, d), m, s, 0, fuel) == Run(p, m, s, 0, fuel)
  {
    RunsSame(p, d, m, s, s, 0, fuel);
  }
}
