/** When the lowering's view of places agrees with the places that were recorded, and what it means that
    variables start out fresh. */
module PointerModes {
  import opened Wrappers
  import opened PointerIr

  function As(m: Meaning, mode: Mode): Meaning {
    m.(mode := mode)
  }

  /** An operand that can be fetched strictly is the same in both views. */
  lemma FetchAgrees(p: Program, s: State, k: Kind, i: nat, o: Id)
    requires Fetch(p, Strict, s, k, i, o).Some?
    ensures Fetch(p, Lazy, s, k, i, o) == Fetch(p, Strict, s, k, i, o)
    ensures Fetch(p, Recorded, s, k, i, o) == Fetch(p, Strict, s, k, i, o)
  {
    if VariableLike(p, o) {
      assert Read(p, s, o) == LoadFrom(s, AccessPlace(p, s, o));
    } else {
      assert Place(p, s, o) == None && AccessPlace(p, s, o) == None;
    }
  }

  lemma ExecAgrees(p: Program, m: Meaning, s: State, o: Id, mode: Mode)
    requires (mode.Lazy? || mode.Recorded?) && !Exec(p, As(m, Strict), s, o).Stuck?
    ensures Exec(p, As(m, mode), s, o) == Exec(p, As(m, Strict), s, o)
  {
    hide Apply, Fetch;
    var node := p.nodes[o];
    forall i | 0 <= i < |node.args|
      ensures Fetch(p, mode, s, node.kind, i, node.args[i]) == Fetch(p, Strict, s, node.kind, i, node.args[i])
    {
      FetchAgrees(p, s, node.kind, i, node.args[i]);
    }
    assert Operands(p, mode, s, node) == Operands(p, Strict, s, node);
    var v := Operands(p, Strict, s, node);
    ModeIrrelevant(As(m, mode), As(m, Strict), s, o, node.kind, v);
  }

  lemma ModeIrrelevant(m: Meaning, n: Meaning, s: State, o: Id, k: Kind, v: seq<Val>)
    requires m.op == n.op && m.freshLocals == n.freshLocals && (Arity(k) >= 0 ==> |v| == Arity(k))
    ensures Apply(m, s, o, k, v) == Apply(n, s, o, k, v)
  {
  }

  lemma {:induction false} ListAgrees(p: Program, m: Meaning, s: State, list: seq<Id>, mode: Mode)
    requires (mode.Lazy? || mode.Recorded?) && !ExecList(p, As(m, Strict), s, list).Stuck?
    ensures ExecList(p, As(m, mode), s, list) == ExecList(p, As(m, Strict), s, list)
    decreases |list|
  {
    hide Exec;
    if list != [] {
      ExecAgrees(p, m, s, list[0], mode);
      match Exec(p, As(m, Strict), s, list[0]) {
        case Next(t) => ListAgrees(p, m, t, list[1..], mode);
        case Goto(_, _) =>
        case Done(_, _) =>
      }
    }
  }

  /** A run that never looks through a stale or undefined place is a run in both views. */
  lemma {:induction false} RunsAgree(p: Program, m: Meaning, s: State, b: nat, fuel: nat, mode: Mode)
    requires (mode.Lazy? || mode.Recorded?) && !Run(p, As(m, Strict), s, b, fuel).Stuck?
    ensures Run(p, As(m, mode), s, b, fuel) == Run(p, As(m, Strict), s, b, fuel)
    decreases fuel
  {
    hide ExecList;
    ListAgrees(p, m, s, p.blocks[b], mode);
    match ExecList(p, As(m, Strict), s, p.blocks[b]) {
      case Goto(c, t) => RunsAgree(p, m, t, c, fuel - 1, mode);
      case Done(_, _) =>
    }
  }

  /** Only pointers are left: nothing is variable-like, and no address is taken. */
  ghost predicate Lowered(p: Program) {
    forall o :: o in p.nodes ==> !VariableKind(p.nodes[o].kind) && !p.nodes[o].kind.AddressOf?
  }

  lemma LoweredExec(p: Program, m: Meaning, s: State, o: Id, mode: Mode)
    requires Lowered(p)
    ensures Exec(p, As(m, mode), s, o) == Exec(p, As(m, Lazy), s, o)
  {
    hide Apply;
    if o in p.nodes {
      var node := p.nodes[o];
      forall i | 0 <= i < |node.args|
        ensures Fetch(p, mode, s, node.kind, i, node.args[i]) == Fetch(p, Lazy, s, node.kind, i, node.args[i])
      {
        var a := node.args[i];
        assert !VariableLike(p, a) && !Has(p, a, AddressOf);
        assert Steady(p, s, node.kind, i, a);
        assert Place(p, s, a) == None && AccessPlace(p, s, a) == None;
      }
      if Enabled(p, Lazy, s, o) {
        assert Operands(p, mode, s, node) == Operands(p, Lazy, s, node);
        ModeIrrelevant(As(m, mode), As(m, Lazy), s, o, node.kind, Operands(p, Lazy, s, node));
      }
    }
  }

  lemma {:induction false} LoweredList(p: Program, m: Meaning, s: State, list: seq<Id>, mode: Mode)
    requires Lowered(p)
    ensures ExecList(p, As(m, mode), s, list) == ExecList(p, As(m, Lazy), s, list)
    decreases |list|
  {
    hide Exec, Lowered;
    if list != [] {
      LoweredExec(p, m, s, list[0], mode);
      match Exec(p, As(m, Lazy), s, list[0]) {
        case Next(t) => LoweredList(p, m, t, list[1..], mode);
        case Goto(_, _) =>
        case Done(_, _) =>
        case Stuck =>
      }
    }
  }

  /** Where only pointers are left there is one view. */
  lemma {:induction false} LoweredRuns(p: Program, m: Meaning, s: State, b: nat, fuel: nat, mode: Mode)
    requires Lowered(p)
    ensures Run(p, As(m, mode), s, b, fuel) == Run(p, As(m, Lazy), s, b, fuel)
    decreases fuel
  {
    hide ExecList, Lowered;
    if fuel > 0 && b < |p.blocks| {
      LoweredList(p, m, s, p.blocks[b], mode);
      match ExecList(p, As(m, Lazy), s, p.blocks[b]) {
        case Goto(c, t) => LoweredRuns(p, m, t, c, fuel - 1, mode);
        case Next(_) =>
        case Done(_, _) =>
        case Stuck =>
      }
    }
  }
}
