/** What the pointer lowering promises a program, and the one kind of program it changes. */
module PointerTheorem {
  import opened Wrappers
  import opened PointerIr
  import opened PointerModes
  import opened PointerFresh
  import opened PointerSteady
  import PointerLowering
  import PointerPlaced
  import PointerConvert

  /** The meaning of the source: places are as recorded, and a declaration makes its variable anew. */
  function Source(m: Meaning): Meaning {
    m.(mode := Recorded, freshLocals := true)
  }

  /** The meaning of lowered code: slots are allocated once. */
  function Target(m: Meaning): Meaning {
    m.(mode := Recorded, freshLocals := false)
  }

  /** A run of the source that is strict, which is to say that it happens to go through no place that is
      stale or undefined, is kept by the lowered code, from any memory that holds at least as much.  Where
      the source gives a number or a pointer, in the result or in memory, the lowered code gives the same. */
  lemma StrictRunKept(p: Program, q: Program, m: Meaning, s: State, t: State, fuel: nat)
    requires PointerLowering.Lowers(p, q) && Lowered(q)
    requires Monotone(m) && KeepsSlots(m)
    requires PointerLowering.Starting(t) && PointerLowering.Outside(p, t) && Less(s, t) && Slots(p, t)
    requires !Run(p, Fresh(m, true), s, 0, fuel).Stuck?
    ensures Run(p, Source(m), s, 0, fuel) == Run(p, Fresh(m, true), s, 0, fuel)
    ensures LessOutcome(Run(p, Source(m), s, 0, fuel), Run(q, Target(m), t, 0, fuel))
  {
    var fresh_, kept := Source(m), Target(m);
    assert As(fresh_, Strict) == Fresh(m, true) && As(fresh_, Recorded) == fresh_;
    RunsAgree(p, fresh_, s, 0, fuel, Recorded);
    LessRun(p, m, s, t, 0, fuel);
    assert As(kept, Strict) == Fresh(m, false);
    assert !Run(p, Fresh(m, false), t, 0, fuel).Stuck?;
    RunsAgree(p, kept, t, 0, fuel, Lazy);
    assert Run(q, As(kept, Lazy), t, 0, fuel) == Run(p, As(kept, Lazy), t, 0, fuel);
    LoweredRuns(q, kept, t, 0, fuel, Recorded);
    assert As(kept, Recorded) == kept;
  }

  /** The source, for runs that use no undefined place. */
  function SourceDefined(m: Meaning): Meaning {
    m.(mode := Defined, freshLocals := true)
  }

  /** A program that passes the analysis, and two starts of it: the second has its slots, and holds at least as
      much.  The values a start gives are those of parameters, which are no nodes of the program. */
  ghost predicate Lowerable(p: Program, m: Meaning, pure_: set<nat>, entry: seq<set<Id>>, s: State, t: State) {
    && Steadfast(p, pure_, entry) && Pure(m, pure_) && Monotone(m) && KeepsSlots(m)
    && PointerLowering.Starting(t) && PointerLowering.Outside(p, t) && Less(s, t) && Slots(p, t)
  }

  /** The main result: in a program that passes the analysis of its places, every run that uses no undefined
      place is kept by the lowered code. */
  lemma LoweringCorrect(p: Program, q: Program, m: Meaning, pure_: set<nat>, entry: seq<set<Id>>, s: State, t: State,
      fuel: nat)
    requires PointerLowering.Lowers(p, q) && Lowered(q)
    requires Lowerable(p, m, pure_, entry, s, t) && !Run(p, SourceDefined(m), s, 0, fuel).Stuck?
    ensures Run(p, Source(m), s, 0, fuel) == Run(p, SourceDefined(m), s, 0, fuel)
    ensures LessOutcome(Run(p, Source(m), s, 0, fuel), Run(q, Target(m), t, 0, fuel))
  {
    assert As(Source(m), Strict) == Fresh(m, true) && As(Source(m), Defined) == SourceDefined(m);
    SteadfastRuns(p, Source(m), pure_, entry, s, fuel);
    StrictRunKept(p, q, m, s, t, fuel);
  }

  /** The pass and what it promises of its output. */
  method Lower(p: Program) returns (q: Program)
    requires PointerLowering.Good(p)
    ensures PointerLowering.Lowers(p, q) && Lowered(q) && PointerLowering.AllocatesOnTop(q)
    ensures PointerPlaced.PointersPlain(p) ==> PointerPlaced.Placed(q)
    ensures forall m, pure_, entry, s, t, fuel: nat ::
      Lowerable(p, m, pure_, entry, s, t) && !Run(p, SourceDefined(m), s, 0, fuel).Stuck? ==>
      LessOutcome(Run(p, Source(m), s, 0, fuel), Run(q, Target(m), t, 0, fuel))
  {
    hide Lowered, PointerLowering.Lowers, PointerLowering.Good, PointerLowering.AllocatesOnTop, LessOutcome, Run;
    hide PointerPlaced.PointersPlain, PointerPlaced.Placed;
    var function_ := new PointerLowering.Function(p);
    function_.ApplySSATransformations();
    q := Program(function_.nodes, function_.blocks);
    assert function_.Code() == q;
    forall m, pure_, entry, s, t, fuel: nat |
      Lowerable(p, m, pure_, entry, s, t) && !Run(p, SourceDefined(m), s, 0, fuel).Stuck?
      ensures LessOutcome(Run(p, Source(m), s, 0, fuel), Run(q, Target(m), t, 0, fuel))
    {
      LoweringCorrect(p, q, m, pure_, entry, s, t, fuel);
    }
  }

  // ---------- a program the lowering changes ----------

  /** p = a; d = *p; p = b; return d.f: the pointer changes between the dereference and the field.  The
      parameters a and b are the first two names. */
  const STALE := Program(
    map[
      Orig(2) := Node(Local, []),
      Orig(3) := Node(Write, [Orig(0), Orig(2)]),
      Orig(4) := Node(Deref, [Orig(2)]),
      Orig(5) := Node(Write, [Orig(1), Orig(2)]),
      Orig(6) := Node(Field(0), [Orig(4)]),
      Orig(7) := Node(Return, [Orig(6)])],
    [[Orig(2), Orig(3), Orig(4), Orig(5), Orig(6), Orig(7)]])

  /** It is a program the lowering takes. */
  lemma StaleGood()
    ensures PointerLowering.Good(STALE)
  {
    hide PointerConvert.NodeOk;
    forall o | o in STALE.nodes ensures o.Orig? && PointerConvert.NodeOk(STALE, o) {
      StaleNodeOk(o.n);
    }
  }

  lemma StaleNodeOk(n: nat)
    requires 2 <= n < 8
    ensures PointerConvert.NodeOk(STALE, Orig(n))
  {
    var args := STALE.nodes[Orig(n)].args;
    assert forall a :: a in args ==> a.Orig? && a.n < n && PointerConvert.Base(a) == a;
  }

  lemma StaleNext(pure_: set<nat>, entry: seq<set<Id>>, steady: set<Id>, i: nat)
    requires i < 4 && ListSteady(STALE, pure_, entry, steady, STALE.blocks[0][i..])
    ensures ListSteady(STALE, pure_, entry, After(STALE, pure_, steady, Orig(i + 2)), STALE.blocks[0][i + 1..])
  {
    hide ListSteady, After, Kept;
    var list := STALE.blocks[0];
    assert list[i..][0] == Orig(i + 2) && list[i..][1..] == list[i + 1..];
    ListNext(STALE, pure_, entry, steady, list[i..]);
  }

  lemma StaleUse(pure_: set<nat>, entry: seq<set<Id>>, steady: set<Id>)
    requires ListSteady(STALE, pure_, entry, steady, STALE.blocks[0][4..])
    ensures Orig(4) in steady
  {
    hide ListSteady, After, Kept;
    assert STALE.blocks[0][4..][0] == Orig(6);
    assert STALE.nodes[Orig(6)] == Node(Field(0), [Orig(4)]) && Looked(STALE, Field(0), 0, Orig(4));
    ListNext(STALE, pure_, entry, steady, STALE.blocks[0][4..]);
    assert STALE.nodes[Orig(6)].args[0] == Orig(4);
  }

  /** No annotation makes it pass: a write stands between the dereference and its field. */
  lemma StaleNotSteadfast(pure_: set<nat>, entry: seq<set<Id>>)
    ensures !Steadfast(STALE, pure_, entry)
  {
    hide ListSteady, After, Kept;
    if Steadfast(STALE, pure_, entry) {
      assert STALE.blocks[0][0..] == STALE.blocks[0];
      var s0: set<Id> := {};
      StaleNext(pure_, entry, s0, 0);
      var s1 := After(STALE, pure_, s0, Orig(2));
      StaleNext(pure_, entry, s1, 1);
      var s2 := After(STALE, pure_, s1, Orig(3));
      StaleNext(pure_, entry, s2, 2);
      var s3 := After(STALE, pure_, s2, Orig(4));
      StaleNext(pure_, entry, s3, 3);
      AfterWrite(pure_, s3);
      StaleUse(pure_, entry, After(STALE, pure_, s3, Orig(5)));
    }
  }

  lemma AfterWrite(pure_: set<nat>, steady: set<Id>)
    ensures Orig(4) !in After(STALE, pure_, steady, Orig(5))
  {
    StaleKept();
  }

  lemma StaleKept()
    ensures !Kept(STALE, Orig(5), true, Orig(4))
  {
    assert !ReadKept(STALE, Orig(5), true, Orig(2));
    assert !BelowKept(STALE, Orig(5), true, Orig(2), Rank(Orig(4)));
  }

  function StaleStart(x: int, y: int): State {
    State(
      map[Orig(0) := Pointer(Orig(0), []), Orig(1) := Pointer(Orig(1), [])],
      map[],
      map[Orig(2) := Undef, Orig(0) := Aggregate(map[0 := Int(x)]), Orig(1) := Aggregate(map[0 := Int(y)])])
  }

  /** The contents of p, and the states before the field is taken. */
  function StaleState(x: int, y: int, steps: nat): State {
    var s := StaleStart(x, y);
    var p, a, b := Pointer(Orig(2), []), Pointer(Orig(0), []), Pointer(Orig(1), []);
    if steps == 0 then s
    else if steps == 1 then s.(addr := map[Orig(2) := p])
    else if steps == 2 then s.(addr := map[Orig(2) := p], mem := s.mem[Orig(2) := a])
    else if steps == 3 then s.(addr := map[Orig(2) := p, Orig(4) := a], mem := s.mem[Orig(2) := a])
    else s.(addr := map[Orig(2) := p, Orig(4) := a], mem := s.mem[Orig(2) := b])
  }

  /** The two meanings that are compared: the source's, and the lowering's view of it. */
  predicate StaleMode(m: Meaning) {
    m.mode.Recorded? || m.mode.Lazy?
  }

  /** A node with one or two operands does what its kind does. */
  lemma ExecWith(p: Program, m: Meaning, s: State, o: Id, v: seq<Val>)
    requires o in p.nodes && |v| == |p.nodes[o].args| <= 2
    requires Arity(p.nodes[o].kind) == |v|
    requires |v| > 0 ==> Fetch(p, m.mode, s, p.nodes[o].kind, 0, p.nodes[o].args[0]) == Some(v[0])
    requires |v| > 1 ==> Fetch(p, m.mode, s, p.nodes[o].kind, 1, p.nodes[o].args[1]) == Some(v[1])
    ensures Exec(p, m, s, o) == Apply(m, s, o, p.nodes[o].kind, v)
  {
    hide Fetch, Apply;
    assert Ready(p, m.mode, s, p.nodes[o]);
    assert Operands(p, m.mode, s, p.nodes[o]) == v;
  }

  lemma StaleStep(m: Meaning, x: int, y: int, i: nat)
    requires StaleMode(m) && i < 4
    ensures Exec(STALE, m, StaleState(x, y, i), Orig(i + 2)) == Next(StaleState(x, y, i + 1))
  {
    hide Exec;
    var s := StaleState(x, y, i);
    var a := Pointer(Orig(0), []);
    if i == 0 {
      ExecWith(STALE, m, s, Orig(2), []);
      assert s.mem[Orig(2) := Undef] == s.mem;
    } else if i == 2 {
      ExecWith(STALE, m, s, Orig(4), [a]);
    } else {
      StaleWrite(m, x, y, i);
    }
  }

  /** What is written, and where. */
  lemma StaleOperands(m: Meaning, x: int, y: int, i: nat)
    requires StaleMode(m) && (i == 1 || i == 3)
    ensures Fetch(STALE, m.mode, StaleState(x, y, i), Write, 0, Orig(if i == 1 then 0 else 1))
      == Some(Pointer(Orig(if i == 1 then 0 else 1), []))
    ensures Fetch(STALE, m.mode, StaleState(x, y, i), Write, 1, Orig(2)) == Some(Pointer(Orig(2), []))
  {
  }

  lemma StaleWrite(m: Meaning, x: int, y: int, i: nat)
    requires StaleMode(m) && (i == 1 || i == 3)
    ensures Exec(STALE, m, StaleState(x, y, i), Orig(i + 2)) == Next(StaleState(x, y, i + 1))
  {
    hide Exec, Fetch, StaleMode;
    var s, t := StaleState(x, y, i), StaleState(x, y, i + 1);
    var a := Orig(if i == 1 then 0 else 1);
    var p, v := Pointer(Orig(2), []), Pointer(a, []);
    StaleOperands(m, x, y, i);
    assert STALE.nodes[Orig(i + 2)] == Node(Write, [a, Orig(2)]);
    ExecWith(STALE, m, s, Orig(i + 2), [v, p]);
    StaleStores(x, y, i);
  }

  lemma StaleStores(x: int, y: int, i: nat)
    requires i == 1 || i == 3
    ensures var s, t := StaleState(x, y, i), StaleState(x, y, i + 1);
      var v := Pointer(Orig(if i == 1 then 0 else 1), []);
      StoreAt(s.mem, Pointer(Orig(2), []), v) == Some(t.mem) && t == s.(mem := t.mem)
  {
    var s, t := StaleState(x, y, i), StaleState(x, y, i + 1);
    var v := Pointer(Orig(if i == 1 then 0 else 1), []);
    assert t.mem == s.mem[Orig(2) := v];
  }

  /** The field is taken of a, or of b. */
  function Taken(m: Meaning): Id {
    if m.mode.Lazy? then Orig(1) else Orig(0)
  }

  function StaleField(m: Meaning, x: int, y: int): State {
    var s := StaleState(x, y, 4);
    s.(addr := s.addr[Orig(6) := Pointer(Taken(m), [0])])
  }

  lemma StaleTakesField(m: Meaning, x: int, y: int)
    requires StaleMode(m)
    ensures Exec(STALE, m, StaleState(x, y, 4), Orig(6)) == Next(StaleField(m, x, y))
  {
    hide Exec;
    var none: seq<int> := [];
    assert none + [0] == [0];
    ExecWith(STALE, m, StaleState(x, y, 4), Orig(6), [Pointer(Taken(m), none)]);
  }

  function StaleResult(m: Meaning, x: int, y: int): Outcome {
    Done(Int(if m.mode.Lazy? then y else x), StaleState(x, y, 4).mem)
  }

  lemma StaleReturns(m: Meaning, x: int, y: int)
    requires StaleMode(m)
    ensures Exec(STALE, m, StaleField(m, x, y), Orig(7)) == StaleResult(m, x, y)
  {
    hide Exec;
    var t := StaleField(m, x, y);
    var v := Int(if m.mode.Lazy? then y else x);
    assert LoadAt(t.mem, t.addr[Orig(6)]) == v by {
      assert [0][1..] == [];
    }
    ExecWith(STALE, m, t, Orig(7), [v]);
  }

  lemma {:induction false} StaleRuns(m: Meaning, x: int, y: int, i: nat)
    requires StaleMode(m) && i <= 4
    ensures ExecList(STALE, m, StaleState(x, y, i), STALE.blocks[0][i..]) == StaleResult(m, x, y)
    decreases 4 - i
  {
    hide Exec, StaleState, StaleField;
    var list := STALE.blocks[0];
    assert list[i..] == [list[i]] + list[i + 1..];
    if i < 4 {
      StaleStep(m, x, y, i);
      ExecFirst(STALE, m, StaleState(x, y, i), list[i], StaleState(x, y, i + 1), list[i + 1..]);
      StaleRuns(m, x, y, i + 1);
    } else {
      StaleTakesField(m, x, y);
      ExecFirst(STALE, m, StaleState(x, y, 4), list[4], StaleField(m, x, y), list[5..]);
      StaleReturns(m, x, y);
      assert list[5..][0] == Orig(7);
    }
  }

  lemma StaleRun(m: Meaning, x: int, y: int, fuel: nat)
    requires StaleMode(m) && fuel > 0
    ensures Run(STALE, m, StaleStart(x, y), 0, fuel) == StaleResult(m, x, y)
  {
    hide ExecList;
    StaleRuns(m, x, y, 0);
    assert STALE.blocks[0][0..] == STALE.blocks[0];
    assert StaleState(x, y, 0) == StaleStart(x, y);
  }

  lemma StaleStarts(x: int, y: int)
    ensures PointerLowering.Starting(StaleStart(x, y)) && PointerLowering.Outside(STALE, StaleStart(x, y))
  {
  }

  /** The lowering takes this program and changes it: whatever it makes of it gives the field of b, because
      the pointer is read again where the field is taken, and the source gives that of a.  The two are the
      same exactly if the two objects hold the same. */
  lemma StalePointerChanges(q: Program, m: Meaning, x: int, y: int, fuel: nat)
    requires PointerLowering.Lowers(STALE, q) && Lowered(q) && fuel > 0
    ensures PointerLowering.Good(STALE)
    ensures var source, lowered := Run(STALE, Source(m), StaleStart(x, y), 0, fuel),
        Run(q, Target(m), StaleStart(x, y), 0, fuel);
      && source.Done? && source.result == Int(x)
      && lowered.Done? && lowered.result == Int(y)
      && (lowered == source <==> x == y)
  {
    StaleGood();
    StaleStarts(x, y);
    hide StaleStart, StaleState, PointerLowering.Starting, PointerLowering.Outside, Run;
    var s, view := StaleStart(x, y), As(Target(m), Lazy);
    StaleRun(Source(m), x, y, fuel);
    StaleRun(view, x, y, fuel);
    assert Run(q, view, s, 0, fuel) == Run(STALE, view, s, 0, fuel);
    LoweredRuns(q, Target(m), s, 0, fuel, Recorded);
    assert As(Target(m), Recorded) == Target(m);
  }

  /** The pass itself on this program: its output gives the field of b. */
  method LowerStale(ghost m: Meaning, ghost x: int, ghost y: int, ghost fuel: nat) returns (q: Program)
    requires fuel > 0
    ensures Lowered(q)
    ensures var source, lowered := Run(STALE, Source(m), StaleStart(x, y), 0, fuel),
        Run(q, Target(m), StaleStart(x, y), 0, fuel);
      && source.Done? && source.result == Int(x)
      && lowered.Done? && lowered.result == Int(y)
  {
    StaleGood();
    q := Lower(STALE);
    StalePointerChanges(q, m, x, y, fuel);
  }
}
