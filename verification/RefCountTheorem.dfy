/** The main result on reference counting. */
module RefCountTheorem {
  import opened Wrappers
  import opened RefCountIr
  import opened RefCountPass
  import opened RefCountCorrect
  import opened RefCountLayout

  // ---------- what a run loses ----------

  /** What a run of counted code has lost: what is live around the block it was left from, and the cells that
      stay counted because loops were left or continued from under variables of their bodies. */
  datatype Trail = Trail(around: seq<nat>, lost: multiset<nat>)

  /** What the variables hold that are live here beyond those around the loop. */
  ghost function LostUnder(st: State, live: seq<nat>, around: seq<nat>): multiset<nat> {
    if live <= around then Held(st, around[|live|..]) else multiset{}
  }

  /** A run from a value of a block on. */
  ghost function TrailOf(w: World, s: seq<Instr>, outer: seq<nat>, declared: seq<nat>, st: State, fuel: nat): Trail
    decreases fuel, s, 3
  {
    if s == [] || IsTerminated(s[0]) then Trail(outer, multiset{})
    else
      var one := TrailOne(w, s[0], s[1..], outer + declared, st, fuel);
      var o := Exec(w, Expansion(s[0], s[1..]), st, fuel);
      if !o.Normal? then one
      else
        var rest := TrailOf(w, s[1..], outer, declared + Declares(s[0]), o.st, fuel);
        rest.(lost := one.lost + rest.lost)
  }

  ghost function TrailOne(w: World, h: Instr, rest: seq<Instr>, live: seq<nat>, st: State, fuel: nat): Trail
    decreases fuel, h, 2
  {
    match h
    case Nested(b) => TrailOf(w, b, live, [], st, fuel)
    case If(a, b) => TrailOf(w, if w.choose(st.tick) then a else b, live, [], st.(tick := st.tick + 1), fuel)
    case While(_, _) => TrailLoop(w, h, rest, live, st, fuel)
    case For(_) => TrailLoop(w, h, rest, live, st, fuel)
    case _ => Trail(live, multiset{})
  }

  ghost function TrailLoop(w: World, h: Instr, rest: seq<Instr>, live: seq<nat>, st: State, fuel: nat): Trail
    requires h.While? || h.For?
    decreases fuel, h, 0
  {
    if fuel == 0 then Trail(live, multiset{}) else
    var loop := Expansion(h, rest)[0];
    var o := Exec(w, LoopCond(loop), st, fuel - 1);
    if !o.Normal? || !w.choose(o.st.tick) then Trail(live, multiset{}) else
    var st1 := o.st.(tick := o.st.tick + 1);
    var b := Exec(w, loop.body, st1, fuel - 1);
    var t := TrailOf(w, h.body, live, [], st1, fuel - 1);
    var next :=
      if b.Normal? || b.Continued? then TrailLoop(w, h, rest, live, b.st, fuel - 1) else Trail(live, multiset{});
    match b
    case Normal(_) => next.(lost := t.lost + next.lost)
    case Continued(st2) => next.(lost := t.lost + LostUnder(st2, live, t.around) + next.lost)
    case Broke(st2) => Trail(live, t.lost + LostUnder(st2, live, t.around))
    case _ => t
  }

  // ---------- what every run keeps ----------

  /** Every way a block can end leaves counts conserved: nothing crashed, and what is still counted is what is
      live where the run goes on, or around the block it was left from, with what the run has lost and a
      returned value's cells on top. */
  ghost predicate Keeps(o: Outcome, base: multiset<nat>, inLoop: bool, live: seq<nat>, open: seq<nat>,
      trail: Trail, ways: Ways) {
    && (ways.level ==> trail.lost == multiset{})
    && match o
       case Normal(st) => Conserved(st, base + trail.lost, live, open)
       case Broke(st) => inLoop && trail.around in ways.breaks && Conserved(st, base + trail.lost, trail.around, [])
       case Continued(st) => inLoop && trail.around in ways.breaks && Conserved(st, base + trail.lost, trail.around, [])
       case Returned(cells, st) => trail.around in ways.exits && LeftAt(st, base + trail.lost, trail.around, cells)
       case OutOfFuel => true
       case Crash => false
  }

  ghost predicate LeftAt(st: State, base: multiset<nat>, around: seq<nat>, cells: Cells) {
    st.counts == base + Held(st, around) + multiset(cells)
  }

  lemma TakeFromVars(base: multiset<nat>, vars: multiset<nat>, cells: multiset<nat>, results: multiset<nat>,
      counts: multiset<nat>)
    requires counts == base + (vars + cells) + results
    ensures cells <= counts && counts - cells == base + vars + results
  {
  }

  lemma TakeFromResults(base: multiset<nat>, vars: multiset<nat>, results: multiset<nat>, cells: multiset<nat>,
      counts: multiset<nat>)
    requires counts == base + vars + (results + cells)
    ensures cells <= counts && counts - cells == base + vars + results
  {
  }

  lemma AddToVars(base: multiset<nat>, vars: multiset<nat>, cells: multiset<nat>, results: multiset<nat>)
    ensures base + vars + results + cells == base + (vars + cells) + results
  {
  }

  lemma AddToBase(base: multiset<nat>, vars: multiset<nat>, results: multiset<nat>, cells: multiset<nat>)
    ensures base + vars + results + cells == (base + cells) + vars + results
  {
  }

  lemma ConservedSame(st: State, st': State, base: multiset<nat>, xs: seq<nat>, rs: seq<nat>)
    requires st.vars == st'.vars && st.results == st'.results && st.counts == st'.counts
    requires Conserved(st, base, xs, rs)
    ensures Conserved(st', base, xs, rs)
  {
    HeldSame(st, st', xs);
    HeldResultsSame(st, st', rs);
  }

  lemma ExecThen(w: World, h: Instr, t: seq<Instr>, st: State, fuel: nat)
    ensures var o := ExecOne(w, h, st, fuel);
            Exec(w, [h] + t, st, fuel) == if o.Normal? then Exec(w, t, o.st, fuel) else o
  {
    ExecAppend(w, [h], t, st, fuel);
    ExecSingle(w, h, st, fuel);
  }

  /** Finalizing a live variable takes away what it held. */
  lemma FinRuns(w: World, st: State, base: multiset<nat>, xs: seq<nat>, x: nat, rs: seq<nat>, fuel: nat)
    requires Conserved(st, base, xs, rs) && Distinct(xs) && x in xs
    ensures var o := ExecOne(w, Fin(x), st, fuel);
            o == Normal(st.(counts := st.counts - multiset(VarCells(st, x)))) && Conserved(o.st, base, Drop(xs, x), rs)
  {
    hide Held, HeldResults, Drop, Distinct;
    HeldDrop(st, xs, x);
    TakeFromVars(base, Held(st, Drop(xs, x)), multiset(VarCells(st, x)), HeldResults(st, rs), st.counts);
    var st' := st.(counts := st.counts - multiset(VarCells(st, x)));
    HeldSame(st, st', Drop(xs, x));
    HeldResultsSame(st, st', rs);
  }

  lemma FinResultRuns(w: World, st: State, base: multiset<nat>, xs: seq<nat>, rs: seq<nat>, r: nat, fuel: nat)
    requires Conserved(st, base, xs, rs) && Distinct(rs) && r in rs
    ensures var o := ExecOne(w, FinResult(r), st, fuel);
            && o == Normal(st.(counts := st.counts - multiset(ResultCells(st, r))))
            && Conserved(o.st, base, xs, Drop(rs, r))
  {
    hide Held, HeldResults, Drop, Distinct;
    HeldResultsDrop(st, rs, r);
    TakeFromResults(base, Held(st, xs), HeldResults(st, Drop(rs, r)), multiset(ResultCells(st, r)), st.counts);
    var st' := st.(counts := st.counts - multiset(ResultCells(st, r)));
    HeldSame(st, st', xs);
    HeldResultsSame(st, st', Drop(rs, r));
  }

  lemma {:induction false} DropAllDistinct(rs: seq<nat>, used: seq<nat>)
    requires Distinct(rs)
    ensures Distinct(DropAll(rs, used))
    ensures forall r :: r in DropAll(rs, used) <==> r in rs && r !in used
  {
    if used != [] {
      DropAllDistinct(rs, used[1..]);
      DropDistinct(DropAll(rs, used[1..]), used[0]);
    }
  }

  /** Releasing results after their use takes away what they held. */
  lemma {:induction false} FinResultsRun(w: World, st: State, base: multiset<nat>, xs: seq<nat>, rs: seq<nat>,
      used: seq<nat>, fuel: nat)
    requires Conserved(st, base, xs, rs) && Distinct(rs) && Distinct(used) && forall r :: r in used ==> r in rs
    ensures var o := Exec(w, FinResults(used), st, fuel);
            && o.Normal? && o.st.results == st.results && o.st.vars == st.vars
            && Conserved(o.st, base, xs, DropAll(rs, used))
    decreases |used|
  {
    if used != [] {
      FinResultsRun(w, st, base, xs, rs, used[1..], fuel);
      var st1 := Exec(w, FinResults(used[1..]), st, fuel).st;
      ExecAppend(w, FinResults(used[1..]), [FinResult(used[0])], st, fuel);
      ExecSingle(w, FinResult(used[0]), st1, fuel);
      DropAllDistinct(rs, used[1..]);
      assert used[0] !in used[1..];
      FinResultRuns(w, st1, base, xs, DropAll(rs, used[1..]), used[0], fuel);
    }
  }

  /** Finalizing the variables of a block leaves what is live around it. */
  lemma {:induction false} FinsRun(w: World, st: State, base: multiset<nat>, outer: seq<nat>, declared: seq<nat>,
      rs: seq<nat>, fuel: nat)
    requires Conserved(st, base, outer + declared, rs) && Distinct(outer + declared)
    ensures var o := Exec(w, Fins(declared), st, fuel);
            o.Normal? && o.st.vars == st.vars && o.st.results == st.results && Conserved(o.st, base, outer, rs)
    decreases |declared|
  {
    if declared == [] {
      assert outer + declared == outer;
    } else {
      var x := declared[0];
      ExecThen(w, Fin(x), Fins(declared[1..]), st, fuel);
      assert outer + declared == outer + [x] + declared[1..];
      DropMiddle(outer, x, declared[1..]);
      assert (outer + declared)[|outer|] == x;
      FinRuns(w, st, base, outer + declared, x, rs, fuel);
      var st1 := ExecOne(w, Fin(x), st, fuel).st;
      DropDistinct(outer + declared, x);
      FinsRun(w, st1, base, outer, declared[1..], rs, fuel);
    }
  }

  lemma {:induction false} DropMiddle(a: seq<nat>, x: nat, b: seq<nat>)
    requires Distinct(a + [x] + b)
    ensures Drop(a + [x] + b, x) == a + b
    decreases |a|
  {
    var s := a + [x] + b;
    if a == [] {
      assert s == [x] + b && s[1..] == b;
      assert s[0] !in s[1..];
      DropAbsent(b, x);
      assert a + b == b;
    } else {
      assert s[1..] == a[1..] + [x] + b;
      assert s[|a|] == x && s[0] == a[0];
      DropMiddle(a[1..], x, b);
      assert a + b == [a[0]] + (a[1..] + b);
    }
  }

  /** Another live variable than x, or a pending result. */
  ghost predicate IsHeld(src: Source, xs: seq<nat>, x: nat, rs: seq<nat>) {
    if src.Variable? then src.x in xs && src.x != x else Distinct(rs) && src.r in rs
  }

  /** Retaining the cells of something held, and then writing them to a finalized variable. */
  lemma CopyWriteRuns(w: World, st: State, base: multiset<nat>, xs: seq<nat>, x: nat, src: Source, rs: seq<nat>,
      fuel: nat)
    requires Distinct(xs) && x in xs && Conserved(st, base, Drop(xs, x), rs)
    requires IsHeld(src, xs, x, rs)
    ensures var o := Exec(w, [Copy(src), Write(x, src)], st, fuel);
            o.Normal? && o.st.results == st.results && Conserved(o.st, base, xs, rs)
  {
    hide Held, HeldResults, Drop, Distinct, Exec;
    var cells := SourceCells(st, src);
    SourceIsLive(st, base, xs, x, src, rs);
    CellsLive(st, cells);
    var st1 := st.(counts := st.counts + multiset(cells));
    var st2 := st1.(vars := st1.vars[x := cells]);
    assert [Copy(src), Write(x, src)] == [Copy(src)] + [Write(x, src)];
    ExecThen(w, Copy(src), [Write(x, src)], st, fuel);
    ExecSingle(w, Write(x, src), st1, fuel);
    HeldSame(st, st2, Drop(xs, x));
    HeldResultsSame(st, st2, rs);
    HeldDrop(st2, xs, x);
    AddToVars(base, Held(st, Drop(xs, x)), multiset(cells), HeldResults(st, rs));
  }

  lemma SourceIsLive(st: State, base: multiset<nat>, xs: seq<nat>, x: nat, src: Source, rs: seq<nat>)
    requires Distinct(xs) && x in xs && Conserved(st, base, Drop(xs, x), rs) && IsHeld(src, xs, x, rs)
    ensures multiset(SourceCells(st, src)) <= st.counts
  {
    var cells := multiset(SourceCells(st, src));
    if src.Variable? {
      DropDistinct(xs, x);
      HeldBounds(st, Drop(xs, x), src.x);
    } else {
      HeldResultsBounds(st, rs, src.r);
    }
  }

  /** A counted write: the target's old cells go, the source's are held once more. */
  lemma WriteRuns(w: World, st: State, base: multiset<nat>, xs: seq<nat>, x: nat, src: Source, rs: seq<nat>, fuel: nat)
    requires Distinct(xs) && x in xs && Conserved(st, base, xs, rs)
    requires IsHeld(src, xs, x, rs)
    ensures var o := Exec(w, [Fin(x), Copy(src), Write(x, src)], st, fuel);
            o.Normal? && o.st.results == st.results && Conserved(o.st, base, xs, rs)
  {
    FinRuns(w, st, base, xs, x, rs, fuel);
    var st1 := ExecOne(w, Fin(x), st, fuel).st;
    assert [Fin(x), Copy(src), Write(x, src)] == [Fin(x)] + [Copy(src), Write(x, src)];
    ExecThen(w, Fin(x), [Copy(src), Write(x, src)], st, fuel);
    CopyWriteRuns(w, st1, base, xs, x, src, rs, fuel);
  }

  lemma {:induction false} HeldBounds(st: State, xs: seq<nat>, x: nat)
    requires x in xs
    ensures multiset(VarCells(st, x)) <= Held(st, xs)
  {
    if xs[0] != x {
      HeldBounds(st, xs[1..], x);
    }
  }

  lemma {:induction false} HeldResultsBounds(st: State, rs: seq<nat>, r: nat)
    requires r in rs
    ensures multiset(ResultCells(st, r)) <= HeldResults(st, rs)
  {
    if rs[0] != r {
      HeldResultsBounds(st, rs[1..], r);
    }
  }

  lemma CellsLive(st: State, cells: Cells)
    requires multiset(cells) <= st.counts
    ensures AllLive(st, cells)
  {
    forall c | c in cells ensures c in st.counts {
      assert c in multiset(cells);
    }
  }

  lemma UseRuns(w: World, st: State, base: multiset<nat>, xs: seq<nat>, rs: seq<nat>, used: seq<nat>, read: seq<nat>,
      fuel: nat)
    requires Conserved(st, base, xs, rs) && Distinct(rs) && Distinct(used)
    requires (forall r :: r in used ==> r in rs) && (forall x :: x in read ==> x in xs)
    ensures var o := Exec(w, [Use(used, read)] + FinResults(used), st, fuel);
            o.Normal? && Conserved(o.st, base, xs, DropAll(rs, used))
  {
    forall r | r in used ensures AllLive(st, ResultCells(st, r)) {
      HeldResultsBounds(st, rs, r);
      CellsLive(st, ResultCells(st, r));
    }
    forall x | x in read ensures AllLive(st, VarCells(st, x)) {
      HeldBounds(st, xs, x);
      CellsLive(st, VarCells(st, x));
    }
    ExecThen(w, Use(used, read), FinResults(used), st, fuel);
    FinResultsRun(w, st, base, xs, rs, used, fuel);
  }

  lemma CallRuns(w: World, st: State, base: multiset<nat>, xs: seq<nat>, rs: seq<nat>, r: nat, fuel: nat)
    requires Conserved(st, base, xs, rs) && r !in rs && Distinct(rs)
    ensures var o := ExecOne(w, Call(r), st, fuel); o.Normal? && Conserved(o.st, base, xs, rs + [r])
    ensures Distinct(rs + [r])
    ensures Drop(rs + [r], r) == rs
  {
    hide Held, HeldResults, Distinct;
    var st' := ExecOne(w, Call(r), st, fuel).st;
    HeldSame(st, st', xs);
    HeldResultsSame(st, st', rs);
    HeldResultsAppend(st', rs, r);
    OneMoreResult(rs, r);
  }

  lemma OneMoreResult(rs: seq<nat>, r: nat)
    requires r !in rs && Distinct(rs)
    ensures Distinct(rs + [r]) && Drop(rs + [r], r) == rs
  {
    assert rs + [r] == rs + [r] + [];
    DropMiddle(rs, r, []);
    assert rs + [] == rs;
  }

  lemma {:induction false} HeldResultsAppend(st: State, rs: seq<nat>, r: nat)
    ensures HeldResults(st, rs + [r]) == HeldResults(st, rs) + multiset(ResultCells(st, r))
    decreases |rs|
  {
    if rs == [] {
      assert rs + [r] == [r] && [r][1..] == [];
    } else {
      assert (rs + [r])[1..] == rs[1..] + [r];
      HeldResultsAppend(st, rs[1..], r);
    }
  }

  lemma LocalRuns(w: World, st: State, base: multiset<nat>, xs: seq<nat>, x: nat, rs: seq<nat>, fuel: nat)
    requires Conserved(st, base, xs, rs) && x !in xs
    ensures var o := Exec(w, [Local(x), Init(x)], st, fuel); o.Normal? && Conserved(o.st, base, xs + [x], rs)
  {
    var st' := CellsAdded(w, x, st);
    DeclareSteps(w, x, st, fuel);
    HeldOne(st', x);
    hide Held, HeldResults, Exec, ExecOne;
    assert [Local(x), Init(x)] == [Local(x)] + [Init(x)];
    ExecThen(w, Local(x), [Init(x)], st, fuel);
    ExecSingle(w, Init(x), st, fuel);
    HeldSame(st, st', xs);
    HeldResultsSame(st, st', rs);
    HeldAppend(st', xs, [x]);
    AddToVars(base, Held(st, xs), multiset(VarCells(st', x)), HeldResults(st, rs));
  }

  /** The state after a declared variable's initializer. */
  function CellsAdded(w: World, x: nat, st: State): State {
    var cells := w.made(st.tick);
    st.(vars := st.vars[x := cells], counts := st.counts + multiset(cells), tick := st.tick + 1)
  }

  lemma DeclareSteps(w: World, x: nat, st: State, fuel: nat)
    ensures ExecOne(w, Local(x), st, fuel) == Normal(st)
    ensures ExecOne(w, Init(x), st, fuel) == Normal(CellsAdded(w, x, st))
  {
  }

  lemma HeldOne(st: State, x: nat)
    ensures Held(st, [x]) == multiset(VarCells(st, x))
  {
    assert [x][1..] == [];
  }

  /** What one value of a block does, counted. */
  lemma {:induction false} OneKeeps(w: World, h: Instr, rest: seq<Instr>, scope: Scope, live: seq<nat>, open: seq<nat>,
                                    st: State, base: multiset<nat>, fuel: nat)
    requires OkOne(h, rest, scope, live, open) && Distinct(live) && Distinct(open)
    requires Conserved(st, base, live, open)
    ensures Keeps(Exec(w, Expansion(h, rest), st, fuel), base, scope.inLoop, live + Declares(h), Pending(h, rest, open),
        TrailOne(w, h, rest, live, st, fuel), WaysOne(h, live))
    ensures Distinct(live + Declares(h)) && Distinct(Pending(h, rest, open))
    decreases fuel, h, 3
  {
    hide Held, HeldResults, AllLive;
    assert live + [] == live && base + multiset{} == base;
    match h
    case Local(x) => LocalRuns(w, st, base, live, x, open, fuel);
    case Write(x, src) =>
      WriteRuns(w, st, base, live, x, src, open, fuel);
      if src.Result? {
        var a := [Fin(x), Copy(src), h];
        ExecAppend(w, a, [FinResult(src.r)], st, fuel);
        assert a + [FinResult(src.r)] == Expansion(h, rest);
        var st1 := Exec(w, a, st, fuel).st;
        ExecSingle(w, FinResult(src.r), st1, fuel);
        FinResultRuns(w, st1, base, live, open, src.r, fuel);
        DropDistinct(open, src.r);
      }
    case Call(r) =>
      CallRuns(w, st, base, live, open, r, fuel);
      var st1 := ExecOne(w, h, st, fuel).st;
      ExecSingle(w, h, st, fuel);
      if !UsedIn(rest, r) {
        assert [h, FinResult(r)] == [h] + [FinResult(r)];
        ExecThen(w, h, [FinResult(r)], st, fuel);
        ExecSingle(w, FinResult(r), st1, fuel);
        FinResultRuns(w, st1, base, live, open + [r], r, fuel);
      }
    case Use(rs, xs) =>
      UseRuns(w, st, base, live, open, rs, xs, fuel);
      DropAllDistinct(open, rs);
    case Nested(_) => BlockKeeps(w, h, rest, scope, live, st, base, fuel);
    case If(_, _) => BlockKeeps(w, h, rest, scope, live, st, base, fuel);
    case While(_, _) => BlockKeeps(w, h, rest, scope, live, st, base, fuel);
    case For(_) => BlockKeeps(w, h, rest, scope, live, st, base, fuel);
  }

  lemma {:induction false} BlockKeeps(w: World, h: Instr, rest: seq<Instr>, scope: Scope, live: seq<nat>,
                                      st: State, base: multiset<nat>, fuel: nat)
    requires h.Nested? || h.If? || h.While? || h.For?
    requires OkOne(h, rest, scope, live, []) && Distinct(live) && Conserved(st, base, live, [])
    ensures Keeps(Exec(w, Expansion(h, rest), st, fuel), base, scope.inLoop, live, [],
        TrailOne(w, h, rest, live, st, fuel), WaysOne(h, live))
    decreases fuel, h, 2
  {
    hide Held, HeldResults, Exec, InsertCounts, CountAll;
    var inner := scope.(outer := live);
    assert live + [] == live;
    ExecSingle(w, Expansion(h, rest)[0], st, fuel);
    match h
    case Nested(b) =>
      InsertedRuns(w, b, st, fuel);
      BodyKeeps(w, b, inner, [], [], st, base, fuel);
    case If(a, b) =>
      var st1 := st.(tick := st.tick + 1);
      ConservedSame(st, st1, base, live, []);
      var taken := if w.choose(st.tick) then a else b;
      InsertedRuns(w, taken, st1, fuel);
      BodyKeeps(w, taken, inner, [], [], st1, base, fuel);
    case While(c, b) => LoopKeeps(w, h, rest, scope, live, st, base, fuel);
    case For(b) => LoopKeeps(w, h, rest, scope, live, st, base, fuel);
  }

  lemma {:induction false} LoopKeeps(w: World, h: Instr, rest: seq<Instr>, scope: Scope, live: seq<nat>,
                                     st: State, base: multiset<nat>, fuel: nat)
    requires h.While? || h.For?
    requires OkOne(h, rest, scope, live, []) && Distinct(live) && Conserved(st, base, live, [])
    ensures Keeps(ExecLoop(w, Expansion(h, rest)[0], st, fuel), base, scope.inLoop, live, [],
        TrailLoop(w, h, rest, live, st, fuel), WaysOne(h, live))
    decreases fuel, h, 1
  {
    hide Held, HeldResults, Exec, InsertCounts, CountAll, Conserved, LostUnder, LeftAt, Ok, WaysOf, Keeps, TrailOf;
    var ways := WaysOne(h, live);
    NothingLost(st, base, scope.inLoop, live, ways);
    if fuel > 0 {
      var loop := Expansion(h, rest)[0];
      var o := Exec(w, LoopCond(loop), st, fuel - 1);
      LoopCondKeeps(w, h, rest, scope, live, st, base, fuel);
      if o.Normal? {
        var st1 := o.st.(tick := o.st.tick + 1);
        NothingLost(st1, base, scope.inLoop, live, ways);
        if w.choose(o.st.tick) {
          IterationKeeps(w, h, rest, scope, live, st1, base, fuel);
          var b := Exec(w, loop.body, st1, fuel - 1);
          var t := TrailOf(w, h.body, live, [], st1, fuel - 1);
          LoopLeft(b, base, scope.inLoop, live, t, ways);
          if b.Normal? || b.Continued? {
            var lost := if b.Normal? then t.lost else t.lost + LostUnder(b.st, live, t.around);
            LoopKeeps(w, h, rest, scope, live, b.st, base + lost, fuel - 1);
            LostBefore(ExecLoop(w, loop, b.st, fuel - 1), base, scope.inLoop, live, lost,
              TrailLoop(w, h, rest, live, b.st, fuel - 1), ways);
          }
        }
      }
    }
  }

  lemma NothingLost(st: State, base: multiset<nat>, inLoop: bool, live: seq<nat>, ways: Ways)
    ensures Conserved(st, base, live, []) ==> Keeps(Normal(st), base, inLoop, live, [], Trail(live, multiset{}), ways)
    ensures Keeps(OutOfFuel, base, inLoop, live, [], Trail(live, multiset{}), ways)
  {
    assert base + multiset{} == base;
  }

  /** The iteration after which the loop does not go on. */
  lemma LoopLeft(b: Outcome, base: multiset<nat>, inLoop: bool, live: seq<nat>, trail: Trail, ways: Ways)
    requires Iterated(b, base, live, trail, ways)
    ensures b.Broke? ==> Keeps(Normal(b.st), base, inLoop, live, [],
        Trail(live, trail.lost + LostUnder(b.st, live, trail.around)), ways)
    ensures b.Returned? || b.OutOfFuel? ==> Keeps(b, base, inLoop, live, [], trail, ways)
  {
    hide Conserved, LeftAt, LostUnder;
  }

  /** A run that goes on after these cells are lost. */
  lemma LostBefore(o: Outcome, base: multiset<nat>, inLoop: bool, live: seq<nat>, lost: multiset<nat>, next: Trail,
      ways: Ways)
    requires Keeps(o, base + lost, inLoop, live, [], next, ways) && (ways.level ==> lost == multiset{})
    ensures Keeps(o, base, inLoop, live, [], next.(lost := lost + next.lost), ways)
  {
    hide Conserved, LeftAt;
    SumsAgree(base, lost, next.lost);
  }

  lemma {:induction false} LoopCondKeeps(w: World, h: Instr, rest: seq<Instr>, scope: Scope, live: seq<nat>,
                                         st: State, base: multiset<nat>, fuel: nat)
    requires (h.While? || h.For?) && fuel > 0
    requires OkOne(h, rest, scope, live, []) && Distinct(live) && Conserved(st, base, live, [])
    ensures var o := Exec(w, LoopCond(Expansion(h, rest)[0]), st, fuel - 1);
            || o.OutOfFuel?
            || (o.Normal? && Conserved(o.st, base, live, [])
                && Conserved(o.st.(tick := o.st.tick + 1), base, live, []))
    decreases fuel, h, 0
  {
    hide Held, HeldResults, Exec, InsertCounts, CountAll, Ok;
    if h.While? {
      CondKeeps(w, h.cond, scope, live, st, base, fuel - 1);
    } else {
      NothingRuns(w, st, fuel - 1);
    }
    var o := Exec(w, LoopCond(Expansion(h, rest)[0]), st, fuel - 1);
    if o.Normal? {
      ConservedSame(o.st, o.st.(tick := o.st.tick + 1), base, live, []);
    }
  }

  /** How one run of a loop's body ends, seen from the loop. */
  ghost predicate Iterated(o: Outcome, base: multiset<nat>, live: seq<nat>, trail: Trail, ways: Ways) {
    && (ways.level ==> trail.lost == multiset{})
    && match o
       case Normal(st) => Conserved(st, base + trail.lost, live, [])
       case Broke(st) => LostThere(st, base, live, trail, ways)
       case Continued(st) => LostThere(st, base, live, trail, ways)
       case Returned(cells, st) => trail.around in ways.exits && LeftAt(st, base + trail.lost, trail.around, cells)
       case OutOfFuel => true
       case Crash => false
  }

  ghost predicate LostThere(st: State, base: multiset<nat>, live: seq<nat>, trail: Trail, ways: Ways) {
    var lost := trail.lost + LostUnder(st, live, trail.around);
    Conserved(st, base + lost, live, []) && (ways.level ==> lost == multiset{})
  }

  lemma {:induction false} IterationKeeps(w: World, h: Instr, rest: seq<Instr>, scope: Scope, live: seq<nat>,
                                          st: State, base: multiset<nat>, fuel: nat)
    requires (h.While? || h.For?) && fuel > 0
    requires OkOne(h, rest, scope, live, []) && Distinct(live) && Conserved(st, base, live, [])
    ensures Iterated(Exec(w, Expansion(h, rest)[0].body, st, fuel - 1), base, live,
        TrailOf(w, h.body, live, [], st, fuel - 1), WaysOne(h, live))
    decreases fuel, h, 0
  {
    hide Held, HeldResults, Exec, InsertCounts, CountAll, Conserved, LostUnder, LeftAt, Ok, WaysOf, TrailOf;
    assert live + [] == live;
    InsertedRuns(w, h.body, st, fuel - 1);
    BodyKeeps(w, h.body, Scope(true, live), [], [], st, base, fuel - 1);
    var b := Exec(w, Expansion(h, rest)[0].body, st, fuel - 1);
    var t := TrailOf(w, h.body, live, [], st, fuel - 1);
    if b.Broke? || b.Continued? {
      WaysOutside(h.body, live, []);
      LeftLoop(b.st, base + t.lost, live, t.around);
      SumsAgree(base, t.lost, LostUnder(b.st, live, t.around));
    }
  }

  lemma SumsAgree(a: multiset<nat>, b: multiset<nat>, c: multiset<nat>)
    ensures (a + b) + c == a + (b + c)
  {
  }

  /** A loop left from under these variables: what those of its body hold is lost. */
  lemma LeftLoop(st: State, base: multiset<nat>, live: seq<nat>, around: seq<nat>)
    requires Conserved(st, base, around, []) && live <= around
    ensures Conserved(st, base + LostUnder(st, live, around), live, [])
    ensures around == live ==> LostUnder(st, live, around) == multiset{}
  {
    var enclosing := around[|live|..];
    assert around == live + enclosing;
    HeldAppend(st, live, enclosing);
  }

  /** Whatever way a block is left, these variables are live around it. */
  ghost predicate Inside(ways: Ways, outer: seq<nat>) {
    && (forall around :: around in ways.breaks ==> outer <= around)
    && forall around :: around in ways.exits ==> outer <= around
  }

  lemma InsideMore(ways: Ways, outer: seq<nat>, declared: seq<nat>)
    requires Inside(ways, outer + declared)
    ensures Inside(ways, outer)
  {
    assert outer <= outer + declared;
  }

  lemma {:induction false} WaysOutside(s: seq<Instr>, outer: seq<nat>, declared: seq<nat>)
    ensures Inside(WaysOf(s, outer, declared), outer)
    decreases s, 1
  {
    if s != [] && !IsTerminated(s[0]) {
      WaysOneOutside(s[0], outer + declared);
      InsideMore(WaysOne(s[0], outer + declared), outer, declared);
      WaysOutside(s[1..], outer, declared + Declares(s[0]));
    }
  }

  lemma {:induction false} WaysOneOutside(instr: Instr, live: seq<nat>)
    ensures Inside(WaysOne(instr, live), live)
    decreases instr, 0
  {
    match instr
    case Nested(b) => WaysOutside(b, live, []);
    case If(a, b) =>
      WaysOutside(a, live, []);
      WaysOutside(b, live, []);
    case While(_, b) => WaysOutside(b, live, []);
    case For(b) => WaysOutside(b, live, []);
    case _ =>
  }

  lemma NothingRuns(w: World, st: State, fuel: nat)
    ensures Exec(w, [], st, fuel) == Normal(st)
  {
  }

  lemma {:induction false} CondKeeps(w: World, c: seq<Instr>, scope: Scope, live: seq<nat>, st: State,
      base: multiset<nat>, fuel: nat)
    requires Straight(c) && Ok(c, scope.(outer := live), [], []) && Distinct(live) && Conserved(st, base, live, [])
    ensures var o := Exec(w, CountAll(c), st, fuel);
            o.OutOfFuel? || (o.Normal? && Conserved(o.st, base, live, []))
    decreases fuel, c, 4
  {
    CondCode(c);
    assert live + [] == live && base + multiset{} == base;
    BodyKeeps(w, c, scope.(outer := live), [], [], st, base, fuel);
    StraightStays(c, live, []);
  }

  lemma {:induction false} StraightStays(c: seq<Instr>, outer: seq<nat>, declared: seq<nat>)
    requires Straight(c)
    ensures WaysOf(c, outer, declared) == NOWHERE
    decreases |c|
  {
    if c != [] {
      StraightStays(c[1..], outer, declared + Declares(c[0]));
    }
  }

  /** A block that ends with these counts. */
  ghost predicate Ends(h: Instr, o: Outcome, base: multiset<nat>, outer: seq<nat>) {
    match o
    case Normal(_) => false
    case Broke(st) => h.Break? && Conserved(st, base, outer, [])
    case Continued(st) => h.Continue? && Conserved(st, base, outer, [])
    case Returned(cells, st) => (h.Return? || h.ReturnVoid?) && LeftAt(st, base, outer, cells)
    case OutOfFuel => false
    case Crash => false
  }

  /** The way out of a block: its variables are finalized first, after a returned variable has been
      retained. */
  lemma EndRuns(w: World, h: Instr, scope: Scope, declared: seq<nat>, open: seq<nat>,
                st: State, base: multiset<nat>, fuel: nat)
    requires IsTerminated(h) && OkEnd(h, scope, scope.outer + declared, open)
    requires Distinct(scope.outer + declared) && Conserved(st, base, scope.outer + declared, open)
    ensures Ends(h, Exec(w, BeforeEnd(h) + Fins(declared) + [h], st, fuel), base, scope.outer)
  {
    hide Held, HeldResults, Exec, Fins, Distinct;
    var a := BeforeEnd(h);
    ExecAppend(w, a + Fins(declared), [h], st, fuel);
    ExecAppend(w, a, Fins(declared), st, fuel);
    var base1 := BeforeEndRuns(w, h, scope.outer + declared, open, st, base, fuel);
    var st1 := Exec(w, a, st, fuel).st;
    FinsRun(w, st1, base1, scope.outer, declared, open, fuel);
    var st2 := Exec(w, Fins(declared), st1, fuel).st;
    ExecSingle(w, h, st2, fuel);
    LastResult(st2, open);
    var held := Held(st2, scope.outer);
    if h.Return? {
      if h.src.Result? {
        assert st2.counts == base + held + multiset(ResultCells(st2, h.src.r));
      } else {
        AddToBase(base, held, multiset{}, multiset(VarCells(st, h.src.x)));
      }
    }
  }

  lemma EndKeeps(w: World, h: Instr, scope: Scope, declared: seq<nat>, open: seq<nat>,
                 st: State, base: multiset<nat>, fuel: nat)
    requires IsTerminated(h) && OkEnd(h, scope, scope.outer + declared, open)
    requires Distinct(scope.outer + declared) && Conserved(st, base, scope.outer + declared, open)
    ensures Keeps(Exec(w, BeforeEnd(h) + Fins(declared) + [h], st, fuel), base, scope.inLoop, scope.outer, [],
        Trail(scope.outer, multiset{}), WaysEnd(h, scope.outer))
  {
    hide Conserved, LeftAt, Exec, Fins, Distinct;
    assert base + multiset{} == base;
    EndRuns(w, h, scope, declared, open, st, base, fuel);
  }

  lemma LastResult(st: State, open: seq<nat>)
    ensures open == [] ==> HeldResults(st, open) == multiset{}
    ensures |open| == 1 ==> HeldResults(st, open) == multiset(ResultCells(st, open[0]))
  {
    if |open| == 1 {
      assert open[1..] == [];
    }
  }

  /** A returned variable's cells are retained for the caller before anything is finalized. */
  lemma BeforeEndRuns(w: World, h: Instr, live: seq<nat>, open: seq<nat>, st: State, base: multiset<nat>, fuel: nat)
    returns (base1: multiset<nat>)
    requires IsTerminated(h) && (h.Return? && h.src.Variable? ==> h.src.x in live)
    requires Conserved(st, base, live, open)
    ensures var o := Exec(w, BeforeEnd(h), st, fuel);
            o.Normal? && o.st.vars == st.vars && o.st.results == st.results && Conserved(o.st, base1, live, open)
    ensures base1 == if h.Return? && h.src.Variable? then base + multiset(VarCells(st, h.src.x)) else base
  {
    hide Held, HeldResults;
    base1 := base;
    if h.Return? && h.src.Variable? {
      var cells := VarCells(st, h.src.x);
      HeldBounds(st, live, h.src.x);
      CellsLive(st, cells);
      ExecSingle(w, Copy(h.src), st, fuel);
      var st1 := st.(counts := st.counts + multiset(cells));
      base1 := base + multiset(cells);
      HeldSame(st, st1, live);
      HeldResultsSame(st, st1, open);
      AddToBase(base, Held(st, live), HeldResults(st, open), multiset(cells));
    }
  }

  /** A run that was left, seen from a block with more ways out. */
  lemma LeftKeeps(o: Outcome, base: multiset<nat>, inLoop: bool, live: seq<nat>, open: seq<nat>, outer: seq<nat>,
      trail: Trail, ways: Ways, more: Ways)
    requires Keeps(o, base, inLoop, live, open, trail, ways) && !o.Normal?
    ensures Keeps(o, base, inLoop, outer, [], trail, Either(ways, more))
  {
    hide Conserved, LeftAt;
  }

  /** A run that went on after these cells were lost. */
  lemma OnKeeps(o: Outcome, base: multiset<nat>, inLoop: bool, outer: seq<nat>, lost: multiset<nat>, rest: Trail,
      ways: Ways, more: Ways)
    requires Keeps(o, base + lost, inLoop, outer, [], rest, more) && (ways.level ==> lost == multiset{})
    ensures Keeps(o, base, inLoop, outer, [], rest.(lost := lost + rest.lost), Either(ways, more))
  {
    hide Conserved, LeftAt;
    SumsAgree(base, lost, rest.lost);
  }

  lemma NormalKept(o: Outcome, base: multiset<nat>, inLoop: bool, live: seq<nat>, open: seq<nat>, trail: Trail,
      ways: Ways)
    requires Keeps(o, base, inLoop, live, open, trail, ways)
    ensures o.Normal? ==> Conserved(o.st, base + trail.lost, live, open)
    ensures ways.level ==> trail.lost == multiset{}
  {
  }

  /** A block, from any of its values on. */
  lemma {:induction false} BodyKeeps(w: World, s: seq<Instr>, scope: Scope, declared: seq<nat>, open: seq<nat>,
                                     st: State, base: multiset<nat>, fuel: nat)
    requires Ok(s, scope, declared, open) && Distinct(scope.outer + declared) && Distinct(open)
    requires Conserved(st, base, scope.outer + declared, open)
    ensures Keeps(Exec(w, Code(s, declared), st, fuel), base, scope.inLoop, scope.outer, [],
        TrailOf(w, s, scope.outer, declared, st, fuel), WaysOf(s, scope.outer, declared))
    decreases fuel, s, 3
  {
    hide Held, HeldResults, Exec, Expand, Expansion, InsertCounts, Conserved, LeftAt;
    if s == [] {
      EmptyKeeps(w, scope, declared, open, st, base, fuel);
    } else if IsTerminated(s[0]) {
      EndKeeps(w, s[0], scope, declared, open, st, base, fuel);
    } else {
      var live := scope.outer + declared;
      var declared' := declared + Declares(s[0]);
      ExpansionRight(s[0], s[1..]);
      ExecAppend(w, Expand(s[0], s[1..]), Code(s[1..], declared'), st, fuel);
      OneKeeps(w, s[0], s[1..], scope, live, open, st, base, fuel);
      var o := Exec(w, Expand(s[0], s[1..]), st, fuel);
      var one := TrailOne(w, s[0], s[1..], live, st, fuel);
      var ways, more := WaysOne(s[0], live), WaysOf(s[1..], scope.outer, declared');
      assert live + Declares(s[0]) == scope.outer + declared';
      hide Keeps;
      NormalKept(o, base, scope.inLoop, live + Declares(s[0]), Pending(s[0], s[1..], open), one, ways);
      if o.Normal? {
        BodyKeeps(w, s[1..], scope, declared', Pending(s[0], s[1..], open), o.st, base + one.lost, fuel);
        OnKeeps(Exec(w, Code(s[1..], declared'), o.st, fuel), base, scope.inLoop, scope.outer, one.lost,
          TrailOf(w, s[1..], scope.outer, declared', o.st, fuel), ways, more);
      } else {
        LeftKeeps(o, base, scope.inLoop, live + Declares(s[0]), Pending(s[0], s[1..], open), scope.outer, one, ways,
          more);
      }
    }
  }

  lemma EmptyKeeps(w: World, scope: Scope, declared: seq<nat>, open: seq<nat>, st: State, base: multiset<nat>,
      fuel: nat)
    requires open == [] && Distinct(scope.outer + declared) && Conserved(st, base, scope.outer + declared, open)
    ensures Keeps(Exec(w, Fins(declared), st, fuel), base, scope.inLoop, scope.outer, [],
        Trail(scope.outer, multiset{}), NOWHERE)
  {
    assert base + multiset{} == base;
    FinsRun(w, st, base, scope.outer, declared, open, fuel);
  }

  /** A function's run that is over left these counts, with those of the returned value on top. */
  ghost predicate Balanced(o: Outcome, base: multiset<nat>, globals: seq<nat>) {
    match o
    case Normal(st) => st.counts == base + Held(st, globals)
    case Returned(cells, st) => st.counts == base + Held(st, globals) + multiset(cells)
    case OutOfFuel => true
    case _ => false
  }

  /** What such a run left, when it has lost these cells and was left from under these variables. */
  ghost predicate Accounted(o: Outcome, base: multiset<nat>, globals: seq<nat>, trail: Trail) {
    match o
    case Normal(st) => st.counts == base + trail.lost + Held(st, globals)
    case Returned(cells, st) => globals <= trail.around && LeftAt(st, base + trail.lost, trail.around, cells)
    case OutOfFuel => true
    case _ => false
  }

  ghost predicate OkFunction(body: seq<Instr>, globals: seq<nat>) {
    Distinct(globals) && Ok(body, Scope(false, globals), [], [])
  }

  /** No block is left, by whatever way, from under a counted variable of a block that is left with it. */
  ghost predicate LeftLevel(body: seq<Instr>, globals: seq<nat>) {
    WaysOf(body, globals, []).level && WaysOf(body, globals, []).exits <= {globals}
  }

  /** The exact account of every run of a function body: nothing freed is touched and no count is taken twice,
      and when the body ends, what is counted beyond what was counted at entry is the cells of the value it
      returns, what the variables hold that are live around the Return it ended by, and what loops have lost
      that were left or continued from under variables of their bodies.  globals are variables that live on
      around the function. */
  lemma CountsAccounted(w: World, body: seq<Instr>, globals: seq<nat>, st: State, base: multiset<nat>, fuel: nat)
    requires OkFunction(body, globals) && st.counts == base + Held(st, globals)
    ensures var o := Exec(w, InsertCounts(body), st, fuel);
      var t := TrailOf(w, body, globals, [], st, fuel);
      && Accounted(o, base, globals, t)
      && (o.Normal? ==> (Balanced(o, base, globals) <==> t.lost == multiset{}))
  {
    hide Ok, InsertCounts, Exec;
    assert globals + [] == globals;
    InsertedRuns(w, body, st, fuel);
    BodyKeeps(w, body, Scope(false, globals), [], [], st, base, fuel);
    WaysOutside(body, globals, []);
    var o := Exec(w, InsertCounts(body), st, fuel);
    if o.Normal? {
      var lost := TrailOf(w, body, globals, [], st, fuel).lost;
      LostApart(base, Held(o.st, globals), multiset{}, multiset{}, lost);
    }
  }

  /** Reference counts are conserved over every run of a function body that leaves no block from under a
      counted variable: nothing freed is touched and no count is taken twice, and when the body ends its counts
      are those at entry, plus one for each cell of the value it returns. */
  lemma CountsConserved(w: World, body: seq<Instr>, globals: seq<nat>, st: State, base: multiset<nat>, fuel: nat)
    requires OkFunction(body, globals) && LeftLevel(body, globals)
    requires st.counts == base + Held(st, globals)
    ensures Balanced(Exec(w, InsertCounts(body), st, fuel), base, globals)
  {
    hide Ok, InsertCounts, Exec, WaysOf;
    assert globals + [] == globals && base + multiset{} == base;
    InsertedRuns(w, body, st, fuel);
    BodyKeeps(w, body, Scope(false, globals), [], [], st, base, fuel);
  }

  /** With nothing counted around the function: what it leaves is what it found. */
  lemma LocalCountsBalance(w: World, body: seq<Instr>, st: State, fuel: nat)
    requires OkFunction(body, []) && LeftLevel(body, [])
    ensures Balanced(Exec(w, InsertCounts(body), st, fuel), st.counts, [])
  {
    CountsConserved(w, body, [], st, st.counts, fuel);
  }

  // ---------- Returns under live variables ----------

  ghost predicate HoldNothing(st: State, xs: seq<nat>) {
    forall x :: x in xs ==> VarCells(st, x) == []
  }

  lemma {:induction false} HeldNothing(st: State, xs: seq<nat>)
    ensures Held(st, xs) == multiset{} <==> HoldNothing(st, xs)
  {
    if xs != [] {
      HeldNothing(st, xs[1..]);
      var cells := VarCells(st, xs[0]);
      assert cells != [] ==> cells[0] in multiset(cells);
      assert forall x :: x in xs <==> x == xs[0] || x in xs[1..];
    }
  }

  /** A run left by a Return leaves counted, beyond what it should, what the variables of the enclosing
      blocks hold that are live around that Return, and what its loops have lost: counts are conserved exactly
      if both are nothing. */
  lemma NestedReturnLeaks(w: World, body: seq<Instr>, globals: seq<nat>, st: State, base: multiset<nat>, fuel: nat)
    requires OkFunction(body, globals) && st.counts == base + Held(st, globals)
    requires Exec(w, InsertCounts(body), st, fuel).Returned?
    ensures var o := Exec(w, InsertCounts(body), st, fuel);
      var t := TrailOf(w, body, globals, [], st, fuel);
      && t.around in WaysOf(body, globals, []).exits && globals <= t.around
      && var enclosing := t.around[|globals|..];
         && o.st.counts == base + Held(o.st, globals) + multiset(o.cells) + (Held(o.st, enclosing) + t.lost)
         && (Balanced(o, base, globals) <==> HoldNothing(o.st, enclosing) && t.lost == multiset{})
  {
    hide Exec, Held, WaysOf, Ok, InsertCounts, Distinct;
    assert globals + [] == globals;
    NothingPending(st);
    InsertedRuns(w, body, st, fuel);
    BodyKeeps(w, body, Scope(false, globals), [], [], st, base, fuel);
    var o := Exec(w, InsertCounts(body), st, fuel);
    var t := TrailOf(w, body, globals, [], st, fuel);
    WaysOutside(body, globals, []);
    var enclosing := t.around[|globals|..];
    assert t.around == globals + enclosing;
    HeldAppend(o.st, globals, enclosing);
    HeldNothing(o.st, enclosing);
    LostApart(base, Held(o.st, globals), Held(o.st, enclosing), multiset(o.cells), t.lost);
  }

  lemma NothingPending(st: State)
    ensures Distinct<nat>([]) && HeldResults(st, []) == multiset{}
  {
  }

  lemma LostApart(base: multiset<nat>, globals: multiset<nat>, enclosing: multiset<nat>, cells: multiset<nat>,
      lost: multiset<nat>)
    ensures base + lost + (globals + enclosing) + cells == base + globals + cells + (enclosing + lost)
    ensures base + globals + cells + (enclosing + lost) == base + globals + cells
      <==> enclosing == multiset{} && lost == multiset{}
  {
    Surplus(base + globals + cells, enclosing + lost);
    if enclosing + lost == multiset{} {
      forall x ensures enclosing[x] == 0 && lost[x] == 0 {
        assert (enclosing + lost)[x] == enclosing[x] + lost[x];
      }
    }
  }

  lemma Surplus(a: multiset<nat>, b: multiset<nat>)
    ensures a + b == a <==> b == multiset{}
  {
    if a + b == a {
      forall x ensures b[x] == 0 {
        assert (a + b)[x] == a[x] + b[x];
      }
    }
  }

  /** A variable assigned to itself: the counted write crashes exactly when some cell has no holder but it,
      because the variable is finalized before its value is retained. */
  lemma SelfAssignment(w: World, st: State, x: nat, fuel: nat)
    requires multiset(VarCells(st, x)) <= st.counts
    ensures var cells := VarCells(st, x);
            Exec(w, InsertCounts([Write(x, Variable(x))]), st, fuel).Crash?
            <==> exists c :: c in cells && st.counts[c] == multiset(cells)[c]
  {
    var cells := VarCells(st, x);
    var st1 := st.(counts := st.counts - multiset(cells));
    InsertedRuns(w, [Write(x, Variable(x))], st, fuel);
    WriteCode(x, Variable(x));
    SelfWriteRuns(w, st, x, fuel);
    hide Exec, InsertCounts, Code;
    forall c | c in cells ensures st1.counts[c] == st.counts[c] - multiset(cells)[c] {
      assert c in multiset(cells);
    }
  }

  lemma SelfWriteRuns(w: World, st: State, x: nat, fuel: nat)
    requires multiset(VarCells(st, x)) <= st.counts
    ensures var cells := VarCells(st, x);
            var src := Variable(x);
            Exec(w, [Fin(x), Copy(src), Write(x, src)], st, fuel).Crash?
            <==> !AllLive(st.(counts := st.counts - multiset(cells)), cells)
  {
    hide Exec, AllLive;
    var cells := VarCells(st, x);
    var src := Variable(x);
    var code := [Fin(x), Copy(src), Write(x, src)];
    assert code == [Fin(x)] + [Copy(src), Write(x, src)];
    assert [Copy(src), Write(x, src)] == [Copy(src)] + [Write(x, src)];
    ExecThen(w, Fin(x), [Copy(src), Write(x, src)], st, fuel);
    var st1 := st.(counts := st.counts - multiset(cells));
    ExecThen(w, Copy(src), [Write(x, src)], st1, fuel);
    ExecSingle(w, Write(x, src), st1.(counts := st1.counts + multiset(cells)), fuel);
    assert VarCells(st1, x) == cells;
  }

  lemma WriteCode(x: nat, src: Source)
    requires src.Variable?
    ensures Code([Write(x, src)], []) == [Fin(x), Copy(src), Write(x, src)]
  {
    hide CopyReturns, CountWrites, InitLocals, DestroyCalls, FinalizeLocals, ScopeEach, Expand;
    var h := Write(x, src);
    ExpansionRight(h, []);
    assert [h][1..] == [] && [] + Declares(h) == [] && Fins([]) == [];
    assert Code([h], []) == Expand(h, []) + Code([], []);
  }

  /** The least such body: the run ends with the variable's cells still counted. */
  lemma NestedReturnExample(w: World, x: nat, st: State, fuel: nat)
    ensures var o := Exec(w, InsertCounts([Local(x), Nested([ReturnVoid])]), st, fuel);
            o.Returned? && o.cells == [] && o.st.counts == st.counts + multiset(w.made(st.tick))
    ensures var o := Exec(w, InsertCounts([Local(x), Nested([ReturnVoid])]), st, fuel);
            o.st.counts == st.counts <==> w.made(st.tick) == []
  {
    hide Exec, InsertCounts;
    LeakRuns(w, x, ReturnVoid, st, fuel);
    AddsNothing(st.counts, w.made(st.tick));
  }

  /** The least loop that is left so: each entry loses the cells of the variable of its body. */
  lemma NestedBreakExample(w: World, x: nat, st: State, fuel: nat)
    requires fuel > 0 && w.choose(st.tick)
    ensures var o := Exec(w, InsertCounts([For([Local(x), Nested([Break])])]), st, fuel);
            o.Normal? && o.st.counts == st.counts + multiset(w.made(st.tick + 1))
    ensures var o := Exec(w, InsertCounts([For([Local(x), Nested([Break])])]), st, fuel);
            o.st.counts == st.counts <==> w.made(st.tick + 1) == []
  {
    var body := [Local(x), Nested([Break])];
    hide Exec, InsertCounts;
    var st1 := st.(tick := st.tick + 1);
    InsertedRuns(w, [For(body)], st, fuel);
    ForCode(body);
    ExecSingle(w, For(InsertCounts(body)), st, fuel);
    NothingRuns(w, st, fuel - 1);
    LeakRuns(w, x, Break, st1, fuel - 1);
    AddsNothing(st.counts, w.made(st.tick + 1));
  }

  lemma ForCode(body: seq<Instr>)
    ensures Code([For(body)], []) == [For(InsertCounts(body))]
  {
    hide CopyReturns, CountWrites, InitLocals, DestroyCalls, FinalizeLocals, ScopeEach, Expand;
    var f := For(body);
    ExpansionRight(f, []);
    assert [f][1..] == [] && [] + Declares(f) == [] && Fins([]) == [];
    assert Code([f], []) == Expand(f, []) + Code([], []);
  }

  /** A variable, and a nested block that is left at once. */
  lemma LeakRuns(w: World, x: nat, end: Instr, st: State, fuel: nat)
    requires end.ReturnVoid? || end.Break?
    ensures Exec(w, InsertCounts([Local(x), Nested([end])]), st, fuel) == ExecOne(w, end, CellsAdded(w, x, st), fuel)
  {
    var body := [Local(x), Nested([end])];
    var inner := Nested(InsertCounts([end]));
    LeakCode(x, end);
    DeclareSteps(w, x, st, fuel);
    LeakSteps(w, end, fuel);
    hide Exec, ExecOne, Code, InsertCounts, CellsAdded;
    InsertedRuns(w, body, st, fuel);
    var st1 := CellsAdded(w, x, st);
    assert [Local(x), Init(x), inner, Fin(x)] == [Local(x)] + ([Init(x)] + ([inner] + [Fin(x)]));
    ExecThen(w, Local(x), [Init(x)] + ([inner] + [Fin(x)]), st, fuel);
    ExecThen(w, Init(x), [inner] + [Fin(x)], st, fuel);
    ExecThen(w, inner, [Fin(x)], st1, fuel);
    InsertedRuns(w, [end], st1, fuel);
    ExecSingle(w, end, st1, fuel);
  }

  lemma LeakSteps(w: World, end: Instr, fuel: nat)
    requires end.ReturnVoid? || end.Break?
    ensures forall st' :: !ExecOne(w, end, st', fuel).Normal?
    ensures forall b, st' :: ExecOne(w, Nested(b), st', fuel) == Exec(w, b, st', fuel)
  {
  }

  lemma FinsOne(x: nat)
    ensures Code([], [x]) == [Fin(x)]
  {
    assert [x][1..] == [];
    assert Fins([x][1..]) == [];
    assert Fins([x]) == [Fin(x)] + [];
  }

  lemma AddsNothing(counts: multiset<nat>, cells: Cells)
    ensures counts + multiset(cells) == counts <==> cells == []
  {
    if cells != [] {
      assert cells[0] in multiset(cells);
      assert (counts + multiset(cells))[cells[0]] > counts[cells[0]];
    }
  }

  lemma LeakCode(x: nat, end: Instr)
    requires end.ReturnVoid? || end.Break?
    ensures Code([Local(x), Nested([end])], []) == [Local(x), Init(x), Nested(InsertCounts([end])), Fin(x)]
    ensures Code([end], []) == [end]
  {
    hide CopyReturns, CountWrites, InitLocals, DestroyCalls, FinalizeLocals, ScopeEach;
    var n := Nested([end]);
    var body := [Local(x), n];
    LeakTail(x, end);
    assert body[1..] == [n];
    ExpansionRight(Local(x), [n]);
    assert [] + Declares(Local(x)) == [x];
    assert Code(body, []) == Expand(Local(x), [n]) + Code([n], [x]);
    NoFins(end);
  }

  lemma LeakTail(x: nat, end: Instr)
    ensures Code([Nested([end])], [x]) == [Nested(InsertCounts([end])), Fin(x)]
  {
    hide CopyReturns, CountWrites, InitLocals, DestroyCalls, FinalizeLocals, ScopeEach;
    var n := Nested([end]);
    assert [n][1..] == [];
    ExpansionRight(n, []);
    FinsOne(x);
    assert [x] + Declares(n) == [x];
    assert Code([n], [x]) == Expand(n, []) + Code([], [x]);
  }

  lemma NoFins(end: Instr)
    requires end.ReturnVoid? || end.Break?
    ensures Code([end], []) == [end]
  {
    assert Fins([]) == [];
  }
}
