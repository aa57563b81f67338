/** The main result on flattening. */
module FlattenTheorem {
  import opened I64
  import opened StructuredIr
  import opened Flatten
  import opened FlatMachine
  import opened FlattenCorrect
  import opened FlattenShape

  /** The structured body, given enough fuel, ends with outcome o. */
  ghost predicate EndsAs<S(!new)>(m: Meaning<S>, body: seq<Instr>, st: State<S>, o: Outcome<S>) {
    !o.OutOfFuel? && exists fuel: nat :: Exec(m, body, st, fuel) == o
  }

  /** The configuration in which a flat run of that outcome stops. */
  ghost predicate StopsAs<S>(code: seq<Instr>, c: Config<S>, o: Outcome<S>) {
    match o
    case Returned(value, st) => c == Halted(value, st)
    case Normal(st) => c.Running? && c.pc == |code| && c.st == st
    case _ => false
  }

  ghost predicate FlatEndsAs<S(!new)>(m: Meaning<S>, code: seq<Instr>, st: State<S>, o: Outcome<S>) {
    exists k: nat :: StopsAs(code, Run(m, code, Running(0, st, map[]), k), o)
  }

  lemma {:induction false} WholeAt(p: seq<Instr>, a: nat)
    requires a <= |p|
    ensures At(p, a, p[a..])
    decreases |p| - a
  {
    if a < |p| {
      WholeAt(p, a + 1);
      assert p[a..][1..] == p[a + 1..];
    }
  }

  /** One amount of fuel, followed in the flat list. */
  lemma FollowFlat<S>(m: Meaning<S>, body: seq<Instr>, st: State<S>, fuel: nat) returns (k: nat)
    requires Scoped(body, {}) && HostOnly(body)
    ensures var code := FlattenBody(body, 0).code;
            var o := Exec(m, body, st, fuel);
            var c := Run(m, code, Running(0, st, map[]), k);
            if o.OutOfFuel? then k >= fuel && !Final(code, c) else StopsAs(code, c, o)
  {
    hide At, UniqueLabels, LabelsOf, Scoped, HostOnly, Exec, Run;
    var code := FlattenBody(body, 0).code;
    var none: map<nat, Exits> := map[];
    FlattenShaped(body, {}, 0);
    FlattenLeavesOnly(body, {}, 0);
    PatchNothing(code, none, {});
    WholeAt(code, 0);
    assert code[0..] == code;
    assert none.Keys == {};
    k := SimBody(m, code, 0, body, 0, none, st, map[], fuel);
  }

  /** Flattening preserves meaning: the flat list stops exactly when the structured body does, and
      with the same outcome; so one diverges exactly when the other does. */
  lemma FlattenPreservesMeaning<S(!new)>(m: Meaning<S>, body: seq<Instr>, st: State<S>, o: Outcome<S>)
    requires Scoped(body, {}) && HostOnly(body)
    ensures EndsAs(m, body, st, o) <==> FlatEndsAs(m, FlattenBody(body, 0).code, st, o)
  {
    hide Exec, Run, Scoped, HostOnly, FlattenBody;
    var code := FlattenBody(body, 0).code;
    var start := Running(0, st, map[]);
    if EndsAs(m, body, st, o) {
      var fuel: nat :| Exec(m, body, st, fuel) == o;
      var k := FollowFlat(m, body, st, fuel);
    }
    if FlatEndsAs(m, code, st, o) {
      var k: nat :| StopsAs(code, Run(m, code, start, k), o);
      var k2 := FollowFlat(m, body, st, k + 1);
      var o2 := Exec(m, body, st, k + 1);
      if o2.OutOfFuel? {
        RunAdd(m, code, start, k, k2 - k);
        FinalStays(m, code, Run(m, code, start, k), k2 - k);
        assert false;
      }
      RunDeterministic(m, code, start, k, k2);
      assert o2 == o;
    }
  }

  /** A user state with a log of the values one index variable has been given. */
  datatype Logged<S> = Logged(user: S, seen: seq<i64>)

  /** The same instructions, with the writes of one index variable logged. */
  function LogIndex<S(!new)>(m: Meaning<S>, index: nat): Meaning<Logged<S>> {
    Meaning(
      (code: nat, s: Logged<S>) => s.(user := m.step(code, s.user)),
      (code: nat, s: Logged<S>) => m.test(code, s.user),
      (code: nat, s: Logged<S>) => m.number(code, s.user),
      (x: nat, i: i64, s: Logged<S>) =>
        Logged(m.putIndex(x, i, s.user), if x == index then s.seen + [i] else s.seen))
  }

  ghost predicate WritesIndex(body: seq<Instr>, index: nat)
    decreases body, 1
  {
    body != [] && (WritesIndexOne(body[0], index) || WritesIndex(body[1..], index))
  }

  ghost predicate WritesIndexOne(instr: Instr, index: nat)
    decreases instr, 0
  {
    match instr
    case Nested(body) => WritesIndex(body, index)
    case If(_, a, b) => WritesIndex(a, index) || WritesIndex(b, index)
    case While(_, c, _, b) => WritesIndex(c, index) || WritesIndex(b, index)
    case For(_, x, _, _, b, _) => x == index || WritesIndex(b, index)
    case _ => false
  }

  ghost predicate SameLog<S>(o: Outcome<Logged<S>>, seen: seq<i64>) {
    o.OutOfFuel? || o.st.user.seen == seen
  }

  lemma {:induction false} ExecKeepsLog<S(!new)>(m: Meaning<S>, index: nat, body: seq<Instr>, st: State<Logged<S>>,
      fuel: nat)
    requires !WritesIndex(body, index)
    ensures SameLog(Exec(LogIndex(m, index), body, st, fuel), st.user.seen)
    decreases fuel, body, 1
  {
    if body != [] {
      ExecOneKeepsLog(m, index, body[0], st, fuel);
      var o := ExecOne(LogIndex(m, index), body[0], st, fuel);
      if o.Normal? {
        ExecKeepsLog(m, index, body[1..], o.st, fuel);
      }
    }
  }

  lemma {:induction false} ExecOneKeepsLog<S(!new)>(m: Meaning<S>, index: nat, instr: Instr, st: State<Logged<S>>,
      fuel: nat)
    requires !WritesIndexOne(instr, index)
    ensures SameLog(ExecOne(LogIndex(m, index), instr, st, fuel), st.user.seen)
    decreases fuel, instr, 2
  {
    match instr
    case Nested(body) => ExecKeepsLog(m, index, body, st, fuel);
    case If(_, a, b) =>
      ExecKeepsLog(m, index, a, st, fuel);
      ExecKeepsLog(m, index, b, st, fuel);
    case While(_, _, _, _) => ExecWhileKeepsLog(m, index, instr, st, fuel);
    case For(_, _, first, last, _, _) =>
      ExecForKeepsLog(m, index, instr, Slot(st, first), Slot(st, last), st, fuel);
    case _ =>
  }

  lemma {:induction false} ExecWhileKeepsLog<S(!new)>(m: Meaning<S>, index: nat, w: Instr, st: State<Logged<S>>,
      fuel: nat)
    requires w.While? && !WritesIndexOne(w, index)
    ensures SameLog(ExecWhile(LogIndex(m, index), w, st, fuel), st.user.seen)
    decreases fuel, w, 0
  {
    if fuel > 0 {
      ExecKeepsLog(m, index, w.condBody, st, fuel - 1);
      var c := Exec(LogIndex(m, index), w.condBody, st, fuel - 1);
      if c.Normal? {
        ExecKeepsLog(m, index, w.body, c.st, fuel - 1);
        var b := Exec(LogIndex(m, index), w.body, c.st, fuel - 1);
        if !b.OutOfFuel? {
          ExecWhileKeepsLog(m, index, w, b.st, fuel - 1);
        }
      }
    }
  }

  lemma {:induction false} ExecForKeepsLog<S(!new)>(m: Meaning<S>, index: nat, f: Instr, i: i64, last: i64,
      st: State<Logged<S>>, fuel: nat)
    requires f.For? && !WritesIndexOne(f, index)
    ensures SameLog(ExecFor(LogIndex(m, index), f, i, last, st, fuel), st.user.seen)
    decreases fuel, f, 0
  {
    if fuel > 0 && i < last {
      var st1 := StepIndex(LogIndex(m, index), f.index, i, st);
      ExecKeepsLog(m, index, f.body, st1, fuel - 1);
      var b := Exec(LogIndex(m, index), f.body, st1, fuel - 1);
      if !b.OutOfFuel? {
        ExecForKeepsLog(m, index, f, i + 1, last, b.st, fuel - 1);
      }
    }
  }

  function Indices(i: i64, j: i64): seq<i64>
    decreases j - i
  {
    if i >= j then [] else [i] + Indices(i + 1, j)
  }

  /** A run of the body that ends in its loop's own Break, in that state. */
  ghost predicate BreaksIn<S(!new)>(m: Meaning<S>, f: Instr, st': State<S>)
    requires f.For?
  {
    exists st, fuel: nat :: Exec(m, f.body, st, fuel) == Broke(f.loop, st')
  }

  /** A `for` left early has run its body for the first indices of its range only; one that ends has run it
      for every index from i up to last, each once and in order, unless its body broke at the end. */
  lemma {:induction false} ForVisits<S(!new)>(m: Meaning<S>, f: Instr, i: i64, last: i64, st: State<Logged<S>>,
      fuel: nat)
    returns (j: i64)
    requires f.For? && !WritesIndex(f.body, f.index)
    ensures var o := ExecFor(LogIndex(m, f.index), f, i, last, st, fuel);
            !o.OutOfFuel? ==> i <= j && (j <= last || j == i) && o.st.user.seen == st.user.seen + Indices(i, j)
    ensures var o := ExecFor(LogIndex(m, f.index), f, i, last, st, fuel);
            o.Normal? ==> j == (if i <= last then last else i) || BreaksIn(LogIndex(m, f.index), f, o.st)
    decreases fuel
  {
    hide WritesIndex, Exec, Slot;
    var lm := LogIndex(m, f.index);
    j := i;
    if fuel > 0 && i < last {
      var st1 := StepIndex(lm, f.index, i, st);
      ExecKeepsLog(m, f.index, f.body, st1, fuel - 1);
      var b := Exec(lm, f.body, st1, fuel - 1);
      j := i + 1;
      assert Indices(i + 1, i + 1) == [];
      if b.Normal? || (b.Continued? && b.loop == f.loop) {
        j := ForVisits(m, f, i + 1, last, b.st, fuel - 1);
        if i < j {
          SeenThen(st.user.seen, i, j);
        }
      }
    }
  }

  lemma SeenThen(seen: seq<i64>, i: i64, j: i64)
    requires i < j
    ensures seen + [i] + Indices(i + 1, j) == seen + Indices(i, j)
  {
    assert seen + [i] + Indices(i + 1, j) == seen + ([i] + Indices(i + 1, j));
  }

  /** The same of the flat list, however the flattened `for` stops and for every pair of i64 bounds: its index
      variable has been given the first indices of [first, last), and all of them if it ended otherwise than
      by its own Break. */
  lemma FlatForVisits<S(!new)>(m: Meaning<S>, f: Instr, st: State<Logged<S>>, o: Outcome<Logged<S>>) returns (j: i64)
    requires f.For? && Scoped([f], {}) && HostOnly([f]) && !WritesIndex(f.body, f.index)
    requires FlatEndsAs(LogIndex(m, f.index), FlattenBody([f], 0).code, st, o)
    ensures o.Normal? || o.Returned?
    ensures var first, last := Slot(st, f.first), Slot(st, f.last);
      && first <= j && (j <= last || j == first)
      && o.st.user.seen == st.user.seen + Indices(first, j)
      && (o.Normal? ==> j == (if first <= last then last else first) || BreaksIn(LogIndex(m, f.index), f, o.st))
  {
    hide Exec, Scoped, HostOnly, WritesIndex, BreaksIn, Indices;
    var lm := LogIndex(m, f.index);
    var first, last := Slot(st, f.first), Slot(st, f.last);
    FlattenPreservesMeaning(lm, [f], st, o);
    var fuel: nat :| Exec(lm, [f], st, fuel) == o;
    OneLoop(lm, f, st, fuel);
    j := ForVisits(m, f, first, last, st, fuel);
  }

  lemma OneLoop<S>(m: Meaning<S>, f: Instr, st: State<S>, fuel: nat)
    requires f.For?
    ensures Exec(m, [f], st, fuel) == ExecFor(m, f, Slot(st, f.first), Slot(st, f.last), st, fuel)
  {
    var o := ExecOne(m, f, st, fuel);
    assert [f][1..] == [];
    if o.Normal? {
      assert Exec(m, [], o.st, fuel) == Normal(o.st);
    }
  }

  // ---------- bodies without a Break of the loop ----------

  predicate HasBreak(body: seq<Instr>, loop: nat)
    decreases body, 1
  {
    body != [] && (HasBreakOne(body[0], loop) || HasBreak(body[1..], loop))
  }

  predicate HasBreakOne(instr: Instr, loop: nat)
    decreases instr, 0
  {
    match instr
    case Break(l) => l == loop
    case Nested(body) => HasBreak(body, loop)
    case If(_, a, b) => HasBreak(a, loop) || HasBreak(b, loop)
    case While(_, c, _, b) => HasBreak(c, loop) || HasBreak(b, loop)
    case For(_, _, _, _, b, _) => HasBreak(b, loop)
    case _ => false
  }

  lemma {:induction false} NoBreak<S>(m: Meaning<S>, body: seq<Instr>, loop: nat, st: State<S>, fuel: nat)
    requires !HasBreak(body, loop)
    ensures var o := Exec(m, body, st, fuel); !(o.Broke? && o.loop == loop)
    decreases fuel, body, 1
  {
    if body != [] {
      NoBreakOne(m, body[0], loop, st, fuel);
      var o := ExecOne(m, body[0], st, fuel);
      if o.Normal? {
        NoBreak(m, body[1..], loop, o.st, fuel);
      }
    }
  }

  lemma {:induction false} NoBreakOne<S>(m: Meaning<S>, instr: Instr, loop: nat, st: State<S>, fuel: nat)
    requires !HasBreakOne(instr, loop)
    ensures var o := ExecOne(m, instr, st, fuel); !(o.Broke? && o.loop == loop)
    decreases fuel, instr, 2
  {
    match instr
    case Nested(body) => NoBreak(m, body, loop, st, fuel);
    case If(_, a, b) =>
      NoBreak(m, a, loop, st, fuel);
      NoBreak(m, b, loop, st, fuel);
    case While(_, _, _, _) => NoBreakWhile(m, instr, loop, st, fuel);
    case For(_, _, first, last, _, _) => NoBreakFor(m, instr, loop, Slot(st, first), Slot(st, last), st, fuel);
    case _ =>
  }

  lemma {:induction false} NoBreakWhile<S>(m: Meaning<S>, w: Instr, loop: nat, st: State<S>, fuel: nat)
    requires w.While? && !HasBreakOne(w, loop)
    ensures var o := ExecWhile(m, w, st, fuel); !(o.Broke? && o.loop == loop)
    decreases fuel, w, 0
  {
    if fuel > 0 {
      NoBreak(m, w.condBody, loop, st, fuel - 1);
      var c := Exec(m, w.condBody, st, fuel - 1);
      if c.Normal? {
        NoBreak(m, w.body, loop, c.st, fuel - 1);
        var b := Exec(m, w.body, c.st, fuel - 1);
        if b.Normal? || b.Continued? {
          NoBreakWhile(m, w, loop, b.st, fuel - 1);
        }
      }
    }
  }

  lemma {:induction false} NoBreakFor<S>(m: Meaning<S>, f: Instr, loop: nat, i: i64, last: i64, st: State<S>, fuel: nat)
    requires f.For? && !HasBreakOne(f, loop)
    ensures var o := ExecFor(m, f, i, last, st, fuel); !(o.Broke? && o.loop == loop)
    decreases fuel, f, 0
  {
    if fuel > 0 && i < last {
      var st1 := StepIndex(m, f.index, i, st);
      NoBreak(m, f.body, loop, st1, fuel - 1);
      var b := Exec(m, f.body, st1, fuel - 1);
      if b.Normal? || b.Continued? {
        NoBreakFor(m, f, loop, i + 1, last, b.st, fuel - 1);
      }
    }
  }

  /** Whenever a flattened `for` without a Break of its own runs to its end, its index variable has been given
      exactly the indices of [first, last). */
  lemma FlatForVisitsRange<S(!new)>(m: Meaning<S>, f: Instr, st: State<Logged<S>>, st': State<Logged<S>>)
    requires f.For? && Scoped([f], {}) && HostOnly([f]) && !WritesIndex(f.body, f.index) && !HasBreak(f.body, f.loop)
    requires FlatEndsAs(LogIndex(m, f.index), FlattenBody([f], 0).code, st, Normal(st'))
    ensures st'.user.seen == st.user.seen + Indices(Slot(st, f.first), Slot(st, f.last))
  {
    hide FlatEndsAs, Scoped, HostOnly, WritesIndex, HasBreak, Exec, FlattenBody;
    var lm := LogIndex(m, f.index);
    var j := FlatForVisits(m, f, st, Normal(st'));
    if BreaksIn(lm, f, st') {
      var st1, fuel: nat :| Exec(lm, f.body, st1, fuel) == Broke(f.loop, st');
      NoBreak(lm, f.body, f.loop, st1, fuel);
    }
  }
}
