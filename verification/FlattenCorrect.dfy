/** Flattening preserves meaning: the flat list run from its start ends exactly when the structured
    body does, and the same way. */
module FlattenCorrect {
  import opened I64
  import opened StructuredIr
  import opened Flatten
  import opened FlatMachine

  ghost predicate UniqueLabels(code: seq<Instr>) {
    code == [] ||
    (var last := code[|code| - 1];
     (last.Label? ==> last !in code[..|code| - 1]) && UniqueLabels(code[..|code| - 1]))
  }

  /** The list has the given code at position a. */
  ghost predicate At(p: seq<Instr>, a: nat, code: seq<Instr>)
    decreases |code|
  {
    code == [] || (a < |p| && p[a] == code[0] && At(p, a + 1, code[1..]))
  }

  lemma {:induction false} UniqueAt(p: seq<Instr>, i: nat, j: nat)
    requires UniqueLabels(p) && i < j < |p| && p[j].Label?
    ensures p[i] != p[j]
  {
    if j < |p| - 1 {
      UniqueAt(p[..|p| - 1], i, j);
    } else {
      assert p[i] in p[..|p| - 1];
    }
  }

  lemma FindAt(p: seq<Instr>, i: nat, name: nat)
    requires UniqueLabels(p) && i < |p| && p[i] == Label(name)
    ensures Find(p, name) == i
  {
    if Find(p, name) < i {
      UniqueAt(p, Find(p, name), i);
    }
  }

  lemma {:induction false} AtAppend(p: seq<Instr>, a: nat, x: seq<Instr>, y: seq<Instr>)
    requires At(p, a, x + y)
    ensures At(p, a, x) && At(p, a + |x|, y)
    decreases |x|
  {
    if x == [] {
      assert x + y == y;
    } else {
      assert (x + y)[1..] == x[1..] + y;
      AtAppend(p, a + 1, x[1..], y);
    }
  }

  lemma AtPatchAppend(p: seq<Instr>, a: nat, x: seq<Instr>, y: seq<Instr>, exits: map<nat, Exits>)
    requires At(p, a, Patch(x + y, exits))
    ensures At(p, a, Patch(x, exits)) && At(p, a + |x|, Patch(y, exits))
  {
    PatchAppend(x, y, exits);
    AtAppend(p, a, Patch(x, exits), Patch(y, exits));
  }

  lemma {:induction false} AtPosition(p: seq<Instr>, a: nat, code: seq<Instr>, i: nat)
    requires At(p, a, code) && i < |code|
    ensures a + i < |p| && p[a + i] == code[i]
    decreases i
  {
    if i > 0 {
      AtPosition(p, a + 1, code[1..], i - 1);
    }
  }

  lemma AtIndex(p: seq<Instr>, a: nat, code: seq<Instr>, exits: map<nat, Exits>, i: nat)
    requires At(p, a, Patch(code, exits)) && i < |code|
    ensures a + i < |p| && p[a + i] == PatchOne(code[i], exits)
  {
    AtPosition(p, a, Patch(code, exits), i);
  }

  lemma PatchTwice(code: seq<Instr>, loop: nat, inner: Exits, outer: map<nat, Exits>)
    ensures Patch(Patch(code, map[loop := inner]), outer) == Patch(code, outer[loop := inner])
  {
  }

  /** Counters outside [lo, hi) are untouched. */
  ghost predicate SameOutside(before: map<nat, i64>, after: map<nat, i64>, lo: nat, hi: nat) {
    forall c: nat :: c < lo || c >= hi ==> Count(before, c) == Count(after, c)
  }

  /** What the flat configuration reached looks like when the structured run had outcome o.
      Running out of fuel means the flat run took at least that many steps without ending. */
  ghost predicate Shows<S>(p: seq<Instr>, end: nat, lo: nat, hi: nat, exits: map<nat, Exits>,
                           counts: map<nat, i64>, o: Outcome<S>, fuel: nat, k: nat, c: Config<S>)
  {
    match o
    case OutOfFuel => k >= fuel && !Final(p, c)
    case Returned(value, st) => c == Halted(value, st)
    case Normal(st) => c.Running? && c.pc == end && c.st == st && SameOutside(counts, c.counts, lo, hi)
    case Broke(loop, st) =>
      loop in exits && c.Running? && c.pc == Find(p, exits[loop].onBreak) && c.st == st
      && SameOutside(counts, c.counts, lo, hi)
    case Continued(loop, st) =>
      loop in exits && c.Running? && c.pc == Find(p, exits[loop].onContinue) && c.st == st
      && SameOutside(counts, c.counts, lo, hi)
  }

  /** From a place a flat run reaches in j steps with the counters in [lo, mid) changed, what shows after k
      more steps shows after j + k. */
  lemma ShowsLater<S>(m: Meaning<S>, p: seq<Instr>, c0: Config<S>, j: nat, c1: Config<S>, k: nat, end: nat,
                      lo: nat, mid: nat, from: nat, hi: nat, exits: map<nat, Exits>, counts: map<nat, i64>,
                      o: Outcome<S>, fuel: nat)
    requires Run(m, p, c0, j) == c1 && c1.Running? && SameOutside(counts, c1.counts, lo, mid)
    requires lo <= mid <= hi && lo <= from <= hi
    requires Shows(p, end, from, hi, exits, c1.counts, o, fuel, k, Run(m, p, c1, k))
    ensures Shows(p, end, lo, hi, exits, counts, o, fuel, j + k, Run(m, p, c0, j + k))
  {
    RunAdd(m, p, c0, j, k);
    hide Run, Find;
  }

  /** What leaves a part of a body shows the same at the end of the whole, and outside a loop that it does
      not leave or continue. */
  lemma ShowsOutside<S>(p: seq<Instr>, end1: nat, hi1: nat, end2: nat, hi2: nat, lo: nat, exits: map<nat, Exits>,
                        loop: nat, own: Exits, counts: map<nat, i64>, o: Outcome<S>, fuel: nat, k: nat, c: Config<S>)
    requires hi1 <= hi2 && !o.Normal? && Shows(p, end1, lo, hi1, exits[loop := own], counts, o, fuel, k, c)
    requires !(o.Broke? && o.loop == loop) && !(o.Continued? && o.loop == loop)
    ensures Shows(p, end2, lo, hi2, exits, counts, o, fuel, k, c)
  {
    hide Find;
  }

  lemma ShowsWider<S>(p: seq<Instr>, end1: nat, hi1: nat, end2: nat, hi2: nat, lo: nat, exits: map<nat, Exits>,
                      counts: map<nat, i64>, o: Outcome<S>, fuel: nat, k: nat, c: Config<S>)
    requires hi1 <= hi2 && !o.Normal? && Shows(p, end1, lo, hi1, exits, counts, o, fuel, k, c)
    ensures Shows(p, end2, lo, hi2, exits, counts, o, fuel, k, c)
  {
    hide Find;
  }

  lemma ShowsNothing<S>(p: seq<Instr>, a: nat, n: nat, exits: map<nat, Exits>, counts: map<nat, i64>, st: State<S>,
                        fuel: nat)
    ensures Shows(p, a, n, n, exits, counts, Normal(st), fuel, 0, Running(a, st, counts))
  {
  }

  lemma ShowsNormal<S>(p: seq<Instr>, end: nat, lo: nat, hi: nat, exits: map<nat, Exits>, counts: map<nat, i64>,
                       o: Outcome<S>, fuel: nat, k: nat, c: Config<S>)
    requires o.Normal? && Shows(p, end, lo, hi, exits, counts, o, fuel, k, c)
    ensures c.Running? && c.pc == end && c.st == o.st && SameOutside(counts, c.counts, lo, hi)
  {
  }

  lemma {:induction false} SimBody<S>(m: Meaning<S>, p: seq<Instr>, a: nat, body: seq<Instr>, n: nat,
                                      exits: map<nat, Exits>, st: State<S>, counts: map<nat, i64>, fuel: nat)
    returns (k: nat)
    requires UniqueLabels(p) && Scoped(body, exits.Keys) && HostOnly(body)
    requires At(p, a, Patch(FlattenBody(body, n).code, exits))
    ensures var f := FlattenBody(body, n);
            Shows(p, a + |f.code|, n, f.next, exits, counts, Exec(m, body, st, fuel), fuel, k,
                  Run(m, p, Running(a, st, counts), k))
    decreases fuel, body, 3
  {
    hide At, UniqueLabels, FlattenOne, ExecOne, Run, Find, Shows, SameOutside;
    var start := Running(a, st, counts);
    if body == [] {
      NoStep(m, p, start);
      ShowsNothing(p, a, n, exits, counts, st, fuel);
      k := 0;
    } else {
      var head := FlattenOne(body[0], n);
      var tail := FlattenBody(body[1..], head.next);
      AtPatchAppend(p, a, head.code, tail.code, exits);
      k := SimOne(m, p, a, body[0], n, exits, st, counts, fuel);
      var o := ExecOne(m, body[0], st, fuel);
      var c := Run(m, p, start, k);
      var end := a + |head.code| + |tail.code|;
      if o.Normal? {
        ShowsNormal(p, a + |head.code|, n, head.next, exits, counts, o, fuel, k, c);
        var k2 := SimBody(m, p, a + |head.code|, body[1..], head.next, exits, o.st, c.counts, fuel);
        ShowsLater(m, p, start, k, c, k2, end, n, head.next, head.next, tail.next, exits, counts,
          Exec(m, body[1..], o.st, fuel), fuel);
        k := k + k2;
      } else {
        ShowsWider(p, a + |head.code|, head.next, end, tail.next, n, exits, counts, o, fuel, k, c);
      }
    }
  }

  lemma {:induction false} SimOne<S>(m: Meaning<S>, p: seq<Instr>, a: nat, instr: Instr, n: nat,
                                     exits: map<nat, Exits>, st: State<S>, counts: map<nat, i64>, fuel: nat)
    returns (k: nat)
    requires UniqueLabels(p) && ScopedOne(instr, exits.Keys) && HostOnlyOne(instr)
    requires At(p, a, Patch(FlattenOne(instr, n).code, exits))
    ensures var f := FlattenOne(instr, n);
            Shows(p, a + |f.code|, n, f.next, exits, counts, ExecOne(m, instr, st, fuel), fuel, k,
                  Run(m, p, Running(a, st, counts), k))
    decreases fuel, instr, 2
  {
    hide At, UniqueLabels, FlattenBody, Exec, ExecWhile, ExecFor, Scoped, HostOnly, Shows;
    match instr
    case Nested(body) => k := SimBody(m, p, a, body, n, exits, st, counts, fuel);
    case If(_, _, _) => k := SimIf(m, p, a, instr, n, exits, st, counts, fuel);
    case While(_, _, _, _) =>
      WhileLayout(p, a, instr, n, exits);
      var entry := FlattenBody(instr.body, FlattenBody(instr.condBody, n).next).next + 2;
      FindAt(p, a + 1, entry);
      OneStep(m, p, Running(a, st, counts));
      var k2 := SimWhile(m, p, a, instr, n, exits, st, counts, fuel);
      var f := FlattenOne(instr, n);
      SameItself(counts, n, n);
      ShowsLater(m, p, Running(a, st, counts), 1, Running(a + 1, st, counts), k2, a + |f.code|, n, n, n, f.next, exits,
        counts, ExecOne(m, instr, st, fuel), fuel);
      k := 1 + k2;
    case For(_, _, first, last, _, _) => k := SimForEntry(m, p, a, instr, n, exits, st, counts, fuel);
    case Op(_) => k := SimPlain(m, p, a, instr, n, exits, st, counts, fuel);
    case Capture(_, _) => k := SimPlain(m, p, a, instr, n, exits, st, counts, fuel);
    case Break(_) => k := SimPlain(m, p, a, instr, n, exits, st, counts, fuel);
    case Continue(_) => k := SimPlain(m, p, a, instr, n, exits, st, counts, fuel);
    case Return(_) => k := SimPlain(m, p, a, instr, n, exits, st, counts, fuel);
    case _ => assert false;
  }

  /** Values that are one step before and after. */
  lemma SimPlain<S>(m: Meaning<S>, p: seq<Instr>, a: nat, instr: Instr, n: nat,
                    exits: map<nat, Exits>, st: State<S>, counts: map<nat, i64>, fuel: nat)
    returns (k: nat)
    requires instr.Op? || instr.Capture? || instr.Break? || instr.Continue? || instr.Return?
    requires ScopedOne(instr, exits.Keys)
    requires At(p, a, Patch(FlattenOne(instr, n).code, exits))
    ensures var f := FlattenOne(instr, n);
            Shows(p, a + |f.code|, n, f.next, exits, counts, ExecOne(m, instr, st, fuel), fuel, k,
                  Run(m, p, Running(a, st, counts), k))
  {
    hide At, FlattenBody, Exec, ExecWhile, ExecFor, Run, Find;
    AtIndex(p, a, [instr], exits, 0);
    OneStep(m, p, Running(a, st, counts));
    k := 1;
  }

  lemma NoStep<S>(m: Meaning<S>, p: seq<Instr>, c: Config<S>)
    ensures Run(m, p, c, 0) == c
  {
  }

  lemma OneStep<S>(m: Meaning<S>, p: seq<Instr>, c: Config<S>)
    ensures Run(m, p, c, 1) == Step(m, p, c)
  {
    assert Run(m, p, Step(m, p, c), 0) == Step(m, p, c);
  }

  ghost predicate IfShape(p: seq<Instr>, a: nat, instr: Instr, n: nat, exits: map<nat, Exits>)
    requires instr.If?
  {
    var x := FlattenBody(instr.thenBody, n);
    var y := FlattenBody(instr.elseBody, x.next);
    var t := y.next;
    var e := a + 3 + |x.code|;
    && e + 3 + |y.code| <= |p|
    && p[a] == CondBranch(CondValue(instr.cond), ToLabel(t), ToLabel(t + 1))
    && p[a + 1] == Label(t)
    && At(p, a + 2, Patch(x.code, exits))
    && p[e - 1] == Jump(ToLabel(t + 2))
    && p[e] == Label(t + 1)
    && At(p, e + 1, Patch(y.code, exits))
    && p[e + 1 + |y.code|] == Jump(ToLabel(t + 2))
    && p[e + 2 + |y.code|] == Label(t + 2)
    && |FlattenOne(instr, n).code| == |x.code| + |y.code| + 6 && FlattenOne(instr, n).next == t + 3
  }

  lemma IfLayout(p: seq<Instr>, a: nat, instr: Instr, n: nat, exits: map<nat, Exits>)
    requires instr.If? && At(p, a, Patch(FlattenOne(instr, n).code, exits))
    ensures IfShape(p, a, instr, n, exits)
  {
    hide At, Patch, FlattenBody;
    var x := FlattenBody(instr.thenBody, n);
    var y := FlattenBody(instr.elseBody, x.next);
    var t := y.next;
    IfPieces(p, a, instr.cond, x.code, y.code, t, exits);
  }

  /** Where the pieces of a patched `if` lie. */
  lemma IfPieces(p: seq<Instr>, a: nat, cond: nat, yes: seq<Instr>, no: seq<Instr>, t: nat, exits: map<nat, Exits>)
    requires At(p, a, Patch(IfCode(cond, yes, no, t), exits))
    ensures var e := a + 3 + |yes|;
      && e + 3 + |no| <= |p|
      && p[a] == CondBranch(CondValue(cond), ToLabel(t), ToLabel(t + 1))
      && p[a + 1] == Label(t) && At(p, a + 2, Patch(yes, exits)) && p[e - 1] == Jump(ToLabel(t + 2))
      && p[e] == Label(t + 1) && At(p, e + 1, Patch(no, exits)) && p[e + 1 + |no|] == Jump(ToLabel(t + 2))
      && p[e + 2 + |no|] == Label(t + 2)
  {
    hide At, Patch;
    var b := [CondBranch(CondValue(cond), ToLabel(t), ToLabel(t + 1))];
    var u := [Label(t)] + yes + [Jump(ToLabel(t + 2))];
    var v := [Label(t + 1)] + no + [Jump(ToLabel(t + 2))];
    var w := [Label(t + 2)];
    AtPatchAppend(p, a, b + u + v, w, exits);
    AtPatchAppend(p, a, b + u, v, exits);
    AtPatchAppend(p, a, b, u, exits);
    AtIndex(p, a, b, exits, 0);
    AtIndex(p, a + |b + u + v|, w, exits, 0);
    Bracket(p, a + 1, Label(t), yes, Jump(ToLabel(t + 2)), exits);
    Bracket(p, a + |b + u|, Label(t + 1), no, Jump(ToLabel(t + 2)), exits);
  }

  lemma Bracket(p: seq<Instr>, a: nat, x: Instr, code: seq<Instr>, y: Instr, exits: map<nat, Exits>)
    requires At(p, a, Patch([x] + code + [y], exits))
    ensures a + 1 + |code| < |p|
    ensures p[a] == PatchOne(x, exits)
    ensures At(p, a + 1, Patch(code, exits))
    ensures p[a + 1 + |code|] == PatchOne(y, exits)
  {
    AtPatchAppend(p, a, [x] + code, [y], exits);
    AtPatchAppend(p, a, [x], code, exits);
    AtIndex(p, a, [x], exits, 0);
    AtIndex(p, a + 1 + |code|, [y], exits, 0);
  }

  /** A label passed on the way: one step, nothing changes. */
  lemma PassLabel<S>(m: Meaning<S>, p: seq<Instr>, pc: nat, name: nat, st: State<S>, counts: map<nat, i64>)
    requires pc < |p| && p[pc] == Label(name)
    ensures Run(m, p, Running(pc, st, counts), 1) == Running(pc + 1, st, counts)
  {
    OneStep(m, p, Running(pc, st, counts));
  }

  /** A jump to a label and past it: two steps. */
  lemma JumpPast<S>(m: Meaning<S>, p: seq<Instr>, pc: nat, name: nat, at: nat, st: State<S>, counts: map<nat, i64>)
    requires UniqueLabels(p) && pc < |p| && at < |p|
    requires p[pc] == Jump(ToLabel(name)) && p[at] == Label(name)
    ensures Run(m, p, Running(pc, st, counts), 2) == Running(at + 1, st, counts)
  {
    FindAt(p, at, name);
    OneStep(m, p, Running(pc, st, counts));
    PassLabel(m, p, at, name, st, counts);
    RunAdd(m, p, Running(pc, st, counts), 1, 1);
  }

  /** A taken branch to a label and past it: two steps. */
  lemma BranchPast<S>(m: Meaning<S>, p: seq<Instr>, pc: nat, name: nat, at: nat, st: State<S>, counts: map<nat, i64>)
    requires UniqueLabels(p) && pc < |p| && at < |p|
    requires p[pc].CondBranch? && p[at] == Label(name)
    requires (if Holds(m, p[pc].test, st, counts) then p[pc].onTrue else p[pc].onFalse) == ToLabel(name)
    ensures Run(m, p, Running(pc, st, counts), 2) == Running(at + 1, st, counts)
  {
    FindAt(p, at, name);
    OneStep(m, p, Running(pc, st, counts));
    PassLabel(m, p, at, name, st, counts);
    RunAdd(m, p, Running(pc, st, counts), 1, 1);
  }

  lemma {:induction false} SimIf<S>(m: Meaning<S>, p: seq<Instr>, a: nat, instr: Instr, n: nat,
                                    exits: map<nat, Exits>, st: State<S>, counts: map<nat, i64>, fuel: nat)
    returns (k: nat)
    requires instr.If? && UniqueLabels(p) && ScopedOne(instr, exits.Keys) && HostOnlyOne(instr)
    requires At(p, a, Patch(FlattenOne(instr, n).code, exits))
    ensures var f := FlattenOne(instr, n);
            Shows(p, a + |f.code|, n, f.next, exits, counts, ExecOne(m, instr, st, fuel), fuel, k,
                  Run(m, p, Running(a, st, counts), k))
    decreases fuel, instr, 0
  {
    hide At, UniqueLabels, FlattenOne, FlattenBody, Exec, Run, Step, Find, Scoped, HostOnly;
    IfLayout(p, a, instr, n, exits);
    var x := FlattenBody(instr.thenBody, n);
    var y := FlattenBody(instr.elseBody, x.next);
    var t := y.next;
    var start := Running(a, st, counts);
    var merge := a + 5 + |x.code| + |y.code|;
    var from, size, o;
    if m.test(instr.cond, st.user) {
      BranchPast(m, p, a, t, a + 1, st, counts);
      k := SimBody(m, p, a + 2, instr.thenBody, n, exits, st, counts, fuel);
      from, size, o := a + 2, |x.code|, Exec(m, instr.thenBody, st, fuel);
    } else {
      BranchPast(m, p, a, t + 1, a + 3 + |x.code|, st, counts);
      k := SimBody(m, p, a + 4 + |x.code|, instr.elseBody, x.next, exits, st, counts, fuel);
      from, size, o := a + 4 + |x.code|, |y.code|, Exec(m, instr.elseBody, st, fuel);
    }
    var c := Run(m, p, Running(from, st, counts), k);
    RunAdd(m, p, start, 2, k);
    k := 2 + k;
    if o.Normal? {
      JumpPast(m, p, from + size, t + 2, merge, o.st, c.counts);
      RunAdd(m, p, start, k, 2);
      k := k + 2;
    }
  }

  ghost predicate WhileShape(p: seq<Instr>, a: nat, w: Instr, n: nat, exits: map<nat, Exits>)
    requires w.While?
  {
    var x := FlattenBody(w.condBody, n);
    var y := FlattenBody(w.body, x.next);
    var t := y.next;
    var inner := exits[w.loop := Exits(t + 1, t + 2)];
    var e := a + 4 + |x.code|;
    && e + 2 + |y.code| <= |p|
    && p[a] == Jump(ToLabel(t + 2))
    && p[a + 1] == Label(t + 2)
    && At(p, a + 2, Patch(x.code, inner))
    && p[e - 2] == CondBranch(CondValue(w.cond), ToLabel(t), ToLabel(t + 1))
    && p[e - 1] == Label(t)
    && At(p, e, Patch(y.code, inner))
    && p[e + |y.code|] == Jump(ToLabel(t + 2))
    && p[e + 1 + |y.code|] == Label(t + 1)
    && |FlattenOne(w, n).code| == |x.code| + |y.code| + 6 && FlattenOne(w, n).next == t + 3
  }

  lemma WhileLayout(p: seq<Instr>, a: nat, w: Instr, n: nat, exits: map<nat, Exits>)
    requires w.While? && At(p, a, Patch(FlattenOne(w, n).code, exits))
    ensures WhileShape(p, a, w, n, exits)
  {
    hide At, Patch, FlattenBody;
    var x := FlattenBody(w.condBody, n);
    var y := FlattenBody(w.body, x.next);
    var t := y.next;
    var inner := exits[w.loop := Exits(t + 1, t + 2)];
    PatchTwice(WhileRaw(x.code, w.cond, y.code, t), w.loop, Exits(t + 1, t + 2), exits);
    WhilePieces(p, a, x.code, w.cond, y.code, t, inner);
  }

  /** Where the pieces of a patched `while` lie. */
  lemma WhilePieces(p: seq<Instr>, a: nat, test: seq<Instr>, cond: nat, code: seq<Instr>, t: nat,
                    inner: map<nat, Exits>)
    requires At(p, a, Patch(WhileRaw(test, cond, code, t), inner))
    ensures var e := a + 3 + |test|;
      && e + 3 + |code| <= |p|
      && p[a] == Jump(ToLabel(t + 2)) && p[a + 1] == Label(t + 2)
      && At(p, a + 2, Patch(test, inner))
      && p[e - 1] == CondBranch(CondValue(cond), ToLabel(t), ToLabel(t + 1))
      && p[e] == Label(t) && At(p, e + 1, Patch(code, inner))
      && p[e + 1 + |code|] == Jump(ToLabel(t + 2)) && p[e + 2 + |code|] == Label(t + 1)
  {
    hide At, Patch;
    var j := [Jump(ToLabel(t + 2)), Label(t + 2)];
    var b := [CondBranch(CondValue(cond), ToLabel(t), ToLabel(t + 1))];
    var u := test + b;
    var v := [Label(t)] + code + [Jump(ToLabel(t + 2))];
    var l := [Label(t + 1)];
    AtPatchAppend(p, a, j + u + v, l, inner);
    AtPatchAppend(p, a, j + u, v, inner);
    AtPatchAppend(p, a, j, u, inner);
    AtPatchAppend(p, a + 2, test, b, inner);
    AtIndex(p, a, j, inner, 0);
    AtIndex(p, a, j, inner, 1);
    AtIndex(p, a + 2 + |test|, b, inner, 0);
    AtIndex(p, a + |j + u + v|, l, inner, 0);
    Bracket(p, a + |j + u|, Label(t), code, Jump(ToLabel(t + 2)), inner);
  }

  lemma PatchFewer(code: seq<Instr>, loop: nat, inner: Exits, exits: map<nat, Exits>)
    requires AllLeaveOnly(code, exits.Keys) && loop !in exits
    ensures Patch(code, exits[loop := inner]) == Patch(code, exits)
  {
  }

  /** A `while` from its condition label. */
  lemma {:induction false} SimWhile<S>(m: Meaning<S>, p: seq<Instr>, a: nat, w: Instr, n: nat,
                                       exits: map<nat, Exits>, st: State<S>, counts: map<nat, i64>, fuel: nat)
    returns (k: nat)
    requires w.While? && UniqueLabels(p) && ScopedOne(w, exits.Keys) && HostOnlyOne(w)
    requires At(p, a, Patch(FlattenOne(w, n).code, exits))
    ensures var f := FlattenOne(w, n);
            Shows(p, a + |f.code|, n, f.next, exits, counts, ExecWhile(m, w, st, fuel), fuel, k,
                  Run(m, p, Running(a + 1, st, counts), k))
    decreases fuel, w, 1
  {
    hide At, UniqueLabels, FlattenOne, FlattenBody, Exec, Run, Step, Find, Scoped, HostOnly;
    WhileLayout(p, a, w, n, exits);
    if fuel == 0 {
      NoStep(m, p, Running(a + 1, st, counts));
      k := 0;
    } else {
      var x := FlattenBody(w.condBody, n);
      var t := FlattenBody(w.body, x.next).next;
      var start := Running(a + 1, st, counts);
      PassLabel(m, p, a + 1, t + 2, st, counts);
      FlattenLeavesOnly(w.condBody, exits.Keys, n);
      PatchFewer(x.code, w.loop, Exits(t + 1, t + 2), exits);
      k := SimBody(m, p, a + 2, w.condBody, n, exits, st, counts, fuel - 1);
      var cc := Run(m, p, Running(a + 2, st, counts), k);
      RunAdd(m, p, start, 1, k);
      k := 1 + k;
      var c := Exec(m, w.condBody, st, fuel - 1);
      if c.Normal? {
        var kb := SimWhileTest(m, p, a, w, n, exits, c.st, cc.counts, fuel);
        RunAdd(m, p, start, k, kb);
        k := k + kb;
      }
    }
  }

  /** After a body that ended normally or by the loop's own Continue, the run is back at the loop's
      condition label. */
  lemma BackToEntry<S>(m: Meaning<S>, p: seq<Instr>, jumpAt: nat, entryAt: nat, lo: nat, hi: nat,
                       exits: map<nat, Exits>, loop: nat, counts: map<nat, i64>, o: Outcome<S>, fuel: nat,
                       start: Config<S>, k: nat) returns (k': nat)
    requires UniqueLabels(p) && jumpAt < |p| && entryAt < |p| && loop in exits
    requires p[jumpAt] == Jump(ToLabel(exits[loop].onContinue)) && p[entryAt] == Label(exits[loop].onContinue)
    requires Shows(p, jumpAt, lo, hi, exits, counts, o, fuel, k, Run(m, p, start, k))
    requires o.Normal? || (o.Continued? && o.loop == loop)
    ensures k' >= k
    ensures var c := Run(m, p, start, k');
            c.Running? && c.pc == entryAt && c.st == o.st && SameOutside(counts, c.counts, lo, hi)
  {
    hide UniqueLabels, Run, Find;
    k' := k;
    FindAt(p, entryAt, exits[loop].onContinue);
    if o.Normal? {
      OneStep(m, p, Run(m, p, start, k));
      RunAdd(m, p, start, k, 1);
      k' := k + 1;
    }
  }

  /** After a body that left by the loop's own Break, the run is just past the loop. */
  lemma PastLoop<S>(m: Meaning<S>, p: seq<Instr>, leaveAt: nat, lo: nat, hi: nat,
                    exits: map<nat, Exits>, loop: nat, counts: map<nat, i64>, o: Outcome<S>, fuel: nat,
                    start: Config<S>, k: nat)
    requires UniqueLabels(p) && leaveAt < |p| && loop in exits && p[leaveAt] == Label(exits[loop].onBreak)
    requires o.Broke? && o.loop == loop
    requires o.st == Run(m, p, start, k).st
    requires Run(m, p, start, k).Running? && Run(m, p, start, k).pc == Find(p, exits[loop].onBreak)
    ensures Run(m, p, start, k + 1) == Running(leaveAt + 1, o.st, Run(m, p, start, k).counts)
  {
    hide UniqueLabels, Run, Find;
    FindAt(p, leaveAt, exits[loop].onBreak);
    PassLabel(m, p, leaveAt, exits[loop].onBreak, o.st, Run(m, p, start, k).counts);
    RunAdd(m, p, start, k, 1);
  }

  /** What a `while` does once its condition has been computed. */
  function AfterCondition<S>(m: Meaning<S>, w: Instr, st: State<S>, fuel: nat): Outcome<S>
    requires w.While? && fuel > 0
  {
    if !m.test(w.cond, st.user) then Normal(st)
    else
      match Exec(m, w.body, st, fuel - 1)
      case Normal(st2) => ExecWhile(m, w, st2, fuel - 1)
      case Continued(loop, st2) =>
        if loop == w.loop then ExecWhile(m, w, st2, fuel - 1) else Continued(loop, st2)
      case Broke(loop, st2) => if loop == w.loop then Normal(st2) else Broke(loop, st2)
      case o => o
  }

  /** A `while` from the branch on its condition. */
  lemma {:induction false} SimWhileTest<S>(m: Meaning<S>, p: seq<Instr>, a: nat, w: Instr, n: nat,
                                           exits: map<nat, Exits>, st: State<S>, counts: map<nat, i64>, fuel: nat)
    returns (k: nat)
    requires w.While? && fuel > 0 && UniqueLabels(p) && ScopedOne(w, exits.Keys) && HostOnlyOne(w)
    requires At(p, a, Patch(FlattenOne(w, n).code, exits))
    ensures var f := FlattenOne(w, n);
            Shows(p, a + |f.code|, n, f.next, exits, counts, AfterCondition(m, w, st, fuel), fuel - 1, k,
                  Run(m, p, Running(a + 2 + |FlattenBody(w.condBody, n).code|, st, counts), k))
    decreases fuel, w, 0
  {
    hide At, UniqueLabels, FlattenOne, FlattenBody, Exec, ExecWhile, Run, Step, Find, Scoped, HostOnly, Shows,
      SameOutside;
    WhileLayout(p, a, w, n, exits);
    var x := FlattenBody(w.condBody, n);
    var y := FlattenBody(w.body, x.next);
    var t := y.next;
    var own := Exits(t + 1, t + 2);
    var inner := exits[w.loop := own];
    var e := a + 4 + |x.code|;
    var end := e + 2 + |y.code|;
    var start := Running(e - 2, st, counts);
    SameItself(counts, n, n);
    if !m.test(w.cond, st.user) {
      BranchPast(m, p, e - 2, t + 1, e + 1 + |y.code|, st, counts);
      ShowsPast(p, end, n, n, t + 3, exits, counts, st, fuel - 1, 2, Run(m, p, start, 2), counts);
      k := 2;
    } else {
      BranchPast(m, p, e - 2, t, e - 1, st, counts);
      assert inner.Keys == exits.Keys + {w.loop};
      var kb := SimBody(m, p, e, w.body, x.next, inner, st, counts, fuel - 1);
      var b := Exec(m, w.body, st, fuel - 1);
      ShowsLater(m, p, start, 2, Running(e, st, counts), kb, e + |y.code|, n, n, x.next, t, inner, counts, b, fuel - 1);
      k := 2 + kb;
      if b.Normal? || (b.Continued? && b.loop == w.loop) {
        k := BackToEntry(m, p, e + |y.code|, a + 1, n, t, inner, w.loop, counts, b, fuel - 1, start, k);
        var cb := Run(m, p, start, k);
        var kw := SimWhile(m, p, a, w, n, exits, b.st, cb.counts, fuel - 1);
        ShowsLater(m, p, start, k, cb, kw, end, n, t, n, t + 3, exits, counts,
          ExecWhile(m, w, b.st, fuel - 1), fuel - 1);
        k := k + kw;
      } else if b.Broke? && b.loop == w.loop {
        var c := Run(m, p, start, k);
        ShowsBroke(p, e + |y.code|, n, t, inner, counts, b, fuel - 1, k, c);
        PastLoop(m, p, e + 1 + |y.code|, n, t, inner, w.loop, counts, b, fuel - 1, start, k);
        ShowsPast(p, end, n, t, t + 3, exits, counts, b.st, fuel - 1, k + 1, Run(m, p, start, k + 1), c.counts);
        k := k + 1;
      } else {
        ShowsOutside(p, e + |y.code|, t, end, t + 3, n, exits, w.loop, own, counts, b, fuel - 1, k,
          Run(m, p, start, k));
      }
    }
  }

  ghost predicate ForShape(p: seq<Instr>, a: nat, f: Instr, n: nat, exits: map<nat, Exits>)
    requires f.For? && !f.gpu
  {
    var y := FlattenBody(f.body, n);
    var t := y.next;
    var inner := exits[f.loop := Exits(t + 1, t + 2)];
    var e := a + 7;
    && e + 2 + |y.code| <= |p|
    && p[a] == StartCount(t + 3, f.first)
    && p[a + 1] == Jump(ToLabel(t + 2))
    && p[a + 2] == Label(t + 2)
    && p[a + 3] == BumpCount(t + 3)
    && p[a + 4] == CondBranch(CountLess(t + 3, f.last), ToLabel(t), ToLabel(t + 1))
    && p[a + 5] == Label(t)
    && p[a + 6] == WriteIndex(f.index, t + 3)
    && At(p, e, Patch(y.code, inner))
    && p[e + |y.code|] == Jump(ToLabel(t + 2))
    && p[e + 1 + |y.code|] == Label(t + 1)
    && |FlattenOne(f, n).code| == |y.code| + 9 && FlattenOne(f, n).next == t + 4
  }

  lemma ForSize(p: seq<Instr>, a: nat, f: Instr, n: nat, exits: map<nat, Exits>)
    requires f.For? && !f.gpu && ForShape(p, a, f, n, exits)
    ensures |FlattenOne(f, n).code| == |FlattenBody(f.body, n).code| + 9
    ensures FlattenOne(f, n).next == FlattenBody(f.body, n).next + 4
    ensures a + 9 + |FlattenBody(f.body, n).code| <= |p|
  {
  }

  lemma ForLayout(p: seq<Instr>, a: nat, f: Instr, n: nat, exits: map<nat, Exits>)
    requires f.For? && !f.gpu && At(p, a, Patch(FlattenOne(f, n).code, exits))
    ensures ForShape(p, a, f, n, exits)
  {
    hide At, Patch, FlattenBody;
    var y := FlattenBody(f.body, n);
    var t := y.next;
    var inner := exits[f.loop := Exits(t + 1, t + 2)];
    PatchTwice(ForRaw(f.index, f.first, f.last, y.code, t), f.loop, Exits(t + 1, t + 2), exits);
    ForPieces(p, a, f.index, f.first, f.last, y.code, t, inner);
  }

  /** Where the pieces of a patched `for` lie. */
  lemma ForPieces(p: seq<Instr>, a: nat, index: nat, first: nat, last: nat, code: seq<Instr>, t: nat,
                  inner: map<nat, Exits>)
    requires At(p, a, Patch(ForRaw(index, first, last, code, t), inner))
    ensures a + 9 + |code| <= |p|
    ensures p[a] == StartCount(t + 3, first) && p[a + 1] == Jump(ToLabel(t + 2))
    ensures p[a + 2] == Label(t + 2) && p[a + 3] == BumpCount(t + 3)
    ensures p[a + 4] == CondBranch(CountLess(t + 3, last), ToLabel(t), ToLabel(t + 1))
    ensures p[a + 5] == Label(t) && p[a + 6] == WriteIndex(index, t + 3)
    ensures At(p, a + 7, Patch(code, inner))
    ensures p[a + 7 + |code|] == Jump(ToLabel(t + 2)) && p[a + 8 + |code|] == Label(t + 1)
  {
    hide At, Patch;
    var h := [StartCount(t + 3, first), Jump(ToLabel(t + 2)), Label(t + 2), BumpCount(t + 3),
              CondBranch(CountLess(t + 3, last), ToLabel(t), ToLabel(t + 1))];
    var i := [Label(t), WriteIndex(index, t + 3)];
    var v := i + code + [Jump(ToLabel(t + 2))];
    var l := [Label(t + 1)];
    AtPatchAppend(p, a, h + v, l, inner);
    AtPatchAppend(p, a, h, v, inner);
    HeadAt(p, a, h, inner);
    AtIndex(p, a + |h + v|, l, inner, 0);
    ForBodyAt(p, a + 5, i, code, Jump(ToLabel(t + 2)), inner);
  }

  lemma ForBodyAt(p: seq<Instr>, a: nat, i: seq<Instr>, code: seq<Instr>, j: Instr, exits: map<nat, Exits>)
    requires |i| == 2 && At(p, a, Patch(i + code + [j], exits))
    ensures a + 2 + |code| < |p|
    ensures p[a] == PatchOne(i[0], exits) && p[a + 1] == PatchOne(i[1], exits)
    ensures At(p, a + 2, Patch(code, exits))
    ensures p[a + 2 + |code|] == PatchOne(j, exits)
  {
    AtPatchAppend(p, a, i + code, [j], exits);
    AtPatchAppend(p, a, i, code, exits);
    AtIndex(p, a, i, exits, 0);
    AtIndex(p, a, i, exits, 1);
    AtIndex(p, a + 2 + |code|, [j], exits, 0);
  }

  lemma HeadAt(p: seq<Instr>, a: nat, h: seq<Instr>, exits: map<nat, Exits>)
    requires |h| == 5 && At(p, a, Patch(h, exits))
    ensures a + 4 < |p|
    ensures p[a] == PatchOne(h[0], exits) && p[a + 1] == PatchOne(h[1], exits)
         && p[a + 2] == PatchOne(h[2], exits) && p[a + 3] == PatchOne(h[3], exits)
         && p[a + 4] == PatchOne(h[4], exits)
  {
    AtIndex(p, a, h, exits, 0);
    AtIndex(p, a, h, exits, 1);
    AtIndex(p, a, h, exits, 2);
    AtIndex(p, a, h, exits, 3);
    AtIndex(p, a, h, exits, 4);
  }

  /** A `for` from its start: the counter is set one below the first index, whatever that wraps to. */
  lemma {:induction false} SimForEntry<S>(m: Meaning<S>, p: seq<Instr>, a: nat, f: Instr, n: nat,
                                          exits: map<nat, Exits>, st: State<S>, counts: map<nat, i64>, fuel: nat)
    returns (k: nat)
    requires f.For? && UniqueLabels(p) && ScopedOne(f, exits.Keys) && HostOnlyOne(f)
    requires At(p, a, Patch(FlattenOne(f, n).code, exits))
    ensures var g := FlattenOne(f, n);
            Shows(p, a + |g.code|, n, g.next, exits, counts, ExecOne(m, f, st, fuel), fuel, k,
                  Run(m, p, Running(a, st, counts), k))
    decreases fuel, f, 1
  {
    hide At, UniqueLabels, FlattenOne, FlattenBody, Exec, ExecFor, Run, Find, Scoped, HostOnly, Shows;
    ForLayout(p, a, f, n, exits);
    var t := FlattenBody(f.body, n).next;
    var start := Running(a, st, counts);
    var first, last := Slot(st, f.first), Slot(st, f.last);
    var before: int := first;
    var counts1 := counts[t + 3 := Wrap(before - 1)];
    PreDecrementWrapsBack(first);
    FindAt(p, a + 2, t + 2);
    OneStep(m, p, start);
    OneStep(m, p, Running(a + 1, st, counts1));
    RunAdd(m, p, start, 1, 1);
    k := SimFor(m, p, a, f, n, exits, first, last, st, counts1, fuel);
    ShowsLater(m, p, start, 2, Running(a + 2, st, counts1), k, a + |FlattenOne(f, n).code|, n, t + 4, n, t + 4, exits,
      counts, ExecFor(m, f, first, last, st, fuel), fuel);
    k := 2 + k;
  }

  /** From its condition label a `for` bumps its counter and is either past the loop or at the
      body, with the index variable written. */
  lemma ForHead<S>(m: Meaning<S>, p: seq<Instr>, a: nat, f: Instr, n: nat, exits: map<nat, Exits>,
                   i: i64, st: State<S>, counts: map<nat, i64>)
    requires f.For? && !f.gpu && UniqueLabels(p) && ForShape(p, a, f, n, exits)
    requires Wrap(Count(counts, FlattenBody(f.body, n).next + 3) + 1) == i
    ensures var y := FlattenBody(f.body, n);
            var counts1 := counts[y.next + 3 := i];
            if i < Slot(st, f.last) then
              Run(m, p, Running(a + 2, st, counts), 5) == Running(a + 7, StepIndex(m, f.index, i, st), counts1)
            else
              Run(m, p, Running(a + 2, st, counts), 4) == Running(a + 9 + |y.code|, st, counts1)
  {
    hide UniqueLabels, FlattenOne, FlattenBody, Run, Find, At;
    var y := FlattenBody(f.body, n);
    var t := y.next;
    var start := Running(a + 2, st, counts);
    var counts1 := counts[t + 3 := i];
    PassLabel(m, p, a + 2, t + 2, st, counts);
    OneStep(m, p, Running(a + 3, st, counts));
    RunAdd(m, p, start, 1, 1);
    RunAdd(m, p, start, 2, 2);
    if i < Slot(st, f.last) {
      BranchPast(m, p, a + 4, t, a + 5, st, counts1);
      OneStep(m, p, Running(a + 6, st, counts1));
      RunAdd(m, p, start, 4, 1);
    } else {
      BranchPast(m, p, a + 4, t + 1, a + 8 + |y.code|, st, counts1);
    }
  }

  /** A `for` from its condition label, with index i the next one. */
  lemma {:induction false} SimFor<S>(m: Meaning<S>, p: seq<Instr>, a: nat, f: Instr, n: nat,
                                     exits: map<nat, Exits>, i: i64, last: i64, st: State<S>,
                                     counts: map<nat, i64>, fuel: nat)
    returns (k: nat)
    requires f.For? && UniqueLabels(p) && ScopedOne(f, exits.Keys) && HostOnlyOne(f)
    requires At(p, a, Patch(FlattenOne(f, n).code, exits))
    requires Slot(st, f.last) == last
    requires Wrap(Count(counts, FlattenBody(f.body, n).next + 3) + 1) == i
    ensures var g := FlattenOne(f, n);
            Shows(p, a + |g.code|, n, g.next, exits, counts, ExecFor(m, f, i, last, st, fuel), fuel, k,
                  Run(m, p, Running(a + 2, st, counts), k))
    decreases fuel, f, 0
  {
    hide At, UniqueLabels, FlattenOne, FlattenBody, Exec, Run, Find, Scoped, HostOnly, Step, ForShape;
    ForLayout(p, a, f, n, exits);
    ForSize(p, a, f, n, exits);
    var start := Running(a + 2, st, counts);
    if fuel == 0 {
      NoStep(m, p, start);
      k := 0;
    } else {
      ForHead(m, p, a, f, n, exits, i, st, counts);
      var counts1 := counts[FlattenBody(f.body, n).next + 3 := i];
      if i >= last {
        k := 4;
      } else {
        k := SimForBody(m, p, a, f, n, exits, i, last, StepIndex(m, f.index, i, st), counts1, fuel);
        RunAdd(m, p, start, 5, k);
        k := 5 + k;
      }
    }
  }

  /** What a `for` does once its index variable has been written. */
  function AfterIndex<S>(m: Meaning<S>, f: Instr, i: i64, last: i64, st: State<S>, fuel: nat): Outcome<S>
    requires f.For? && fuel > 0 && i < last
  {
    match Exec(m, f.body, st, fuel - 1)
    case Normal(st2) => ExecFor(m, f, i + 1, last, st2, fuel - 1)
    case Continued(loop, st2) =>
      if loop == f.loop then ExecFor(m, f, i + 1, last, st2, fuel - 1) else Continued(loop, st2)
    case Broke(loop, st2) => if loop == f.loop then Normal(st2) else Broke(loop, st2)
    case o => o
  }

  lemma {:induction false} SimForBody<S>(m: Meaning<S>, p: seq<Instr>, a: nat, f: Instr, n: nat,
                                         exits: map<nat, Exits>, i: i64, last: i64, st: State<S>,
                                         counts: map<nat, i64>, fuel: nat)
    returns (k: nat)
    requires f.For? && UniqueLabels(p) && ScopedOne(f, exits.Keys) && HostOnlyOne(f)
    requires At(p, a, Patch(FlattenOne(f, n).code, exits))
    requires fuel > 0 && i < last && Slot(st, f.last) == last
    requires Count(counts, FlattenBody(f.body, n).next + 3) == i
    ensures var g := FlattenOne(f, n);
            Shows(p, a + |g.code|, n, g.next, exits, counts, AfterIndex(m, f, i, last, st, fuel), fuel - 1, k,
                  Run(m, p, Running(a + 7, st, counts), k))
    decreases fuel - 1, f, 1
  {
    hide At, UniqueLabels, FlattenOne, FlattenBody, Exec, ExecFor, Run, Step, Find, Scoped, HostOnly, Shows,
      SameOutside;
    ForLayout(p, a, f, n, exits);
    var y := FlattenBody(f.body, n);
    var t := y.next;
    var own := Exits(t + 1, t + 2);
    var inner := exits[f.loop := own];
    var e, end := a + 7, a + 9 + |y.code|;
    var start := Running(e, st, counts);
    assert inner.Keys == exits.Keys + {f.loop};
    k := SimBody(m, p, e, f.body, n, inner, st, counts, fuel - 1);
    var b := Exec(m, f.body, st, fuel - 1);
    ExecKeepsSlot(m, f.body, st, fuel - 1, f.last);
    if b.Normal? || (b.Continued? && b.loop == f.loop) {
      k := BackToEntry(m, p, e + |y.code|, a + 2, n, t, inner, f.loop, counts, b, fuel - 1, start, k);
      var cb := Run(m, p, start, k);
      CountSame(counts, cb.counts, n, t, t + 3);
      var kw := SimFor(m, p, a, f, n, exits, i + 1, last, b.st, cb.counts, fuel - 1);
      ShowsLater(m, p, start, k, cb, kw, end, n, t, n, t + 4, exits, counts, ExecFor(m, f, i + 1, last, b.st, fuel - 1),
        fuel - 1);
      k := k + kw;
    } else if b.Broke? && b.loop == f.loop {
      var c := Run(m, p, start, k);
      ShowsBroke(p, e + |y.code|, n, t, inner, counts, b, fuel - 1, k, c);
      PastLoop(m, p, e + 1 + |y.code|, n, t, inner, f.loop, counts, b, fuel - 1, start, k);
      ShowsPast(p, end, n, t, t + 4, exits, counts, b.st, fuel - 1, k + 1, Run(m, p, start, k + 1), c.counts);
      k := k + 1;
    } else {
      ShowsOutside(p, e + |y.code|, t, end, t + 4, n, exits, f.loop, own, counts, b, fuel - 1, k, Run(m, p, start, k));
    }
  }

  lemma SameItself(counts: map<nat, i64>, lo: nat, hi: nat)
    ensures SameOutside(counts, counts, lo, hi)
  {
  }

  lemma CountSame(before: map<nat, i64>, after: map<nat, i64>, lo: nat, hi: nat, c: nat)
    requires SameOutside(before, after, lo, hi) && c >= hi
    ensures Count(after, c) == Count(before, c)
  {
  }

  lemma ShowsBroke<S>(p: seq<Instr>, end: nat, lo: nat, hi: nat, exits: map<nat, Exits>, counts: map<nat, i64>,
                      o: Outcome<S>, fuel: nat, k: nat, c: Config<S>)
    requires o.Broke? && Shows(p, end, lo, hi, exits, counts, o, fuel, k, c)
    ensures o.loop in exits && c.Running? && c.pc == Find(p, exits[o.loop].onBreak) && c.st == o.st
    ensures SameOutside(counts, c.counts, lo, hi)
  {
  }

  lemma ShowsPast<S>(p: seq<Instr>, end: nat, lo: nat, mid: nat, hi: nat, exits: map<nat, Exits>,
                     counts: map<nat, i64>, st: State<S>, fuel: nat, k: nat, c: Config<S>, after: map<nat, i64>)
    requires mid <= hi && SameOutside(counts, after, lo, mid) && c == Running(end, st, after)
    ensures Shows(p, end, lo, hi, exits, counts, Normal(st), fuel, k, c)
  {
  }
}
