/** The shape of every flattened list: labels are distinct, every label follows a branch, and every
    branch goes to a label of the list. */
module FlattenShape {
  import opened StructuredIr
  import opened Flatten
  import opened FlatMachine
  import opened FlattenCorrect

  predicate IsBranch(instr: Instr) {
    instr.Jump? || instr.CondBranch?
  }

  predicate TargetIn(t: Target, labels: set<nat>) {
    t.ToLabel? && t.name in labels
  }

  predicate GoesWithin(instr: Instr, labels: set<nat>) {
    match instr
    case Jump(t) => TargetIn(t, labels)
    case CondBranch(_, t, f) => TargetIn(t, labels) && TargetIn(f, labels)
    case _ => true
  }

  ghost predicate AllGoWithin(code: seq<Instr>, labels: set<nat>) {
    forall i :: 0 <= i < |code| ==> GoesWithin(code[i], labels)
  }

  /** No fall-through reaches a label: the value before it is a branch. */
  ghost predicate LabelsAfterBranches(code: seq<Instr>) {
    forall i :: 0 <= i < |code| && code[i].Label? ==> i > 0 && IsBranch(code[i - 1])
  }

  ghost predicate Within(labels: set<nat>, lo: nat, hi: nat) {
    forall l :: l in labels ==> lo <= l < hi
  }

  lemma LabelsAppend(a: seq<Instr>, b: seq<Instr>)
    ensures LabelsOf(a + b) == LabelsOf(a) + LabelsOf(b)
  {
    forall l | l in LabelsOf(a) ensures l in LabelsOf(a + b) {
      var i :| 0 <= i < |a| && a[i].Label? && a[i].id == l;
      assert (a + b)[i] == a[i];
    }
    forall l | l in LabelsOf(b) ensures l in LabelsOf(a + b) {
      var i :| 0 <= i < |b| && b[i].Label? && b[i].id == l;
      assert (a + b)[|a| + i] == b[i];
    }
    forall l | l in LabelsOf(a + b) ensures l in LabelsOf(a) + LabelsOf(b) {
      var i :| 0 <= i < |a + b| && (a + b)[i].Label? && (a + b)[i].id == l;
      if i < |a| {
        assert a[i].Label?;
      } else {
        assert b[i - |a|].Label?;
      }
    }
  }

  lemma {:induction false} UniqueAppend(a: seq<Instr>, b: seq<Instr>)
    requires UniqueLabels(a) && UniqueLabels(b) && LabelsOf(a) !! LabelsOf(b)
    ensures UniqueLabels(a + b)
    decreases |b|
  {
    if b == [] {
      assert a + b == a;
    } else {
      var b', last := b[..|b| - 1], b[|b| - 1];
      assert (a + b)[..|a + b| - 1] == a + b';
      assert b' + [last] == b;
      LabelsAppend(b', [last]);
      UniqueAppend(a, b');
      if last.Label? {
        assert last.id in LabelsOf(b);
      }
    }
  }

  /** Neat code: what every flattened list is, with its labels drawn from [lo, hi). */
  ghost predicate Neat(code: seq<Instr>, labels: set<nat>) {
    UniqueLabels(code) && LabelsOf(code) == labels && LabelsAfterBranches(code)
  }

  lemma NeatAppend(a: seq<Instr>, b: seq<Instr>, la: set<nat>, lb: set<nat>)
    requires Neat(a, la) && Neat(b, lb) && la !! lb
    ensures Neat(a + b, la + lb)
  {
    LabelsAppend(a, b);
    UniqueAppend(a, b);
  }

  /** A label with the branch that precedes it. */
  lemma NeatPair(branch: Instr, name: nat)
    requires IsBranch(branch)
    ensures Neat([branch, Label(name)], {name})
  {
    var p := [branch, Label(name)];
    assert p[..1] == [branch] && p[..1][..0] == [];
    assert p[1] == Label(name);
    assert UniqueLabels([branch]);
    assert UniqueLabels(p);
  }

  lemma {:induction false} NeatPlain(code: seq<Instr>)
    requires forall i :: 0 <= i < |code| ==> !code[i].Label?
    ensures Neat(code, {})
    decreases |code|
  {
    if code != [] {
      NeatPlain(code[..|code| - 1]);
    }
  }

  lemma {:induction false} NeatPatch(code: seq<Instr>, exits: map<nat, Exits>, labels: set<nat>)
    requires Neat(code, labels)
    ensures Neat(Patch(code, exits), labels)
  {
    var r := Patch(code, exits);
    UniquePatch(code, exits);
    forall l | l in labels ensures l in LabelsOf(r) {
      var i :| 0 <= i < |code| && code[i].Label? && code[i].id == l;
      assert r[i] == code[i];
    }
    forall l | l in LabelsOf(r) ensures l in labels {
      var i :| 0 <= i < |r| && r[i].Label? && r[i].id == l;
      assert r[i] == code[i];
    }
  }

  lemma {:induction false} UniquePatch(code: seq<Instr>, exits: map<nat, Exits>)
    requires UniqueLabels(code)
    ensures UniqueLabels(Patch(code, exits))
    decreases |code|
  {
    if code != [] {
      var n := |code| - 1;
      UniquePatch(code[..n], exits);
      assert Patch(code, exits)[..n] == Patch(code[..n], exits);
      forall i | 0 <= i < n && code[n].Label? ensures Patch(code[..n], exits)[i] != code[n] {
        assert code[..n][i] in code[..n];
      }
    }
  }

  lemma PatchGoesWithin(code: seq<Instr>, exits: map<nat, Exits>, labels: set<nat>)
    requires AllGoWithin(code, labels)
    requires forall l :: l in exits ==> exits[l].onBreak in labels && exits[l].onContinue in labels
    ensures AllGoWithin(Patch(code, exits), labels)
  {
  }

  /** What flattening promises of the list it makes from labels n up to next. */
  ghost predicate Shaped(code: seq<Instr>, lo: nat, hi: nat) {
    Neat(code, LabelsOf(code)) && Within(LabelsOf(code), lo, hi) && AllGoWithin(code, LabelsOf(code))
  }

  lemma {:induction false} FlattenShaped(body: seq<Instr>, loops: set<nat>, n: nat)
    requires Scoped(body, loops) && HostOnly(body)
    ensures Shaped(FlattenBody(body, n).code, n, FlattenBody(body, n).next)
    decreases body, 1
  {
    hide FlattenOne;
    if body == [] {
      NeatPlain([]);
      assert LabelsOf([]) == {};
    } else {
      FlattenOneShaped(body[0], loops, n);
      var a := FlattenOne(body[0], n);
      FlattenShaped(body[1..], loops, a.next);
      var b := FlattenBody(body[1..], a.next);
      ShapedAppend(a.code, b.code, n, a.next, b.next);
    }
  }

  lemma ShapedAppend(a: seq<Instr>, b: seq<Instr>, lo: nat, mid: nat, hi: nat)
    requires lo <= mid <= hi && Shaped(a, lo, mid) && Shaped(b, mid, hi)
    ensures Shaped(a + b, lo, hi)
  {
    NeatAppend(a, b, LabelsOf(a), LabelsOf(b));
  }

  lemma {:induction false} FlattenOneShaped(instr: Instr, loops: set<nat>, n: nat)
    requires ScopedOne(instr, loops) && HostOnlyOne(instr)
    ensures Shaped(FlattenOne(instr, n).code, n, FlattenOne(instr, n).next)
    decreases instr, 0
  {
    hide FlattenBody;
    match instr
    case Nested(body) => FlattenShaped(body, loops, n);
    case If(cond, thenBody, elseBody) =>
      FlattenShaped(thenBody, loops, n);
      var a := FlattenBody(thenBody, n);
      FlattenShaped(elseBody, loops, a.next);
      var b := FlattenBody(elseBody, a.next);
      IfShaped(cond, a.code, b.code, n, a.next, b.next);
    case While(loop, condBody, cond, body) =>
      FlattenShaped(condBody, loops, n);
      var a := FlattenBody(condBody, n);
      FlattenShaped(body, loops + {loop}, a.next);
      var b := FlattenBody(body, a.next);
      WhileShaped(loop, a.code, cond, b.code, n, a.next, b.next);
    case For(loop, index, first, last, body, gpu) =>
      FlattenShaped(body, loops + {loop}, n);
      var b := FlattenBody(body, n);
      ForShaped(loop, index, first, last, b.code, n, b.next);
    case Op(_) => PlainShaped(instr, n);
    case Capture(_, _) => PlainShaped(instr, n);
    case Break(_) => PlainShaped(instr, n);
    case Continue(_) => PlainShaped(instr, n);
    case Return(_) => PlainShaped(instr, n);
    case _ => assert false;
  }

  lemma PlainShaped(instr: Instr, n: nat)
    requires !instr.Label? && !IsBranch(instr)
    ensures Shaped([instr], n, n)
  {
    NeatPlain([instr]);
    assert LabelsOf([instr]) == {};
  }

  /** Two pieces of code between three branch-and-label pairs. */
  lemma Braid(p: seq<Instr>, a: seq<Instr>, q: seq<Instr>, b: seq<Instr>, r: seq<Instr>,
              lp: nat, lq: nat, lr: nat)
    requires |p| >= 2 && |q| == 2 && |r| == 2
    requires Neat(p, {lp}) && Neat(q, {lq}) && Neat(r, {lr})
    requires lp != lq && lp != lr && lq != lr
    requires Neat(a, LabelsOf(a)) && Neat(b, LabelsOf(b)) && LabelsOf(a) !! LabelsOf(b)
    requires {lp, lq, lr} !! LabelsOf(a) && {lp, lq, lr} !! LabelsOf(b)
    ensures Neat(p + a + q + b + r, LabelsOf(a) + LabelsOf(b) + {lp, lq, lr})
  {
    hide UniqueLabels, LabelsOf, LabelsAfterBranches;
    var la, lb := LabelsOf(a), LabelsOf(b);
    NeatAppend(p, a, {lp}, la);
    NeatAppend(p + a, q, {lp} + la, {lq});
    NeatAppend(p + a + q, b, {lp} + la + {lq}, lb);
    NeatAppend(p + a + q + b, r, {lp} + la + {lq} + lb, {lr});
    assert {lp} + la + {lq} + lb + {lr} == la + lb + {lp, lq, lr};
  }

  lemma GoWithinMore(code: seq<Instr>, labels: set<nat>, more: set<nat>)
    requires AllGoWithin(code, labels) && labels <= more
    ensures AllGoWithin(code, more)
  {
    forall i | 0 <= i < |code| ensures GoesWithin(code[i], more) {
      assert GoesWithin(code[i], labels);
    }
  }

  lemma GoWithinAppend(a: seq<Instr>, b: seq<Instr>, labels: set<nat>)
    requires AllGoWithin(a, labels) && AllGoWithin(b, labels)
    ensures AllGoWithin(a + b, labels)
  {
    forall i | 0 <= i < |a + b| ensures GoesWithin((a + b)[i], labels) {
      if i < |a| {
        assert GoesWithin(a[i], labels);
      } else {
        assert GoesWithin(b[i - |a|], labels);
      }
    }
  }

  /** The same braid, with its branches going to the braid's own labels. */
  lemma BraidShaped(p: seq<Instr>, a: seq<Instr>, q: seq<Instr>, b: seq<Instr>, r: seq<Instr>,
                    lp: nat, lq: nat, lr: nat, lo: nat, mid: nat, hi: nat)
    requires |p| >= 2 && |q| == 2 && |r| == 2
    requires Neat(p, {lp}) && Neat(q, {lq}) && Neat(r, {lr})
    requires lo <= mid <= hi && Shaped(a, lo, mid) && Shaped(b, mid, hi)
    requires {lp, lq, lr} == {hi, hi + 1, hi + 2} && lp != lq && lp != lr && lq != lr
    requires AllGoWithin(p, {lp, lq, lr}) && AllGoWithin(q, {lp, lq, lr}) && AllGoWithin(r, {lp, lq, lr})
    ensures Shaped(p + a + q + b + r, lo, hi + 3)
    ensures {lp, lq, lr} <= LabelsOf(p + a + q + b + r)
  {
    hide UniqueLabels, LabelsAfterBranches, GoesWithin;
    Braid(p, a, q, b, r, lp, lq, lr);
    var code := p + a + q + b + r;
    var labels := LabelsOf(code);
    assert labels == LabelsOf(a) + LabelsOf(b) + {lp, lq, lr};
    BraidGoes(p, a, q, b, r, {lp, lq, lr}, labels);
    assert Within({lp, lq, lr}, lo, hi + 3);
  }

  lemma BraidGoes(p: seq<Instr>, a: seq<Instr>, q: seq<Instr>, b: seq<Instr>, r: seq<Instr>,
                  own: set<nat>, labels: set<nat>)
    requires own <= labels && LabelsOf(a) <= labels && LabelsOf(b) <= labels
    requires AllGoWithin(p, own) && AllGoWithin(q, own) && AllGoWithin(r, own)
    requires AllGoWithin(a, LabelsOf(a)) && AllGoWithin(b, LabelsOf(b))
    ensures AllGoWithin(p + a + q + b + r, labels)
  {
    hide LabelsOf, AllGoWithin;
    GoWithinMore(p, own, labels);
    GoWithinMore(q, own, labels);
    GoWithinMore(r, own, labels);
    GoWithinMore(a, LabelsOf(a), labels);
    GoWithinMore(b, LabelsOf(b), labels);
    GoWithinAppend(p, a, labels);
    GoWithinAppend(p + a, q, labels);
    GoWithinAppend(p + a + q, b, labels);
    GoWithinAppend(p + a + q + b, r, labels);
  }

  lemma IfShaped(cond: nat, a: seq<Instr>, b: seq<Instr>, lo: nat, mid: nat, t: nat)
    requires lo <= mid <= t && Shaped(a, lo, mid) && Shaped(b, mid, t)
    ensures Shaped(IfCode(cond, a, b, t), lo, t + 3)
  {
    hide UniqueLabels, LabelsOf, LabelsAfterBranches, Neat, Within;
    var branch := CondBranch(CondValue(cond), ToLabel(t), ToLabel(t + 1));
    var p := [branch, Label(t)];
    var q := [Jump(ToLabel(t + 2)), Label(t + 1)];
    var r := [Jump(ToLabel(t + 2)), Label(t + 2)];
    NeatPair(branch, t);
    NeatPair(Jump(ToLabel(t + 2)), t + 1);
    NeatPair(Jump(ToLabel(t + 2)), t + 2);
    BraidShaped(p, a, q, b, r, t, t + 1, t + 2, lo, mid, t);
    assert p == [branch] + [Label(t)];
    assert IfCode(cond, a, b, t) == p + a + q + b + r;
  }

  lemma WhileShaped(loop: nat, a: seq<Instr>, cond: nat, b: seq<Instr>, lo: nat, mid: nat, t: nat)
    requires lo <= mid <= t && Shaped(a, lo, mid) && Shaped(b, mid, t)
    ensures Shaped(WhileCode(loop, a, cond, b, t), lo, t + 3)
  {
    hide UniqueLabels, LabelsOf, LabelsAfterBranches, Neat, Within;
    var branch := CondBranch(CondValue(cond), ToLabel(t), ToLabel(t + 1));
    var p := [Jump(ToLabel(t + 2)), Label(t + 2)];
    var q := [branch, Label(t)];
    var r := [Jump(ToLabel(t + 2)), Label(t + 1)];
    NeatPair(Jump(ToLabel(t + 2)), t + 2);
    NeatPair(branch, t);
    NeatPair(Jump(ToLabel(t + 2)), t + 1);
    BraidShaped(p, a, q, b, r, t + 2, t, t + 1, lo, mid, t);
    assert WhileRaw(a, cond, b, t) == p + a + q + b + r;
    PatchShaped(WhileRaw(a, cond, b, t), LoopExits(loop, t), lo, t + 3);
  }

  lemma PatchShaped(raw: seq<Instr>, exits: map<nat, Exits>, lo: nat, hi: nat)
    requires Shaped(raw, lo, hi)
    requires forall l :: l in exits ==> exits[l].onBreak in LabelsOf(raw) && exits[l].onContinue in LabelsOf(raw)
    ensures Shaped(Patch(raw, exits), lo, hi)
  {
    NeatPatch(raw, exits, LabelsOf(raw));
    PatchGoesWithin(raw, exits, LabelsOf(raw));
  }

  lemma ForShaped(loop: nat, index: nat, first: nat, last: nat, b: seq<Instr>, lo: nat, t: nat)
    requires lo <= t && Shaped(b, lo, t)
    ensures Shaped(ForCode(loop, index, first, last, b, t), lo, t + 4)
  {
    hide UniqueLabels, LabelsOf, LabelsAfterBranches, Within;
    var branch := CondBranch(CountLess(t + 3, last), ToLabel(t), ToLabel(t + 1));
    var s := [StartCount(t + 3, first)];
    var p := s + [Jump(ToLabel(t + 2)), Label(t + 2)];
    var a := [BumpCount(t + 3)];
    var q := [branch, Label(t)];
    var w := [WriteIndex(index, t + 3)];
    var r := [Jump(ToLabel(t + 2)), Label(t + 1)];
    NeatPlain(s);
    NeatPair(Jump(ToLabel(t + 2)), t + 2);
    NeatAppend(s, [Jump(ToLabel(t + 2)), Label(t + 2)], {}, {t + 2});
    assert {} + {t + 2} == {t + 2};
    NeatPair(branch, t);
    NeatPair(Jump(ToLabel(t + 2)), t + 1);
    PlainShaped(a[0], lo);
    PlainShaped(w[0], lo);
    ShapedAppend(w, b, lo, lo, t);
    BraidShaped(p, a, q, w + b, r, t + 2, t, t + 1, lo, lo, t);
    assert ForRaw(index, first, last, b, t) == p + a + q + (w + b) + r;
    var raw := ForRaw(index, first, last, b, t);
    PatchShaped(raw, LoopExits(loop, t), lo, t + 3);
    WithinMore(LabelsOf(Patch(raw, LoopExits(loop, t))), lo, t + 3, t + 4);
  }

  lemma WithinMore(labels: set<nat>, lo: nat, hi: nat, more: nat)
    requires Within(labels, lo, hi) && hi <= more
    ensures Within(labels, lo, more)
  {
  }
}
