/** What a run takes from the bindings of parameters is only what they read as. */
module InlineBindings {
  import opened InlineIr

  /** Where a parameter reads as something, the other binding of it reads the same, whatever the memory. */
  ghost predicate Covers<V, W(!new)>(m: Meaning<V, W>, bs: seq<Binding<V>>, cs: seq<Binding<V>>) {
    |bs| == |cs| && forall i: nat, w: W :: i < |bs| ==> CoversAt(m, bs, cs, i, w)
  }

  ghost predicate CoversAt<V, W>(m: Meaning<V, W>, bs: seq<Binding<V>>, cs: seq<Binding<V>>, i: nat, w: W) {
    var none := Frame(map[], map[]);
    Eval(m, Param(i), none, bs, w).Some? ==> Eval(m, Param(i), none, cs, w) == Eval(m, Param(i), none, bs, w)
  }

  lemma ParamFrame<V, W>(m: Meaning<V, W>, i: nat, fr: Frame<V>, t: Frame<V>, bs: seq<Binding<V>>, w: W)
    ensures Eval(m, Param(i), fr, bs, w) == Eval(m, Param(i), t, bs, w)
  {
  }

  lemma {:induction false} CoversEval<V, W(!new)>(m: Meaning<V, W>, o: Operand, fr: Frame<V>, bs: seq<Binding<V>>,
      cs: seq<Binding<V>>, w: W)
    requires Covers(m, bs, cs)
    ensures Eval(m, o, fr, bs, w).Some? ==> Eval(m, o, fr, cs, w) == Eval(m, o, fr, bs, w)
    decreases o
  {
    match o
    case Cell(_, base) => CoversEval(m, base, fr, bs, cs, w);
    case Value(_) =>
    case Local(_) =>
    case Param(i) =>
      var none: Frame<V> := Frame(map[], map[]);
      if i < |bs| {
        assert CoversAt(m, bs, cs, i, w);
        ParamFrame(m, i, fr, none, bs, w);
        ParamFrame(m, i, fr, none, cs, w);
      }
  }

  lemma {:induction false} CoversEvalAll<V, W(!new)>(m: Meaning<V, W>, os: seq<Operand>, fr: Frame<V>,
      bs: seq<Binding<V>>, cs: seq<Binding<V>>, w: W)
    requires Covers(m, bs, cs)
    ensures EvalAll(m, os, fr, bs, w).Some? ==> EvalAll(m, os, fr, cs, w) == EvalAll(m, os, fr, bs, w)
    decreases |os|
  {
    if os != [] {
      CoversEval(m, os[0], fr, bs, cs, w);
      CoversEvalAll(m, os[1..], fr, bs, cs, w);
    }
  }

  /** Arguments that read the same bind the same. */
  ghost predicate ReadsAs<V, W(!new)>(m: Meaning<V, W>, os: seq<Operand>, fr: Frame<V>, bs: seq<Binding<V>>,
      ps: seq<Operand>, t: Frame<V>, cs: seq<Binding<V>>)
  {
    |os| == |ps| && forall k: nat, w: W :: k < |os| ==> ReadsAt(m, os[k], fr, bs, ps[k], t, cs, w)
  }

  ghost predicate ReadsAt<V, W>(m: Meaning<V, W>, o: Operand, fr: Frame<V>, bs: seq<Binding<V>>, p: Operand,
      t: Frame<V>, cs: seq<Binding<V>>, w: W)
  {
    Eval(m, o, fr, bs, w).Some? ==> Eval(m, p, t, cs, w) == Eval(m, o, fr, bs, w)
  }

  lemma BindCovers<V, W(!new)>(m: Meaning<V, W>, vals: seq<V>, os: seq<Operand>, fr: Frame<V>, bs: seq<Binding<V>>,
      ps: seq<Operand>, t: Frame<V>, cs: seq<Binding<V>>)
    requires |vals| == |os| && ReadsAs(m, os, fr, bs, ps, t, cs)
    ensures Covers(m, Bind(m.mode, vals, os, fr, bs), Bind(m.mode, vals, ps, t, cs))
  {
    var x, y := Bind(m.mode, vals, os, fr, bs), Bind(m.mode, vals, ps, t, cs);
    forall i: nat, w: W | i < |x| ensures CoversAt(m, x, y, i, w) {
      assert ReadsAt(m, os[i], fr, bs, ps[i], t, cs, w);
    }
  }

  // ---------- runs ----------

  lemma {:induction false} BodyCovers<V, W(!new)>(fs: seq<Func>, m: Meaning<V, W>, body: seq<Instr>, bound: nat,
      fr: Frame<V>, bs: seq<Binding<V>>, cs: seq<Binding<V>>, w: W, fuel: nat)
    requires Covers(m, bs, cs)
    ensures var x := Exec(fs, m, body, bound, fr, bs, w, fuel);
      x == Wrong || Exec(fs, m, body, bound, fr, cs, w, fuel) == x
    decreases fuel, bound, body, 2
  {
    hide Covers;
    if body != [] {
      InstrCovers(fs, m, body[0], bound, fr, bs, cs, w, fuel);
      match ExecOne(fs, m, body[0], bound, fr, bs, w, fuel) {
        case Out(fr1, w1) => BodyCovers(fs, m, body[1..], bound, fr1, bs, cs, w1, fuel);
        case OutOfFuel =>
        case Wrong =>
      }
    }
  }

  lemma {:induction false} InstrCovers<V, W(!new)>(fs: seq<Func>, m: Meaning<V, W>, instr: Instr, bound: nat,
      fr: Frame<V>, bs: seq<Binding<V>>, cs: seq<Binding<V>>, w: W, fuel: nat)
    requires Covers(m, bs, cs)
    ensures var x := ExecOne(fs, m, instr, bound, fr, bs, w, fuel);
      x == Wrong || ExecOne(fs, m, instr, bound, fr, cs, w, fuel) == x
    decreases fuel, bound, instr, 1
  {
    hide Covers;
    match instr
    case Compute(_, _, os) => CoversEvalAll(m, os, fr, bs, cs, w);
    case WriteLocal(_, o) => CoversEval(m, o, fr, bs, cs, w);
    case Call(_, g, os) =>
      CoversEvalAll(m, os, fr, bs, cs, w);
      if EvalAll(m, os, fr, bs, w).Some? && Inlines(fs, g) && m.rank(g) < bound {
        var vals := EvalAll(m, os, fr, bs, w).value;
        ReadsCovered(m, os, fr, bs, cs);
        BindCovers(m, vals, os, fr, bs, os, fr, cs);
        FunctionCovers(fs, m, g, Bind(m.mode, vals, os, fr, bs), Bind(m.mode, vals, os, fr, cs), w, fuel);
      }
    case Nested(body) => BodyCovers(fs, m, body, bound, fr, bs, cs, w, fuel);
    case If(cond, yes, no) =>
      CoversEval(m, cond, fr, bs, cs, w);
      BodyCovers(fs, m, yes, bound, fr, bs, cs, w, fuel);
      BodyCovers(fs, m, no, bound, fr, bs, cs, w, fuel);
    case While(_, _, _) => WhileCovers(fs, m, instr, bound, fr, bs, cs, w, fuel);
  }

  lemma ReadsCovered<V, W(!new)>(m: Meaning<V, W>, os: seq<Operand>, fr: Frame<V>, bs: seq<Binding<V>>,
      cs: seq<Binding<V>>)
    requires Covers(m, bs, cs)
    ensures ReadsAs(m, os, fr, bs, os, fr, cs)
  {
    forall k: nat, w: W | k < |os| ensures ReadsAt(m, os[k], fr, bs, os[k], fr, cs, w) {
      CoversEval(m, os[k], fr, bs, cs, w);
    }
  }

  /** A call whose parameters read the same. */
  lemma {:induction false} FunctionCovers<V, W(!new)>(fs: seq<Func>, m: Meaning<V, W>, g: nat, bs: seq<Binding<V>>,
      cs: seq<Binding<V>>, w: W, fuel: nat)
    requires Covers(m, bs, cs) && g < |fs| && fs[g].Defined?
    ensures var x := RunFunction(fs, m, g, bs, w, fuel); x == WentWrong || RunFunction(fs, m, g, cs, w, fuel) == x
    decreases fuel, m.rank(g), fs[g].body, 3
  {
    hide Covers;
    var none: Frame<V> := Frame(map[], map[]);
    BodyCovers(fs, m, fs[g].body, m.rank(g), none, bs, cs, w, fuel);
    var x := Exec(fs, m, fs[g].body, m.rank(g), none, bs, w, fuel);
    if x.Out? && fs[g].result.Some? {
      CoversEval(m, fs[g].result.value, x.fr, bs, cs, x.w);
    }
  }

  lemma {:induction false} WhileCovers<V, W(!new)>(fs: seq<Func>, m: Meaning<V, W>, loop: Instr, bound: nat,
      fr: Frame<V>, bs: seq<Binding<V>>, cs: seq<Binding<V>>, w: W, fuel: nat)
    requires Covers(m, bs, cs) && loop.While?
    ensures var x := ExecWhile(fs, m, loop, bound, fr, bs, w, fuel);
      x == Wrong || ExecWhile(fs, m, loop, bound, fr, cs, w, fuel) == x
    decreases fuel, bound, loop, 0
  {
    hide Covers;
    if fuel > 0 {
      BodyCovers(fs, m, loop.test, bound, fr, bs, cs, w, fuel - 1);
      var x := Exec(fs, m, loop.test, bound, fr, bs, w, fuel - 1);
      if x.Out? {
        CoversEval(m, loop.cond, x.fr, bs, cs, x.w);
        BodyCovers(fs, m, loop.body, bound, x.fr, bs, cs, x.w, fuel - 1);
        var y := Exec(fs, m, loop.body, bound, x.fr, bs, x.w, fuel - 1);
        if y.Out? {
          WhileCovers(fs, m, loop, bound, y.fr, bs, cs, y.w, fuel - 1);
        }
      }
    }
  }
}
