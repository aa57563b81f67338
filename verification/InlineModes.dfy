/** When it makes no difference whether an argument is read at the call or where the parameter is used, and
    a call where it does. */
module InlineModes {
  import opened InlineIr
  import opened Inline
  import opened InlineTheorem

  function As<V, W>(m: Meaning<V, W>, mode: Mode): Meaning<V, W> {
    m.(mode := mode)
  }

  /** A parameter bound strictly, and the same one bound in another mode. */
  ghost predicate SameBinding<V>(mode: Mode, s: Binding<V>, b: Binding<V>)
    decreases s
  {
    match s
    case Known(v) => b == Known(v)
    case Thunk(_, _, _) => false
    case Both(v, a, f, bs) =>
      match mode
      case ByValue => b == Known(v)
      case ByName => b.Thunk? && b.arg == a && b.frame == f && |b.binds| == |bs| &&
        forall i :: 0 <= i < |bs| ==> SameBinding(mode, bs[i], b.binds[i])
      case Strict => b == s
  }

  ghost predicate SameBindings<V>(mode: Mode, s: seq<Binding<V>>, b: seq<Binding<V>>) {
    |s| == |b| && forall i :: 0 <= i < |s| ==> SameBinding(mode, s[i], b[i])
  }

  lemma {:induction false} EvalAgrees<V, W>(m: Meaning<V, W>, mode: Mode, o: Operand, fr: Frame<V>, s: seq<Binding<V>>,
      b: seq<Binding<V>>, w: W)
    requires SameBindings(mode, s, b)
    ensures Eval(As(m, Strict), o, fr, s, w).Some? ==>
      Eval(As(m, mode), o, fr, b, w) == Eval(As(m, Strict), o, fr, s, w)
    decreases s, o
  {
    match o
    case Value(_) =>
    case Local(_) =>
    case Cell(_, base) => EvalAgrees(m, mode, base, fr, s, b, w);
    case Param(i) =>
      if i < |s| && s[i].Both? && mode == ByName {
        assert SameBinding(mode, s[i], b[i]);
        EvalAgrees(m, mode, s[i].arg, s[i].frame, s[i].binds, b[i].binds, w);
      } else if i < |s| && s[i].Both? && mode == Strict {
        EvalMode(m, s[i].arg, s[i].frame, s[i].binds, w, Strict, mode);
      }
  }

  lemma {:induction false} EvalMode<V, W>(m: Meaning<V, W>, o: Operand, fr: Frame<V>, b: seq<Binding<V>>, w: W,
      x: Mode, y: Mode)
    ensures Eval(As(m, x), o, fr, b, w) == Eval(As(m, y), o, fr, b, w)
    decreases b, o
  {
    match o
    case Value(_) =>
    case Local(_) =>
    case Cell(_, base) => EvalMode(m, base, fr, b, w, x, y);
    case Param(i) =>
      if i < |b| && b[i].Thunk? {
        EvalMode(m, b[i].arg, b[i].frame, b[i].binds, w, x, y);
      } else if i < |b| && b[i].Both? {
        EvalMode(m, b[i].arg, b[i].frame, b[i].binds, w, x, y);
      }
  }

  lemma {:induction false} EvalAllAgrees<V, W>(m: Meaning<V, W>, mode: Mode, os: seq<Operand>, fr: Frame<V>,
      s: seq<Binding<V>>, b: seq<Binding<V>>, w: W)
    requires SameBindings(mode, s, b)
    ensures EvalAll(As(m, Strict), os, fr, s, w).Some? ==>
      EvalAll(As(m, mode), os, fr, b, w) == EvalAll(As(m, Strict), os, fr, s, w)
    decreases |os|
  {
    if os != [] {
      EvalAgrees(m, mode, os[0], fr, s, b, w);
      EvalAllAgrees(m, mode, os[1..], fr, s, b, w);
    }
  }

  lemma BindAgrees<V>(mode: Mode, vals: seq<V>, os: seq<Operand>, fr: Frame<V>, s: seq<Binding<V>>, b: seq<Binding<V>>)
    requires |vals| == |os| && SameBindings(mode, s, b) && mode != Strict
    ensures SameBindings(mode, Bind(Strict, vals, os, fr, s), Bind(mode, vals, os, fr, b))
    ensures SameBindings(mode, KnownAll(vals), KnownAll(vals))
  {
  }

  lemma {:induction false} BodyAgrees<V, W>(fs: seq<Func>, m: Meaning<V, W>, mode: Mode, body: seq<Instr>, bound: nat,
      fr: Frame<V>, s: seq<Binding<V>>, b: seq<Binding<V>>, w: W, fuel: nat)
    requires SameBindings(mode, s, b) && mode != Strict
    ensures var x := Exec(fs, As(m, Strict), body, bound, fr, s, w, fuel);
      x == Wrong || Exec(fs, As(m, mode), body, bound, fr, b, w, fuel) == x
    decreases fuel, bound, body, 2
  {
    hide SameBindings;
    if body != [] {
      InstrAgrees(fs, m, mode, body[0], bound, fr, s, b, w, fuel);
      match ExecOne(fs, As(m, Strict), body[0], bound, fr, s, w, fuel) {
        case Out(fr1, w1) => BodyAgrees(fs, m, mode, body[1..], bound, fr1, s, b, w1, fuel);
        case OutOfFuel =>
        case Wrong =>
      }
    }
  }

  lemma {:induction false} InstrAgrees<V, W>(fs: seq<Func>, m: Meaning<V, W>, mode: Mode, instr: Instr, bound: nat,
      fr: Frame<V>, s: seq<Binding<V>>, b: seq<Binding<V>>, w: W, fuel: nat)
    requires SameBindings(mode, s, b) && mode != Strict
    ensures var x := ExecOne(fs, As(m, Strict), instr, bound, fr, s, w, fuel);
      x == Wrong || ExecOne(fs, As(m, mode), instr, bound, fr, b, w, fuel) == x
    decreases fuel, bound, instr, 1
  {
    hide SameBindings;
    match instr
    case Compute(_, _, os) => EvalAllAgrees(m, mode, os, fr, s, b, w);
    case WriteLocal(_, o) => EvalAgrees(m, mode, o, fr, s, b, w);
    case Call(_, g, os) =>
      EvalAllAgrees(m, mode, os, fr, s, b, w);
      if EvalAll(As(m, Strict), os, fr, s, w).Some? && g < |fs| && fs[g].Defined? {
        var vals := EvalAll(As(m, Strict), os, fr, s, w).value;
        BindAgrees(mode, vals, os, fr, s, b);
        if fs[g].annotated {
          if m.rank(g) < bound {
            CallAgrees(fs, m, mode, g, Bind(Strict, vals, os, fr, s), Bind(mode, vals, os, fr, b), w, fuel);
          }
        } else if fuel > 0 {
          CallAgrees(fs, m, mode, g, KnownAll(vals), KnownAll(vals), w, fuel - 1);
        }
      }
    case Nested(body) => BodyAgrees(fs, m, mode, body, bound, fr, s, b, w, fuel);
    case If(cond, yes, no) =>
      EvalAgrees(m, mode, cond, fr, s, b, w);
      BodyAgrees(fs, m, mode, yes, bound, fr, s, b, w, fuel);
      BodyAgrees(fs, m, mode, no, bound, fr, s, b, w, fuel);
    case While(_, _, _) => WhileAgrees(fs, m, mode, instr, bound, fr, s, b, w, fuel);
  }

  /** A call whose arguments read the same wherever its parameters are used. */
  lemma {:induction false} CallAgrees<V, W>(fs: seq<Func>, m: Meaning<V, W>, mode: Mode, g: nat, s: seq<Binding<V>>,
      b: seq<Binding<V>>, w: W, fuel: nat)
    requires SameBindings(mode, s, b) && mode != Strict && g < |fs| && fs[g].Defined?
    ensures var x := RunFunction(fs, As(m, Strict), g, s, w, fuel);
      x == WentWrong || RunFunction(fs, As(m, mode), g, b, w, fuel) == x
    decreases fuel, m.rank(g), fs[g].body, 3
  {
    hide SameBindings;
    var none: Frame<V> := Frame(map[], map[]);
    BodyAgrees(fs, m, mode, fs[g].body, m.rank(g), none, s, b, w, fuel);
    var x := Exec(fs, As(m, Strict), fs[g].body, m.rank(g), none, s, w, fuel);
    if x.Out? && fs[g].result.Some? {
      EvalAgrees(m, mode, fs[g].result.value, x.fr, s, b, x.w);
    }
  }

  lemma {:induction false} WhileAgrees<V, W>(fs: seq<Func>, m: Meaning<V, W>, mode: Mode, loop: Instr, bound: nat,
      fr: Frame<V>, s: seq<Binding<V>>, b: seq<Binding<V>>, w: W, fuel: nat)
    requires SameBindings(mode, s, b) && mode != Strict && loop.While?
    ensures var x := ExecWhile(fs, As(m, Strict), loop, bound, fr, s, w, fuel);
      x == Wrong || ExecWhile(fs, As(m, mode), loop, bound, fr, b, w, fuel) == x
    decreases fuel, bound, loop, 0
  {
    hide SameBindings;
    if fuel > 0 {
      BodyAgrees(fs, m, mode, loop.test, bound, fr, s, b, w, fuel - 1);
      var x := Exec(fs, As(m, Strict), loop.test, bound, fr, s, w, fuel - 1);
      if x.Out? {
        EvalAgrees(m, mode, loop.cond, x.fr, s, b, x.w);
        BodyAgrees(fs, m, mode, loop.body, bound, x.fr, s, b, x.w, fuel - 1);
        var y := Exec(fs, As(m, Strict), loop.body, bound, x.fr, s, x.w, fuel - 1);
        if y.Out? {
          WhileAgrees(fs, m, mode, loop, bound, y.fr, s, b, y.w, fuel - 1);
        }
      }
    }
  }

  // ---------- a strict call ----------

  /** A call that happens to be strict, with its arguments passed by value throughout, gives what it gave
      before the pass: the same result and the same memory, or it needs the same fuel. */
  lemma StrictCallKept<V, W(!new)>(fs: seq<Func>, m: Meaning<V, W>, g: nat, vals: seq<V>, w: W, fuel: nat)
    requires Inlinable(fs, m.rank) && g < |fs| && fs[g].Defined?
    requires RunFunction(fs, As(m, Strict), g, KnownAll(vals), w, fuel) != WentWrong
    ensures Pass(fs)[g].Defined?
    ensures RunFunction(Pass(fs), As(m, ByValue), g, KnownAll(vals), w, fuel)
      == RunFunction(fs, As(m, ByValue), g, KnownAll(vals), w, fuel)
  {
    var b := KnownAll(vals);
    CallAgrees(fs, m, ByValue, g, b, b, w, fuel);
    FunctionSame(fs, As(m, Strict), g, b, w, fuel);
    CallAgrees(Pass(fs), m, ByValue, g, b, b, w, fuel);
  }
}
