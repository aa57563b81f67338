/** A condition on the code alone under which it makes no difference whether an argument is read at the call
    or where the parameter is used, and a module that does not meet it. */
module InlineSafe {
  import opened Wrappers
  import opened InlineIr
  import opened Inline
  import opened InlineCalls
  import opened InlineAtOnce
  import opened InlineModes

  // ---------- parameters that are read late ----------

  function OperandParams(o: Operand): set<nat> {
    match o
    case Value(_) => {}
    case Local(_) => {}
    case Cell(_, base) => OperandParams(base)
    case Param(i) => {i}
  }

  function ParamsAll(os: seq<Operand>): set<nat> {
    if os == [] then {} else OperandParams(os[0]) + ParamsAll(os[1..])
  }

  /** The body may change memory; the pure operations do not, and an inline call does what its callee does. */
  predicate Changes(fs: seq<Func>, pure_: set<nat>, rank: nat -> nat, body: seq<Instr>, bound: nat)
    decreases bound, body, 1
  {
    body != [] && (ChangesOne(fs, pure_, rank, body[0], bound) || Changes(fs, pure_, rank, body[1..], bound))
  }

  predicate ChangesOne(fs: seq<Func>, pure_: set<nat>, rank: nat -> nat, instr: Instr, bound: nat)
    decreases bound, instr, 0
  {
    match instr
    case Compute(_, op, _) => op !in pure_
    case WriteLocal(_, _) => false
    case Call(_, g, _) => Inlines(fs, g) && rank(g) < bound ==> Changes(fs, pure_, rank, fs[g].body, rank(g))
    case Nested(body) => Changes(fs, pure_, rank, body, bound)
    case If(_, yes, no) => Changes(fs, pure_, rank, yes, bound) || Changes(fs, pure_, rank, no, bound)
    case While(test, _, body) => Changes(fs, pure_, rank, test, bound) || Changes(fs, pure_, rank, body, bound)
  }

  /** The parameters that are read after memory may have changed, here or in a callee they are passed to. */
  function Late(fs: seq<Func>, pure_: set<nat>, rank: nat -> nat, body: seq<Instr>, bound: nat, changed: bool): set<nat>
    decreases bound, body, 1
  {
    if body == [] then {} else
    LateOne(fs, pure_, rank, body[0], bound, changed) +
    Late(fs, pure_, rank, body[1..], bound, changed || ChangesOne(fs, pure_, rank, body[0], bound))
  }

  function LateOne(fs: seq<Func>, pure_: set<nat>, rank: nat -> nat, instr: Instr, bound: nat, changed: bool): set<nat>
    decreases bound, instr, 0
  {
    match instr
    case Compute(_, _, os) => When(changed, ParamsAll(os))
    case WriteLocal(_, o) => When(changed, OperandParams(o))
    case Call(_, g, os) =>
      When(changed, ParamsAll(os)) +
      if Inlines(fs, g) && rank(g) < bound then PassedAt(LateParams(fs, pure_, rank, g), os) else {}
    case Nested(body) => Late(fs, pure_, rank, body, bound, changed)
    case If(cond, yes, no) =>
      When(changed, OperandParams(cond)) + Late(fs, pure_, rank, yes, bound, changed)
      + Late(fs, pure_, rank, no, bound, changed)
    case While(test, cond, body) =>
      var again := changed || ChangesOne(fs, pure_, rank, instr, bound);
      Late(fs, pure_, rank, test, bound, again) + When(again, OperandParams(cond))
      + Late(fs, pure_, rank, body, bound, again)
  }

  function LateParams(fs: seq<Func>, pure_: set<nat>, rank: nat -> nat, g: nat): set<nat>
    requires g < |fs| && fs[g].Defined?
    decreases rank(g), fs[g].body, 2
  {
    Late(fs, pure_, rank, fs[g].body, rank(g), false) +
    match fs[g].result
    case None => {}
    case Some(o) => When(Changes(fs, pure_, rank, fs[g].body, rank(g)), OperandParams(o))
  }

  function When(changed: bool, params: set<nat>): set<nat> {
    if changed then params else {}
  }

  /** The parameters in the arguments at these positions. */
  function PassedAt(positions: set<nat>, os: seq<Operand>): set<nat> {
    set k, i | k in positions && k < |os| && i in OperandParams(os[k]) :: i
  }

  /** An argument that reads a cell is only passed where the callee reads its parameter before it may change
      memory. */
  predicate Safe(fs: seq<Func>, pure_: set<nat>, rank: nat -> nat, body: seq<Instr>, bound: nat) {
    body == [] || (SafeOne(fs, pure_, rank, body[0], bound) && Safe(fs, pure_, rank, body[1..], bound))
  }

  predicate SafeOne(fs: seq<Func>, pure_: set<nat>, rank: nat -> nat, instr: Instr, bound: nat) {
    match instr
    case Compute(_, _, _) => true
    case WriteLocal(_, _) => true
    case Call(_, g, os) =>
      Inlines(fs, g) && rank(g) < bound ==> forall k :: k in LateParams(fs, pure_, rank, g) && k < |os| ==> !os[k].Cell?
    case Nested(body) => Safe(fs, pure_, rank, body, bound)
    case If(_, yes, no) => Safe(fs, pure_, rank, yes, bound) && Safe(fs, pure_, rank, no, bound)
    case While(test, _, body) => Safe(fs, pure_, rank, test, bound) && Safe(fs, pure_, rank, body, bound)
  }

  predicate SafeModule(fs: seq<Func>, pure_: set<nat>, rank: nat -> nat) {
    forall i :: 0 <= i < |fs| && fs[i].Defined? ==> Safe(fs, pure_, rank, fs[i].body, rank(i))
  }

  /** No call that is inlined is passed a cell. */
  predicate PassesNoCell(fs: seq<Func>, body: seq<Instr>) {
    body == [] || (PassesNoCellOne(fs, body[0]) && PassesNoCell(fs, body[1..]))
  }

  predicate PassesNoCellOne(fs: seq<Func>, instr: Instr) {
    match instr
    case Compute(_, _, _) => true
    case WriteLocal(_, _) => true
    case Call(_, g, os) => Inlines(fs, g) ==> forall k :: 0 <= k < |os| ==> !os[k].Cell?
    case Nested(body) => PassesNoCell(fs, body)
    case If(_, yes, no) => PassesNoCell(fs, yes) && PassesNoCell(fs, no)
    case While(test, _, body) => PassesNoCell(fs, test) && PassesNoCell(fs, body)
  }

  /** A module that passes values, variables and parameters only meets the condition. */
  lemma NoCellSafe(fs: seq<Func>, pure_: set<nat>, rank: nat -> nat)
    requires forall i :: 0 <= i < |fs| && fs[i].Defined? ==> PassesNoCell(fs, fs[i].body)
    ensures SafeModule(fs, pure_, rank)
  {
    forall i | 0 <= i < |fs| && fs[i].Defined? ensures Safe(fs, pure_, rank, fs[i].body, rank(i)) {
      NoCellSafeBody(fs, pure_, rank, fs[i].body, rank(i));
    }
  }

  lemma {:induction false} NoCellSafeBody(fs: seq<Func>, pure_: set<nat>, rank: nat -> nat, body: seq<Instr>,
      bound: nat)
    requires PassesNoCell(fs, body)
    ensures Safe(fs, pure_, rank, body, bound)
    decreases body, 1
  {
    hide LateParams;
    if body != [] {
      NoCellSafeOne(fs, pure_, rank, body[0], bound);
      NoCellSafeBody(fs, pure_, rank, body[1..], bound);
    }
  }

  lemma {:induction false} NoCellSafeOne(fs: seq<Func>, pure_: set<nat>, rank: nat -> nat, instr: Instr, bound: nat)
    requires PassesNoCellOne(fs, instr)
    ensures SafeOne(fs, pure_, rank, instr, bound)
    decreases instr, 0
  {
    hide LateParams;
    match instr
    case Compute(_, _, _) =>
    case WriteLocal(_, _) =>
    case Call(_, _, _) =>
    case Nested(body) => NoCellSafeBody(fs, pure_, rank, body, bound);
    case If(_, yes, no) =>
      NoCellSafeBody(fs, pure_, rank, yes, bound);
      NoCellSafeBody(fs, pure_, rank, no, bound);
    case While(test, _, body) =>
      NoCellSafeBody(fs, pure_, rank, test, bound);
      NoCellSafeBody(fs, pure_, rank, body, bound);
  }

  ghost predicate PureOps<V(!new), W(!new)>(m: Meaning<V, W>, pure_: set<nat>) {
    forall op: nat, vs: seq<V>, w: W :: op in pure_ ==> m.op(op, vs, w).1 == w
  }

  // ---------- bindings ----------

  /** The argument reads as it did at the call: always if the parameter is read late, and until memory
      changes in any case. */
  ghost predicate GoodAt<V, W(!new)>(m: Meaning<V, W>, x: Binding<V>, y: Binding<V>, late: bool, changed: bool, w: W) {
    match x
    case Known(v) => y == x
    case Thunk(_, _, _) => false
    case Both(v, a, f, bs) =>
      && y == Known(v)
      && (late ==> Settled(m, a, f, bs, v))
      && (!changed ==> Eval(As(m, Strict), a, f, bs, w) == Some(v))
  }

  ghost predicate Settled<V, W(!new)>(m: Meaning<V, W>, a: Operand, f: Frame<V>, bs: seq<Binding<V>>, v: V) {
    forall w: W :: Eval(As(m, Strict), a, f, bs, w) == Some(v)
  }

  ghost predicate Good<V, W(!new)>(m: Meaning<V, W>, s: seq<Binding<V>>, b: seq<Binding<V>>, late: set<nat>,
      changed: bool, w: W) {
    |s| == |b| && forall i :: 0 <= i < |s| ==> GoodAt(m, s[i], b[i], i in late, changed, w)
  }

  lemma GoodLater<V, W(!new)>(m: Meaning<V, W>, s: seq<Binding<V>>, b: seq<Binding<V>>, late: set<nat>, changed: bool,
      w: W, again: bool, w1: W)
    requires Good(m, s, b, late, changed, w) && (!again ==> !changed && w1 == w)
    ensures Good(m, s, b, late, again, w1)
  {
  }

  lemma {:induction false} EvalSafe<V, W(!new)>(m: Meaning<V, W>, o: Operand, fr: Frame<V>, s: seq<Binding<V>>,
      b: seq<Binding<V>>, late: set<nat>, changed: bool, w: W)
    requires Good(m, s, b, late, changed, w) && When(changed, OperandParams(o)) <= late
    ensures Eval(As(m, Strict), o, fr, s, w) == Eval(As(m, ByValue), o, fr, b, w)
    decreases o
  {
    match o
    case Cell(_, base) => EvalSafe(m, base, fr, s, b, late, changed, w);
    case Value(_) =>
    case Local(_) =>
    case Param(i) =>
      if i < |s| {
        assert GoodAt(m, s[i], b[i], i in late, changed, w);
        assert changed ==> i in OperandParams(o);
      }
  }

  lemma {:induction false} EvalAllSafe<V, W(!new)>(m: Meaning<V, W>, os: seq<Operand>, fr: Frame<V>,
      s: seq<Binding<V>>, b: seq<Binding<V>>, late: set<nat>, changed: bool, w: W)
    requires Good(m, s, b, late, changed, w) && When(changed, ParamsAll(os)) <= late
    ensures EvalAll(As(m, Strict), os, fr, s, w) == EvalAll(As(m, ByValue), os, fr, b, w)
    decreases |os|
  {
    if os != [] {
      EvalSafe(m, os[0], fr, s, b, late, changed, w);
      EvalAllSafe(m, os[1..], fr, s, b, late, changed, w);
    }
  }

  lemma {:induction false} EvalAllAt<V, W>(m: Meaning<V, W>, os: seq<Operand>, fr: Frame<V>, b: seq<Binding<V>>, w: W,
      k: nat)
    requires EvalAll(m, os, fr, b, w).Some? && k < |os|
    ensures Eval(m, os[k], fr, b, w) == Some(EvalAll(m, os, fr, b, w).value[k])
    decreases |os|
  {
    if k > 0 {
      EvalAllAt(m, os[1..], fr, b, w, k - 1);
    }
  }

  /** An argument without cells whose parameters are settled is settled. */
  lemma ArgumentSettled<V, W(!new)>(m: Meaning<V, W>, a: Operand, fr: Frame<V>, s: seq<Binding<V>>, b: seq<Binding<V>>,
      late: set<nat>, changed: bool, w: W, v: V)
    requires Good(m, s, b, late, changed, w) && OperandParams(a) <= late && !a.Cell?
    requires Eval(As(m, Strict), a, fr, s, w) == Some(v)
    ensures Settled(m, a, fr, s, v)
  {
    if a.Param? {
      assert a.i in OperandParams(a);
      assert GoodAt(m, s[a.i], b[a.i], true, changed, w);
    }
  }

  lemma BindSafe<V, W(!new)>(m: Meaning<V, W>, vals: seq<V>, os: seq<Operand>, fr: Frame<V>, s: seq<Binding<V>>,
      b: seq<Binding<V>>, late: set<nat>, changed: bool, w: W, callee: set<nat>)
    requires Good(m, s, b, late, changed, w) && PassedAt(callee, os) <= late
    requires forall k :: k in callee && k < |os| ==> !os[k].Cell?
    requires EvalAll(As(m, Strict), os, fr, s, w) == Some(vals) && |vals| == |os|
    ensures Good(m, Bind(Strict, vals, os, fr, s), Bind(ByValue, vals, os, fr, b), callee, false, w)
  {
    var x, y := Bind(Strict, vals, os, fr, s), Bind(ByValue, vals, os, fr, b);
    forall k | 0 <= k < |x| ensures GoodAt(m, x[k], y[k], k in callee, false, w) {
      EvalAllAt(As(m, Strict), os, fr, s, w, k);
      if k in callee {
        assert OperandParams(os[k]) <= late by {
          forall i | i in OperandParams(os[k]) ensures i in late {
            assert i in PassedAt(callee, os);
          }
        }
        ArgumentSettled(m, os[k], fr, s, b, late, changed, w, vals[k]);
      }
    }
  }

  lemma KnownGood<V, W(!new)>(m: Meaning<V, W>, vals: seq<V>, late: set<nat>, w: W)
    ensures Good(m, KnownAll(vals), KnownAll(vals), late, false, w)
  {
  }

  // ---------- runs ----------

  lemma {:induction false} BodySafe<V(!new), W(!new)>(fs: seq<Func>, m: Meaning<V, W>, pure_: set<nat>,
      body: seq<Instr>, bound: nat, fr: Frame<V>, s: seq<Binding<V>>, b: seq<Binding<V>>, late: set<nat>,
      changed: bool, w: W, fuel: nat)
    requires PureOps(m, pure_) && SafeModule(fs, pure_, m.rank) && Safe(fs, pure_, m.rank, body, bound)
    requires Late(fs, pure_, m.rank, body, bound, changed) <= late && Good(m, s, b, late, changed, w)
    ensures var x := Exec(fs, As(m, Strict), body, bound, fr, s, w, fuel);
      && Exec(fs, As(m, ByValue), body, bound, fr, b, w, fuel) == x
      && (x.Out? && !Changes(fs, pure_, m.rank, body, bound) ==> x.w == w)
    decreases fuel, bound, body, 2
  {
    hide PureOps, SafeModule, Good;
    if body != [] {
      InstrSafe(fs, m, pure_, body[0], bound, fr, s, b, late, changed, w, fuel);
      match ExecOne(fs, As(m, Strict), body[0], bound, fr, s, w, fuel) {
        case Out(fr1, w1) =>
          var again := changed || ChangesOne(fs, pure_, m.rank, body[0], bound);
          GoodLater(m, s, b, late, changed, w, again, w1);
          BodySafe(fs, m, pure_, body[1..], bound, fr1, s, b, late, again, w1, fuel);
        case OutOfFuel =>
        case Wrong =>
      }
    }
  }

  lemma {:induction false} InstrSafe<V(!new), W(!new)>(fs: seq<Func>, m: Meaning<V, W>, pure_: set<nat>, instr: Instr,
      bound: nat, fr: Frame<V>, s: seq<Binding<V>>, b: seq<Binding<V>>, late: set<nat>, changed: bool, w: W, fuel: nat)
    requires PureOps(m, pure_) && SafeModule(fs, pure_, m.rank) && SafeOne(fs, pure_, m.rank, instr, bound)
    requires LateOne(fs, pure_, m.rank, instr, bound, changed) <= late && Good(m, s, b, late, changed, w)
    ensures var x := ExecOne(fs, As(m, Strict), instr, bound, fr, s, w, fuel);
      && ExecOne(fs, As(m, ByValue), instr, bound, fr, b, w, fuel) == x
      && (x.Out? && !ChangesOne(fs, pure_, m.rank, instr, bound) ==> x.w == w)
    decreases fuel, bound, instr, 1
  {
    hide SafeModule, Good;
    match instr
    case Compute(_, op, os) => EvalAllSafe(m, os, fr, s, b, late, changed, w);
    case WriteLocal(_, o) => EvalSafe(m, o, fr, s, b, late, changed, w);
    case Call(_, g, os) => CallSafe(fs, m, pure_, instr, bound, fr, s, b, late, changed, w, fuel);
    case Nested(body) => BodySafe(fs, m, pure_, body, bound, fr, s, b, late, changed, w, fuel);
    case If(cond, yes, no) =>
      EvalSafe(m, cond, fr, s, b, late, changed, w);
      BodySafe(fs, m, pure_, yes, bound, fr, s, b, late, changed, w, fuel);
      BodySafe(fs, m, pure_, no, bound, fr, s, b, late, changed, w, fuel);
    case While(_, _, _) =>
      var again := changed || ChangesOne(fs, pure_, m.rank, instr, bound);
      GoodLater(m, s, b, late, changed, w, again, w);
      WhileSafe(fs, m, pure_, instr, bound, fr, s, b, late, again, w, fuel);
  }

  lemma {:induction false} CallSafe<V(!new), W(!new)>(fs: seq<Func>, m: Meaning<V, W>, pure_: set<nat>, instr: Instr,
      bound: nat, fr: Frame<V>, s: seq<Binding<V>>, b: seq<Binding<V>>, late: set<nat>, changed: bool, w: W, fuel: nat)
    requires PureOps(m, pure_) && SafeModule(fs, pure_, m.rank)
    requires SafeOne(fs, pure_, m.rank, instr, bound) && instr.Call?
    requires LateOne(fs, pure_, m.rank, instr, bound, changed) <= late && Good(m, s, b, late, changed, w)
    ensures var x := ExecOne(fs, As(m, Strict), instr, bound, fr, s, w, fuel);
      && ExecOne(fs, As(m, ByValue), instr, bound, fr, b, w, fuel) == x
      && (x.Out? && !ChangesOne(fs, pure_, m.rank, instr, bound) ==> x.w == w)
    decreases fuel, bound, instr, 0
  {
    hide PureOps, SafeModule, Good;
    var g, os := instr.callee, instr.args;
    EvalAllSafe(m, os, fr, s, b, late, changed, w);
    if EvalAll(As(m, Strict), os, fr, s, w).Some? && g < |fs| && fs[g].Defined? {
      var vals := EvalAll(As(m, Strict), os, fr, s, w).value;
      if fs[g].annotated {
        if m.rank(g) < bound {
          BindSafe(m, vals, os, fr, s, b, late, changed, w, LateParams(fs, pure_, m.rank, g));
          FunctionSafe(fs, m, pure_, g, Bind(Strict, vals, os, fr, s), Bind(ByValue, vals, os, fr, b), w, fuel);
        }
      } else if fuel > 0 {
        KnownGood(m, vals, LateParams(fs, pure_, m.rank, g), w);
        FunctionSafe(fs, m, pure_, g, KnownAll(vals), KnownAll(vals), w, fuel - 1);
      }
    }
  }

  /** A call whose arguments are settled where its parameters are read late. */
  lemma {:induction false} FunctionSafe<V(!new), W(!new)>(fs: seq<Func>, m: Meaning<V, W>, pure_: set<nat>, g: nat,
      s: seq<Binding<V>>, b: seq<Binding<V>>, w: W, fuel: nat)
    requires PureOps(m, pure_) && SafeModule(fs, pure_, m.rank) && g < |fs| && fs[g].Defined?
    requires Good(m, s, b, LateParams(fs, pure_, m.rank, g), false, w)
    ensures var x := RunFunction(fs, As(m, Strict), g, s, w, fuel);
      && RunFunction(fs, As(m, ByValue), g, b, w, fuel) == x
      && (x.Returned? && !Changes(fs, pure_, m.rank, fs[g].body, m.rank(g)) ==> x.w == w)
    decreases fuel, m.rank(g), fs[g].body, 3
  {
    hide PureOps, Good;
    var none: Frame<V> := Frame(map[], map[]);
    var late, body := LateParams(fs, pure_, m.rank, g), fs[g].body;
    BodySafe(fs, m, pure_, body, m.rank(g), none, s, b, late, false, w, fuel);
    var x := Exec(fs, As(m, Strict), body, m.rank(g), none, s, w, fuel);
    if x.Out? && fs[g].result.Some? {
      var changed := Changes(fs, pure_, m.rank, body, m.rank(g));
      GoodLater(m, s, b, late, false, w, changed, x.w);
      EvalSafe(m, fs[g].result.value, x.fr, s, b, late, changed, x.w);
    }
  }

  lemma {:induction false} WhileSafe<V(!new), W(!new)>(fs: seq<Func>, m: Meaning<V, W>, pure_: set<nat>, loop: Instr,
      bound: nat, fr: Frame<V>, s: seq<Binding<V>>, b: seq<Binding<V>>, late: set<nat>, changed: bool, w: W, fuel: nat)
    requires PureOps(m, pure_) && SafeModule(fs, pure_, m.rank)
    requires SafeOne(fs, pure_, m.rank, loop, bound) && loop.While?
    requires LateOne(fs, pure_, m.rank, loop, bound, changed) <= late && Good(m, s, b, late, changed, w)
    requires ChangesOne(fs, pure_, m.rank, loop, bound) ==> changed
    ensures var x := ExecWhile(fs, As(m, Strict), loop, bound, fr, s, w, fuel);
      && ExecWhile(fs, As(m, ByValue), loop, bound, fr, b, w, fuel) == x
      && (x.Out? && !ChangesOne(fs, pure_, m.rank, loop, bound) ==> x.w == w)
    decreases fuel, bound, loop, 0
  {
    hide PureOps, SafeModule, Good;
    if fuel > 0 {
      BodySafe(fs, m, pure_, loop.test, bound, fr, s, b, late, changed, w, fuel - 1);
      var x := Exec(fs, As(m, Strict), loop.test, bound, fr, s, w, fuel - 1);
      if x.Out? {
        GoodLater(m, s, b, late, changed, w, changed, x.w);
        EvalSafe(m, loop.cond, x.fr, s, b, late, changed, x.w);
        BodySafe(fs, m, pure_, loop.body, bound, x.fr, s, b, late, changed, x.w, fuel - 1);
        var y := Exec(fs, As(m, Strict), loop.body, bound, x.fr, s, x.w, fuel - 1);
        if y.Out? {
          GoodLater(m, s, b, late, changed, x.w, changed, y.w);
          WhileSafe(fs, m, pure_, loop, bound, y.fr, s, b, late, changed, y.w, fuel - 1);
        }
      }
    }
  }

  // ---------- the main result ----------

  /** After the pass over any module whose graph of inline calls has no cycle, and in which no callee is
      passed a cell that it reads after it may have changed memory, every function gives what it gave: the
      same result and the same memory, or it needs the same fuel. */
  lemma InliningCorrect<V(!new), W(!new)>(fs: seq<Func>, m: Meaning<V, W>, pure_: set<nat>, g: nat, vals: seq<V>, w: W,
      fuel: nat)
    requires Ranked(fs, m.rank) && WellNamed(fs) && SafeModule(fs, pure_, m.rank) && PureOps(m, pure_)
    requires g < |fs| && fs[g].Defined?
    ensures Pass(fs)[g].Defined? && (Plain(Pass(fs), Pass(fs)[g].body) <==> AllInlined(fs, g))
    ensures var before_ := RunFunction(fs, As(m, ByValue), g, KnownAll(vals), w, fuel);
      before_ == WentWrong || RunFunction(Pass(fs), As(m, ByValue), g, KnownAll(vals), w, fuel) == before_
  {
    hide Ranked, WellNamed, SafeModule, PureOps;
    NoInlineCallLeft(fs, g);
    KnownGood(m, vals, LateParams(fs, pure_, m.rank, g), w);
    FunctionSafe(fs, m, pure_, g, KnownAll(vals), KnownAll(vals), w, fuel);
    if RunFunction(fs, As(m, Strict), g, KnownAll(vals), w, fuel) != WentWrong {
      StrictCallKept(fs, m, g, vals, w, fuel);
    }
  }

  // ---------- a call that inlining changes ----------

  /** f(a) { clobber(); return a; }  called as f(cell) where clobber may write the cell. */
  const CLOBBER: seq<Func> := [
    Defined([Compute(Own(0), 0, [])], Some(Param(0)), true),
    Defined([Call(Own(0), 0, [Cell(0, Param(0))])], Some(Value(Own(0))), false)]

  lemma ClobberNamed()
    ensures WellNamed(CLOBBER) && CalleesFirst(CLOBBER)
  {
    var body, call := CLOBBER[0].body, CLOBBER[1].body;
    assert body[1..] == [] && call[1..] == [];
    assert Sites(CLOBBER, body) == {} && Sites(CLOBBER, call) == {Own(0)};
    assert call[0].args[1..] == [] && OwnAll(call[0].args);
    assert OwnBody(CLOBBER, {}, body) && OwnBody(CLOBBER, {Own(0)}, call);
    assert CalleesAt(CLOBBER, {Own(0)}, call) == {0};
    forall i | 0 <= i < |CLOBBER| ensures OwnFunc(CLOBBER, CLOBBER[i]) {
    }
  }

  /** The condition is what the module does not meet, unless what the callee does is pure. */
  lemma ClobberSafe(pure_: set<nat>, rank: nat -> nat)
    requires rank(0) < rank(1)
    ensures SafeModule(CLOBBER, pure_, rank) <==> 0 in pure_
  {
    var body, call := CLOBBER[0].body, CLOBBER[1].body;
    assert body[1..] == [] && call[1..] == [];
    assert Changes(CLOBBER, pure_, rank, body, rank(0)) <==> 0 !in pure_;
    assert Late(CLOBBER, pure_, rank, body, rank(0), false) == {};
    assert LateParams(CLOBBER, pure_, rank, 0) == if 0 in pure_ then {} else {0};
    assert Safe(CLOBBER, pure_, rank, body, rank(0));
    assert call[0].args[0].Cell?;
    assert Safe(CLOBBER, pure_, rank, call, rank(1)) <==> SafeOne(CLOBBER, pure_, rank, call[0], rank(1));
  }

  /** Before the pass the caller gets what the cell held, after it what the cell holds once the callee has
      written: they are the same exactly if the callee leaves the cell passed to it alone. */
  lemma ClobberedArgument<V(!new), W(!new)>(m: Meaning<V, W>, at: V, w: W, fuel: nat)
    requires m.rank(0) < m.rank(1)
    ensures Pass(CLOBBER)[1].Defined?
    ensures var after := m.op(0, [], w).1;
      var before_, inlined := RunFunction(CLOBBER, As(m, ByValue), 1, [Known(at)], w, fuel),
        RunFunction(Pass(CLOBBER), As(m, ByValue), 1, [Known(at)], w, fuel);
      && before_ == Returned(Some(m.cell(0, at, w)), after)
      && inlined == Returned(Some(m.cell(0, at, after)), after)
      && (inlined == before_ <==> m.cell(0, at, w) == m.cell(0, at, after))
  {
    Clobbered(As(m, ByValue), at, w, fuel);
    ClobberPass();
    InlinedClobbers(As(m, ByValue), at, w, fuel);
  }

  /** What the pass makes of the caller. */
  const INLINED := Defined(
    [Nested([Compute(Inner(Own(0), Own(0)), 0, []), WriteLocal(Result(Own(0)), Cell(0, Param(0)))])],
    Some(Local(Result(Own(0)))), false)

  lemma ClobberPass()
    ensures Pass(CLOBBER)[1] == INLINED
  {
    ClobberNamed();
    var body, call := CLOBBER[0].body, CLOBBER[1].body;
    assert call[1..] == [] && call[0].args[1..] == [] && body[1..] == [];
    assert Callees(CLOBBER, call) == {0} by {
      assert Sites(CLOBBER, call) == {Own(0)};
      assert CalleesAt(CLOBBER, {Own(0)}, call) == {0};
    }
    PassAt(CLOBBER, 1);
    PassKeeps(CLOBBER, 1, 0);
    ClobberFirst();
    var sites := {Own(0)};
    assert RedirectAll(sites, call[0].args) == [Cell(0, Param(0))];
    assert SpliceBody(Own(0), [Cell(0, Param(0))], body) == [Compute(Inner(Own(0), Own(0)), 0, [])];
    var before := PassUpTo(CLOBBER, 1);
    assert before[0] == CLOBBER[0] && Inlines(before, 0);
    assert InlineOne(before, sites, call[0]) == Spliced(CLOBBER[0], Own(0), [Cell(0, Param(0))]) == INLINED.body[0];
    assert InlineBody(before, sites, call[1..]) == [];
    assert InlineBody(before, sites, call)
      == [InlineOne(before, sites, call[0])] + InlineBody(before, sites, call[1..]);
  }

  /** The callee stays as it is. */
  lemma ClobberFirst()
    ensures PassUpTo(CLOBBER, 1)[0] == CLOBBER[0]
  {
    var body := CLOBBER[0].body;
    assert body[1..] == [];
    assert SiteList(CLOBBER, body) == [];
    assert PassUpTo(CLOBBER, 0) == CLOBBER;
    assert PassUpTo(CLOBBER, 1) == PassOne(CLOBBER, 0) == EditAll(CLOBBER, 0, []) == CLOBBER;
  }

  lemma InlinedClobbers<V, W>(m: Meaning<V, W>, at: V, w: W, fuel: nat)
    requires Pass(CLOBBER)[1] == INLINED
    ensures var after := m.op(0, [], w).1;
      RunFunction(Pass(CLOBBER), m, 1, [Known(at)], w, fuel) == Returned(Some(m.cell(0, at, after)), after)
  {
    hide Pass;
    var gs, none: Frame<V>, bs, bound := Pass(CLOBBER), Frame(map[], map[]), [Known(at)], m.rank(1);
    var inner := INLINED.body[0].body;
    var w1 := m.op(0, [], w).1;
    var fr := none.(env := none.env[Inner(Own(0), Own(0)) := m.op(0, [], w).0]);
    var v := m.cell(0, at, w1);
    var end := fr.(locals := fr.locals[Result(Own(0)) := v]);
    assert inner[1..] == [inner[1]] && inner[1..][1..] == [] && INLINED.body[1..] == [];
    assert ExecOne(gs, m, inner[0], bound, none, bs, w, fuel) == Out(fr, w1);
    assert Eval(m, Param(0), fr, bs, w1) == Some(at) && Eval(m, Cell(0, Param(0)), fr, bs, w1) == Some(v);
    assert ExecOne(gs, m, inner[1], bound, fr, bs, w1, fuel) == Out(end, w1);
    assert Exec(gs, m, inner[1..][1..], bound, end, bs, w1, fuel) == Out(end, w1);
    assert Exec(gs, m, inner[1..], bound, fr, bs, w1, fuel) == Out(end, w1);
    assert Exec(gs, m, inner, bound, none, bs, w, fuel) == Out(end, w1);
    assert Exec(gs, m, INLINED.body[1..], bound, end, bs, w1, fuel) == Out(end, w1);
    assert Exec(gs, m, INLINED.body, bound, none, bs, w, fuel) == Out(end, w1);
  }

  lemma Clobbered<V, W>(m: Meaning<V, W>, at: V, w: W, fuel: nat)
    requires m.mode != Strict && m.rank(0) < m.rank(1)
    ensures RunFunction(CLOBBER, m, 1, [Known(at)], w, fuel) ==
      Returned(Some(m.cell(0, at, if m.mode == ByName then m.op(0, [], w).1 else w)), m.op(0, [], w).1)
  {
    var none: Frame<V> := Frame(map[], map[]);
    var arg := Cell(0, Param(0));
    var v, w1 := m.cell(0, at, w), m.op(0, [], w).1;
    assert Eval(m, Param(0), none, [Known(at)], w) == Some(at);
    assert Eval(m, arg, none, [Known(at)], w) == Some(v);
    EvalSingle(m, arg, none, [Known(at)], w);
    var bs := Bind(m.mode, [v], [arg], none, [Known(at)]);
    var body := CLOBBER[0].body;
    assert body[1..] == [];
    var fr := none.(env := none.env[Own(0) := m.op(0, [], w).0]);
    assert Exec(CLOBBER, m, body, m.rank(0), none, bs, w, fuel) == Out(fr, w1);
    var r := m.cell(0, at, if m.mode == ByName then w1 else w);
    ClobberedRead(m, at, w, fr, w1);
    assert RunFunction(CLOBBER, m, 0, bs, w, fuel) == Returned(Some(r), w1);
    var end := none.(env := none.env[Own(0) := r]);
    assert ExecOne(CLOBBER, m, CLOBBER[1].body[0], m.rank(1), none, [Known(at)], w, fuel) == Out(end, w1);
    assert CLOBBER[1].body[1..] == [];
    assert Exec(CLOBBER, m, CLOBBER[1].body[1..], m.rank(1), end, [Known(at)], w1, fuel) == Out(end, w1);
    assert Exec(CLOBBER, m, CLOBBER[1].body, m.rank(1), none, [Known(at)], w, fuel) == Out(end, w1);
    assert CLOBBER[1].result == Some(Value(Own(0)));
    assert Finish(m, Some(Value(Own(0))), end, [Known(at)], w1) == Returned(Some(r), w1);
    assert Eval(m, Value(Own(0)), end, [Known(at)], w1) == Some(r);
  }

  lemma EvalSingle<V, W>(m: Meaning<V, W>, o: Operand, fr: Frame<V>, b: seq<Binding<V>>, w: W)
    requires Eval(m, o, fr, b, w).Some?
    ensures EvalAll(m, [o], fr, b, w) == Some([Eval(m, o, fr, b, w).value])
  {
    var none: seq<Operand> := [];
    assert [o][1..] == none;
    assert EvalAll(m, none, fr, b, w) == Some([]);
    assert [Eval(m, o, fr, b, w).value] + [] == [Eval(m, o, fr, b, w).value];
  }

  lemma ClobberedRead<V, W>(m: Meaning<V, W>, at: V, w: W, fr: Frame<V>, w1: W)
    requires m.mode != Strict
    ensures var bs := Bind(m.mode, [m.cell(0, at, w)], [Cell(0, Param(0))], Frame(map[], map[]), [Known(at)]);
      Eval(m, Param(0), fr, bs, w1) == Some(m.cell(0, at, if m.mode == ByName then w1 else w))
  {
    var none: Frame<V> := Frame(map[], map[]);
    assert Eval(m, Param(0), none, [Known(at)], w1) == Some(at);
    assert Eval(m, Cell(0, Param(0)), none, [Known(at)], w1) == Some(m.cell(0, at, w1));
  }
}
