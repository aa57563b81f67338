/** Structured functions that call each other, and their runs: the form the inlining works on. */
module InlineIr {
  import opened Wrappers

  /** A value or a local of the function itself, of a copy spliced in at a call, or the variable that holds
      the result of that copy. */
  datatype Name = Own(n: nat) | Inner(site: Name, name: Name) | Result(site: Name)

  /** An operand: a value, a local variable, a cell of memory reached from another operand, or a parameter.
      Variables and cells are read when the operand is used. */
  datatype Operand =
    | Value(name: Name)
    | Local(name: Name)
    | Cell(code: nat, base: Operand)
    | Param(i: nat)

  datatype Instr =
    | Compute(dst: Name, op: nat, args: seq<Operand>)
    | WriteLocal(name: Name, arg: Operand)
    | Call(dst: Name, callee: nat, args: seq<Operand>)
    | Nested(body: seq<Instr>)
    | If(cond: Operand, yes: seq<Instr>, no: seq<Instr>)
    | While(test: seq<Instr>, cond: Operand, body: seq<Instr>)

  /** A function that is only declared, or one whose body ends in its one return. */
  datatype Func =
    | Declared
    | Defined(body: seq<Instr>, result: Option<Operand>, annotated: bool)

  /** Calls of annotated functions are the ones to be inlined. */
  predicate Inlines(fs: seq<Func>, g: nat) {
    g < |fs| && fs[g].Defined? && fs[g].annotated
  }

  /** ByValue: an argument is read at the call.  ByName: it is read where the parameter is used.  Strict:
      both, where they agree. */
  datatype Mode = ByValue | ByName | Strict

  /** What instructions, memory cells, conditions and declared functions mean.  The rank orders the functions
      to be inlined: such a call goes to one of lower rank. */
  datatype Meaning<!V, !W> = Meaning(
    op: (nat, seq<V>, W) -> (V, W),
    cell: (nat, V, W) -> V,
    truth: V -> bool,
    extern: (nat, seq<V>, W) -> (V, W),
    rank: nat -> nat,
    mode: Mode)

  datatype Frame<V> = Frame(env: map<Name, V>, locals: map<Name, V>)

  /** What a parameter stands for. */
  datatype Binding<V> =
    | Known(v: V)
    | Thunk(arg: Operand, frame: Frame<V>, binds: seq<Binding<V>>)
    | Both(v: V, arg: Operand, frame: Frame<V>, binds: seq<Binding<V>>)

  function Get<V>(m: map<Name, V>, x: Name): Option<V> {
    if x in m then Some(m[x]) else None
  }

  function Eval<V(==), W>(m: Meaning<V, W>, o: Operand, fr: Frame<V>, binds: seq<Binding<V>>, w: W): Option<V>
    decreases binds, o
  {
    match o
    case Value(x) => Get(fr.env, x)
    case Local(x) => Get(fr.locals, x)
    case Cell(code, base) =>
      (match Eval(m, base, fr, binds, w)
       case None => None
       case Some(v) => Some(m.cell(code, v, w)))
    case Param(i) =>
      if i >= |binds| then None else
      match binds[i]
      case Known(v) => Some(v)
      case Thunk(a, f, bs) => Eval(m, a, f, bs, w)
      case Both(v, a, f, bs) => if Eval(m, a, f, bs, w) == Some(v) then Some(v) else None
  }

  function EvalAll<V(==), W>(m: Meaning<V, W>, args: seq<Operand>, fr: Frame<V>, binds: seq<Binding<V>>,
      w: W): (r: Option<seq<V>>)
    ensures r.Some? ==> |r.value| == |args|
  {
    if args == [] then Some([]) else
    match Eval(m, args[0], fr, binds, w)
    case None => None
    case Some(v) =>
      match EvalAll(m, args[1..], fr, binds, w)
      case None => None
      case Some(vs) => Some([v] + vs)
  }

  /** The parameters of an inline call. */
  function Bind<V>(mode: Mode, vals: seq<V>, args: seq<Operand>, fr: Frame<V>, binds: seq<Binding<V>>): seq<Binding<V>>
    requires |vals| == |args|
  {
    seq(|args|, i requires 0 <= i < |args| =>
      match mode
      case ByValue => Known(vals[i])
      case ByName => Thunk(args[i], fr, binds)
      case Strict => Both(vals[i], args[i], fr, binds))
  }

  function KnownAll<V>(vals: seq<V>): seq<Binding<V>> {
    seq(|vals|, i requires 0 <= i < |vals| => Known(vals[i]))
  }

  datatype Out<V, W> = Out(fr: Frame<V>, w: W) | OutOfFuel | Wrong

  datatype Returned<V, W> = Returned(result: Option<V>, w: W) | NoFuel | WentWrong

  function SetEnv<V, W>(fr: Frame<V>, x: Name, v: V, w: W): Out<V, W> {
    Out(fr.(env := fr.env[x := v]), w)
  }

  /** Runs a body of a function of a rank.  Fuel bounds loop iterations and calls of functions that are not to
      be inlined; an inline call must go to a function of lower rank. */
  function Exec<V(==), W>(fs: seq<Func>, m: Meaning<V, W>, body: seq<Instr>, bound: nat, fr: Frame<V>,
      binds: seq<Binding<V>>, w: W, fuel: nat): Out<V, W>
    decreases fuel, bound, body, 1
  {
    if body == [] then Out(fr, w) else
    match ExecOne(fs, m, body[0], bound, fr, binds, w, fuel)
    case Out(fr1, w1) => Exec(fs, m, body[1..], bound, fr1, binds, w1, fuel)
    case OutOfFuel => OutOfFuel
    case Wrong => Wrong
  }

  function ExecOne<V(==), W>(fs: seq<Func>, m: Meaning<V, W>, instr: Instr, bound: nat, fr: Frame<V>,
      binds: seq<Binding<V>>, w: W, fuel: nat): Out<V, W>
    decreases fuel, bound, instr, 2
  {
    match instr
    case Compute(dst, op, args) =>
      (match EvalAll(m, args, fr, binds, w)
       case None => Wrong
       case Some(vs) => SetEnv(fr, dst, m.op(op, vs, w).0, m.op(op, vs, w).1))
    case WriteLocal(x, arg) =>
      (match Eval(m, arg, fr, binds, w)
       case None => Wrong
       case Some(v) => Out(fr.(locals := fr.locals[x := v]), w))
    case Call(dst, g, args) =>
      (match EvalAll(m, args, fr, binds, w)
       case None => Wrong
       case Some(vs) =>
         if g >= |fs| then Wrong
         else if fs[g].Declared? then SetEnv(fr, dst, m.extern(g, vs, w).0, m.extern(g, vs, w).1)
         else if fs[g].annotated then
           if m.rank(g) >= bound then Wrong
           else After(fr, dst, RunFunction(fs, m, g, Bind(m.mode, vs, args, fr, binds), w, fuel))
         else if fuel == 0 then OutOfFuel
         else After(fr, dst, RunFunction(fs, m, g, KnownAll(vs), w, fuel - 1)))
    case Nested(body) => Exec(fs, m, body, bound, fr, binds, w, fuel)
    case If(cond, yes, no) =>
      (match Eval(m, cond, fr, binds, w)
       case None => Wrong
       case Some(v) =>
         if m.truth(v) then Exec(fs, m, yes, bound, fr, binds, w, fuel) else Exec(fs, m, no, bound, fr, binds, w, fuel))
    case While(_, _, _) => ExecWhile(fs, m, instr, bound, fr, binds, w, fuel)
  }

  function ExecWhile<V(==), W>(fs: seq<Func>, m: Meaning<V, W>, loop: Instr, bound: nat, fr: Frame<V>,
      binds: seq<Binding<V>>, w: W, fuel: nat): Out<V, W>
    requires loop.While?
    decreases fuel, bound, loop, 0
  {
    if fuel == 0 then OutOfFuel else
    match Exec(fs, m, loop.test, bound, fr, binds, w, fuel - 1)
    case OutOfFuel => OutOfFuel
    case Wrong => Wrong
    case Out(fr1, w1) =>
      match Eval(m, loop.cond, fr1, binds, w1)
      case None => Wrong
      case Some(v) =>
        if !m.truth(v) then Out(fr1, w1) else
        match Exec(fs, m, loop.body, bound, fr1, binds, w1, fuel - 1)
        case OutOfFuel => OutOfFuel
        case Wrong => Wrong
        case Out(fr2, w2) => ExecWhile(fs, m, loop, bound, fr2, binds, w2, fuel - 1)
  }

  function After<V, W>(fr: Frame<V>, dst: Name, r: Returned<V, W>): Out<V, W> {
    match r
    case NoFuel => OutOfFuel
    case WentWrong => Wrong
    case Returned(None, w) => Out(fr, w)
    case Returned(Some(v), w) => SetEnv(fr, dst, v, w)
  }

  /** A call: the body in a frame of its own, then the result. */
  function RunFunction<V(==), W>(fs: seq<Func>, m: Meaning<V, W>, g: nat, binds: seq<Binding<V>>, w: W,
      fuel: nat): Returned<V, W>
    requires g < |fs| && fs[g].Defined?
    decreases fuel, m.rank(g), fs[g].body, 3
  {
    match Exec(fs, m, fs[g].body, m.rank(g), Frame(map[], map[]), binds, w, fuel)
    case OutOfFuel => NoFuel
    case Wrong => WentWrong
    case Out(fr, w1) => Finish(m, fs[g].result, fr, binds, w1)
  }

  function Finish<V(==), W>(m: Meaning<V, W>, result: Option<Operand>, fr: Frame<V>, binds: seq<Binding<V>>,
      w: W): Returned<V, W> {
    match result
    case None => Returned(None, w)
    case Some(o) =>
      match Eval(m, o, fr, binds, w)
      case None => WentWrong
      case Some(v) => Returned(Some(v), w)
  }
}
