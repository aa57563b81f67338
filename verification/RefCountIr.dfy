/** Function bodies as far as reference counting sees them, and what running them does to counts. */
module RefCountIr {

  /** A value written, copied or returned: a variable's, or a call's result. */
  datatype Source = Variable(x: nat) | Result(r: nat)

  /** Local declares a variable, Call produces a result, Use passes results, in the order of their calls, and
      variables to any other instruction.  Init, Copy, Fin and FinResult are the calls the pass inserts. */
  datatype Instr =
    | Local(x: nat)
    | Write(x: nat, src: Source)
    | Call(r: nat)
    | Use(rs: seq<nat>, xs: seq<nat>)
    | Nested(body: seq<Instr>)
    | If(thenBody: seq<Instr>, elseBody: seq<Instr>)
    | While(cond: seq<Instr>, body: seq<Instr>)
    | For(body: seq<Instr>)
    | Return(src: Source)
    | ReturnVoid
    | Break
    | Continue
    | Init(x: nat)
    | Copy(src: Source)
    | Fin(x: nat)
    | FinResult(r: nat)

  /** The counted cells a value refers to: one for each counted field, so a cell may occur twice. */
  type Cells = seq<nat>

  /** What the program does not decide: the branch taken, the value a call returns and the value an
      initializer makes, at each tick. */
  datatype World = World(choose: nat -> bool, result: nat -> Cells, made: nat -> Cells)

  /** counts holds each live cell as many times as its count says; a freed cell is not in it. */
  datatype State = State(vars: map<nat, Cells>, results: map<nat, Cells>, counts: multiset<nat>, tick: nat)

  datatype Outcome =
    | Normal(st: State)
    | Broke(st: State)
    | Continued(st: State)
    | Returned(cells: Cells, st: State)
    | OutOfFuel
    | Crash

  function VarCells(st: State, x: nat): Cells {
    if x in st.vars then st.vars[x] else []
  }

  function ResultCells(st: State, r: nat): Cells {
    if r in st.results then st.results[r] else []
  }

  function SourceCells(st: State, src: Source): Cells {
    match src
    case Variable(x) => VarCells(st, x)
    case Result(r) => ResultCells(st, r)
  }

  predicate AllLive(st: State, cells: Cells) {
    forall c :: c in cells ==> c in st.counts
  }

  /** Takes a count from each cell; touching a freed cell crashes. */
  function Release(st: State, cells: Cells): Outcome {
    if multiset(cells) <= st.counts then Normal(st.(counts := st.counts - multiset(cells))) else Crash
  }

  /** Adds a count to each cell; touching a freed cell crashes. */
  function Retain(st: State, cells: Cells): Outcome {
    if AllLive(st, cells) then Normal(st.(counts := st.counts + multiset(cells))) else Crash
  }

  function ExecOne(w: World, instr: Instr, st: State, fuel: nat): Outcome
    decreases fuel, instr, 2
  {
    match instr
    case Local(_) => Normal(st)
    case Write(x, src) => Normal(st.(vars := st.vars[x := SourceCells(st, src)]))
    case Call(r) =>
      var cells := w.result(st.tick);
      Normal(st.(results := st.results[r := cells], counts := st.counts + multiset(cells), tick := st.tick + 1))
    case Use(rs, xs) =>
      if (forall r :: r in rs ==> AllLive(st, ResultCells(st, r)))
        && (forall x :: x in xs ==> AllLive(st, VarCells(st, x)))
      then Normal(st) else Crash
    case Nested(body) => Exec(w, body, st, fuel)
    case If(a, b) => Exec(w, if w.choose(st.tick) then a else b, st.(tick := st.tick + 1), fuel)
    case While(_, _) => ExecLoop(w, instr, st, fuel)
    case For(_) => ExecLoop(w, instr, st, fuel)
    case Return(src) => Returned(SourceCells(st, src), st)
    case ReturnVoid => Returned([], st)
    case Break => Broke(st)
    case Continue => Continued(st)
    case Init(x) =>
      var cells := w.made(st.tick);
      Normal(st.(vars := st.vars[x := cells], counts := st.counts + multiset(cells), tick := st.tick + 1))
    case Copy(src) => Retain(st, SourceCells(st, src))
    case Fin(x) => Release(st, VarCells(st, x))
    case FinResult(r) => Release(st, ResultCells(st, r))
  }

  function Exec(w: World, body: seq<Instr>, st: State, fuel: nat): Outcome
    decreases fuel, body, 1
  {
    if body == [] then Normal(st)
    else
      match ExecOne(w, body[0], st, fuel)
      case Normal(st') => Exec(w, body[1..], st', fuel)
      case o => o
  }

  function LoopCond(loop: Instr): seq<Instr>
    requires loop.While? || loop.For?
  {
    if loop.While? then loop.cond else []
  }

  /** Both loops: the condition is computed, then the body runs or the loop ends. */
  function ExecLoop(w: World, loop: Instr, st: State, fuel: nat): Outcome
    requires loop.While? || loop.For?
    decreases fuel, loop, 0
  {
    if fuel == 0 then OutOfFuel
    else
      match Exec(w, LoopCond(loop), st, fuel - 1)
      case Normal(st1) =>
        if !w.choose(st1.tick) then Normal(st1.(tick := st1.tick + 1))
        else
          (match Exec(w, loop.body, st1.(tick := st1.tick + 1), fuel - 1)
           case Normal(st2) => ExecLoop(w, loop, st2, fuel - 1)
           case Continued(st2) => ExecLoop(w, loop, st2, fuel - 1)
           case Broke(st2) => Normal(st2)
           case o => o)
      case o => o
  }

  lemma {:induction false} ExecAppend(w: World, a: seq<Instr>, b: seq<Instr>, st: State, fuel: nat)
    ensures var o := Exec(w, a, st, fuel);
            Exec(w, a + b, st, fuel) == if o.Normal? then Exec(w, b, o.st, fuel) else o
    decreases |a|
  {
    if a == [] {
      assert a + b == b;
    } else {
      assert (a + b)[1..] == a[1..] + b;
      var o := ExecOne(w, a[0], st, fuel);
      if o.Normal? {
        ExecAppend(w, a[1..], b, o.st, fuel);
      }
    }
  }

  lemma ExecSingle(w: World, x: Instr, st: State, fuel: nat)
    ensures Exec(w, [x], st, fuel) == ExecOne(w, x, st, fuel)
  {
    var o := ExecOne(w, x, st, fuel);
    assert [x][1..] == [];
    if o.Normal? {
      assert Exec(w, [x][1..], o.st, fuel) == Normal(o.st);
    }
  }
}
