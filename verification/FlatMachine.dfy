/** The machine that runs a flat list of labels and branches. */
module FlatMachine {
  import opened I64
  import opened StructuredIr

  /** A configuration: the next value to run, the state the program sees, and the counters that
      flattening introduced. */
  datatype Config<S> =
    | Running(pc: nat, st: State<S>, counts: map<nat, i64>)
    | Halted(value: nat, st: State<S>)

  function Count(counts: map<nat, i64>, count: nat): i64 {
    if count in counts then counts[count] else 0
  }

  function LabelsOf(code: seq<Instr>): set<nat> {
    set i | 0 <= i < |code| && code[i].Label? :: code[i].id
  }

  /** The position of the first label of that name, or the end of the list. */
  function Find(code: seq<Instr>, name: nat): (pos: nat)
    ensures pos <= |code|
    ensures pos < |code| ==> code[pos] == Label(name)
    ensures forall i :: 0 <= i < pos ==> code[i] != Label(name)
  {
    if code == [] || code[0] == Label(name) then 0 else 1 + Find(code[1..], name)
  }

  function Resolve(code: seq<Instr>, t: Target): nat {
    match t
    case ToLabel(name) => Find(code, name)
    case ToBlock(_) => |code|
  }

  function Holds<S>(m: Meaning<S>, c: Cond, st: State<S>, counts: map<nat, i64>): bool {
    match c
    case CondValue(code) => m.test(code, st.user)
    case CountLess(count, last) => Count(counts, count) < Slot(st, last)
  }

  /** The effect of a value that is neither a branch nor a Return. */
  function Effect<S>(m: Meaning<S>, instr: Instr, st: State<S>, counts: map<nat, i64>): (State<S>, map<nat, i64>) {
    match instr
    case Op(code) => (StepOp(m, code, st), counts)
    case Capture(slot, code) => (StepCapture(m, slot, code, st), counts)
    case StartCount(count, first) => (st, counts[count := Wrap(Slot(st, first) - 1)])
    case BumpCount(count) => (st, counts[count := Wrap(Count(counts, count) + 1)])
    case WriteIndex(index, count) => (StepIndex(m, index, Count(counts, count), st), counts)
    case _ => (st, counts)
  }

  function Step<S>(m: Meaning<S>, code: seq<Instr>, c: Config<S>): Config<S> {
    if c.Halted? || c.pc >= |code| then c
    else
      match code[c.pc]
      case Jump(t) => c.(pc := Resolve(code, t))
      case CondBranch(test, t, f) =>
        c.(pc := Resolve(code, if Holds(m, test, c.st, c.counts) then t else f))
      case Return(value) => Halted(value, c.st)
      case instr =>
        var (st, counts) := Effect(m, instr, c.st, c.counts);
        Running(c.pc + 1, st, counts)
  }

  function Run<S>(m: Meaning<S>, code: seq<Instr>, c: Config<S>, k: nat): Config<S>
    decreases k
  {
    if k == 0 then c else Run(m, code, Step(m, code, c), k - 1)
  }

  /** The run is over: it returned, or it ran off the end of the list. */
  predicate Final<S>(code: seq<Instr>, c: Config<S>) {
    c.Halted? || c.pc >= |code|
  }

  lemma {:induction false} RunAdd<S>(m: Meaning<S>, code: seq<Instr>, c: Config<S>, j: nat, k: nat)
    ensures Run(m, code, c, j + k) == Run(m, code, Run(m, code, c, j), k)
    decreases j
  {
    if j > 0 {
      RunAdd(m, code, Step(m, code, c), j - 1, k);
    }
  }

  lemma {:induction false} FinalStays<S>(m: Meaning<S>, code: seq<Instr>, c: Config<S>, k: nat)
    requires Final(code, c)
    ensures Run(m, code, c, k) == c
    decreases k
  {
    if k > 0 {
      FinalStays(m, code, c, k - 1);
    }
  }

  /** Two runs of the same program that are over ended the same way. */
  lemma RunDeterministic<S>(m: Meaning<S>, code: seq<Instr>, c: Config<S>, j: nat, k: nat)
    requires Final(code, Run(m, code, c, j)) && Final(code, Run(m, code, c, k))
    ensures Run(m, code, c, j) == Run(m, code, c, k)
  {
    if j <= k {
      RunAdd(m, code, c, j, k - j);
      FinalStays(m, code, Run(m, code, c, j), k - j);
    } else {
      RunAdd(m, code, c, k, j - k);
      FinalStays(m, code, Run(m, code, c, k), j - k);
    }
  }
}
