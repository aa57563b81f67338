/** The five passes that insert the calls of reference counting. */
module RefCountPass {
  import opened RefCountIr

  predicate IsTerminated(instr: Instr) {
    instr.Return? || instr.ReturnVoid? || instr.Break? || instr.Continue?
  }

  predicate UsesResult(instr: Instr, r: nat) {
    match instr
    case Write(_, src) => src == Result(r)
    case Use(rs, _) => r in rs
    case Return(src) => src == Result(r)
    case _ => false
  }

  predicate UsedIn(rest: seq<Instr>, r: nat) {
    exists i :: 0 <= i < |rest| && UsesResult(rest[i], r)
  }

  /** Each result is released after the instruction that uses it, the last operand first. */
  function FinResults(rs: seq<nat>): seq<Instr> {
    if rs == [] then [] else FinResults(rs[1..]) + [FinResult(rs[0])]
  }

  function DestroyOne(instr: Instr, rest: seq<Instr>): seq<Instr>
    decreases instr, 0
  {
    match instr
    case Call(r) => if UsedIn(rest, r) then [instr] else [instr, FinResult(r)]
    case Use(rs, _) => [instr] + FinResults(rs)
    case Write(_, Result(r)) => [instr, FinResult(r)]
    case Nested(b) => [Nested(DestroyCalls(b))]
    case If(a, b) => [If(DestroyCalls(a), DestroyCalls(b))]
    case While(c, b) => [While(DestroyCalls(c), DestroyCalls(b))]
    case For(b) => [For(DestroyCalls(b))]
    case _ => [instr]
  }

  /** InsertDestroyForCall: a result nothing uses is released at once, one that is returned is not. */
  function DestroyCalls(body: seq<Instr>): seq<Instr>
    decreases body, 1
  {
    if body == [] then [] else DestroyOne(body[0], body[1..]) + DestroyCalls(body[1..])
  }

  function InitOne(instr: Instr): seq<Instr>
    decreases instr, 0
  {
    match instr
    case Local(x) => [instr, Init(x)]
    case Nested(b) => [Nested(InitLocals(b))]
    case If(a, b) => [If(InitLocals(a), InitLocals(b))]
    case While(c, b) => [While(InitLocals(c), InitLocals(b))]
    case For(b) => [For(InitLocals(b))]
    case _ => [instr]
  }

  /** InsertLocalVariableInitialize. */
  function InitLocals(body: seq<Instr>): seq<Instr>
    decreases body, 1
  {
    if body == [] then [] else InitOne(body[0]) + InitLocals(body[1..])
  }

  function CountOne(instr: Instr): seq<Instr>
    decreases instr, 0
  {
    match instr
    case Write(x, src) => [Fin(x), Copy(src), instr]
    case Nested(b) => [Nested(CountWrites(b))]
    case If(a, b) => [If(CountWrites(a), CountWrites(b))]
    case While(c, b) => [While(CountWrites(c), CountWrites(b))]
    case For(b) => [For(CountWrites(b))]
    case _ => [instr]
  }

  /** InsertVariableIncrementReferenceCount: before a write the old value is released and then the new
      one retained. */
  function CountWrites(body: seq<Instr>): seq<Instr>
    decreases body, 1
  {
    if body == [] then [] else CountOne(body[0]) + CountWrites(body[1..])
  }

  function CopyOne(instr: Instr): seq<Instr>
    decreases instr, 0
  {
    match instr
    case Return(Variable(x)) => [Copy(Variable(x)), instr]
    case Nested(b) => [Nested(CopyReturns(b))]
    case If(a, b) => [If(CopyReturns(a), CopyReturns(b))]
    case While(c, b) => [While(CopyReturns(c), CopyReturns(b))]
    case For(b) => [For(CopyReturns(b))]
    case _ => [instr]
  }

  /** InsertCopyForReturn: a returned call result is handed over as it is. */
  function CopyReturns(body: seq<Instr>): seq<Instr>
    decreases body, 1
  {
    if body == [] then [] else CopyOne(body[0]) + CopyReturns(body[1..])
  }

  function FirstTerminated(body: seq<Instr>): (at: nat)
    ensures at <= |body|
    ensures at < |body| ==> IsTerminated(body[at])
    ensures forall i :: 0 <= i < at ==> !IsTerminated(body[i])
  {
    if body == [] || IsTerminated(body[0]) then 0 else 1 + FirstTerminated(body[1..])
  }

  function LocalsOf(body: seq<Instr>): seq<nat> {
    if body == [] then [] else (if body[0].Local? then [body[0].x] else []) + LocalsOf(body[1..])
  }

  function Fins(xs: seq<nat>): seq<Instr> {
    if xs == [] then [] else [Fin(xs[0])] + Fins(xs[1..])
  }

  function ScopeOne(instr: Instr): Instr
    decreases instr, 0
  {
    match instr
    case Nested(b) => Nested(FinalizeLocals(b))
    case If(a, b) => If(FinalizeLocals(a), FinalizeLocals(b))
    case While(c, b) => While(c, FinalizeLocals(b))
    case For(b) => For(FinalizeLocals(b))
    case _ => instr
  }

  /** The blocks inside the values before the first terminator, finalized in turn. */
  function ScopeEach(body: seq<Instr>): (r: seq<Instr>)
    ensures |r| == |body|
    decreases body, 1
  {
    if body == [] then [] else [ScopeOne(body[0])] + ScopeEach(body[1..])
  }

  /** InsertFinalizeLocalVariableForBlock: the block's own variables are finalized before its first
      terminator or at its end.  What follows the terminator, and the condition of a `while`, are left
      alone. */
  function FinalizeLocals(body: seq<Instr>): seq<Instr>
    decreases body, 2
  {
    var at := FirstTerminated(body);
    PrefixSmaller(body, at);
    ScopeEach(body[..at]) + Fins(LocalsOf(body[..at])) + body[at..]
  }

  lemma PrefixSmaller(body: seq<Instr>, at: nat)
    requires at <= |body|
    ensures body[..at] == body || |body[..at]| < |body|
  {
  }

  /** What the passes make of a body. */
  function InsertCounts(body: seq<Instr>): seq<Instr> {
    FinalizeLocals(CopyReturns(CountWrites(InitLocals(DestroyCalls(body)))))
  }
}
