/** Running the blocks of a function is running its flat list. */
module CfgCorrect {
  import opened I64
  import opened StructuredIr
  import opened FlatMachine
  import opened FlattenCorrect
  import opened FlattenShape
  import opened FlattenTheorem
  import opened Cfg

  datatype CfgConfig<S> =
    | InBlock(block: nat, index: nat, st: State<S>, counts: map<nat, i64>)
    | Done(value: nat, st: State<S>)

  function Enter(t: Target, bad: nat): nat {
    match t
    case ToBlock(index) => index
    case ToLabel(_) => bad
  }

  /** One instruction of a block.  A block that runs out of instructions is stuck. */
  function CfgStep<S>(m: Meaning<S>, blocks: seq<seq<Instr>>, c: CfgConfig<S>): CfgConfig<S> {
    if c.Done? || c.block >= |blocks| || c.index >= |blocks[c.block]| then c
    else
      match blocks[c.block][c.index]
      case Jump(t) => InBlock(Enter(t, |blocks|), 0, c.st, c.counts)
      case CondBranch(test, t, f) =>
        InBlock(Enter(if Holds(m, test, c.st, c.counts) then t else f, |blocks|), 0, c.st, c.counts)
      case Return(value) => Done(value, c.st)
      case instr =>
        var (st, counts) := Effect(m, instr, c.st, c.counts);
        InBlock(c.block, c.index + 1, st, counts)
  }

  function CfgRun<S>(m: Meaning<S>, blocks: seq<seq<Instr>>, c: CfgConfig<S>, k: nat): CfgConfig<S>
    decreases k
  {
    if k == 0 then c else CfgRun(m, blocks, CfgStep(m, blocks, c), k - 1)
  }

  lemma {:induction false} DoneStays<S>(m: Meaning<S>, blocks: seq<seq<Instr>>, c: CfgConfig<S>, k: nat)
    requires c.Done?
    ensures CfgRun(m, blocks, c, k) == c
    decreases k
  {
    if k > 0 {
      DoneStays(m, blocks, c, k - 1);
    }
  }

  lemma {:induction false} CfgRunAdd<S>(m: Meaning<S>, blocks: seq<seq<Instr>>, c: CfgConfig<S>, j: nat, k: nat)
    ensures CfgRun(m, blocks, c, j + k) == CfgRun(m, blocks, CfgRun(m, blocks, c, j), k)
    decreases j
  {
    if j > 0 {
      CfgRunAdd(m, blocks, CfgStep(m, blocks, c), j - 1, k);
    }
  }

  /** No terminator stands between the last label before p and p. */
  ghost predicate Straight(code: seq<Instr>, p: nat) {
    p <= |code| && forall q :: p - SinceLabel(code[..p]) <= q < p ==> !IsTerminator(code[q])
  }

  /** A list ready to be cut: distinct labels that only branches reach, targets in the list, and a
      Return at its end. */
  ghost predicate Ready(code: seq<Instr>) {
    && UniqueLabels(code) && LabelsAfterBranches(code) && AllGoWithin(code, LabelsOf(code))
    && |code| > 0 && code[|code| - 1].Return?
  }

  /** The value at position p is in its block, at its offset from the label before it. */
  lemma {:induction false} CutAt(code: seq<Instr>, blockOf: map<nat, nat>, p: nat)
    requires p < |code| && !code[p].Label?
    ensures LabelCount(code[..p]) < |Cut(code, blockOf)|
    ensures var b := Cut(code, blockOf)[LabelCount(code[..p])];
            SinceLabel(code[..p]) < |b| && b[SinceLabel(code[..p])] == Retarget(code[p], blockOf)
            && forall i :: 0 <= i < SinceLabel(code[..p]) ==>
                 b[i] == Retarget(code[p - SinceLabel(code[..p]) + i], blockOf)
    decreases |code|
  {
    hide Retarget, SinceLabel, LabelCount;
    var n := |code| - 1;
    if p < n {
      assert code[..n][..p] == code[..p];
      CutAt(code[..n], blockOf, p);
    } else {
      CutEnd(code[..n], blockOf);
    }
  }

  /** The last block holds what follows the last label. */
  lemma {:induction false} CutEnd(code: seq<Instr>, blockOf: map<nat, nat>)
    ensures var b := Cut(code, blockOf)[LabelCount(code)];
            |b| == SinceLabel(code)
            && forall i :: 0 <= i < |b| ==> b[i] == Retarget(code[|code| - |b| + i], blockOf)
    decreases |code|
  {
    if code != [] && !code[|code| - 1].Label? {
      CutEnd(code[..|code| - 1], blockOf);
    }
  }

  /** The block of a label starts with the value after it. */
  lemma {:induction false} BlockOfLabel(code: seq<Instr>, p: nat)
    requires UniqueLabels(code) && p < |code| && code[p].Label?
    ensures code[p].id in BlockOf(code) && BlockOf(code)[code[p].id] == LabelCount(code[..p]) + 1
    decreases |code|
  {
    var n := |code| - 1;
    if p < n {
      assert code[..n][..p] == code[..p];
      BlockOfLabel(code[..n], p);
      assert code[p] in code[..n];
    }
  }

  lemma {:induction false} TruncateKeeps(block: seq<Instr>, i: nat)
    requires i < |block| && forall q :: 0 <= q < i ==> !IsTerminator(block[q])
    ensures i < |Truncate(block)| && Truncate(block)[i] == block[i]
    decreases i
  {
    if i > 0 {
      TruncateKeeps(block[1..], i - 1);
    }
  }

  function FinalBlocks(code: seq<Instr>): seq<seq<Instr>> {
    TruncateAll(Blocks(code))
  }

  /** The place in the truncated blocks of a position that a run can reach. */
  lemma FinalAt(code: seq<Instr>, p: nat)
    requires p < |code| && !code[p].Label? && Straight(code, p)
    ensures var b := LabelCount(code[..p]);
            b < |FinalBlocks(code)| && SinceLabel(code[..p]) < |FinalBlocks(code)[b]|
            && FinalBlocks(code)[b][SinceLabel(code[..p])] == Retarget(code[p], BlockOf(code))
  {
    CutAt(code, BlockOf(code), p);
    TruncateKeeps(Blocks(code)[LabelCount(code[..p])], SinceLabel(code[..p]));
  }

  /** The flat configuration and the block configuration agree.  At a label the block configuration
      is already at the start of the label's block. */
  ghost predicate Agrees<S>(code: seq<Instr>, c: Config<S>, d: CfgConfig<S>) {
    match c
    case Halted(value, st) => d == Done(value, st)
    case Running(p, st, counts) =>
      && p < |code|
      && if code[p].Label? then d == InBlock(LabelCount(code[..p]) + 1, 0, st, counts)
         else Straight(code, p) && d == InBlock(LabelCount(code[..p]), SinceLabel(code[..p]), st, counts)
  }

  lemma FindLabel(code: seq<Instr>, name: nat)
    requires name in LabelsOf(code)
    ensures Find(code, name) < |code| && code[Find(code, name)] == Label(name)
  {
    var i :| 0 <= i < |code| && code[i].Label? && code[i].id == name;
    assert code[i] == Label(name);
  }

  /** A branch to a label of the list is a branch to the block of that label. */
  lemma GoAgrees<S>(code: seq<Instr>, t: Target, st: State<S>, counts: map<nat, i64>)
    requires UniqueLabels(code) && TargetIn(t, LabelsOf(code))
    ensures Agrees(code, Running(Resolve(code, t), st, counts),
                   InBlock(Enter(ResolveIn(t, BlockOf(code)), |FinalBlocks(code)|), 0, st, counts))
  {
    FindLabel(code, t.name);
    BlockOfLabel(code, Find(code, t.name));
  }

  /** Passing a label takes a flat step and no block step. */
  lemma LabelAgrees<S>(m: Meaning<S>, code: seq<Instr>, c: Config<S>, d: CfgConfig<S>)
    requires Ready(code) && Agrees(code, c, d) && c.Running? && code[c.pc].Label?
    ensures Agrees(code, Step(m, code, c), d)
    ensures var c' := Step(m, code, c); c'.Running? && c'.pc < |code| && !code[c'.pc].Label?
  {
    var p := c.pc;
    assert code[..p + 1][..p] == code[..p];
    assert LabelCount(code[..p + 1]) == LabelCount(code[..p]) + 1;
    assert SinceLabel(code[..p + 1]) == 0;
    assert p + 1 < |code|;
    assert !code[p + 1].Label?;
  }

  /** Every other value takes one step in both. */
  lemma StepAgrees<S>(m: Meaning<S>, code: seq<Instr>, c: Config<S>, d: CfgConfig<S>)
    requires Ready(code) && Agrees(code, c, d) && (c.Halted? || !code[c.pc].Label?)
    ensures Agrees(code, Step(m, code, c), CfgStep(m, FinalBlocks(code), d))
  {
    if c.Running? {
      var p := c.pc;
      FinalAt(code, p);
      match code[p]
      case Jump(t) => GoAgrees(code, t, c.st, c.counts);
      case CondBranch(test, t, f) =>
        GoAgrees(code, if Holds(m, test, c.st, c.counts) then t else f, c.st, c.counts);
      case Return(_) =>
      case _ => OnwardAgrees(m, code, c, d);
    }
  }

  lemma OnwardAgrees<S>(m: Meaning<S>, code: seq<Instr>, c: Config<S>, d: CfgConfig<S>)
    requires Ready(code) && Agrees(code, c, d)
    requires c.Running? && !code[c.pc].Label? && !IsTerminator(code[c.pc])
    ensures Agrees(code, Step(m, code, c), CfgStep(m, FinalBlocks(code), d))
  {
    hide FinalBlocks, SinceLabel, LabelCount, BlockOf;
    var p := c.pc;
    FinalAt(code, p);
    assert p + 1 < |code|;
    assert !code[p + 1].Label?;
    NextPlace(code, p);
  }

  lemma NextPlace(code: seq<Instr>, p: nat)
    requires p < |code| && !code[p].Label?
    ensures SinceLabel(code[..p + 1]) == SinceLabel(code[..p]) + 1
    ensures LabelCount(code[..p + 1]) == LabelCount(code[..p])
  {
    assert code[..p + 1][..p] == code[..p];
  }

  function AtLabel<S>(code: seq<Instr>, c: Config<S>): nat {
    if c.Running? && c.pc < |code| && code[c.pc].Label? then 1 else 0
  }

  /** k flat steps are at least k / 2 block steps. */
  lemma {:induction false} RunAgrees<S>(m: Meaning<S>, code: seq<Instr>, c: Config<S>, d: CfgConfig<S>, k: nat)
    returns (j: nat)
    requires Ready(code) && Agrees(code, c, d)
    ensures Agrees(code, Run(m, code, c, k), CfgRun(m, FinalBlocks(code), d, j))
    ensures k <= 2 * j + AtLabel(code, c)
    decreases k
  {
    if k == 0 {
      j := 0;
    } else if AtLabel(code, c) == 1 {
      LabelAgrees(m, code, c, d);
      j := RunAgrees(m, code, Step(m, code, c), d, k - 1);
    } else {
      StepAgrees(m, code, c, d);
      j := RunAgrees(m, code, Step(m, code, c), CfgStep(m, FinalBlocks(code), d), k - 1);
      j := j + 1;
    }
  }

  /** The blocks, run from the start of the entry block, return that value in that state. */
  ghost predicate CfgReturns<S(!new)>(m: Meaning<S>, blocks: seq<seq<Instr>>, st: State<S>, value: nat, st': State<S>) {
    exists k: nat :: CfgRun(m, blocks, InBlock(0, 0, st, map[]), k) == Done(value, st')
  }

  /** The blocks of a flat list return exactly what the list returns, so one of them runs forever
      exactly when the other does. */
  lemma BlocksPreserveRuns<S(!new)>(m: Meaning<S>, code: seq<Instr>, st: State<S>, value: nat, st': State<S>)
    requires Ready(code)
    ensures FlatEndsAs(m, code, st, Returned(value, st')) <==> CfgReturns(m, FinalBlocks(code), st, value, st')
  {
    var c, d := Running(0, st, map[]), InBlock(0, 0, st, map[]);
    assert code[..0] == [];
    assert !code[0].Label?;
    assert Agrees(code, c, d);
    if FlatEndsAs(m, code, st, Returned(value, st')) {
      var k: nat :| Run(m, code, c, k) == Halted(value, st');
      var j := RunAgrees(m, code, c, d, k);
    }
    if CfgReturns(m, FinalBlocks(code), st, value, st') {
      var j: nat :| CfgRun(m, FinalBlocks(code), d, j) == Done(value, st');
      var j2 := RunAgrees(m, code, c, d, 2 * j);
      CfgRunAdd(m, FinalBlocks(code), d, j, j2 - j);
      DoneStays(m, FinalBlocks(code), Done(value, st'), j2 - j);
      assert StopsAs(code, Run(m, code, c, 2 * j), Returned(value, st'));
    }
  }
}
