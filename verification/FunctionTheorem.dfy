/** From a checked function body to its basic blocks. */
module FunctionTheorem {
  import opened StructuredIr
  import opened IrBlock
  import opened Flatten
  import opened FlatMachine
  import opened FlattenCorrect
  import opened FlattenShape
  import opened FlattenTheorem
  import opened Cfg
  import opened CfgCorrect

  datatype Checked = Checked(body: seq<Instr>, ok: bool)

  /** The check that every branch of a body returns a value of the function's type, which the typed values
      are.  After an If both of whose branches do, it adds a local variable (the given declaration code) and
      its Return, in place, so that the list ends in a Return.  An empty list does not return. */
  function CheckBranches(body: seq<Instr>, typed: set<nat>, declare: nat, value: nat): Checked
    decreases body
  {
    if body == [] then Checked(body, false)
    else
      var init, last := body[..|body| - 1], body[|body| - 1];
      match last
      case Return(v) => Checked(body, v in typed)
      case If(cond, a, b) =>
        var ra := CheckBranches(a, typed, declare, value);
        if !ra.ok then Checked(init + [If(cond, ra.body, b)], false)
        else
          var rb := CheckBranches(b, typed, declare, value);
          var both := init + [If(cond, ra.body, rb.body)];
          Checked(if rb.ok then both + [Op(declare), Return(value)] else both, rb.ok)
      case Nested(b) =>
        var r := CheckBranches(b, typed, declare, value);
        Checked(init + [Nested(r.body)], r.ok)
      case _ => Checked(body, false)
  }

  /** The check as the lowering makes it, inserting into the block lists. */
  method AllBranchIsTerminated(block: Block<Instr>, typed: set<nat>, declare: nat, value: nat) returns (ok: bool)
    modifies block
    ensures Checked(block.values, ok) == CheckBranches(old(block.values), typed, declare, value)
    decreases block.values
  {
    if |block.values| == 0 {
      return false;
    }
    var at := |block.values| - 1;
    match block.values[at]
    case Return(v) => ok := v in typed;
    case If(cond, a, b) =>
      var thenBlock := new Block(a);
      var elseBlock := new Block(b);
      ok := AllBranchIsTerminated(thenBlock, typed, declare, value);
      if ok {
        ok := AllBranchIsTerminated(elseBlock, typed, declare, value);
      }
      block.values := block.values[..at] + [If(cond, thenBlock.values, elseBlock.values)];
      if ok {
        ghost var both := block.values;
        block.PushBack(Op(declare));
        block.PushBack(Return(value));
        assert block.values == both + [Op(declare), Return(value)];
      }
    case Nested(b) =>
      var inner := new Block(b);
      ok := AllBranchIsTerminated(inner, typed, declare, value);
      block.values := block.values[..at] + [Nested(inner.values)];
    case _ => ok := false;
  }

  /** What may stand last: a Return of the type, a block in which it stands last, or an If with it last on
      both sides. */
  predicate ReturnsLast(instr: Instr, typed: set<nat>) {
    match instr
    case Return(v) => v in typed
    case If(_, a, b) => |a| > 0 && |b| > 0 && ReturnsLast(a[|a| - 1], typed) && ReturnsLast(b[|b| - 1], typed)
    case Nested(b) => |b| > 0 && ReturnsLast(b[|b| - 1], typed)
    case _ => false
  }

  /** The check looks at the last values only, and changes no answer by what it adds on the way. */
  lemma {:induction false} CheckedIff(body: seq<Instr>, typed: set<nat>, declare: nat, value: nat)
    ensures CheckBranches(body, typed, declare, value).ok <==> |body| > 0 && ReturnsLast(body[|body| - 1], typed)
    decreases body
  {
    if body != [] {
      match body[|body| - 1]
      case If(_, a, b) =>
        CheckedIff(a, typed, declare, value);
        CheckedIff(b, typed, declare, value);
      case Nested(b) => CheckedIff(b, typed, declare, value);
      case _ =>
    }
  }

  /** A loop in the last place is refused, even one that always returns. */
  lemma LoopRefused<S>(m: Meaning<S>, loop: nat, cond: nat, v: nat, typed: set<nat>, declare: nat, value: nat,
                       st: State<S>, fuel: nat)
    requires m.test(cond, st.user) && fuel > 0
    ensures var body := [While(loop, [], cond, [Return(v)])];
            !CheckBranches(body, typed, declare, value).ok && Exec(m, body, st, fuel) == Returned(v, st)
  {
    var w := While(loop, [], cond, [Return(v)]);
    ExecSingle(m, w, st, fuel);
    ExecSingle(m, Return(v), st, fuel - 1);
    assert Exec(m, w.condBody, st, fuel - 1) == Normal(st);
    assert ExecOne(m, w, st, fuel) == ExecWhile(m, w, st, fuel) == Returned(v, st);
  }

  lemma {:induction false} ExecAppend<S>(m: Meaning<S>, a: seq<Instr>, b: seq<Instr>, st: State<S>, fuel: nat)
    ensures var o := Exec(m, a, st, fuel);
            Exec(m, a + b, st, fuel) == if o.Normal? then Exec(m, b, o.st, fuel) else o
    decreases |a|
  {
    if a == [] {
      assert a + b == b;
    } else {
      assert (a + b)[1..] == a[1..] + b;
      var o := ExecOne(m, a[0], st, fuel);
      if o.Normal? {
        ExecAppend(m, a[1..], b, o.st, fuel);
      }
    }
  }

  lemma ExecSingle<S>(m: Meaning<S>, x: Instr, st: State<S>, fuel: nat)
    ensures Exec(m, [x], st, fuel) == ExecOne(m, x, st, fuel)
  {
    var o := ExecOne(m, x, st, fuel);
    assert [x][1..] == [];
    if o.Normal? {
      assert Exec(m, [x][1..], o.st, fuel) == Normal(o.st);
    }
  }

  /** A body that passes the check never just runs off its end, and what the check adds is never
      run: the checked body has the same outcome. */
  lemma {:induction false} CheckedSame<S>(m: Meaning<S>, body: seq<Instr>, typed: set<nat>, declare: nat, value: nat,
      st: State<S>, fuel: nat)
    requires CheckBranches(body, typed, declare, value).ok
    ensures Exec(m, CheckBranches(body, typed, declare, value).body, st, fuel) == Exec(m, body, st, fuel)
    ensures !Exec(m, body, st, fuel).Normal?
    decreases body
  {
    hide Exec, ExecOne;
    var init, last := body[..|body| - 1], body[|body| - 1];
    assert body == init + [last];
    ExecAppend(m, init, [last], st, fuel);
    var o := Exec(m, init, st, fuel);
    if o.Normal? {
      ExecSingle(m, last, o.st, fuel);
    }
    match last
    case Return(v) =>
      if o.Normal? {
        ExecReturn(m, v, o.st, fuel);
      }
    case If(cond, a, b) =>
      var ra := CheckBranches(a, typed, declare, value);
      var rb := CheckBranches(b, typed, declare, value);
      var last2 := If(cond, ra.body, rb.body);
      ExecAppend(m, init + [last2], [Op(declare), Return(value)], st, fuel);
      ExecAppend(m, init, [last2], st, fuel);
      if o.Normal? {
        ExecSingle(m, last2, o.st, fuel);
        CheckedSame(m, a, typed, declare, value, o.st, fuel);
        CheckedSame(m, b, typed, declare, value, o.st, fuel);
        ExecIf(m, cond, a, b, o.st, fuel);
        ExecIf(m, cond, ra.body, rb.body, o.st, fuel);
      }
    case Nested(b) =>
      var r := CheckBranches(b, typed, declare, value);
      ExecAppend(m, init, [Nested(r.body)], st, fuel);
      if o.Normal? {
        ExecSingle(m, Nested(r.body), o.st, fuel);
        CheckedSame(m, b, typed, declare, value, o.st, fuel);
        ExecNested(m, b, o.st, fuel);
        ExecNested(m, r.body, o.st, fuel);
      }
  }

  lemma ExecReturn<S>(m: Meaning<S>, value: nat, st: State<S>, fuel: nat)
    ensures ExecOne(m, Return(value), st, fuel) == Returned(value, st)
  {
  }

  lemma ExecIf<S>(m: Meaning<S>, cond: nat, a: seq<Instr>, b: seq<Instr>, st: State<S>, fuel: nat)
    ensures ExecOne(m, If(cond, a, b), st, fuel)
         == if m.test(cond, st.user) then Exec(m, a, st, fuel) else Exec(m, b, st, fuel)
  {
  }

  lemma ExecNested<S>(m: Meaning<S>, b: seq<Instr>, st: State<S>, fuel: nat)
    ensures ExecOne(m, Nested(b), st, fuel) == Exec(m, b, st, fuel)
  {
  }

  lemma {:induction false} ScopedAppend(a: seq<Instr>, b: seq<Instr>, loops: set<nat>)
    ensures Scoped(a + b, loops) <==> Scoped(a, loops) && Scoped(b, loops)
    ensures HostOnly(a + b) <==> HostOnly(a) && HostOnly(b)
    decreases |a|
  {
    if a == [] {
      assert a + b == b;
    } else {
      assert (a + b)[1..] == a[1..] + b;
      ScopedAppend(a[1..], b, loops);
    }
  }

  lemma ScopedSingle(x: Instr, loops: set<nat>)
    ensures Scoped([x], loops) <==> ScopedOne(x, loops)
    ensures HostOnly([x]) <==> HostOnlyOne(x)
  {
    assert [x][1..] == [];
  }

  /** The check keeps a body well scoped, and what it accepts ends, flattened, in a Return. */
  lemma {:induction false} CheckedScoped(body: seq<Instr>, loops: set<nat>, typed: set<nat>, declare: nat, value: nat)
    requires Scoped(body, loops) && HostOnly(body)
    ensures var r := CheckBranches(body, typed, declare, value).body; Scoped(r, loops) && HostOnly(r)
    decreases body
  {
    hide Scoped, HostOnly;
    if body != [] {
      var init, last := body[..|body| - 1], body[|body| - 1];
      assert body == init + [last];
      ScopedAppend(init, [last], loops);
      ScopedSingle(last, loops);
      match last
      case If(cond, a, b) =>
        CheckedScoped(a, loops, typed, declare, value);
        CheckedScoped(b, loops, typed, declare, value);
        var ra := CheckBranches(a, typed, declare, value);
        var rb := CheckBranches(b, typed, declare, value);
        ScopedSingle(If(cond, ra.body, b), loops);
        ScopedAppend(init, [If(cond, ra.body, b)], loops);
        var both := init + [If(cond, ra.body, rb.body)];
        ScopedSingle(If(cond, ra.body, rb.body), loops);
        ScopedAppend(init, [If(cond, ra.body, rb.body)], loops);
        ScopedSingle(Op(declare), loops);
        ScopedSingle(Return(value), loops);
        ScopedAppend([Op(declare)], [Return(value)], loops);
        assert [Op(declare)] + [Return(value)] == [Op(declare), Return(value)];
        ScopedAppend(both, [Op(declare), Return(value)], loops);
      case Nested(b) =>
        CheckedScoped(b, loops, typed, declare, value);
        var r := CheckBranches(b, typed, declare, value);
        ScopedSingle(Nested(r.body), loops);
        ScopedAppend(init, [Nested(r.body)], loops);
      case _ =>
    }
  }

  ghost predicate EndsInReturn(code: seq<Instr>) {
    |code| > 0 && code[|code| - 1].Return?
  }

  lemma {:induction false} CheckedEndsInReturn(body: seq<Instr>, typed: set<nat>, declare: nat, value: nat, n: nat)
    requires CheckBranches(body, typed, declare, value).ok
    ensures EndsInReturn(FlattenBody(CheckBranches(body, typed, declare, value).body, n).code)
    decreases body
  {
    hide FlattenBody, FlattenOne;
    var init, last := body[..|body| - 1], body[|body| - 1];
    match last
    case Return(v) =>
      assert body == init + [last];
      FlattenEnd(init, last, n);
      FlattenReturn(v, FlattenBody(init, n).next);
    case If(cond, a, b) =>
      var ra := CheckBranches(a, typed, declare, value);
      var rb := CheckBranches(b, typed, declare, value);
      var both := init + [If(cond, ra.body, rb.body)];
      assert both + [Op(declare), Return(value)] == both + [Op(declare)] + [Return(value)];
      FlattenEnd(both + [Op(declare)], Return(value), n);
      FlattenReturn(value, FlattenBody(both + [Op(declare)], n).next);
    case Nested(b) =>
      var r := CheckBranches(b, typed, declare, value);
      var n1 := FlattenBody(init, n).next;
      CheckedEndsInReturn(b, typed, declare, value, n1);
      FlattenEnd(init, Nested(r.body), n);
      FlattenNested(r.body, n1);
  }

  /** An accepted body with what the check puts into it: a declaration and a Return of what it declares after
      each If that stands last, and nothing else. */
  ghost predicate Completed(body: seq<Instr>, r: seq<Instr>, declare: nat, value: nat)
    decreases body
  {
    body != [] && |r| >= |body| &&
    var n, last := |body| - 1, body[|body| - 1];
    r[..n] == body[..n] &&
    match last
    case Nested(b) => |r| == |body| && r[n].Nested? && Completed(b, r[n].body, declare, value)
    case If(cond, a, b) =>
      && |r| == |body| + 2 && r[n].If? && r[n].cond == cond
      && Completed(a, r[n].thenBody, declare, value) && Completed(b, r[n].elseBody, declare, value)
      && r[n + 1] == Op(declare) && r[n + 2] == Return(value)
    case _ => r == body
  }

  lemma {:induction false} CheckedCompleted(body: seq<Instr>, typed: set<nat>, declare: nat, value: nat)
    requires CheckBranches(body, typed, declare, value).ok
    ensures Completed(body, CheckBranches(body, typed, declare, value).body, declare, value)
    decreases body
  {
    match body[|body| - 1]
    case If(_, a, b) =>
      CheckedCompleted(a, typed, declare, value);
      CheckedCompleted(b, typed, declare, value);
    case Nested(b) => CheckedCompleted(b, typed, declare, value);
    case Return(_) =>
  }

  lemma FlattenEnd(init: seq<Instr>, last: Instr, n: nat)
    ensures var a := FlattenBody(init, n); var b := FlattenOne(last, a.next);
            FlattenBody(init + [last], n).code == a.code + b.code
  {
    FlattenAppend(init, [last], n);
    var b := FlattenOne(last, FlattenBody(init, n).next);
    assert [last][1..] == [];
    assert b.code + [] == b.code;
  }

  lemma FlattenReturn(value: nat, n: nat)
    ensures FlattenOne(Return(value), n).code == [Return(value)]
  {
  }

  lemma FlattenNested(b: seq<Instr>, n: nat)
    ensures FlattenOne(Nested(b), n) == FlattenBody(b, n)
  {
  }

  /** A block as the code generator needs it: one terminator, at its end, and its targets are blocks
      of the function. */
  ghost predicate WellFormedBlock(block: seq<Instr>, count: nat) {
    && |block| > 0
    && (forall i :: 0 <= i < |block| - 1 ==> !IsTerminator(block[i]))
    && match block[|block| - 1]
       case Return(_) => true
       case Jump(ToBlock(b)) => b < count
       case CondBranch(_, ToBlock(t), ToBlock(f)) => t < count && f < count
       case _ => false
  }

  ghost predicate HasTerminator(block: seq<Instr>) {
    exists i :: 0 <= i < |block| && IsTerminator(block[i])
  }

  lemma {:induction false} CutHasTerminators(code: seq<Instr>, blockOf: map<nat, nat>)
    requires LabelsAfterBranches(code)
    ensures forall b :: 0 <= b < LabelCount(code) ==> HasTerminator(Cut(code, blockOf)[b])
    ensures code != [] && IsTerminator(code[|code| - 1]) ==> HasTerminator(Cut(code, blockOf)[LabelCount(code)])
    decreases |code|
  {
    if code != [] {
      var init, last := code[..|code| - 1], code[|code| - 1];
      CutHasTerminators(init, blockOf);
      if !last.Label? {
        var r := Cut(init, blockOf);
        var b := r[|r| - 1] + [Retarget(last, blockOf)];
        if IsTerminator(last) {
          assert IsTerminator(b[|b| - 1]);
        }
      }
    }
  }

  lemma {:induction false} CutContents(code: seq<Instr>, blockOf: map<nat, nat>, b: nat, i: nat)
    requires b < |Cut(code, blockOf)| && i < |Cut(code, blockOf)[b]|
    ensures exists p :: 0 <= p < |code| && Cut(code, blockOf)[b][i] == Retarget(code[p], blockOf)
    decreases |code|
  {
    if code != [] {
      var init, last := code[..|code| - 1], code[|code| - 1];
      var r := Cut(init, blockOf);
      if b < |r| && i < |r[b]| {
        CutContents(init, blockOf, b, i);
        var p :| 0 <= p < |init| && r[b][i] == Retarget(init[p], blockOf);
        assert code[p] == init[p];
      } else {
        assert code[|code| - 1] == last;
      }
    }
  }

  lemma {:induction false} BlockOfBound(code: seq<Instr>, name: nat)
    requires name in BlockOf(code)
    ensures BlockOf(code)[name] <= LabelCount(code)
    decreases |code|
  {
    var init, last := code[..|code| - 1], code[|code| - 1];
    if last != Label(name) {
      BlockOfBound(init, name);
    }
  }

  lemma ResolvedTarget(code: seq<Instr>, t: Target)
    requires UniqueLabels(code) && TargetIn(t, LabelsOf(code))
    ensures var r := ResolveIn(t, BlockOf(code)); r.ToBlock? && r.index < LabelCount(code) + 1
  {
    FindLabel(code, t.name);
    BlockOfLabel(code, Find(code, t.name));
    BlockOfBound(code, t.name);
  }

  lemma {:induction false} TruncateEnds(block: seq<Instr>)
    requires HasTerminator(block)
    ensures var t := Truncate(block);
            0 < |t| <= |block| && t[|t| - 1] == block[|t| - 1] && IsTerminator(t[|t| - 1])
            && forall i :: 0 <= i < |t| - 1 ==> !IsTerminator(t[i])
    decreases |block|
  {
    if !IsTerminator(block[0]) {
      var i :| 0 <= i < |block| && IsTerminator(block[i]);
      assert IsTerminator(block[1..][i - 1]);
      TruncateEnds(block[1..]);
    }
  }

  /** Every block of a cut and truncated list is well formed. */
  lemma FinalBlocksWellFormed(code: seq<Instr>, b: nat)
    requires Ready(code) && b < |FinalBlocks(code)|
    ensures WellFormedBlock(FinalBlocks(code)[b], |FinalBlocks(code)|)
  {
    var block := Blocks(code)[b];
    CutHasTerminators(code, BlockOf(code));
    TruncateEnds(block);
    var t := Truncate(block);
    CutContents(code, BlockOf(code), b, |t| - 1);
    var p :| 0 <= p < |code| && t[|t| - 1] == Retarget(code[p], BlockOf(code));
    assert GoesWithin(code[p], LabelsOf(code));
    match code[p]
    case Jump(x) => ResolvedTarget(code, x);
    case CondBranch(_, x, y) =>
      ResolvedTarget(code, x);
      ResolvedTarget(code, y);
    case _ =>
  }

  /** The pass on one function: flatten its single block in place, then cut it. */
  method FlatternBlock(function_: Function)
    requires |function_.blocks| == 1 && Scoped(function_.blocks[0], {}) && HostOnly(function_.blocks[0])
    modifies function_
    ensures function_.blocks == Blocks(FlattenBody(old(function_.blocks)[0], 0).code)
  {
    var block := new Block(function_.blocks[0]);
    FlattenShaped(block.values, {}, 0);
    var next, changed := FlatternBlockImpl(block, 0, {});
    function_.blocks := [block.values];
    forall i, j | 0 <= i < j < |block.values| && block.values[j].Label?
      ensures block.values[i] != block.values[j]
    {
      UniqueAt(block.values, i, j);
    }
    function_.SplitBlock();
  }

  /** The whole way: a body that passed the check, flattened, cut and truncated, returns exactly the
      values the structured body returns, in the same states, and every block is well formed. */
  lemma FunctionPreserved<S(!new)>(m: Meaning<S>, body: seq<Instr>, typed: set<nat>, declare: nat, local: nat,
      st: State<S>)
    requires Scoped(body, {}) && HostOnly(body)
    requires CheckBranches(body, typed, declare, local).ok
    ensures var checked := CheckBranches(body, typed, declare, local).body;
            var blocks := FinalBlocks(FlattenBody(checked, 0).code);
            && (forall b :: 0 <= b < |blocks| ==> WellFormedBlock(blocks[b], |blocks|))
            && (forall value: nat, st': State<S> ::
                  EndsAs(m, body, st, Returned(value, st')) <==> CfgReturns(m, blocks, st, value, st'))
  {
    hide WellFormedBlock, FinalBlocks, Exec, Scoped, HostOnly, CheckBranches;
    var checked := CheckBranches(body, typed, declare, local).body;
    var code := FlattenBody(checked, 0).code;
    CheckedScoped(body, {}, typed, declare, local);
    CheckedEndsInReturn(body, typed, declare, local, 0);
    FlattenShaped(checked, {}, 0);
    forall b | 0 <= b < |FinalBlocks(code)| ensures WellFormedBlock(FinalBlocks(code)[b], |FinalBlocks(code)|) {
      FinalBlocksWellFormed(code, b);
    }
    forall value: nat, st': State<S>
      ensures EndsAs(m, body, st, Returned(value, st')) <==> CfgReturns(m, FinalBlocks(code), st, value, st')
    {
      CheckedEndsSame(m, body, typed, declare, local, st, Returned(value, st'));
      FlattenPreservesMeaning(m, checked, st, Returned(value, st'));
      BlocksPreserveRuns(m, code, st, value, st');
    }
  }

  lemma CheckedEndsSame<S(!new)>(m: Meaning<S>, body: seq<Instr>, typed: set<nat>, declare: nat, local: nat,
      st: State<S>, o: Outcome<S>)
    requires CheckBranches(body, typed, declare, local).ok
    ensures EndsAs(m, body, st, o) <==> EndsAs(m, CheckBranches(body, typed, declare, local).body, st, o)
  {
    forall fuel: nat
      ensures Exec(m, CheckBranches(body, typed, declare, local).body, st, fuel) == Exec(m, body, st, fuel)
    {
      CheckedSame(m, body, typed, declare, local, st, fuel);
    }
  }
}
