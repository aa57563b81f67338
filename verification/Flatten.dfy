/** Flattening of nested control flow into one list of labels and branches: what the list is, and
    the in-place edit of the block list that makes it. */
module Flatten {
  import opened StructuredIr
  import opened IrBlock

  /** Where a loop's Break and Continue go. */
  datatype Exits = Exits(onBreak: nat, onContinue: nat)

  function PatchOne(instr: Instr, exits: map<nat, Exits>): Instr {
    match instr
    case Break(loop) => if loop in exits then Jump(ToLabel(exits[loop].onBreak)) else instr
    case Continue(loop) => if loop in exits then Jump(ToLabel(exits[loop].onContinue)) else instr
    case _ => instr
  }

  /** The list with the Break and Continue of the given loops turned into jumps. */
  function Patch(code: seq<Instr>, exits: map<nat, Exits>): (r: seq<Instr>)
    ensures |r| == |code|
    ensures forall i :: 0 <= i < |r| ==> r[i] == PatchOne(code[i], exits)
  {
    seq(|code|, i requires 0 <= i < |code| => PatchOne(code[i], exits))
  }

  /** Labels and counters are fresh objects in the source; here they are numbers drawn in order. */
  datatype Flat = Flat(code: seq<Instr>, next: nat)

  function FlattenBody(body: seq<Instr>, n: nat): (r: Flat)
    ensures n <= r.next
    decreases body, 1
  {
    if body == [] then Flat([], n)
    else
      var head := FlattenOne(body[0], n);
      var tail := FlattenBody(body[1..], head.next);
      Flat(head.code + tail.code, tail.next)
  }

  function FlattenOne(instr: Instr, n: nat): (r: Flat)
    ensures n <= r.next
    decreases instr, 0
  {
    match instr
    case Nested(body) => FlattenBody(body, n)
    case If(cond, thenBody, elseBody) =>
      var a := FlattenBody(thenBody, n);
      var b := FlattenBody(elseBody, a.next);
      Flat(IfCode(cond, a.code, b.code, b.next), b.next + 3)
    case While(loop, condBody, cond, body) =>
      var c := FlattenBody(condBody, n);
      var b := FlattenBody(body, c.next);
      Flat(WhileCode(loop, c.code, cond, b.code, b.next), b.next + 3)
    case For(loop, index, first, last, body, gpu) =>
      var b := FlattenBody(body, n);
      if gpu then Flat([For(loop, index, first, last, b.code, gpu)], b.next)
      else Flat(ForCode(loop, index, first, last, b.code, b.next), b.next + 4)
    case _ => Flat([instr], n)
  }

  function IfCode(cond: nat, a: seq<Instr>, b: seq<Instr>, t: nat): seq<Instr> {
    [CondBranch(CondValue(cond), ToLabel(t), ToLabel(t + 1))]
    + ([Label(t)] + a + [Jump(ToLabel(t + 2))])
    + ([Label(t + 1)] + b + [Jump(ToLabel(t + 2))])
    + [Label(t + 2)]
  }

  function LoopExits(loop: nat, t: nat): map<nat, Exits> {
    map[loop := Exits(t + 1, t + 2)]
  }

  /** Labels: t enters the body, t + 1 is after the loop, t + 2 enters the condition. */
  function WhileCode(loop: nat, c: seq<Instr>, cond: nat, b: seq<Instr>, t: nat): seq<Instr> {
    Patch(WhileRaw(c, cond, b, t), LoopExits(loop, t))
  }

  function WhileRaw(c: seq<Instr>, cond: nat, b: seq<Instr>, t: nat): seq<Instr> {
    [Jump(ToLabel(t + 2)), Label(t + 2)]
    + (c + [CondBranch(CondValue(cond), ToLabel(t), ToLabel(t + 1))])
    + ([Label(t)] + b + [Jump(ToLabel(t + 2))])
    + [Label(t + 1)]
  }

  /** As for `while`, with the counter t + 3. */
  function ForCode(loop: nat, index: nat, first: nat, last: nat, b: seq<Instr>, t: nat): seq<Instr> {
    Patch(ForRaw(index, first, last, b, t), LoopExits(loop, t))
  }

  function ForRaw(index: nat, first: nat, last: nat, b: seq<Instr>, t: nat): seq<Instr> {
    [StartCount(t + 3, first), Jump(ToLabel(t + 2)), Label(t + 2), BumpCount(t + 3),
     CondBranch(CountLess(t + 3, last), ToLabel(t), ToLabel(t + 1))]
    + ([Label(t), WriteIndex(index, t + 3)] + b + [Jump(ToLabel(t + 2))])
    + [Label(t + 1)]
  }

  lemma {:induction false} FlattenAppend(a: seq<Instr>, b: seq<Instr>, n: nat)
    ensures FlattenBody(a + b, n)
         == Flat(FlattenBody(a, n).code + FlattenBody(b, FlattenBody(a, n).next).code,
                 FlattenBody(b, FlattenBody(a, n).next).next)
    decreases |a|
  {
    if a == [] {
      assert a + b == b;
    } else {
      assert (a + b)[1..] == a[1..] + b;
      FlattenAppend(a[1..], b, FlattenOne(a[0], n).next);
    }
  }

  /** A `for` marked for the GPU stays one value: its loop, index and bounds are what they were, and its body
      is flattened. */
  lemma GpuForKept(f: Instr, rest: seq<Instr>, n: nat)
    requires f.For? && f.gpu
    ensures var r, body := FlattenBody([f] + rest, n), FlattenBody(f.body, n);
      && r.code != [] && r.code[0].For? && r.code[0].gpu && r.code[0].loop == f.loop && r.code[0].index == f.index
      && r.code[0].first == f.first && r.code[0].last == f.last && r.code[0].body == body.code
      && r.code[1..] == FlattenBody(rest, body.next).code
  {
    assert ([f] + rest)[0] == f && ([f] + rest)[1..] == rest;
  }

  predicate IsStructured(instr: Instr) {
    instr.Nested? || instr.If? || instr.While? || (instr.For? && !instr.gpu)
  }

  /** Turns the uses of a loop, which are its Break and Continue instructions, into jumps. */
  method PatchUses(block: Block<Instr>, loop: nat, onBreak: nat, onContinue: nat)
    modifies block
    ensures block.values == Patch(old(block.values), map[loop := Exits(onBreak, onContinue)])
  {
    ghost var exits := map[loop := Exits(onBreak, onContinue)];
    for i := 0 to |block.values|
      invariant |block.values| == |old(block.values)|
      invariant forall j :: 0 <= j < i ==> block.values[j] == PatchOne(old(block.values)[j], exits)
      invariant forall j :: i <= j < |block.values| ==> block.values[j] == old(block.values)[j]
    {
      var use := block.values[i];
      if use == Break(loop) {
        block.ReplaceInBlock(i, Jump(ToLabel(onBreak)));
      } else if use == Continue(loop) {
        block.ReplaceInBlock(i, Jump(ToLabel(onContinue)));
      }
    }
  }

  /** A value left in a flattened list whose loop is not one of the given ones. */
  predicate LeavesOnly(instr: Instr, loops: set<nat>) {
    (instr.Break? || instr.Continue?) ==> instr.loop in loops
  }

  ghost predicate AllLeaveOnly(code: seq<Instr>, loops: set<nat>) {
    forall i :: 0 <= i < |code| ==> LeavesOnly(code[i], loops)
  }

  lemma {:induction false} FlattenLeavesOnly(body: seq<Instr>, loops: set<nat>, n: nat)
    requires Scoped(body, loops)
    ensures AllLeaveOnly(FlattenBody(body, n).code, loops)
    decreases body, 1
  {
    if body != [] {
      FlattenOneLeavesOnly(body[0], loops, n);
      FlattenLeavesOnly(body[1..], loops, FlattenOne(body[0], n).next);
    }
  }

  lemma {:induction false} FlattenOneLeavesOnly(instr: Instr, loops: set<nat>, n: nat)
    requires ScopedOne(instr, loops)
    ensures AllLeaveOnly(FlattenOne(instr, n).code, loops)
    decreases instr, 0
  {
    match instr
    case Nested(body) => FlattenLeavesOnly(body, loops, n);
    case If(cond, thenBody, elseBody) =>
      FlattenLeavesOnly(thenBody, loops, n);
      FlattenLeavesOnly(elseBody, loops, FlattenBody(thenBody, n).next);
    case While(loop, condBody, cond, body) =>
      FlattenLeavesOnly(condBody, loops, n);
      FlattenLeavesOnly(body, loops + {loop}, FlattenBody(condBody, n).next);
      var c := FlattenBody(condBody, n);
      var b := FlattenBody(body, c.next);
      PatchLeavesOnly(WhileRaw(c.code, cond, b.code, b.next), loop, LoopExits(loop, b.next), loops);
    case For(loop, index, first, last, body, gpu) =>
      if !gpu {
        FlattenLeavesOnly(body, loops + {loop}, n);
        var b := FlattenBody(body, n);
        PatchLeavesOnly(ForRaw(index, first, last, b.code, b.next), loop, LoopExits(loop, b.next), loops);
      }
    case _ =>
  }

  lemma PatchLeavesOnly(raw: seq<Instr>, loop: nat, exits: map<nat, Exits>, loops: set<nat>)
    requires AllLeaveOnly(raw, loops + {loop}) && loop in exits
    ensures AllLeaveOnly(Patch(raw, exits), loops)
  {
  }

  lemma PatchNothing(code: seq<Instr>, exits: map<nat, Exits>, loops: set<nat>)
    requires AllLeaveOnly(code, loops) && exits.Keys !! loops
    ensures Patch(code, exits) == code
  {
  }

  lemma PatchAppend(a: seq<Instr>, b: seq<Instr>, exits: map<nat, Exits>)
    ensures Patch(a + b, exits) == Patch(a, exits) + Patch(b, exits)
  {
  }

  /** One value before the iterator has been replaced by its flat code; the rest of the list is as it was. */
  ghost predicate Spliced(values: seq<Instr>, iter: nat, n': nat, before: seq<Instr>, value: Instr, after: seq<Instr>,
      n: nat) {
    var made := FlattenOne(value, n);
    values == before + made.code + after && iter == |before| + |made.code| && n' == made.next
  }

  ghost predicate AtValue(values: seq<Instr>, iter: nat, before: seq<Instr>, value: Instr, after: seq<Instr>) {
    values == before + [value] + after && iter == |before|
  }

  /** The first j values of the original list have been replaced and the rest are as they were. */
  ghost predicate Reached(values: seq<Instr>, iter: nat, n': nat, original: seq<Instr>, j: nat, n: nat) {
    j <= |original| && var done := FlattenBody(original[..j], n);
    values == done.code + original[j..] && iter == |done.code| && n' == done.next
  }

  /** The pass over one block list: nested blocks and structured control flow are replaced in place
      by their labels and branches, and the rest is left where it is. */
  method FlatternBlockImpl(block: Block<Instr>, n: nat, ghost loops: set<nat>) returns (n': nat, changed: bool)
    requires Scoped(block.values, loops)
    modifies block
    ensures Flat(block.values, n') == FlattenBody(old(block.values), n)
    ensures changed <==> exists i :: 0 <= i < |old(block.values)| && IsStructured(old(block.values)[i])
    decreases block.values, 1
  {
    ghost var original := block.values;
    ghost var j := 0;
    var iter: nat := 0;
    n', changed := n, false;
    assert original[0..] == original && original[..0] == [];
    while iter < |block.values|
      invariant Reached(block.values, iter, n', original, j, n)
      invariant changed <==> exists i :: 0 <= i < j && IsStructured(original[i])
      decreases |original| - j
    {
      ReachedNext(block.values, iter, n', original, j, n);
      var value := block.values[iter];
      n', iter := FlatternValue(block, iter, value, n', original, j, n, loops);
      changed := changed || IsStructured(value);
      j := j + 1;
    }
    ReachedNext(block.values, iter, n', original, j, n);
  }

  lemma ReachedNext(values: seq<Instr>, iter: nat, n': nat, original: seq<Instr>, j: nat, n: nat)
    requires Reached(values, iter, n', original, j, n)
    ensures iter < |values| <==> j < |original|
    ensures iter < |values| ==> values[iter] == original[j]
    ensures iter >= |values| ==> Flat(values, n') == FlattenBody(original, n)
  {
    if j == |original| {
      assert original[..j] == original;
      assert values == FlattenBody(original, n).code;
    }
  }

  lemma ScopedLeavesOnly(body: seq<Instr>, loops: set<nat>)
    requires Scoped(body, loops)
    ensures AllLeaveOnly(body, loops)
  {
    forall i | 0 <= i < |body| ensures LeavesOnly(body[i], loops) {
      ScopedAt(body, loops, i);
    }
  }

  lemma AtNextValue(original: seq<Instr>, j: nat, n: nat, loops: set<nat>)
    requires Scoped(original, loops) && j < |original|
    ensures ScopedOne(original[j], loops)
    ensures var before := FlattenBody(original[..j], n).code;
            var after := original[j + 1..];
            && before + original[j..] == before + [original[j]] + after
            && AllLeaveOnly(before, loops) && AllLeaveOnly(after, loops)
    ensures var done := FlattenBody(original[..j], n);
            var made := FlattenOne(original[j], done.next);
            FlattenBody(original[..j + 1], n) == Flat(done.code + made.code, made.next)
  {
    ScopedAt(original, loops, j);
    assert original[j + 1..] == original[j..][1..];
    FlattenLeavesOnly(original[..j], loops, n);
    ScopedLeavesOnly(original[j + 1..], loops);
    FlattenNextValue(original, j, n);
  }

  lemma FlattenNextValue(original: seq<Instr>, j: nat, n: nat)
    requires j < |original|
    ensures var done := FlattenBody(original[..j], n);
            var made := FlattenOne(original[j], done.next);
            FlattenBody(original[..j + 1], n) == Flat(done.code + made.code, made.next)
  {
    FlattenAppend(original[..j], [original[j]], n);
    assert original[..j + 1] == original[..j] + [original[j]];
    var made := FlattenOne(original[j], FlattenBody(original[..j], n).next);
    assert made.code + [] == made.code;
  }

  method FlatternValue(block: Block<Instr>, iter: nat, value: Instr, n: nat, ghost original: seq<Instr>, ghost j: nat,
                       ghost start: nat, ghost loops: set<nat>)
    returns (n': nat, iter': nat)
    requires Scoped(original, loops) && j < |original| && value == original[j]
    requires Reached(block.values, iter, n, original, j, start)
    modifies block
    ensures Reached(block.values, iter', n', original, j + 1, start)
    decreases original, 0
  {
    AtNextValue(original, j, start, loops);
    ghost var before, after := FlattenBody(original[..j], start).code, original[j + 1..];
    match value
    case Nested(_) => n', iter' := FlatternNested(block, iter, value, n, loops, before, after);
    case If(_, _, _) => n', iter' := FlatternIf(block, iter, value, n, loops, before, after);
    case While(_, _, _, _) => n', iter' := FlatternWhile(block, iter, value, n, loops, before, after);
    case For(_, _, _, _, _, _) => n', iter' := FlatternFor(block, iter, value, n, loops, before, after);
    case _ =>
      n', iter' := n, iter + 1;
      assert FlattenOne(value, n) == Flat([value], n);
  }

  method FlatternNested(block: Block<Instr>, iter: nat, value: Instr, n: nat, ghost loops: set<nat>,
                        ghost before: seq<Instr>, ghost after: seq<Instr>)
    returns (n': nat, iter': nat)
    requires value.Nested? && ScopedOne(value, loops)
    requires AtValue(block.values, iter, before, value, after)
    modifies block
    ensures Spliced(block.values, iter', n', before, value, after, n)
    decreases value, 0
  {
    var inner := new Block(value.body);
    var changed;
    n', changed := FlatternBlockImpl(inner, n, loops);
    ghost var rest := [value] + after;
    assert block.values == before + [] + rest;
    iter' := block.InsertAll(iter, inner, before, [], rest);
    block.Erase(iter');
  }

  method FlatternIf(block: Block<Instr>, iter: nat, value: Instr, n: nat, ghost loops: set<nat>,
                    ghost before: seq<Instr>, ghost after: seq<Instr>)
    returns (n': nat, iter': nat)
    requires value.If? && ScopedOne(value, loops)
    requires AtValue(block.values, iter, before, value, after)
    modifies block
    ensures Spliced(block.values, iter', n', before, value, after, n)
    decreases value, 0
  {
    var thenBlock := new Block(value.thenBody);
    var elseBlock := new Block(value.elseBody);
    var changed;
    n', changed := FlatternBlockImpl(thenBlock, n, loops);
    n', changed := FlatternBlockImpl(elseBlock, n', loops);
    ghost var code := IfCode(value.cond, thenBlock.values, elseBlock.values, n');
    assert FlattenOne(value, n) == Flat(code, n' + 3);
    iter' := SpliceIf(block, iter, value, thenBlock, elseBlock, n', before, after);
    n' := n' + 3;
  }

  method SpliceIf(block: Block<Instr>, iter: nat, value: Instr, thenBlock: Block<Instr>, elseBlock: Block<Instr>,
      t: nat,
                  ghost before: seq<Instr>, ghost after: seq<Instr>)
    returns (iter': nat)
    requires value.If? && block != thenBlock && block != elseBlock && thenBlock != elseBlock
    requires AtValue(block.values, iter, before, value, after)
    modifies block, thenBlock, elseBlock
    ensures var code := IfCode(value.cond, old(thenBlock.values), old(elseBlock.values), t);
            block.values == before + code + after && iter' == |before| + |code|
  {
    var onTrue, onFalse, merge := t, t + 1, t + 2;
    thenBlock.PushFront(Label(onTrue));
    elseBlock.PushFront(Label(onFalse));
    thenBlock.PushBack(Jump(ToLabel(merge)));
    elseBlock.PushBack(Jump(ToLabel(merge)));
    var branch := CondBranch(CondValue(value.cond), ToLabel(onTrue), ToLabel(onFalse));
    ghost var rest := [value] + after;
    assert block.values == before + [] + rest;
    iter' := block.Insert(iter, branch, before, [], rest);
    ghost var made := [branch];
    assert [] + made == made;
    iter' := block.InsertAll(iter', thenBlock, before, made, rest);
    made := made + thenBlock.values;
    iter' := block.InsertAll(iter', elseBlock, before, made, rest);
    made := made + elseBlock.values;
    iter' := block.Insert(iter', Label(merge), before, made, rest);
    made := made + [Label(merge)];
    EraseAfter(block, iter', before, made, value, after);
  }

  method EraseAfter(block: Block<Instr>, iter: nat, ghost before: seq<Instr>, ghost made: seq<Instr>,
                    ghost value: Instr, ghost after: seq<Instr>)
    requires block.values == before + made + ([value] + after) && iter == |before| + |made|
    modifies block
    ensures block.values == before + made + after
  {
    block.Erase(iter);
  }

  method FlatternWhile(block: Block<Instr>, iter: nat, value: Instr, n: nat, ghost loops: set<nat>,
                       ghost before: seq<Instr>, ghost after: seq<Instr>)
    returns (n': nat, iter': nat)
    requires value.While? && ScopedOne(value, loops)
    requires AtValue(block.values, iter, before, value, after)
    requires AllLeaveOnly(before, loops) && AllLeaveOnly(after, loops)
    modifies block
    ensures Spliced(block.values, iter', n', before, value, after, n)
    decreases value, 0
  {
    var condBlock := new Block(value.condBody);
    var loopBlock := new Block(value.body);
    var changed;
    n', changed := FlatternBlockImpl(condBlock, n, loops);
    n', changed := FlatternBlockImpl(loopBlock, n', loops + {value.loop});
    ghost var code := WhileCode(value.loop, condBlock.values, value.cond, loopBlock.values, n');
    assert FlattenOne(value, n) == Flat(code, n' + 3);
    iter' := SpliceWhile(block, iter, value, condBlock, loopBlock, n', loops, before, after);
    n' := n' + 3;
  }

  method SpliceWhile(block: Block<Instr>, iter: nat, value: Instr, condBlock: Block<Instr>, loopBlock: Block<Instr>,
      t: nat,
                     ghost loops: set<nat>, ghost before: seq<Instr>, ghost after: seq<Instr>)
    returns (iter': nat)
    requires value.While? && block != condBlock && block != loopBlock && condBlock != loopBlock
    requires AtValue(block.values, iter, before, value, after)
    requires AllLeaveOnly(before, loops) && AllLeaveOnly(after, loops) && value.loop !in loops
    modifies block, condBlock, loopBlock
    ensures var code := WhileCode(value.loop, old(condBlock.values), value.cond, old(loopBlock.values), t);
            block.values == before + code + after && iter' == |before| + |code|
  {
    var enter, leave, entry := t, t + 1, t + 2;
    loopBlock.PushFront(Label(enter));
    condBlock.PushBack(CondBranch(CondValue(value.cond), ToLabel(enter), ToLabel(leave)));
    loopBlock.PushBack(Jump(ToLabel(entry)));
    ghost var rest := [value] + after;
    assert block.values == before + [] + rest;
    iter' := block.Insert(iter, Jump(ToLabel(entry)), before, [], rest);
    iter' := block.Insert(iter', Label(entry), before, [] + [Jump(ToLabel(entry))], rest);
    ghost var made := [Jump(ToLabel(entry)), Label(entry)];
    assert [] + [Jump(ToLabel(entry))] + [Label(entry)] == made;
    iter' := block.InsertAll(iter', condBlock, before, made, rest);
    made := made + condBlock.values;
    iter' := block.InsertAll(iter', loopBlock, before, made, rest);
    made := made + loopBlock.values;
    iter' := block.Insert(iter', Label(leave), before, made, rest);
    made := made + [Label(leave)];
    PatchUses(block, value.loop, leave, entry);
    PatchMiddle(before, made, rest, LoopExits(value.loop, t), loops);
    EraseAfter(block, iter', before, Patch(made, LoopExits(value.loop, t)), value, after);
  }

  lemma PatchMiddle(before: seq<Instr>, raw: seq<Instr>, after: seq<Instr>, exits: map<nat, Exits>, loops: set<nat>)
    requires AllLeaveOnly(before, loops) && AllLeaveOnly(after, loops) && exits.Keys !! loops
    ensures Patch(before + raw + after, exits) == before + Patch(raw, exits) + after
  {
    PatchAppend(before + raw, after, exits);
    PatchAppend(before, raw, exits);
    PatchNothing(before, exits, loops);
    PatchNothing(after, exits, loops);
  }

  method FlatternFor(block: Block<Instr>, iter: nat, value: Instr, n: nat, ghost loops: set<nat>,
                     ghost before: seq<Instr>, ghost after: seq<Instr>)
    returns (n': nat, iter': nat)
    requires value.For? && ScopedOne(value, loops)
    requires AtValue(block.values, iter, before, value, after)
    requires AllLeaveOnly(before, loops) && AllLeaveOnly(after, loops)
    modifies block
    ensures Spliced(block.values, iter', n', before, value, after, n)
    decreases value, 0
  {
    var loopBlock := new Block(value.body);
    var changed;
    n', changed := FlatternBlockImpl(loopBlock, n, if value.gpu then {value.loop} else loops + {value.loop});
    if value.gpu {
      var kept := For(value.loop, value.index, value.first, value.last, loopBlock.values, true);
      block.values := block.values[iter := kept];
      iter' := iter + 1;
      assert FlattenOne(value, n) == Flat([kept], n');
    } else {
      ghost var code := ForCode(value.loop, value.index, value.first, value.last, loopBlock.values, n');
      assert FlattenOne(value, n) == Flat(code, n' + 4);
      iter' := SpliceFor(block, iter, value, loopBlock, n', loops, before, after);
      n' := n' + 4;
    }
  }

  method SpliceFor(block: Block<Instr>, iter: nat, value: Instr, loopBlock: Block<Instr>, t: nat,
                   ghost loops: set<nat>, ghost before: seq<Instr>, ghost after: seq<Instr>)
    returns (iter': nat)
    requires value.For? && block != loopBlock
    requires AtValue(block.values, iter, before, value, after)
    requires AllLeaveOnly(before, loops) && AllLeaveOnly(after, loops) && value.loop !in loops
    modifies block, loopBlock
    ensures var code := ForCode(value.loop, value.index, value.first, value.last, old(loopBlock.values), t);
            block.values == before + code + after && iter' == |before| + |code|
  {
    var enter, leave, entry, count := t, t + 1, t + 2, t + 3;
    ghost var rest := [value] + after;
    assert block.values == before + [] + rest;
    iter' := block.Insert(iter, StartCount(count, value.first), before, [], rest);
    ghost var made := [] + [StartCount(count, value.first)];
    iter' := block.Insert(iter', Jump(ToLabel(entry)), before, made, rest);
    made := made + [Jump(ToLabel(entry))];
    iter' := block.Insert(iter', Label(entry), before, made, rest);
    made := made + [Label(entry)];
    iter' := block.Insert(iter', BumpCount(count), before, made, rest);
    made := made + [BumpCount(count)];
    var branch := CondBranch(CountLess(count, value.last), ToLabel(enter), ToLabel(leave));
    iter' := block.Insert(iter', branch, before, made, rest);
    made := made + [branch];
    assert made == [StartCount(count, value.first), Jump(ToLabel(entry)), Label(entry), BumpCount(count), branch];
    ghost var b := loopBlock.values;
    loopBlock.PushFront(WriteIndex(value.index, count));
    loopBlock.PushFront(Label(enter));
    loopBlock.PushBack(Jump(ToLabel(entry)));
    assert loopBlock.values == [Label(enter), WriteIndex(value.index, count)] + b + [Jump(ToLabel(entry))];
    iter' := block.InsertAll(iter', loopBlock, before, made, rest);
    made := made + loopBlock.values;
    iter' := block.Insert(iter', Label(leave), before, made, rest);
    made := made + [Label(leave)];
    PatchUses(block, value.loop, leave, entry);
    PatchMiddle(before, made, rest, LoopExits(value.loop, t), loops);
    EraseAfter(block, iter', before, Patch(made, LoopExits(value.loop, t)), value, after);
  }
}
