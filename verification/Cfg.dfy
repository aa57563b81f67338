/** Cutting a flat list into the basic blocks of a function, and dropping what follows a block's
    first terminator. */
module Cfg {
  import opened StructuredIr

  predicate IsTerminator(instr: Instr) {
    instr.Return? || instr.Jump? || instr.CondBranch?
  }

  function RetargetTo(t: Target, name: nat, block: nat): Target {
    if t == ToLabel(name) then ToBlock(block) else t
  }

  /** One use of a label replaced by the block that starts there. */
  function RetargetUse(instr: Instr, name: nat, block: nat): Instr {
    match instr
    case Jump(t) => Jump(RetargetTo(t, name, block))
    case CondBranch(test, t, f) => CondBranch(test, RetargetTo(t, name, block), RetargetTo(f, name, block))
    case _ => instr
  }

  function ResolveIn(t: Target, blockOf: map<nat, nat>): Target {
    if t.ToLabel? && t.name in blockOf then ToBlock(blockOf[t.name]) else t
  }

  /** Every use of a label that has a block replaced by that block. */
  function Retarget(instr: Instr, blockOf: map<nat, nat>): Instr {
    match instr
    case Jump(t) => Jump(ResolveIn(t, blockOf))
    case CondBranch(test, t, f) => CondBranch(test, ResolveIn(t, blockOf), ResolveIn(f, blockOf))
    case _ => instr
  }

  function LabelCount(code: seq<Instr>): nat {
    if code == [] then 0
    else LabelCount(code[..|code| - 1]) + if code[|code| - 1].Label? then 1 else 0
  }

  /** How many values the list has after its last label. */
  function SinceLabel(code: seq<Instr>): (r: nat)
    ensures r <= |code|
  {
    if code == [] || code[|code| - 1].Label? then 0 else SinceLabel(code[..|code| - 1]) + 1
  }

  /** The block that each label of the list starts. */
  function BlockOf(code: seq<Instr>): map<nat, nat> {
    if code == [] then map[]
    else
      var init, last := code[..|code| - 1], code[|code| - 1];
      if last.Label? then BlockOf(init)[last.id := LabelCount(init) + 1] else BlockOf(init)
  }

  /** The list cut at its labels: the entry block, then one block for each label. */
  function Cut(code: seq<Instr>, blockOf: map<nat, nat>): (r: seq<seq<Instr>>)
    ensures |r| == LabelCount(code) + 1
    ensures |r[|r| - 1]| == SinceLabel(code)
  {
    if code == [] then [[]]
    else
      var init, last := code[..|code| - 1], code[|code| - 1];
      var r := Cut(init, blockOf);
      if last.Label? then r + [[]] else r[|r| - 1 := r[|r| - 1] + [Retarget(last, blockOf)]]
  }

  /** The blocks of the list, with every branch going to a block. */
  function Blocks(code: seq<Instr>): seq<seq<Instr>> {
    Cut(code, BlockOf(code))
  }

  /** Up to and with the first terminator. */
  function Truncate(block: seq<Instr>): seq<Instr> {
    if block == [] then []
    else if IsTerminator(block[0]) then [block[0]]
    else [block[0]] + Truncate(block[1..])
  }

  function TruncateAll(blocks: seq<seq<Instr>>): (r: seq<seq<Instr>>)
    ensures |r| == |blocks|
    ensures forall i :: 0 <= i < |r| ==> r[i] == Truncate(blocks[i])
  {
    seq(|blocks|, i requires 0 <= i < |blocks| => Truncate(blocks[i]))
  }

  /** The entry count of a function's body list in place of its structure: the blocks of a function. */
  class Function {
    var blocks: seq<seq<Instr>>

    constructor (blocks: seq<seq<Instr>>)
      ensures this.blocks == blocks
    {
      this.blocks := blocks;
    }

    /** Cuts the function's one flat block at its labels.  When a label is met its uses, before and
        after it, become uses of the block just opened. */
    method SplitBlock()
      requires |blocks| == 1
      requires forall i, j :: 0 <= i < j < |blocks[0]| && blocks[0][j].Label? ==> blocks[0][i] != blocks[0][j]
      modifies this
      ensures blocks == Blocks(old(blocks)[0])
    {
      ghost var code := blocks[0];
      var values := blocks[0];
      var cut: seq<seq<Instr>> := [[]];
      assert code[..0] == [];
      for i := 0 to |values|
        invariant CutUpTo(values, cut, code, i)
      {
        var value := values[i];
        if value.Label? {
          CutAtLabel(values, cut, code, i);
          cut := cut + [[]];
          var block := |cut| - 1;
          cut := ReplaceInBlocks(cut, value.id, block);
          values := ReplaceUses(values, value.id, block);
        } else {
          CutAtValue(values, cut, code, i);
          cut := cut[|cut| - 1 := cut[|cut| - 1] + [value]];
        }
      }
      assert code[..|code|] == code;
      blocks := cut;
    }

    /** Drops from every block what follows its first Return or branch. */
    method RemoveValuesAfterReturn()
      modifies this
      ensures blocks == TruncateAll(old(blocks))
    {
      for b := 0 to |blocks|
        invariant |blocks| == |old(blocks)|
        invariant forall i :: 0 <= i < b ==> blocks[i] == Truncate(old(blocks)[i])
        invariant forall i :: b <= i < |blocks| ==> blocks[i] == old(blocks)[i]
      {
        var block := blocks[b];
        var at := 0;
        while at < |block| && !IsTerminator(block[at])
          invariant at <= |block|
          invariant forall i :: 0 <= i < at ==> !IsTerminator(block[i])
        {
          at := at + 1;
        }
        TruncateAt(block, at);
        if at < |block| {
          block := block[..at + 1];
        }
        blocks := blocks[b := block];
      }
    }
  }

  /** The first i values are in blocks, and every use of their labels is already replaced. */
  ghost predicate CutUpTo(values: seq<Instr>, cut: seq<seq<Instr>>, code: seq<Instr>, i: nat) {
    && i <= |code| == |values|
    && values == RetargetAll(code, BlockOf(code[..i]))
    && cut == Cut(code[..i], BlockOf(code[..i]))
  }

  lemma CutAtLabel(values: seq<Instr>, cut: seq<seq<Instr>>, code: seq<Instr>, i: nat)
    requires CutUpTo(values, cut, code, i) && i < |code| && values[i].Label?
    requires forall j :: 0 <= j < i && code[i].Label? ==> code[j] != code[i]
    ensures CutUpTo(ReplaceUses(values, values[i].id, |cut|), ReplaceInBlocks(cut + [[]], values[i].id, |cut|),
      code, i + 1)
  {
    assert code[..i + 1][..i] == code[..i];
    var name, block, blockOf := code[i].id, |cut|, BlockOf(code[..i]);
    NewLabel(code, i);
    RetargetMore(code, blockOf, name, block);
    CutMore(code[..i], blockOf, name, block);
    NewBlockReplaced(cut, name, block);
  }

  lemma CutAtValue(values: seq<Instr>, cut: seq<seq<Instr>>, code: seq<Instr>, i: nat)
    requires CutUpTo(values, cut, code, i) && i < |code| && !values[i].Label?
    ensures |cut| > 0 && CutUpTo(values, cut[|cut| - 1 := cut[|cut| - 1] + [values[i]]], code, i + 1)
  {
    assert code[..i + 1][..i] == code[..i];
  }

  function ReplaceInBlocks(blocks: seq<seq<Instr>>, name: nat, block: nat): (r: seq<seq<Instr>>)
    ensures |r| == |blocks|
    ensures forall b :: 0 <= b < |r| ==> r[b] == ReplaceUses(blocks[b], name, block)
  {
    seq(|blocks|, b requires 0 <= b < |blocks| => ReplaceUses(blocks[b], name, block))
  }

  function ReplaceUses(values: seq<Instr>, name: nat, block: nat): (r: seq<Instr>)
    ensures |r| == |values|
    ensures forall i :: 0 <= i < |r| ==> r[i] == RetargetUse(values[i], name, block)
  {
    seq(|values|, i requires 0 <= i < |values| => RetargetUse(values[i], name, block))
  }

  function RetargetAll(code: seq<Instr>, blockOf: map<nat, nat>): (r: seq<Instr>)
    ensures |r| == |code|
    ensures forall i :: 0 <= i < |r| ==> r[i] == Retarget(code[i], blockOf)
  {
    seq(|code|, i requires 0 <= i < |code| => Retarget(code[i], blockOf))
  }

  lemma {:induction false} TruncateAt(block: seq<Instr>, at: nat)
    requires at <= |block|
    requires forall i :: 0 <= i < at ==> !IsTerminator(block[i])
    requires at < |block| ==> IsTerminator(block[at])
    ensures Truncate(block) == if at < |block| then block[..at + 1] else block
    decreases at
  {
    if at > 0 {
      TruncateAt(block[1..], at - 1);
      assert block == [block[0]] + block[1..];
      if at < |block| {
        assert block[..at + 1] == [block[0]] + block[1..][..at];
      }
    } else if block != [] {
      assert block[..1] == [block[0]];
    }
  }

  lemma {:induction false} BlockOfKeys(code: seq<Instr>, name: nat)
    requires name in BlockOf(code)
    ensures Label(name) in code
    decreases |code|
  {
    var init, last := code[..|code| - 1], code[|code| - 1];
    if last != Label(name) {
      BlockOfKeys(init, name);
      assert Label(name) in init;
    }
  }

  lemma NewLabel(code: seq<Instr>, i: nat)
    requires i < |code| && code[i].Label?
    requires forall j :: 0 <= j < i ==> code[j] != code[i]
    ensures code[i].id !in BlockOf(code[..i])
  {
    if code[i].id in BlockOf(code[..i]) {
      BlockOfKeys(code[..i], code[i].id);
      assert false;
    }
  }

  lemma RetargetMoreOne(instr: Instr, blockOf: map<nat, nat>, name: nat, block: nat)
    requires name !in blockOf
    ensures RetargetUse(Retarget(instr, blockOf), name, block) == Retarget(instr, blockOf[name := block])
  {
  }

  lemma RetargetMore(code: seq<Instr>, blockOf: map<nat, nat>, name: nat, block: nat)
    requires name !in blockOf
    ensures ReplaceUses(RetargetAll(code, blockOf), name, block) == RetargetAll(code, blockOf[name := block])
  {
    forall i | 0 <= i < |code|
      ensures ReplaceUses(RetargetAll(code, blockOf), name, block)[i] == RetargetAll(code, blockOf[name := block])[i]
    {
      RetargetMoreOne(code[i], blockOf, name, block);
    }
  }

  /** Redirecting the uses in a list of blocks to which an empty one is added, or a value in its last. */
  lemma NewBlockReplaced(r: seq<seq<Instr>>, name: nat, block: nat)
    ensures ReplaceInBlocks(r + [[]], name, block) == ReplaceInBlocks(r, name, block) + [[]]
  {
  }

  lemma NoneReplaced(name: nat, block: nat)
    ensures ReplaceInBlocks([[]], name, block) == [[]]
  {
  }

  lemma MovedReplaced(r: seq<seq<Instr>>, x: Instr, name: nat, block: nat)
    requires |r| > 0
    ensures var e := |r| - 1; var s := ReplaceInBlocks(r, name, block);
      |s| == |r| && ReplaceInBlocks(r[e := r[e] + [x]], name, block) == s[e := s[e] + [RetargetUse(x, name, block)]]
  {
    var e := |r| - 1;
    assert ReplaceUses(r[e] + [x], name, block) == ReplaceUses(r[e], name, block) + [RetargetUse(x, name, block)];
    assert ReplaceInBlocks(r[e := r[e] + [x]], name, block)
      == ReplaceInBlocks(r, name, block)[e := ReplaceUses(r[e] + [x], name, block)];
  }

  lemma {:induction false} CutMore(code: seq<Instr>, blockOf: map<nat, nat>, name: nat, block: nat)
    requires name !in blockOf
    ensures ReplaceInBlocks(Cut(code, blockOf), name, block) == Cut(code, blockOf[name := block])
    decreases |code|
  {
    hide ReplaceInBlocks, Retarget, RetargetUse;
    if code == [] {
      NoneReplaced(name, block);
    } else {
      var init, last := code[..|code| - 1], code[|code| - 1];
      CutMore(init, blockOf, name, block);
      RetargetMoreOne(last, blockOf, name, block);
      var r := Cut(init, blockOf);
      if last.Label? {
        NewBlockReplaced(r, name, block);
      } else {
        MovedReplaced(r, Retarget(last, blockOf), name, block);
      }
    }
  }
}
