/** The runtime's counted pointers: Ptr and WeakPtr over a shared control block, for elements whose own
    finalization is only counted. */
module Ptr {
  import opened Wrappers
  import opened I64

  /** A control block: its two counts, and how often it was freed. */
  datatype Block = Block(strong: i64, weak: i64, frees: nat)

  /** A Ptr or a WeakPtr: raw is the address of the object and 0 is null. */
  datatype Handle =
    | Strong(raw: nat, size: int, block: nat)
    | Weak(raw: nat, size: int, block: nat)

  /** The memory: every control block and every object ever allocated.  objectFrees[o] says how often
      the object with address o + 1 was freed, ended[o] how many of its elements were finalized, and home[o]
      names the block that counts it; fault is set as soon as a freed block is read, written or freed. */
  datatype Memory = Memory(blocks: seq<Block>, objectFrees: seq<nat>, ended: seq<nat>, home: seq<nat>, fault: bool)

  // ---------- what one access does ----------

  function Touch(m: Memory, b: nat): Memory
    requires b < |m.blocks|
  {
    m.(fault := m.fault || m.blocks[b].frees > 0)
  }

  function AddStrong(m: Memory, b: nat, d: int): Memory
    requires b < |m.blocks|
  {
    Touch(m, b).(blocks := m.blocks[b := m.blocks[b].(strong := Wrap(m.blocks[b].strong + d))])
  }

  function AddWeak(m: Memory, b: nat, d: int): Memory
    requires b < |m.blocks|
  {
    Touch(m, b).(blocks := m.blocks[b := m.blocks[b].(weak := Wrap(m.blocks[b].weak + d))])
  }

  function FreeBlock(m: Memory, b: nat): Memory
    requires b < |m.blocks|
  {
    Touch(m, b).(blocks := m.blocks[b := m.blocks[b].(frees := m.blocks[b].frees + 1)])
  }

  function FreeObject(m: Memory, raw: nat): Memory
    requires 1 <= raw <= |m.objectFrees|
  {
    m.(objectFrees := m.objectFrees[raw - 1 := m.objectFrees[raw - 1] + 1])
  }

  /** The loop over the elements of an object: none if the size is negative. */
  function EndElements(m: Memory, raw: nat, size: int): Memory
    requires 1 <= raw <= |m.ended|
  {
    m.(ended := m.ended[raw - 1 := m.ended[raw - 1] + if size > 0 then size else 0])
  }

  function NewBlock(m: Memory, strong: i64, weak: i64): Memory {
    m.(blocks := m.blocks + [Block(strong, weak, 0)])
  }

  function NewObject(m: Memory, b: nat): Memory {
    m.(objectFrees := m.objectFrees + [0], ended := m.ended + [0], home := m.home + [b])
  }

  // ---------- handles and what the counts should be ----------

  ghost predicate InMemory(m: Memory, h: Handle) {
    h.block < |m.blocks| && h.raw <= |m.home|
  }

  function StrongOn(hs: seq<Handle>, b: nat): nat {
    if hs == [] then 0 else (if hs[0].Strong? && hs[0].block == b then 1 else 0) + StrongOn(hs[1..], b)
  }

  function WeakOn(hs: seq<Handle>, b: nat): nat {
    if hs == [] then 0 else (if hs[0].Weak? && hs[0].block == b then 1 else 0) + WeakOn(hs[1..], b)
  }

  lemma {:induction false} OnConcat(a: seq<Handle>, c: seq<Handle>, b: nat)
    ensures StrongOn(a + c, b) == StrongOn(a, b) + StrongOn(c, b)
    ensures WeakOn(a + c, b) == WeakOn(a, b) + WeakOn(c, b)
  {
    if a == [] {
      assert a + c == c;
    } else {
      assert (a + c)[1..] == a[1..] + c && (a + c)[0] == a[0];
      OnConcat(a[1..], c, b);
    }
  }

  lemma {:induction false} OnBound(hs: seq<Handle>, b: nat)
    ensures StrongOn(hs, b) + WeakOn(hs, b) <= |hs|
  {
    if hs != [] {
      OnBound(hs[1..], b);
    }
  }

  lemma OnOne(h: Handle, b: nat)
    ensures StrongOn([h], b) == (if h.Strong? && h.block == b then 1 else 0)
    ensures WeakOn([h], b) == (if h.Weak? && h.block == b then 1 else 0)
  {
    assert [h][1..] == [];
  }

  lemma {:induction false} OnMember(hs: seq<Handle>, i: nat, b: nat)
    requires i < |hs|
    ensures hs[i].Strong? && hs[i].block == b ==> StrongOn(hs, b) > 0
    ensures hs[i].Weak? && hs[i].block == b ==> WeakOn(hs, b) > 0
  {
    if i > 0 {
      OnMember(hs[1..], i - 1, b);
    }
  }

  /** A handle that is not null points at the object its block counts; the block of a null handle counts
      no object. */
  ghost predicate HandleOk(m: Memory, h: Handle) {
    && InMemory(m, h)
    && (h.raw != 0 ==> m.home[h.raw - 1] == h.block)
    && (h.raw == 0 ==> h.block !in m.home)
  }

  /** An object and its block: the counts are the numbers of handles, the object has been freed exactly
      if no Ptr holds it, and the block has been freed exactly if nothing holds it. */
  ghost predicate ObjectOk(m: Memory, hs: seq<Handle>, o: nat)
    requires o < |m.home| == |m.objectFrees| && m.home[o] < |m.blocks|
  {
    var b := m.home[o];
    && m.blocks[b].strong == StrongOn(hs, b)
    && m.blocks[b].weak == WeakOn(hs, b)
    && m.objectFrees[o] == (if StrongOn(hs, b) == 0 then 1 else 0)
    && m.blocks[b].frees == (if StrongOn(hs, b) == 0 && WeakOn(hs, b) == 0 then 1 else 0)
  }

  ghost predicate Shaped(m: Memory) {
    && |m.home| == |m.objectFrees| == |m.ended|
    && (forall o :: 0 <= o < |m.home| ==> m.home[o] < |m.blocks|)
    && (forall o, p :: 0 <= o < p < |m.home| ==> m.home[o] != m.home[p])
  }

  /** What every step keeps. */
  ghost predicate Inv(m: Memory, hs: seq<Handle>) {
    && !m.fault
    && Shaped(m)
    && (forall h :: h in hs ==> HandleOk(m, h))
    && (forall o :: 0 <= o < |m.home| ==> ObjectOk(m, hs, o))
    && (forall b :: 0 <= b < |m.blocks| && b !in m.home ==> m.blocks[b].frees == 0)
  }

  /** The block of a live handle has not been freed. */
  lemma LiveBlock(m: Memory, hs: seq<Handle>, i: nat)
    requires Inv(m, hs) && i < |hs|
    ensures HandleOk(m, hs[i]) && m.blocks[hs[i].block].frees == 0
  {
    var h := hs[i];
    assert h in hs && HandleOk(m, h);
    if h.raw != 0 {
      assert ObjectOk(m, hs, h.raw - 1);
      OnMember(hs, i, h.block);
    }
  }

  // ---------- the steps keep the invariant ----------

  /** A handle that joins the live ones, with its count. */
  lemma JoinKeeps(m: Memory, hs: seq<Handle>, i: nat, h: Handle)
    requires Inv(m, hs) && i < |hs| < TWO63 - 1
    requires h.raw == hs[i].raw && h.block == hs[i].block
    requires h.raw != 0 && h.Strong? ==> StrongOn(hs, h.block) > 0
    ensures HandleOk(m, hs[i])
    ensures Inv(if h.Strong? then AddStrong(m, h.block, 1) else AddWeak(m, h.block, 1), hs + [h])
  {
    LiveBlock(m, hs, i);
    var m' := if h.Strong? then AddStrong(m, h.block, 1) else AddWeak(m, h.block, 1);
    forall k | k in hs + [h] ensures HandleOk(m', k) {
      assert k in hs || k == h;
    }
    forall o | 0 <= o < |m.home| ensures ObjectOk(m', hs + [h], o) {
      var b := m.home[o];
      assert ObjectOk(m, hs, o);
      OnConcat(hs, [h], b);
      OnOne(h, b);
      OnBound(hs, b);
      if h.block == b {
        assert h.raw != 0;
        OnMember(hs, i, b);
      }
    }
  }

  /** Finalizing a Ptr: the last one finalizes as many elements as it has, and frees the object, and the block
      too if no WeakPtr is left. */
  function FinalizePtr(m: Memory, h: Handle): Memory
    requires h.block < |m.blocks| && h.raw <= |m.objectFrees| == |m.ended|
  {
    var m1 := AddStrong(m, h.block, -1);
    if m1.blocks[h.block].strong != 0 || h.raw == 0 then m1 else
    var m2 := FreeObject(EndElements(m1, h.raw, h.size), h.raw);
    if m2.blocks[h.block].weak == 0 then FreeBlock(m2, h.block) else m2
  }

  /** Finalizing a WeakPtr: the last one frees the block if no Ptr is left. */
  function FinalizeWeakPtr(m: Memory, h: Handle): Memory
    requires h.block < |m.blocks|
  {
    if h.raw == 0 then m else
    var m1 := AddWeak(m, h.block, -1);
    if m1.blocks[h.block].strong == 0 && m1.blocks[h.block].weak == 0 then FreeBlock(m1, h.block) else m1
  }

  function Finalized(m: Memory, h: Handle): Memory
    requires h.block < |m.blocks| && h.raw <= |m.objectFrees| == |m.ended|
  {
    if h.Strong? then FinalizePtr(m, h) else FinalizeWeakPtr(m, h)
  }

  lemma OnWithout(hs: seq<Handle>, i: nat, b: nat)
    requires i < |hs|
    ensures StrongOn(hs, b) == StrongOn(Without(hs, i), b) + (if hs[i].Strong? && hs[i].block == b then 1 else 0)
    ensures WeakOn(hs, b) == WeakOn(Without(hs, i), b) + (if hs[i].Weak? && hs[i].block == b then 1 else 0)
  {
    assert hs == hs[..i] + ([hs[i]] + hs[i + 1..]);
    OnConcat(hs[..i], [hs[i]] + hs[i + 1..], b);
    OnConcat([hs[i]], hs[i + 1..], b);
    OnConcat(hs[..i], hs[i + 1..], b);
    OnOne(hs[i], b);
  }

  /** What finalizing a handle changes, and that its own object and block stay in order. */
  lemma LeaveOwn(m: Memory, hs: seq<Handle>, i: nat)
    requires Inv(m, hs) && i < |hs| < TWO63
    ensures HandleOk(m, hs[i])
    ensures var h, m' := hs[i], Finalized(m, hs[i]);
      && Shaped(m') && !m'.fault && m'.home == m.home && |m'.blocks| == |m.blocks|
      && (forall b :: 0 <= b < |m.blocks| && b != h.block ==> m'.blocks[b] == m.blocks[b])
      && (forall o :: 0 <= o < |m.home| && o != h.raw - 1 ==> m'.objectFrees[o] == m.objectFrees[o])
      && (h.raw != 0 ==> ObjectOk(m', Without(hs, i), h.raw - 1))
      && (h.raw == 0 ==> m'.blocks[h.block].frees == 0)
  {
    var h := hs[i];
    LiveBlock(m, hs, i);
    OnBound(hs, h.block);
    OnWithout(hs, i, h.block);
    hide StrongOn, WeakOn, Without;
    if h.raw != 0 {
      assert ObjectOk(m, hs, h.raw - 1);
    }
  }

  /** A handle that is finalized and leaves the live ones. */
  lemma LeaveKeeps(m: Memory, hs: seq<Handle>, i: nat)
    requires Inv(m, hs) && i < |hs| < TWO63
    ensures HandleOk(m, hs[i])
    ensures Inv(Finalized(m, hs[i]), Without(hs, i))
  {
    hide StrongOn, WeakOn, Finalized;
    LeaveOwn(m, hs, i);
    var m' := Finalized(m, hs[i]);
    forall k | k in Without(hs, i) ensures HandleOk(m', k) {
      assert k in hs;
    }
    forall o | 0 <= o < |m.home| ensures ObjectOk(m', Without(hs, i), o) {
      if o != hs[i].raw - 1 {
        assert ObjectOk(m, hs, o);
        OnWithout(hs, i, m.home[o]);
      }
    }
    forall b | 0 <= b < |m.blocks| && b !in m.home ensures m'.blocks[b].frees == 0 {
      assert b != hs[i].block || hs[i].raw == 0;
    }
  }

  /** A new block that counts no object. */
  lemma NullKeeps(m: Memory, hs: seq<Handle>, strong: i64, weak: i64, h: Handle)
    requires Inv(m, hs)
    requires h.raw == 0 && h.block == |m.blocks|
    ensures Inv(NewBlock(m, strong, weak), hs) && Inv(NewBlock(m, strong, weak), hs + [h])
  {
    var m' := NewBlock(m, strong, weak);
    forall o | 0 <= o < |m.home| ensures ObjectOk(m', hs, o) && ObjectOk(m', hs + [h], o) {
      assert ObjectOk(m, hs, o);
      OnConcat(hs, [h], m.home[o]);
      OnOne(h, m.home[o]);
    }
    forall k | k in hs + [h] ensures HandleOk(m', k) {
      assert k in hs || k == h;
    }
  }

  /** A new object with a block of its own. */
  lemma AllocateKeeps(m: Memory, hs: seq<Handle>, size: int)
    requires Inv(m, hs)
    ensures Inv(NewObject(NewBlock(m, 1, 0), |m.blocks|), hs + [Strong(|m.home| + 1, size, |m.blocks|)])
  {
    var h := Strong(|m.home| + 1, size, |m.blocks|);
    var m' := NewObject(NewBlock(m, 1, 0), |m.blocks|);
    forall o | 0 <= o < |m'.home| ensures ObjectOk(m', hs + [h], o) {
      OnConcat(hs, [h], m'.home[o]);
      OnOne(h, m'.home[o]);
      if o < |m.home| {
        assert ObjectOk(m, hs, o);
      } else {
        NoneOn(m, hs, |m.blocks|);
      }
    }
    forall k | k in hs + [h] ensures HandleOk(m', k) {
      if k in hs {
        assert HandleOk(m, k);
      } else {
        assert k == h;
      }
    }
  }

  lemma {:induction false} NoneOn(m: Memory, hs: seq<Handle>, b: nat)
    requires forall h :: h in hs ==> h.block < b
    ensures StrongOn(hs, b) == 0 && WeakOn(hs, b) == 0
  {
    if hs != [] {
      assert hs[0] in hs;
      NoneOn(m, hs[1..], b);
    }
  }

  // ---------- whole runs ----------

  /** What a program does with handles; the handles are named by their position, and an operation on a
      handle of the wrong kind is one no program has. */
  datatype Op =
    | NullPtr
    | NullWeak(strong: i64, weak: i64)
    | Allocate(size: int, ok: bool)
    | Copy(i: nat)
    | Finalize(i: nat)
    | FromPtr(i: nat, strong: i64, weak: i64)
    | Lock(i: nat)
    | Retype(i: nat)

  datatype World = World(mem: Memory, handles: seq<Handle>)

  function Copied(m: Memory, h: Handle): Memory
    requires h.block < |m.blocks|
  {
    if h.Strong? then AddStrong(m, h.block, 1) else if h.raw != 0 then AddWeak(m, h.block, 1) else m
  }

  predicate Has(w: World, i: nat) {
    && i < |w.handles| && w.handles[i].block < |w.mem.blocks|
    && w.handles[i].raw <= |w.mem.objectFrees| == |w.mem.ended|
  }

  predicate Possible(w: World, op: Op) {
    match op
    case NullPtr => true
    case NullWeak(_, _) => true
    case Allocate(_, _) => true
    case Copy(i) => Has(w, i)
    case Finalize(i) => Has(w, i)
    case FromPtr(i, _, _) => Has(w, i) && w.handles[i].Strong?
    case Lock(i) => Has(w, i) && w.handles[i].Weak?
    case Retype(i) => Has(w, i) && w.handles[i].Strong?
  }

  function Step(w: World, op: Op): World
    requires Possible(w, op)
  {
    var m, hs := w.mem, w.handles;
    match op
    case NullPtr => World(NewBlock(m, 1, 0), hs + [Strong(0, 0, |m.blocks|)])
    case NullWeak(s, k) => World(NewBlock(m, s, k), hs + [Weak(0, 0, |m.blocks|)])
    case Allocate(n, ok) =>
      if ok then World(NewObject(NewBlock(m, 1, 0), |m.blocks|), hs + [Strong(|m.home| + 1, n, |m.blocks|)])
      else World(NewBlock(m, 1, 0), hs + [Strong(0, n, |m.blocks|)])
    case Copy(i) => World(Copied(m, hs[i]), hs + [hs[i]])
    case Finalize(i) => World(Finalized(m, hs[i]), Without(hs, i))
    case FromPtr(i, s, k) => World(WeakFrom(m, hs[i], s, k), hs + [Weak(hs[i].raw, hs[i].size, hs[i].block)])
    case Lock(i) =>
      if Expired(m, hs[i])
      then World(NewBlock(m, 1, 0), hs + [Strong(0, 0, |m.blocks|)])
      else World(Shared(m, hs[i]), hs + [Strong(hs[i].raw, hs[i].size, hs[i].block)])
    case Retype(i) => World(Shared(m, hs[i]), hs + [Strong(hs[i].raw, 0, hs[i].block)])
  }

  /** A local WeakPtr whose own block is dropped for that of the Ptr. */
  function WeakFrom(m: Memory, h: Handle, strong: i64, weak: i64): Memory
    requires h.block < |m.blocks|
  {
    AddWeak(NewBlock(m, strong, weak), h.block, 1)
  }

  /** A local Ptr whose own block is dropped for that of the handle. */
  function Shared(m: Memory, h: Handle): Memory
    requires h.block < |m.blocks|
  {
    AddStrong(NewBlock(m, 1, 0), h.block, 1)
  }

  predicate Expired(m: Memory, h: Handle)
    requires h.block < |m.blocks|
  {
    m.blocks[h.block].strong == 0 || h.raw == 0
  }

  function Run(w: World, ops: seq<Op>): World
    decreases |ops|
  {
    if ops == [] then w
    else Run(if Possible(w, ops[0]) then Step(w, ops[0]) else w, ops[1..])
  }

  lemma StepKeeps(w: World, op: Op)
    requires Inv(w.mem, w.handles) && |w.handles| < TWO63 - 1 && Possible(w, op)
    ensures Inv(Step(w, op).mem, Step(w, op).handles) && |Step(w, op).handles| <= |w.handles| + 1
  {
    hide Inv, HandleOk, Finalized, AddStrong, AddWeak, NewObject, StrongOn;
    var m, hs := w.mem, w.handles;
    var d := |m.blocks|;
    match op {
      case NullPtr => NullKeeps(m, hs, 1, 0, Strong(0, 0, d));
      case NullWeak(s, k) => NullKeeps(m, hs, s, k, Weak(0, 0, d));
      case Allocate(n, ok) =>
        AllocateKeeps(m, hs, n);
        NullKeeps(m, hs, 1, 0, Strong(0, n, d));
      case Copy(i) => CopyKeeps(m, hs, i);
      case Finalize(i) => LeaveKeeps(m, hs, i);
      case FromPtr(i, s, k) =>
        NullKeeps(m, hs, s, k, Weak(0, 0, d));
        JoinKeeps(NewBlock(m, s, k), hs, i, Weak(hs[i].raw, hs[i].size, hs[i].block));
      case Lock(i) =>
        NullKeeps(m, hs, 1, 0, Strong(0, 0, d));
        if !Expired(m, hs[i]) {
          Unexpired(m, hs, i);
          JoinKeeps(NewBlock(m, 1, 0), hs, i, Strong(hs[i].raw, hs[i].size, hs[i].block));
        }
      case Retype(i) =>
        NullKeeps(m, hs, 1, 0, Strong(0, 0, d));
        OnMember(hs, i, hs[i].block);
        JoinKeeps(NewBlock(m, 1, 0), hs, i, Strong(hs[i].raw, 0, hs[i].block));
    }
  }

  lemma CopyKeeps(m: Memory, hs: seq<Handle>, i: nat)
    requires Inv(m, hs) && i < |hs| < TWO63 - 1
    ensures HandleOk(m, hs[i]) && Inv(Copied(m, hs[i]), hs + [hs[i]])
  {
    LiveBlock(m, hs, i);
    OnMember(hs, i, hs[i].block);
    if hs[i].Strong? || hs[i].raw != 0 {
      JoinKeeps(m, hs, i, hs[i]);
    } else {
      forall o | 0 <= o < |m.home| ensures ObjectOk(m, hs + [hs[i]], o) {
        assert ObjectOk(m, hs, o);
        OnConcat(hs, [hs[i]], m.home[o]);
        OnOne(hs[i], m.home[o]);
      }
    }
  }

  /** A WeakPtr has not expired exactly if it is not null and some Ptr holds its object. */
  lemma Unexpired(m: Memory, hs: seq<Handle>, i: nat)
    requires Inv(m, hs) && i < |hs|
    ensures HandleOk(m, hs[i])
    ensures !Expired(m, hs[i]) <==> hs[i].raw != 0 && StrongOn(hs, hs[i].block) > 0
  {
    LiveBlock(m, hs, i);
    if hs[i].raw != 0 {
      assert ObjectOk(m, hs, hs[i].raw - 1);
    }
  }

  const START := World(Memory([], [], [], [], false), [])

  /** The main result: on every run, no freed block is read, written or freed again, the counts are the
      numbers of handles, every object is freed exactly once and exactly when no Ptr holds it, and its
      block is freed exactly once and exactly when nothing holds it. */
  lemma {:induction false} RunsAreSafe(w: World, ops: seq<Op>)
    requires Inv(w.mem, w.handles) && |w.handles| + |ops| < TWO63 - 1
    ensures Inv(Run(w, ops).mem, Run(w, ops).handles)
    decreases |ops|
  {
    hide Inv, Step;
    if ops != [] {
      if Possible(w, ops[0]) {
        StepKeeps(w, ops[0]);
        RunsAreSafe(Step(w, ops[0]), ops[1..]);
      } else {
        RunsAreSafe(w, ops[1..]);
      }
    }
  }

  lemma AllocationsAreSafe(ops: seq<Op>, o: nat)
    requires |ops| < TWO63 - 1
    ensures !Run(START, ops).mem.fault
    ensures |Run(START, ops).mem.home| == |Run(START, ops).mem.objectFrees|
    ensures o < |Run(START, ops).mem.home| ==>
      (var w := Run(START, ops);
      var b := w.mem.home[o];
      && b < |w.mem.blocks|
      && (w.mem.objectFrees[o] == if exists h :: h in w.handles && h.Strong? && h.raw == o + 1 then 0 else 1)
      && (w.mem.blocks[b].frees == if exists h :: h in w.handles && h.raw == o + 1 then 0 else 1))
  {
    RunsAreSafe(START, ops);
    var w := Run(START, ops);
    if o < |w.mem.home| {
      assert ObjectOk(w.mem, w.handles, o);
      HeldOn(w.mem, w.handles, o);
    }
  }

  lemma HeldOn(m: Memory, hs: seq<Handle>, o: nat)
    requires Inv(m, hs) && o < |m.home|
    ensures StrongOn(hs, m.home[o]) > 0 <==> exists h :: h in hs && h.Strong? && h.raw == o + 1
    ensures WeakOn(hs, m.home[o]) > 0 <==> exists h :: h in hs && h.Weak? && h.raw == o + 1
  {
    var b := m.home[o];
    forall h | h in hs ensures h.block == b <==> h.raw == o + 1 {
      assert HandleOk(m, h);
    }
    if StrongOn(hs, b) > 0 {
      var i := FirstOn(hs, b, true);
      assert hs[i] in hs;
    }
    if WeakOn(hs, b) > 0 {
      var i := FirstOn(hs, b, false);
      assert hs[i] in hs;
    }
    forall i | 0 <= i < |hs| && hs[i].block == b
      ensures if hs[i].Strong? then StrongOn(hs, b) > 0 else WeakOn(hs, b) > 0
    {
      OnMember(hs, i, b);
    }
  }

  lemma {:induction false} FirstOn(hs: seq<Handle>, b: nat, strong: bool) returns (i: nat)
    requires if strong then StrongOn(hs, b) > 0 else WeakOn(hs, b) > 0
    ensures i < |hs| && hs[i].block == b && hs[i].Strong? == strong
  {
    if hs[0].block == b && hs[0].Strong? == strong {
      i := 0;
    } else {
      i := FirstOn(hs[1..], b, strong);
      i := i + 1;
    }
  }

  /** An object is freed by the step that takes the last Ptr away, and by no other. */
  lemma FreedByLastPtr(w: World, op: Op, o: nat)
    requires Inv(w.mem, w.handles) && |w.handles| < TWO63 - 1 && Possible(w, op) && o < |w.mem.home|
    ensures o < |Step(w, op).mem.objectFrees| && |w.mem.home| == |w.mem.objectFrees|
    ensures Step(w, op).mem.objectFrees[o] != w.mem.objectFrees[o] <==>
      op.Finalize? && w.handles[op.i].Strong? && w.handles[op.i].raw == o + 1 &&
      StrongOn(w.handles, w.mem.home[o]) == 1
  {
    StepKeeps(w, op);
    assert ObjectOk(w.mem, w.handles, o);
    if op.Finalize? {
      var h := w.handles[op.i];
      assert h in w.handles && HandleOk(w.mem, h);
      assert ObjectOk(Step(w, op).mem, Step(w, op).handles, o);
      OnWithout(w.handles, op.i, w.mem.home[o]);
    }
  }

  /** Lock gives a Ptr that is not null exactly if a Ptr to the object is alive. */
  lemma LockIffAlive(w: World, i: nat)
    requires Inv(w.mem, w.handles) && Possible(w, Lock(i))
    ensures |Step(w, Lock(i)).handles| == |w.handles| + 1
    ensures Step(w, Lock(i)).handles[|w.handles|].raw ==
      if exists h :: h in w.handles && h.Strong? && h.raw == w.handles[i].raw && h.raw != 0 then w.handles[i].raw else 0
  {
    Unexpired(w.mem, w.handles, i);
    var h := w.handles[i];
    if h.raw != 0 {
      HeldOn(w.mem, w.handles, h.raw - 1);
    }
  }

  // ---------- the runtime's methods ----------

  lemma WrapUndo(x: i64)
    ensures Wrap(Wrap(x + 1) - 1) == x
  {
    if x == TWO63 - 1 {
      assert Wrap(x + 1) == -TWO63;
    }
  }

  /** The heap the methods of Ptr and WeakPtr work on, one read, write or call at a time.  A local
      variable of such a type is initialized where it is declared, and a returned one is copied into the
      result and then finalized. */
  class Runtime {
    var blocks: seq<Block>
    var objectFrees: seq<nat>
    var ended: seq<nat>
    ghost var home: seq<nat>
    var fault: bool

    ghost function State(): Memory
      reads this
    {
      Memory(blocks, objectFrees, ended, home, fault)
    }

    method NewControlBlock(strong: i64, weak: i64) returns (b: nat)
      modifies this
      ensures b == |old(blocks)| && State() == NewBlock(old(State()), strong, weak)
    {
      b := |blocks|;
      blocks := blocks + [Block(strong, weak, 0)];
    }

    method AllocateObject(ok: bool, ghost block: nat) returns (raw: nat)
      modifies this
      ensures raw == if ok then |old(objectFrees)| + 1 else 0
      ensures State() == if ok then NewObject(old(State()), block) else old(State())
    {
      raw := 0;
      if ok {
        objectFrees := objectFrees + [0];
        ended := ended + [0];
        home := home + [block];
        raw := |objectFrees|;
      }
    }

    method ChangeStrong(b: nat, d: int)
      requires b < |blocks|
      modifies this
      ensures State() == AddStrong(old(State()), b, d)
    {
      fault := fault || blocks[b].frees > 0;
      blocks := blocks[b := blocks[b].(strong := Wrap(blocks[b].strong + d))];
    }

    method ChangeWeak(b: nat, d: int)
      requires b < |blocks|
      modifies this
      ensures State() == AddWeak(old(State()), b, d)
    {
      fault := fault || blocks[b].frees > 0;
      blocks := blocks[b := blocks[b].(weak := Wrap(blocks[b].weak + d))];
    }

    method Read(b: nat) returns (c: Block)
      requires b < |blocks|
      modifies this
      ensures c == old(blocks)[b] && State() == Touch(old(State()), b)
    {
      fault := fault || blocks[b].frees > 0;
      c := blocks[b];
    }

    method FreeControlBlock(b: nat)
      requires b < |blocks|
      modifies this
      ensures State() == FreeBlock(old(State()), b)
    {
      fault := fault || blocks[b].frees > 0;
      blocks := blocks[b := blocks[b].(frees := blocks[b].frees + 1)];
    }

    method FreeRaw(raw: nat)
      requires 1 <= raw <= |objectFrees|
      modifies this
      ensures State() == FreeObject(old(State()), raw)
    {
      objectFrees := objectFrees[raw - 1 := objectFrees[raw - 1] + 1];
    }

    /** The finalization of the elements, one after the other. */
    method FinalizeElements(raw: nat, size: int)
      requires 1 <= raw <= |ended|
      modifies this
      ensures State() == EndElements(old(State()), raw, size)
    {
      var i := 0;
      assert ended[raw - 1 := ended[raw - 1] + 0] == ended;
      while i < size
        invariant |ended| == |old(ended)| && (i <= size || i == 0) && 0 <= i
        invariant State() == old(State()).(ended := old(ended)[raw - 1 := old(ended)[raw - 1] + i])
      {
        ended := ended[raw - 1 := ended[raw - 1] + 1];
        i := i + 1;
      }
    }

    method PtrInitialize() returns (self: Handle)
      modifies this
      ensures self == Strong(0, 0, |old(blocks)|) && State() == NewBlock(old(State()), 1, 0)
    {
      var b := NewControlBlock(1, 0);
      self := Strong(0, 0, b);
    }

    method PtrCopy(self: Handle)
      requires self.Strong? && self.block < |blocks|
      modifies this
      ensures State() == Copied(old(State()), self)
    {
      ChangeStrong(self.block, 1);
    }

    method PtrFinalize(self: Handle)
      requires self.Strong? && self.block < |blocks| && self.raw <= |objectFrees| == |ended|
      modifies this
      ensures State() == Finalized(old(State()), self)
    {
      ChangeStrong(self.block, -1);
      var c := Read(self.block);
      if c.strong == 0 {
        if self.raw != 0 {
          FinalizeElements(self.raw, self.size);
          FreeRaw(self.raw);
          c := Read(self.block);
          if c.weak == 0 {
            FreeControlBlock(self.block);
          }
        }
      }
    }

    method WeakInitialize(strong: i64, weak: i64) returns (self: Handle)
      modifies this
      ensures self == Weak(0, 0, |old(blocks)|) && State() == NewBlock(old(State()), strong, weak)
    {
      var b := NewControlBlock(strong, weak);
      self := Weak(0, 0, b);
    }

    method WeakCopy(self: Handle)
      requires self.Weak? && self.block < |blocks|
      modifies this
      ensures State() == Copied(old(State()), self)
    {
      if self.raw != 0 {
        ChangeWeak(self.block, 1);
      }
    }

    method WeakFinalize(self: Handle)
      requires self.Weak? && self.block < |blocks|
      modifies this
      ensures State() == FinalizeWeakPtr(old(State()), self)
    {
      if self.raw != 0 {
        ChangeWeak(self.block, -1);
        var c := Read(self.block);
        if c.strong == 0 {
          c := Read(self.block);
          if c.weak == 0 {
            FreeControlBlock(self.block);
          }
        } else {
          c := Read(self.block);
        }
      }
    }

    /** A returned Ptr is copied and the local finalized: the two cancel. */
    method PtrReturn(self: Handle)
      requires self.Strong? && self.block < |blocks| && self.raw <= |objectFrees| == |ended|
      requires self.raw != 0 ==> blocks[self.block].strong != 0
      requires blocks[self.block].frees == 0
      modifies this
      ensures State() == old(State())
    {
      WrapUndo(blocks[self.block].strong);
      PtrCopy(self);
      PtrFinalize(self);
    }

    method WeakReturn(self: Handle)
      requires self.Weak? && self.block < |blocks|
      requires self.raw != 0 ==> blocks[self.block].weak != 0 && blocks[self.block].frees == 0
      modifies this
      ensures State() == old(State())
    {
      WrapUndo(blocks[self.block].weak);
      WeakCopy(self);
      WeakFinalize(self);
    }

    method NullPtr(ghost hs: seq<Handle>) returns (r: Handle)
      requires Inv(State(), hs)
      modifies this
      ensures World(State(), hs + [r]) == Step(World(old(State()), hs), Op.NullPtr)
    {
      r := PtrInitialize();
      PtrReturn(r);
    }

    method Allocate(size: int, ok: bool, ghost hs: seq<Handle>) returns (r: Handle)
      requires Inv(State(), hs)
      modifies this
      ensures World(State(), hs + [r]) == Step(World(old(State()), hs), Op.Allocate(size, ok))
    {
      r := PtrInitialize();
      var raw := AllocateObject(ok, r.block);
      r := Strong(raw, size, r.block);
      PtrReturn(r);
    }

    method FromPtr(shared: Handle, strong: i64, weak: i64, ghost hs: seq<Handle>, ghost i: nat) returns (r: Handle)
      requires Inv(State(), hs) && i < |hs| < TWO63 - 1 && hs[i] == shared && shared.Strong?
      modifies this
      ensures Possible(World(old(State()), hs), Op.FromPtr(i, strong, weak))
      ensures World(State(), hs + [r]) == Step(World(old(State()), hs), Op.FromPtr(i, strong, weak))
    {
      LiveBlock(State(), hs, i);
      StepKeeps(World(State(), hs), Op.FromPtr(i, strong, weak));
      r := WeakInitialize(strong, weak);
      r := Weak(shared.raw, shared.size, shared.block);
      ChangeWeak(r.block, 1);
      LiveBlock(State(), hs + [r], |hs|);
      HeldCount(State(), hs + [r], |hs|);
      WeakReturn(r);
    }

    method Lock(self: Handle, ghost hs: seq<Handle>, ghost i: nat) returns (r: Handle)
      requires Inv(State(), hs) && i < |hs| < TWO63 - 1 && hs[i] == self && self.Weak?
      modifies this
      ensures Possible(World(old(State()), hs), Op.Lock(i))
      ensures World(State(), hs + [r]) == Step(World(old(State()), hs), Op.Lock(i))
    {
      LiveBlock(State(), hs, i);
      StepKeeps(World(State(), hs), Op.Lock(i));
      var c := Read(self.block);
      if c.strong == 0 || self.raw == 0 {
        r := NullPtr(hs);
      } else {
        r := PtrInitialize();
        r := Strong(self.raw, self.size, self.block);
        ChangeStrong(r.block, 1);
        LiveBlock(State(), hs + [r], |hs|);
        HeldCount(State(), hs + [r], |hs|);
        PtrReturn(r);
      }
    }

    /** ToUndef and FromUndef: they do not copy the size. */
    method Retype(self: Handle, ghost hs: seq<Handle>, ghost i: nat) returns (r: Handle)
      requires Inv(State(), hs) && i < |hs| < TWO63 - 1 && hs[i] == self && self.Strong?
      modifies this
      ensures Possible(World(old(State()), hs), Op.Retype(i))
      ensures World(State(), hs + [r]) == Step(World(old(State()), hs), Op.Retype(i))
    {
      LiveBlock(State(), hs, i);
      StepKeeps(World(State(), hs), Op.Retype(i));
      r := PtrInitialize();
      r := Strong(self.raw, r.size, self.block);
      ChangeStrong(r.block, 1);
      LiveBlock(State(), hs + [r], |hs|);
      HeldCount(State(), hs + [r], |hs|);
      PtrReturn(r);
    }
  }

  /** The count of a live handle that is not null is not zero. */
  lemma HeldCount(m: Memory, hs: seq<Handle>, i: nat)
    requires Inv(m, hs) && i < |hs|
    ensures HandleOk(m, hs[i])
    ensures hs[i].raw != 0 ==>
      if hs[i].Strong? then m.blocks[hs[i].block].strong > 0 else m.blocks[hs[i].block].weak > 0
  {
    LiveBlock(m, hs, i);
    OnMember(hs, i, hs[i].block);
    if hs[i].raw != 0 {
      assert ObjectOk(m, hs, hs[i].raw - 1);
    }
  }
}
