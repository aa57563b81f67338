/** Counted pointers as a programmer sees them: handles to objects, without counts or control blocks.  An
    object ends with its last Ptr, and a WeakPtr locks as long as there is one. */
module PtrIdeal {
  import opened Wrappers
  import opened I64
  import opened Ptr

  /** A Ptr or a WeakPtr to the object of that number, or a null one; retyped if it came, directly or through
      others, from ToUndef or FromUndef. */
  datatype Ref = Ref(strong: bool, target: Option<nat>, retyped: bool)

  /** sizes[o] is the size that object o was allocated with, and ended[o] how many of its elements were
      finalized. */
  datatype Ideal = Ideal(refs: seq<Ref>, sizes: seq<int>, ended: seq<nat>)

  ghost predicate Alive(refs: seq<Ref>, o: nat) {
    exists r :: r in refs && r.strong && r.target == Some(o)
  }

  /** How many elements a Ptr of an object knows of. */
  function Known(s: Ideal, r: Ref): nat {
    if r.target.None? || r.target.value >= |s.sizes| || r.retyped || s.sizes[r.target.value] < 0 then 0
    else s.sizes[r.target.value]
  }

  ghost predicate Has(s: Ideal, op: Op) {
    match op
    case NullPtr => true
    case NullWeak(_, _) => true
    case Allocate(_, _) => true
    case Copy(i) => i < |s.refs|
    case Finalize(i) => i < |s.refs|
    case FromPtr(i, _, _) => i < |s.refs| && s.refs[i].strong
    case Lock(i) => i < |s.refs| && !s.refs[i].strong
    case Retype(i) => i < |s.refs| && s.refs[i].strong
  }

  ghost function Next(s: Ideal, op: Op): Ideal
    requires Has(s, op)
  {
    match op
    case NullPtr => s.(refs := s.refs + [Ref(true, None, false)])
    case NullWeak(_, _) => s.(refs := s.refs + [Ref(false, None, false)])
    case Allocate(n, ok) =>
      if ok then Ideal(s.refs + [Ref(true, Some(|s.sizes|), false)], s.sizes + [n], s.ended + [0])
      else s.(refs := s.refs + [Ref(true, None, false)])
    case Copy(i) => s.(refs := s.refs + [s.refs[i]])
    case Finalize(i) => Dropped(s, s.refs[i], Without(s.refs, i))
    case FromPtr(i, _, _) => s.(refs := s.refs + [s.refs[i].(strong := false)])
    case Lock(i) =>
      var r := s.refs[i];
      s.(refs := s.refs +
        [if r.target.Some? && Alive(s.refs, r.target.value) then r.(strong := true) else Ref(true, None, false)])
    case Retype(i) => s.(refs := s.refs + [s.refs[i].(retyped := true)])
  }

  /** A handle goes: if it was the last Ptr to its object, the elements that it knows of are finalized. */
  ghost function Dropped(s: Ideal, r: Ref, rest: seq<Ref>): Ideal {
    if r.strong && r.target.Some? && r.target.value < |s.ended| && !Alive(rest, r.target.value)
    then Ideal(rest, s.sizes, s.ended[r.target.value := s.ended[r.target.value] + Known(s, r)])
    else s.(refs := rest)
  }

  ghost function IdealRun(s: Ideal, ops: seq<Op>): Ideal
    decreases |ops|
  {
    if ops == [] then s else IdealRun(if Has(s, ops[0]) then Next(s, ops[0]) else s, ops[1..])
  }

  // ---------- the runtime does what is seen ----------

  ghost predicate Shows(h: Handle, r: Ref, sizes: seq<int>) {
    && h.Strong? == r.strong
    && h.raw == (if r.target.Some? then r.target.value + 1 else 0)
    && (r.target.Some? ==>
        r.target.value < |sizes| && h.size == if r.retyped then 0 else sizes[r.target.value])
  }

  ghost predicate Refines(w: World, s: Ideal) {
    && |w.handles| == |s.refs| && |w.mem.home| == |s.sizes| && w.mem.ended == s.ended
    && forall i :: 0 <= i < |s.refs| ==> Shows(w.handles[i], s.refs[i], s.sizes)
  }

  /** A Ptr to the object is alive in one view exactly if it is in the other. */
  lemma AliveShown(w: World, s: Ideal, o: nat)
    requires Inv(w.mem, w.handles) && Refines(w, s) && o < |w.mem.home|
    ensures StrongOn(w.handles, w.mem.home[o]) > 0 <==> Alive(s.refs, o)
  {
    HeldOn(w.mem, w.handles, o);
    if h :| h in w.handles && h.Strong? && h.raw == o + 1 {
      var i :| 0 <= i < |w.handles| && w.handles[i] == h;
      assert Shows(h, s.refs[i], s.sizes) && s.refs[i] in s.refs;
    }
    if r :| r in s.refs && r.strong && r.target == Some(o) {
      var i :| 0 <= i < |s.refs| && s.refs[i] == r;
      assert Shows(w.handles[i], r, s.sizes) && w.handles[i] in w.handles;
    }
  }

  lemma PossibleShown(w: World, s: Ideal, op: Op)
    requires Inv(w.mem, w.handles) && Refines(w, s)
    ensures Possible(w, op) <==> Has(s, op)
  {
    forall i | 0 <= i < |w.handles| ensures Ptr.Has(w, i) && Shows(w.handles[i], s.refs[i], s.sizes) {
      assert w.handles[i] in w.handles && HandleOk(w.mem, w.handles[i]);
    }
  }

  /** One more handle. */
  lemma JoinShown(w: World, s: Ideal, m: Memory, h: Handle, r: Ref)
    requires Refines(w, s) && Shows(h, r, s.sizes) && m.home == w.mem.home && m.ended == w.mem.ended
    ensures Refines(World(m, w.handles + [h]), s.(refs := s.refs + [r]))
  {
  }

  lemma StepShown(w: World, s: Ideal, op: Op)
    requires Inv(w.mem, w.handles) && |w.handles| < TWO63 - 1 && Refines(w, s) && Possible(w, op)
    ensures Has(s, op) && Refines(Step(w, op), Next(s, op))
  {
    hide Inv, Refines;
    PossibleShown(w, s, op);
    var m, hs := w.mem, w.handles;
    match op {
      case NullPtr => JoinShown(w, s, Step(w, op).mem, Strong(0, 0, |m.blocks|), Ref(true, None, false));
      case NullWeak(_, _) => JoinShown(w, s, Step(w, op).mem, Weak(0, 0, |m.blocks|), Ref(false, None, false));
      case Allocate(n, ok) =>
        if ok {
          AllocateShown(w, s, n);
        } else {
          JoinShown(w, s, Step(w, op).mem, Strong(0, n, |m.blocks|), Ref(true, None, false));
        }
      case Copy(i) =>
        OneShown(w, s, i);
        JoinShown(w, s, Step(w, op).mem, hs[i], s.refs[i]);
      case Finalize(i) => FinalizeShown(w, s, i);
      case FromPtr(i, _, _) =>
        OneShown(w, s, i);
        JoinShown(w, s, Step(w, op).mem, Weak(hs[i].raw, hs[i].size, hs[i].block), s.refs[i].(strong := false));
      case Lock(i) => LockShown(w, s, i);
      case Retype(i) =>
        OneShown(w, s, i);
        JoinShown(w, s, Step(w, op).mem, Strong(hs[i].raw, 0, hs[i].block), s.refs[i].(retyped := true));
    }
  }

  lemma OneShown(w: World, s: Ideal, i: nat)
    requires Refines(w, s) && i < |w.handles|
    ensures i < |s.refs| && Shows(w.handles[i], s.refs[i], s.sizes)
  {
  }

  lemma AllocateShown(w: World, s: Ideal, n: int)
    requires Inv(w.mem, w.handles) && Refines(w, s)
    ensures Refines(Step(w, Op.Allocate(n, true)), Next(s, Op.Allocate(n, true)))
  {
    var w', s' := Step(w, Op.Allocate(n, true)), Next(s, Op.Allocate(n, true));
    forall i | 0 <= i < |s'.refs| ensures Shows(w'.handles[i], s'.refs[i], s'.sizes) {
      if i < |s.refs| {
        OneShown(w, s, i);
      }
    }
  }

  lemma LockShown(w: World, s: Ideal, i: nat)
    requires Inv(w.mem, w.handles) && Refines(w, s) && Possible(w, Lock(i)) && Has(s, Lock(i))
    ensures Refines(Step(w, Lock(i)), Next(s, Lock(i)))
  {
    var h, r := w.handles[i], s.refs[i];
    OneShown(w, s, i);
    Unexpired(w.mem, w.handles, i);
    if r.target.Some? {
      assert h in w.handles && HandleOk(w.mem, h);
      AliveShown(w, s, r.target.value);
    }
    hide Refines, Inv;
    var alive := r.target.Some? && Alive(s.refs, r.target.value);
    if alive {
      JoinShown(w, s, Step(w, Lock(i)).mem, Strong(h.raw, h.size, h.block), r.(strong := true));
    } else {
      JoinShown(w, s, Step(w, Lock(i)).mem, Strong(0, 0, |w.mem.blocks|), Ref(true, None, false));
    }
  }

  lemma FinalizeShown(w: World, s: Ideal, i: nat)
    requires Inv(w.mem, w.handles) && |w.handles| < TWO63 - 1 && Refines(w, s)
    requires Possible(w, Finalize(i)) && Has(s, Finalize(i))
    ensures Refines(Step(w, Finalize(i)), Next(s, Finalize(i)))
  {
    var h, r := w.handles[i], s.refs[i];
    var rest := World(w.mem, Without(w.handles, i));
    OneShown(w, s, i);
    LastShown(w, s, i);
    EndedBy(w, i);
    forall j | 0 <= j < |s.refs| - 1
      ensures Shows(Without(w.handles, i)[j], Without(s.refs, i)[j], s.sizes)
    {
      OneShown(w, s, if j < i then j else j + 1);
    }
  }

  /** The count tells whether the Ptr that goes is the last one. */
  lemma LastShown(w: World, s: Ideal, i: nat)
    requires Inv(w.mem, w.handles) && |w.handles| < TWO63 - 1 && Refines(w, s) && i < |w.handles|
    ensures HandleOk(w.mem, w.handles[i]) && i < |s.refs|
    ensures s.refs[i].strong && s.refs[i].target.Some? ==>
      (StrongOn(w.handles, w.handles[i].block) == 1 <==> !Alive(Without(s.refs, i), s.refs[i].target.value))
  {
    var h, r := w.handles[i], s.refs[i];
    assert h in w.handles && HandleOk(w.mem, h);
    OneShown(w, s, i);
    if r.strong && r.target.Some? {
      var rest := Without(w.handles, i);
      OnWithout(w.handles, i, h.block);
      AliveRest(w, s, i, r.target.value);
    }
  }

  lemma AliveRest(w: World, s: Ideal, i: nat, o: nat)
    requires Inv(w.mem, w.handles) && Refines(w, s) && i < |w.handles| && o < |w.mem.home|
    ensures i < |s.refs|
    ensures StrongOn(Without(w.handles, i), w.mem.home[o]) > 0 <==> Alive(Without(s.refs, i), o)
  {
    var hs, refs, b := Without(w.handles, i), Without(s.refs, i), w.mem.home[o];
    forall j | 0 <= j < |refs|
      ensures Shows(hs[j], refs[j], s.sizes) && (hs[j].block == b <==> hs[j].raw == o + 1)
    {
      var k := if j < i then j else j + 1;
      OneShown(w, s, k);
      assert w.handles[k] in w.handles && HandleOk(w.mem, w.handles[k]);
    }
    if StrongOn(hs, b) > 0 {
      var j := FirstOn(hs, b, true);
      assert refs[j] in refs;
    }
    if r :| r in refs && r.strong && r.target == Some(o) {
      var j :| 0 <= j < |refs| && refs[j] == r;
      OnMember(hs, j, b);
    }
  }

  /** What finalizing a handle does to the elements. */
  lemma EndedBy(w: World, i: nat)
    requires Inv(w.mem, w.handles) && |w.handles| < TWO63 - 1 && Possible(w, Finalize(i))
    ensures var h, m := w.handles[i], Step(w, Finalize(i)).mem;
      && m.home == w.mem.home && h.raw <= |w.mem.ended|
      && m.ended ==
        if h.Strong? && h.raw != 0 && StrongOn(w.handles, h.block) == 1
        then w.mem.ended[h.raw - 1 := w.mem.ended[h.raw - 1] + if h.size > 0 then h.size else 0]
        else w.mem.ended
  {
    var h := w.handles[i];
    assert h in w.handles && HandleOk(w.mem, h);
    OnBound(w.handles, h.block);
    OnMember(w.handles, i, h.block);
    if h.raw != 0 {
      assert ObjectOk(w.mem, w.handles, h.raw - 1);
    }
    hide StrongOn, WeakOn;
  }

  const NOTHING := Ideal([], [], [])

  lemma {:induction false} RunShown(w: World, s: Ideal, ops: seq<Op>)
    requires Inv(w.mem, w.handles) && |w.handles| + |ops| < TWO63 - 1 && Refines(w, s)
    ensures Refines(Run(w, ops), IdealRun(s, ops))
    decreases |ops|
  {
    hide Inv, Refines, Step, Next, Has;
    if ops != [] {
      PossibleShown(w, s, ops[0]);
      if Possible(w, ops[0]) {
        StepShown(w, s, ops[0]);
        StepKeeps(w, ops[0]);
        RunShown(Step(w, ops[0]), Next(s, ops[0]), ops[1..]);
      } else {
        RunShown(w, s, ops[1..]);
      }
    }
  }

  /** Over every run, the counted handles are those a programmer sees: of the same kind, to the same object
      or null, and with the size the object was allocated with, unless it came through ToUndef or FromUndef;
      an object has been freed exactly if no Ptr to it is left, and as many of its elements have been finalized
      as its last Ptr knew of. */
  lemma RunsAsSeen(ops: seq<Op>)
    requires |ops| < TWO63 - 1
    ensures var w, s := Run(START, ops), IdealRun(NOTHING, ops);
      && |w.handles| == |s.refs| && |w.mem.objectFrees| == |s.sizes| && w.mem.ended == s.ended
      && (forall i :: 0 <= i < |s.refs| ==> Shows(w.handles[i], s.refs[i], s.sizes))
      && (forall o :: 0 <= o < |s.sizes| ==> w.mem.objectFrees[o] == if Alive(s.refs, o) then 0 else 1)
  {
    RunShown(START, NOTHING, ops);
    RunsAreSafe(START, ops);
    var w, s := Run(START, ops), IdealRun(NOTHING, ops);
    forall o | 0 <= o < |s.sizes| ensures w.mem.objectFrees[o] == if Alive(s.refs, o) then 0 else 1 {
      assert ObjectOk(w.mem, w.handles, o);
      AliveShown(w, s, o);
    }
  }

  // ---------- runs without ToUndef and FromUndef ----------

  /** The sizes of the objects that were allocated, in order. */
  function Allocated(ops: seq<Op>): seq<int> {
    if ops == [] then []
    else (if ops[0].Allocate? && ops[0].ok then [ops[0].size] else []) + Allocated(ops[1..])
  }

  lemma {:induction false} SizesAllocated(s: Ideal, ops: seq<Op>)
    ensures IdealRun(s, ops).sizes == s.sizes + Allocated(ops)
    decreases |ops|
  {
    if ops == [] {
      assert s.sizes + [] == s.sizes;
    } else {
      var s' := if Has(s, ops[0]) then Next(s, ops[0]) else s;
      SizesAllocated(s', ops[1..]);
      var now := if ops[0].Allocate? && ops[0].ok then [ops[0].size] else [];
      assert s'.sizes == s.sizes + now;
      assert (s.sizes + now) + Allocated(ops[1..]) == s.sizes + (now + Allocated(ops[1..]));
    }
  }

  /** Nothing is retyped, and an object without a Ptr has had each of its elements finalized, once. */
  ghost predicate Plain(s: Ideal) {
    && |s.ended| == |s.sizes|
    && (forall i :: 0 <= i < |s.refs| ==> !s.refs[i].retyped && (s.refs[i].target.Some? ==>
          s.refs[i].target.value < |s.sizes|))
    && forall o :: 0 <= o < |s.sizes| ==>
        s.ended[o] == if Alive(s.refs, o) || s.sizes[o] < 0 then 0 else s.sizes[o]
  }

  lemma PlainNext(s: Ideal, op: Op)
    requires Plain(s) && Has(s, op) && !op.Retype?
    ensures Plain(Next(s, op))
  {
    var s' := Next(s, op);
    forall o | 0 <= o < |s'.sizes|
      ensures s'.ended[o] == if Alive(s'.refs, o) || s'.sizes[o] < 0 then 0 else s'.sizes[o]
    {
      if op.Finalize? {
        PlainFinalize(s, op.i, o);
      } else {
        AliveJoined(s.refs, s'.refs[|s.refs|], o);
        if op.Copy? || op.FromPtr? || op.Lock? {
          assert s.refs[op.i] in s.refs;
        }
      }
    }
  }

  lemma AliveJoined(refs: seq<Ref>, r: Ref, o: nat)
    ensures Alive(refs + [r], o) <==> Alive(refs, o) || (r.strong && r.target == Some(o))
  {
    assert r in refs + [r];
    if Alive(refs, o) {
      var x :| x in refs && x.strong && x.target == Some(o);
      assert x in refs + [r];
    }
  }

  lemma AliveWithout(refs: seq<Ref>, i: nat, o: nat)
    requires i < |refs|
    ensures Alive(refs, o) <==> Alive(Without(refs, i), o) || (refs[i].strong && refs[i].target == Some(o))
  {
    var rest := Without(refs, i);
    assert refs[i] in refs;
    if Alive(refs, o) {
      var j :| 0 <= j < |refs| && refs[j].strong && refs[j].target == Some(o);
      if j != i {
        assert rest[if j < i then j else j - 1] == refs[j];
      }
    }
    if Alive(rest, o) {
      var j :| 0 <= j < |rest| && rest[j].strong && rest[j].target == Some(o);
      assert rest[j] == refs[if j < i then j else j + 1];
    }
  }

  lemma PlainFinalize(s: Ideal, i: nat, o: nat)
    requires Plain(s) && i < |s.refs| && o < |s.sizes|
    ensures var s' := Next(s, Finalize(i));
      |s'.ended| == |s.sizes| && s'.ended[o] == if Alive(s'.refs, o) || s.sizes[o] < 0 then 0 else s.sizes[o]
  {
    AliveWithout(s.refs, i, o);
  }

  lemma {:induction false} PlainRun(s: Ideal, ops: seq<Op>)
    requires Plain(s) && forall i :: 0 <= i < |ops| ==> !ops[i].Retype?
    ensures Plain(IdealRun(s, ops))
    decreases |ops|
  {
    hide Plain, Next, Has;
    if ops != [] {
      if Has(s, ops[0]) {
        PlainNext(s, ops[0]);
      }
      PlainRun(if Has(s, ops[0]) then Next(s, ops[0]) else s, ops[1..]);
    }
  }

  /** Without ToUndef and FromUndef every handle that is not null has the size its object was allocated with,
      and the elements of an object are finalized once when its last Ptr goes, and not before. */
  lemma SizesKept(ops: seq<Op>, i: nat, o: nat)
    requires |ops| < TWO63 - 1 && forall j :: 0 <= j < |ops| ==> !ops[j].Retype?
    ensures var w := Run(START, ops);
      && |w.mem.ended| == |w.mem.objectFrees| == |Allocated(ops)|
      && (i < |w.handles| && w.handles[i].raw != 0 ==>
          w.handles[i].raw <= |Allocated(ops)| && w.handles[i].size == Allocated(ops)[w.handles[i].raw - 1])
      && (o < |Allocated(ops)| ==>
          w.mem.ended[o] == if w.mem.objectFrees[o] == 0 || Allocated(ops)[o] < 0 then 0 else Allocated(ops)[o])
  {
    hide Run, IdealRun, Allocated;
    var w, s := Run(START, ops), IdealRun(NOTHING, ops);
    RunsAsSeen(ops);
    SizesAllocated(NOTHING, ops);
    assert [] + Allocated(ops) == Allocated(ops);
    PlainRun(NOTHING, ops);
  }

  /** With them they may never be: the last Ptr to an object may think that it is empty. */
  lemma RetypedForgets(n: int)
    ensures var w := Run(START, [Op.Allocate(n, true), Retype(0), Finalize(0), Finalize(0)]);
      |w.mem.ended| == 1 && w.mem.ended[0] == 0 && |w.mem.objectFrees| == 1 && w.mem.objectFrees[0] == 1
  {
    var o0, o1, o2 := Op.Allocate(n, true), Retype(0), Finalize(0);
    var ops := [o0, o1, o2, o2];
    RunsAsSeen(ops);
    var s1 := Next(NOTHING, o0);
    var s2 := Next(s1, o1);
    var s3 := Next(s2, o2);
    var s4 := Next(s3, o2);
    assert ops[1..] == [o1, o2, o2] && [o1, o2, o2][1..] == [o2, o2] && [o2, o2][1..] == [o2] && [o2][1..] == [];
    assert s1.refs == [Ref(true, Some(0), false)];
    assert s2.refs == [Ref(true, Some(0), false), Ref(true, Some(0), true)];
    assert Without(s2.refs, 0) == [Ref(true, Some(0), true)];
    assert Ref(true, Some(0), true) in Without(s2.refs, 0);
    assert s3.refs == [Ref(true, Some(0), true)];
    assert Without(s3.refs, 0) == [];
    assert IdealRun(s4, []) == s4;
    assert IdealRun(s3, [o2]) == s4;
    assert IdealRun(s2, [o2, o2]) == s4;
    assert IdealRun(s1, [o1, o2, o2]) == s4;
    assert IdealRun(NOTHING, ops) == s4;
  }
}
