/** The runtime's growing array. */
module DynamicArray {
  import opened I64
  import opened Wrappers

  const TWO62: int := 0x4000_0000_0000_0000

  ghost predicate PowerOfTwo(n: int)
    decreases n
  {
    n == 1 || (n > 1 && n % 2 == 0 && PowerOfTwo(n / 2))
  }

  lemma DoublePower(n: int)
    requires PowerOfTwo(n)
    ensures PowerOfTwo(2 * n)
  {
    assert 2 * n / 2 == n;
  }

  /** The least power of two that is not below value; up to 2^62 the doubling does not wrap. */
  function CeilPower(value: int, re: int): (r: int)
    requires re > 0
    decreases value - re
  {
    if re < value then CeilPower(value, 2 * re) else re
  }

  lemma {:induction false} CeilPowerLeast(value: int, re: int)
    requires PowerOfTwo(re) && (re == 1 || re < 2 * value)
    ensures PowerOfTwo(CeilPower(value, re)) && CeilPower(value, re) >= value
    ensures CeilPower(value, re) >= re && (CeilPower(value, re) == 1 || CeilPower(value, re) < 2 * value)
    decreases value - re
  {
    if re < value {
      DoublePower(re);
      CeilPowerLeast(value, 2 * re);
    }
  }

  /** Between two powers of two, one is twice the other or more. */
  lemma {:induction false} PowersApart(a: int, b: int)
    requires PowerOfTwo(a) && PowerOfTwo(b) && a < b
    ensures 2 * a <= b
    decreases a
  {
    if a > 1 {
      PowersApart(a / 2, b / 2);
    }
  }

  /** Growing past a full capacity doubles it. */
  lemma CeilPowerOfNext(capacity: int)
    requires PowerOfTwo(capacity)
    ensures CeilPower(capacity + 1, 1) == 2 * capacity
  {
    CeilPowerLeast(capacity + 1, 1);
    var r := CeilPower(capacity + 1, 1);
    PowersApart(capacity, r);
  }

  method CeilPowerOf2(value: int) returns (re: int)
    requires 0 <= value <= TWO62
    ensures re == CeilPower(value, 1) && 0 < re <= TWO62
  {
    re := 1;
    while re < value
      invariant PowerOfTwo(re) && 0 < re && (re == 1 || re < 2 * value)
      invariant CeilPower(value, 1) == CeilPower(value, re)
      decreases value - re
    {
      DoublePower(re);
      re := re * 2;
    }
    LargestPower(re);
  }

  lemma LargestPower(re: int)
    requires PowerOfTwo(re) && re < 2 * TWO62
    ensures re <= TWO62
  {
    if re > TWO62 {
      Power62();
      TopPower(TWO62, 62);
      PowersApart(TWO62, re);
      assert false;
    }
  }

  lemma {:induction false} PowerOfSum(a: nat, b: nat)
    ensures Power(a + b) == Power(a) * Power(b)
    decreases a
  {
    if a > 0 {
      PowerOfSum(a - 1, b);
      assert Power(a + b) == 2 * Power(a - 1 + b);
      assert 2 * (Power(a - 1) * Power(b)) == (2 * Power(a - 1)) * Power(b);
    }
  }

  lemma Power62()
    ensures Power(62) == TWO62
  {
    assert Power(5) == 2 * 2 * 2 * 2 * Power(1) == 32;
    PowerOfSum(5, 5);
    PowerOfSum(10, 10);
    PowerOfSum(10, 20);
    PowerOfSum(1, 30);
    PowerOfSum(31, 31);
  }

  function Power(k: nat): int {
    if k == 0 then 1 else 2 * Power(k - 1)
  }

  lemma {:induction false} TopPower(n: int, k: nat)
    requires n == Power(k)
    ensures PowerOfTwo(n)
    decreases k
  {
    if k > 0 {
      TopPower(Power(k - 1), k - 1);
      DoublePower(Power(k - 1));
    }
  }

  /** The counter of the loop after k turns. */
  function Doubled(k: nat): i64 {
    if k == 0 then 1 else Wrap(2 * Doubled(k - 1))
  }

  lemma {:induction false} DoubledPower(k: nat)
    requires k <= 62
    ensures Doubled(k) == Power(k) && 0 < Power(k) <= TWO62
    decreases 62 - k
  {
    if k == 62 {
      Power62();
    } else {
      DoubledPower(k + 1);
    }
    DoubledBelow(k);
  }

  lemma {:induction false} DoubledBelow(k: nat)
    requires Power(k) <= TWO62
    ensures Doubled(k) == Power(k) > 0
    decreases k
  {
    if k > 0 {
      PowerPositive(k - 1);
      DoubledBelow(k - 1);
    }
  }

  lemma {:induction false} PowerPositive(k: nat)
    ensures Power(k) > 0
  {
    if k > 0 {
      PowerPositive(k - 1);
    }
  }

  lemma WrapTop()
    ensures Wrap(2 * TWO62) == -TWO63 && Wrap(2 * -TWO63) == 0 && Wrap(2 * 0) == 0
  {
  }

  lemma TopCounter()
    ensures Doubled(62) == TWO62
  {
    DoubledPower(62);
    Power62();
  }

  lemma {:induction false} DoubledWraps(k: nat)
    requires k > 62
    ensures Doubled(k) == if k == 63 then -TWO63 else 0
    decreases k
  {
    hide Wrap;
    WrapTop();
    if k == 63 {
      TopCounter();
      assert Doubled(63) == Wrap(2 * Doubled(62));
    } else {
      DoubledWraps(k - 1);
    }
  }

  /** The loop stops exactly for the values up to 2^62: above, its counter wraps to zero and stays there. */
  lemma DoublingStops(value: i64)
    ensures (exists k: nat :: Doubled(k) >= value) <==> value <= TWO62
  {
    DoubledPower(62);
    Power62();
    if value > TWO62 {
      forall k: nat ensures Doubled(k) < value {
        if k <= 62 {
          DoubledPower(k);
        } else {
          DoubledWraps(k);
        }
      }
    }
  }

  class DynamicArray<T(0)> {
    var data: array<T>
    var length: int
    var capacity: int
    /** How many elements growing has copied. */
    ghost var copies: nat

    ghost predicate Valid()
      reads this
    {
      0 <= length <= capacity == data.Length && (capacity == 0 || PowerOfTwo(capacity))
    }

    ghost function Contents(): seq<T>
      requires Valid()
      reads this, data
    {
      data[..length]
    }

    constructor ()
      ensures Valid() && Contents() == [] && capacity == 0 && copies == 0 && fresh(data)
    {
      data := new T[0];
      length, capacity, copies := 0, 0, 0;
    }

    constructor Create(length: int)
      requires 0 <= length <= TWO62
      ensures Valid() && this.length == length && capacity == CeilPower(length, 1) && copies == 0 && fresh(data)
    {
      var c := CeilPowerOf2(length);
      CeilPowerLeast(length, 1);
      this.length, capacity, data := length, c, new T[c];
      copies := 0;
    }

    method Push(value: T)
      requires Valid() && length < TWO62
      modifies this, data
      ensures Valid() && Contents() == old(Contents()) + [value]
      ensures old(length) < old(capacity) ==> capacity == old(capacity) && copies == old(copies) && data == old(data)
      ensures old(length) == old(capacity) ==>
        capacity == CeilPower(length, 1) && copies == old(copies) + old(length) && fresh(data)
    {
      ghost var before := Contents();
      if length + 1 > capacity {
        var newSelf := new DynamicArray<T>.Create(length + 1);
        for idx := 0 to length
          invariant newSelf.Valid() && newSelf.length == length + 1 && fresh(newSelf.data) && newSelf.data != data
          invariant newSelf.capacity == CeilPower(length + 1, 1)
          invariant Valid() && Contents() == before && copies == old(copies) && length == old(length)
          invariant newSelf.data[..idx] == before[..idx]
        {
          newSelf.data[idx] := data[idx];
        }
        copies := copies + length;
        data, length, capacity := newSelf.data, newSelf.length, newSelf.capacity;
      } else {
        length := length + 1;
      }
      data[length - 1] := value;
    }

    method Pop()
      requires Valid() && length > 0
      modifies this`length
      ensures Valid() && Contents() == old(Contents())[..|old(Contents())| - 1]
    {
      length := length - 1;
    }
  }

  // ---------- what growing costs ----------

  /** Lengths and capacities over a run of pushes of values and pops (ignored when there is nothing to pop),
      with the copies growing made and the pushes so far. */
  datatype Cost = Cost(length: nat, capacity: nat, copies: nat, pushes: nat)

  const START := Cost(0, 0, 0, 0)

  function CostStep<T>(c: Cost, op: Option<T>): Cost {
    if op.None? then (if c.length == 0 then c else c.(length := c.length - 1))
    else if c.length == c.capacity then
      Cost(c.length + 1, if c.capacity == 0 then 1 else 2 * c.capacity, c.copies + c.length, c.pushes + 1)
    else Cost(c.length + 1, c.capacity, c.copies, c.pushes + 1)
  }

  function CostRun<T>(c: Cost, ops: seq<Option<T>>): Cost
    decreases |ops|
  {
    if ops == [] then c else CostRun(CostStep(c, ops[0]), ops[1..])
  }

  /** All copies together are one fewer than the capacity, which is less than twice the pushes. */
  ghost predicate Amortized(c: Cost) {
    && c.length <= c.capacity && c.length <= c.pushes
    && c.copies == (if c.capacity == 0 then 0 else c.capacity - 1)
    && (c.capacity == 0 || c.capacity < 2 * c.pushes)
  }

  lemma {:induction false} RunsAmortized<T>(c: Cost, ops: seq<Option<T>>)
    requires Amortized(c)
    ensures Amortized(CostRun(c, ops))
    decreases |ops|
  {
    if ops != [] {
      RunsAmortized(CostStep(c, ops[0]), ops[1..]);
    }
  }

  /** The pushes of a run. */
  function Pushes<T>(ops: seq<Option<T>>): nat {
    if ops == [] then 0 else (if ops[0].Some? then 1 else 0) + Pushes(ops[1..])
  }

  lemma {:induction false} CostCountsPushes<T>(c: Cost, ops: seq<Option<T>>)
    ensures CostRun(c, ops).pushes == c.pushes + Pushes(ops)
    decreases |ops|
  {
    if ops != [] {
      CostCountsPushes(CostStep(c, ops[0]), ops[1..]);
    }
  }

  /** From an empty array, whatever is pushed and popped, growing copies fewer than two elements a push. */
  lemma CopiesBelowTwicePushes<T>(ops: seq<Option<T>>)
    ensures var c := CostRun(START, ops); c.copies < 2 * Pushes(ops) || c.copies == Pushes(ops) == 0
  {
    RunsAmortized(START, ops);
    CostCountsPushes(START, ops);
  }

  /** Any run of pushes and pops of an array that starts empty: it holds what a sequence would, and growing
      has copied fewer elements than twice the pushes. */
  method RunOps<T(0)>(ops: seq<Option<T>>) returns (a: DynamicArray<T>)
    requires |ops| < TWO62
    ensures a.Valid() && a.Contents() == Replay([], ops)
    ensures Cost(a.length, a.capacity, a.copies, Pushes(ops)) == CostRun(START, ops)
    ensures a.copies < 2 * Pushes(ops) || a.copies == Pushes(ops) == 0
  {
    a := new DynamicArray<T>();
    var i := 0;
    assert ops[0..] == ops && ops[..0] == [];
    while i < |ops|
      invariant 0 <= i <= |ops| && fresh(a) && fresh(a.data) && a.Valid() && a.length <= i
      invariant Replay([], ops) == Replay(a.Contents(), ops[i..])
      invariant Cost(a.length, a.capacity, a.copies, Pushes(ops[..i])) == CostRun(START, ops[..i])
    {
      assert ops[i..][0] == ops[i] && ops[i..][1..] == ops[i + 1..];
      assert ops[..i + 1] == ops[..i] + [ops[i]];
      CostAppend(START, ops[..i], ops[i]);
      CostCountsPushes(START, ops[..i]);
      CostCountsPushes(START, ops[..i + 1]);
      match ops[i] {
        case Some(v) =>
          if a.length == a.capacity && a.capacity > 0 {
            CeilPowerOfNext(a.capacity);
          }
          a.Push(v);
        case None =>
          if a.length > 0 {
            a.Pop();
          }
      }
      i := i + 1;
    }
    assert ops[..i] == ops;
    CopiesBelowTwicePushes(ops);
  }

  /** The same run on a sequence. */
  function Replay<T>(s: seq<T>, ops: seq<Option<T>>): seq<T>
    decreases |ops|
  {
    if ops == [] then s else
    Replay(match ops[0] case Some(v) => s + [v] case None => if s == [] then s else s[..|s| - 1], ops[1..])
  }

  lemma {:induction false} CostAppend<T>(c: Cost, ops: seq<Option<T>>, op: Option<T>)
    ensures CostRun(c, ops + [op]) == CostStep(CostRun(c, ops), op)
    decreases |ops|
  {
    if ops == [] {
      assert ops + [op] == [op] && [op][1..] == [];
    } else {
      assert (ops + [op])[0] == ops[0] && (ops + [op])[1..] == ops[1..] + [op];
      CostAppend(CostStep(c, ops[0]), ops[1..], op);
    }
  }
}
