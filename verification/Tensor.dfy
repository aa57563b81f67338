/** Row-major layouts: the maps between array indices and linear offsets, and the loop over a box. */
module Tensor {
  import opened I64

  /** The number of positions in a box of those extents. */
  function Product(shape: seq<int>): int {
    if shape == [] then 1 else shape[0] * Product(shape[1..])
  }

  /** An array index inside the box. */
  ghost predicate InBox(idx: seq<int>, shape: seq<int>) {
    |idx| == |shape| && forall i :: 0 <= i < |shape| ==> 0 <= idx[i] < shape[i]
  }

  ghost predicate Positive(shape: seq<int>) {
    forall i :: 0 <= i < |shape| ==> shape[i] > 0
  }

  /** The stride of each dimension: the number of positions in the box of the later ones. */
  function Strides(shape: seq<int>): (r: seq<int>)
    ensures |r| == |shape|
  {
    if shape == [] then [] else [Product(shape[1..])] + Strides(shape[1..])
  }

  /** The offset of an array index: its digits weighed by the strides. */
  function Dot(idx: seq<int>, stride: seq<int>): int
    requires |idx| == |stride|
  {
    if idx == [] then 0 else idx[0] * stride[0] + Dot(idx[1..], stride[1..])
  }

  function Linear(idx: seq<int>, shape: seq<int>): int
    requires |idx| == |shape|
  {
    Dot(idx, Strides(shape))
  }

  /** The digits of an offset, the first dimension first. */
  function Digits(offset: int, stride: seq<int>): (r: seq<int>)
    requires forall i :: 0 <= i < |stride| ==> stride[i] > 0
    ensures |r| == |stride|
    decreases |stride|
  {
    if stride == [] then [] else [offset / stride[0]] + Digits(offset % stride[0], stride[1..])
  }

  ghost predicate NonZero(stride: seq<int>) {
    forall i :: 0 <= i < |stride| ==> stride[i] != 0
  }

  /** What the divisions make of an offset, whatever the signs: they truncate toward zero. */
  function TruncDigits(offset: int, stride: seq<int>): (r: seq<int>)
    requires NonZero(stride)
    ensures |r| == |stride|
    decreases |stride|
  {
    if stride == [] then [] else [TruncDiv(offset, stride[0])] + TruncDigits(TruncMod(offset, stride[0]), stride[1..])
  }

  /** With positive strides, the digits of an offset that is not negative are those. */
  lemma {:induction false} TruncDigitsNatural(offset: int, stride: seq<int>)
    requires offset >= 0 && forall i :: 0 <= i < |stride| ==> stride[i] > 0
    ensures TruncDigits(offset, stride) == Digits(offset, stride)
    decreases |stride|
  {
    if stride != [] {
      TruncModNatural(offset, stride[0]);
      TruncDigitsNatural(offset % stride[0], stride[1..]);
    }
  }

  /** For every stride: each digit is what goes into what the digits before it leave, truncated toward zero. */
  lemma {:induction false} TruncDigitsLeave(offset: int, stride: seq<int>) returns (rest: seq<int>)
    requires NonZero(stride)
    ensures |rest| == |stride| + 1 && rest[0] == offset
    ensures forall i :: 0 <= i < |stride| ==> Leaves(rest[i], stride[i], TruncDigits(offset, stride)[i], rest[i + 1])
    decreases |stride|
  {
    rest := [offset];
    if stride != [] {
      var below := TruncDigitsLeave(TruncMod(offset, stride[0]), stride[1..]);
      TruncLeaves(offset, stride[0]);
      rest := [offset] + below;
      hide TruncDiv, TruncMod, Leaves;
      forall i | 0 <= i < |stride| ensures Leaves(rest[i], stride[i], TruncDigits(offset, stride)[i], rest[i + 1]) {
        if i > 0 {
          assert stride[i] == stride[1..][i - 1] && rest[i] == below[i - 1] && rest[i + 1] == below[i];
        }
      }
    }
  }

  lemma {:induction false} ProductPositive(shape: seq<int>)
    requires Positive(shape)
    ensures Product(shape) > 0
  {
    if shape != [] {
      ProductPositive(shape[1..]);
      MulPositive(shape[0], Product(shape[1..]));
    }
  }

  lemma MulPositive(a: int, b: int)
    requires a > 0 && b > 0
    ensures a * b > 0
  {
  }

  lemma {:induction false} StridesPositive(shape: seq<int>)
    requires Positive(shape)
    ensures forall i :: 0 <= i < |shape| ==> Strides(shape)[i] > 0
  {
    if shape != [] {
      ProductPositive(shape[1..]);
      StridesPositive(shape[1..]);
    }
  }

  lemma MulBound(a: int, b: int, p: int, r: int)
    requires 0 <= a < b && 0 <= r < p
    ensures 0 <= a * p + r < b * p
  {
    assert (b - a) * p >= p by {
      MulMonotone(1, b - a, p);
    }
    assert b * p == a * p + (b - a) * p;
    MulMonotone(0, a, p);
  }

  lemma MulMonotone(a: int, b: int, p: int)
    requires a <= b && p >= 0
    ensures a * p <= b * p
  {
  }

  lemma DivModUnique(a: int, p: int, r: int)
    requires p > 0 && 0 <= r < p
    ensures (a * p + r) / p == a && (a * p + r) % p == r
  {
    var x := a * p + r;
    var q := x / p;
    assert x == q * p + x % p;
    assert (a - q) * p == x % p - r;
    if a - q >= 1 {
      MulMonotone(1, a - q, p);
    } else if a - q <= -1 {
      MulMonotone(a - q, -1, p);
    }
  }

  /** The offset of a valid index lies in the box. */
  lemma {:induction false} LinearInRange(idx: seq<int>, shape: seq<int>)
    requires InBox(idx, shape)
    ensures 0 <= Linear(idx, shape) < Product(shape)
  {
    if shape != [] {
      assert InBox(idx[1..], shape[1..]);
      LinearInRange(idx[1..], shape[1..]);
      assert Strides(shape)[1..] == Strides(shape[1..]);
      MulBound(idx[0], shape[0], Product(shape[1..]), Linear(idx[1..], shape[1..]));
    }
  }

  /** From a valid index to its offset and back. */
  lemma {:induction false} DigitsOfLinear(idx: seq<int>, shape: seq<int>)
    requires InBox(idx, shape) && Positive(shape)
    ensures (forall i :: 0 <= i < |shape| ==> Strides(shape)[i] > 0)
    ensures Digits(Linear(idx, shape), Strides(shape)) == idx
  {
    StridesPositive(shape);
    if shape != [] {
      assert InBox(idx[1..], shape[1..]) && Positive(shape[1..]);
      StridesPositive(shape[1..]);
      LinearInRange(idx[1..], shape[1..]);
      assert Strides(shape)[1..] == Strides(shape[1..]);
      DivModUnique(idx[0], Product(shape[1..]), Linear(idx[1..], shape[1..]));
      DigitsOfLinear(idx[1..], shape[1..]);
      assert idx == [idx[0]] + idx[1..];
    }
  }

  /** From an offset in the box to its index and back. */
  lemma {:induction false} LinearOfDigits(offset: int, shape: seq<int>)
    requires Positive(shape) && 0 <= offset < Product(shape)
    ensures (forall i :: 0 <= i < |shape| ==> Strides(shape)[i] > 0)
    ensures InBox(Digits(offset, Strides(shape)), shape)
    ensures Linear(Digits(offset, Strides(shape)), shape) == offset
    decreases |shape|
  {
    StridesPositive(shape);
    if shape == [] {
      EmptyInBox();
    } else {
      var p := Product(shape[1..]);
      assert Positive(shape[1..]);
      ProductPositive(shape[1..]);
      StridesPositive(shape[1..]);
      LinearOfDigits(offset % p, shape[1..]);
      DigitsMore(offset, shape);
      hide InBox, Digits, Strides, Dot, Linear;
      var rest := Digits(offset % p, Strides(shape[1..]));
      QuotientBound(offset, shape[0], p);
      InBoxMore(offset / p, rest, shape);
      LinearMore(offset / p, rest, shape);
      DivModSum(offset, p);
    }
  }

  lemma DigitsMore(offset: int, shape: seq<int>)
    requires shape != [] && Positive(shape)
    requires (forall i :: 0 <= i < |shape| ==> Strides(shape)[i] > 0)
    requires (forall i :: 0 <= i < |shape| - 1 ==> Strides(shape[1..])[i] > 0)
    ensures Product(shape[1..]) > 0
    ensures var p := Product(shape[1..]);
      Digits(offset, Strides(shape)) == [offset / p] + Digits(offset % p, Strides(shape[1..]))
  {
    assert Positive(shape[1..]);
    ProductPositive(shape[1..]);
    assert Strides(shape)[1..] == Strides(shape[1..]);
  }

  lemma LinearMore(first: int, rest: seq<int>, shape: seq<int>)
    requires shape != [] && |rest| == |shape| - 1
    ensures Linear([first] + rest, shape) == first * Product(shape[1..]) + Linear(rest, shape[1..])
  {
    assert Strides(shape)[1..] == Strides(shape[1..]);
    assert ([first] + rest)[1..] == rest;
  }

  lemma DivModSum(x: int, p: int)
    requires p > 0
    ensures x / p * p + x % p == x
  {
  }

  lemma EmptyInBox()
    ensures InBox([], [])
  {
  }

  lemma InBoxMore(first: int, rest: seq<int>, shape: seq<int>)
    requires shape != [] && 0 <= first < shape[0] && InBox(rest, shape[1..])
    ensures InBox([first] + rest, shape)
  {
    var d := [first] + rest;
    forall i | 0 <= i < |shape| ensures 0 <= d[i] < shape[i] {
      if i > 0 {
        assert d[i] == rest[i - 1] && shape[i] == shape[1..][i - 1];
      }
    }
  }

  lemma QuotientBound(x: int, b: int, p: int)
    requires 0 <= x < b * p && p > 0
    ensures 0 <= x / p < b
  {
    assert x == (x / p) * p + x % p;
    if x / p >= b {
      MulMonotone(b, x / p, p);
    } else if x / p <= -1 {
      MulMonotone(x / p, -1, p);
    }
  }

  /** Lexicographic order of indices of one rank. */
  ghost predicate LexLess(a: seq<int>, b: seq<int>)
    requires |a| == |b|
  {
    a != [] && (a[0] < b[0] || (a[0] == b[0] && LexLess(a[1..], b[1..])))
  }

  /** Offsets order indices lexicographically. */
  lemma {:induction false} LinearOrder(a: seq<int>, b: seq<int>, shape: seq<int>)
    requires InBox(a, shape) && InBox(b, shape)
    ensures LexLess(a, b) <==> Linear(a, shape) < Linear(b, shape)
  {
    if shape != [] {
      var p := Product(shape[1..]);
      assert InBox(a[1..], shape[1..]) && InBox(b[1..], shape[1..]);
      LinearInRange(a[1..], shape[1..]);
      LinearInRange(b[1..], shape[1..]);
      LinearOrder(a[1..], b[1..], shape[1..]);
      assert Strides(shape)[1..] == Strides(shape[1..]);
      LeadingDigit(a[0], b[0], p, Linear(a[1..], shape[1..]), Linear(b[1..], shape[1..]));
    }
  }

  lemma LeadingDigit(a: int, b: int, p: int, r: int, s: int)
    requires 0 <= r < p && 0 <= s < p
    ensures a < b ==> a * p + r < b * p + s
    ensures a > b ==> a * p + r > b * p + s
  {
    if a < b {
      MulMonotone(a + 1, b, p);
    } else if b < a {
      MulMonotone(b + 1, a, p);
    }
  }

  function MinusOne(shape: seq<int>): (r: seq<int>)
    ensures |r| == |shape|
  {
    seq(|shape|, i requires 0 <= i < |shape| => shape[i] - 1)
  }

  /** The linear end of the rewritten loop: one past the offset of last - 1 is the number of
      positions, whatever the extents. */
  lemma {:induction false} LastOffset(shape: seq<int>)
    ensures Linear(MinusOne(shape), shape) + 1 == Product(shape)
  {
    if shape != [] {
      LastOffset(shape[1..]);
      assert MinusOne(shape)[1..] == MinusOne(shape[1..]);
      assert Strides(shape)[1..] == Strides(shape[1..]);
      var p := Product(shape[1..]);
      assert (shape[0] - 1) * p == shape[0] * p - p;
    }
  }

  // ---------- the runtime's layout ----------

  lemma WrapMul(a: int, b: int)
    ensures Wrap(a * Wrap(b)) == Wrap(a * b)
  {
    var k := (Wrap(b) - b) / TWO64;
    assert Wrap(b) == b + k * TWO64;
    assert a * Wrap(b) == a * b + (a * k) * TWO64;
    WrapShift(a * b, a * k);
  }

  lemma WrapShift(x: int, k: int)
    ensures Wrap(x + k * TWO64) == Wrap(x)
  {
    ModShift(x + TWO63, k, TWO64);
  }

  lemma ModShift(x: int, k: int, p: int)
    requires p > 0
    ensures (x + k * p) % p == x % p
  {
    var q := x / p;
    assert x + k * p == (q + k) * p + x % p;
    DivModUnique(q + k, p, x % p);
  }

  lemma WrapAdd(a: int, b: int)
    ensures Wrap(Wrap(a) + Wrap(b)) == Wrap(a + b)
  {
    var j, k := (Wrap(a) - a) / TWO64, (Wrap(b) - b) / TWO64;
    assert Wrap(a) == a + j * TWO64 && Wrap(b) == b + k * TWO64;
    assert Wrap(a) + Wrap(b) == a + b + (j + k) * TWO64;
    WrapShift(a + b, j + k);
  }

  function WrapAll(s: seq<int>): (r: seq<int>)
    ensures |r| == |s|
  {
    seq(|s|, i requires 0 <= i < |s| => Wrap(s[i]))
  }

  lemma {:induction false} StrideAt(shape: seq<int>, i: nat)
    requires i < |shape|
    ensures Strides(shape)[i] == Product(shape[i + 1..])
    ensures Strides(shape)[i..] == Strides(shape[i..])
    decreases i
  {
    if i > 0 {
      StrideAt(shape[1..], i - 1);
      assert shape[1..][i..] == shape[i + 1..];
      assert shape[1..][i - 1..] == shape[i..];
      assert Strides(shape)[i..] == Strides(shape)[1..][i - 1..];
    } else {
      assert shape[0..] == shape && Strides(shape)[0..] == Strides(shape);
    }
  }

  /** The layout of a shape.  Every product and sum of i64 values wraps. */
  class Layout {
    var shape: seq<int>
    var stride: seq<int>

    ghost predicate Valid()
      reads this
    {
      |shape| > 0 && stride == WrapAll(Strides(shape))
    }

    constructor Create(shape: seq<int>)
      requires |shape| > 0
      ensures Valid() && this.shape == shape
    {
      var strides := new int[|shape|];
      var i := |shape| - 1;
      strides[i] := 1;
      StrideAt(shape, i);
      while i > 0
        invariant 0 <= i < |shape| == strides.Length
        invariant forall j :: i <= j < |shape| ==> strides[j] == Wrap(Strides(shape)[j])
      {
        StrideAt(shape, i);
        StrideAt(shape, i - 1);
        assert shape[i..][0] == shape[i] && shape[i..][1..] == shape[i + 1..];
        WrapMul(shape[i], Product(shape[i + 1..]));
        i := i - 1;
        strides[i] := Wrap(shape[i + 1] * strides[i + 1]);
      }
      this.shape := shape;
      this.stride := strides[..];
    }

    /** The index of an offset: what the divisions by the strides leave one after the other. */
    method LinearIndexToArrayIndex(offset: int) returns (idx: seq<int>)
      requires NonZero(stride)
      ensures idx == TruncDigits(offset, stride)
    {
      hide TruncDiv, TruncMod, TruncDigits;
      var arrayIdx := new int[|stride|];
      var remain := offset;
      var i := 0;
      assert stride[0..] == stride;
      while i < |stride|
        invariant 0 <= i <= |stride| == arrayIdx.Length
        invariant TruncDigits(offset, stride) == arrayIdx[..i] + TruncDigits(remain, stride[i..])
      {
        TruncDigitsStep(remain, stride, i);
        arrayIdx[i] := TruncDiv(remain, stride[i]);
        remain := TruncMod(remain, stride[i]);
        assert arrayIdx[..i + 1] == arrayIdx[..i] + [arrayIdx[i]];
        i := i + 1;
      }
      NoDigits(remain, stride[i..]);
      assert arrayIdx[..] == arrayIdx[..i];
      idx := arrayIdx[..];
    }

    /** The offset of an index: the sum of its digits times the strides, as i64 arithmetic gives it. */
    method ArrayIndexToLinearIndex(idx: seq<int>) returns (offset: int)
      requires |idx| == |stride|
      ensures offset == Wrap(Dot(idx, stride))
    {
      offset := 0;
      var i := |stride| - 1;
      assert Dot(idx[i + 1..], stride[i + 1..]) == 0;
      while i >= 0
        invariant -1 <= i < |stride|
        invariant offset == Wrap(Dot(idx[i + 1..], stride[i + 1..]))
      {
        assert idx[i..][0] == idx[i] && idx[i..][1..] == idx[i + 1..];
        assert stride[i..][0] == stride[i] && stride[i..][1..] == stride[i + 1..];
        WrapAdd(Dot(idx[i + 1..], stride[i + 1..]), idx[i] * stride[i]);
        offset := Wrap(offset + Wrap(idx[i] * stride[i]));
        i := i - 1;
      }
      assert idx[0..] == idx && stride[0..] == stride;
    }

    /** The number of positions. */
    method Length() returns (length: int)
      requires Valid()
      ensures length == Wrap(Product(shape))
    {
      StrideAt(shape, 0);
      WrapMul(shape[0], Product(shape[1..]));
      length := Wrap(shape[0] * stride[0]);
    }
  }

  lemma TruncDigitsStep(offset: int, stride: seq<int>, i: nat)
    requires NonZero(stride) && i < |stride|
    ensures TruncDigits(offset, stride[i..]) ==
      [TruncDiv(offset, stride[i])] + TruncDigits(TruncMod(offset, stride[i]), stride[i + 1..])
  {
    assert stride[i..][0] == stride[i] && stride[i..][1..] == stride[i + 1..];
  }

  lemma NoDigits(offset: int, stride: seq<int>)
    requires stride == []
    ensures TruncDigits(offset, stride) == []
  {
  }

  lemma TruncModNatural(a: int, b: int)
    requires a >= 0 && b > 0
    ensures TruncMod(a, b) == a % b && TruncDiv(a, b) == a / b
  {
  }

  // ---------- the loop over a box ----------

  /** Wrapping the digits and the strides changes no wrapped offset. */
  lemma {:induction false} WrapDot(idx: seq<int>, stride: seq<int>)
    requires |idx| == |stride|
    ensures Wrap(Dot(WrapAll(idx), WrapAll(stride))) == Wrap(Dot(idx, stride))
  {
    if idx != [] {
      WrapDot(idx[1..], stride[1..]);
      assert WrapAll(idx)[1..] == WrapAll(idx[1..]) && WrapAll(stride)[1..] == WrapAll(stride[1..]);
      WrapMul(Wrap(idx[0]), stride[0]);
      WrapMul(stride[0], idx[0]);
      WrapAdd(Wrap(idx[0]) * Wrap(stride[0]), Dot(WrapAll(idx[1..]), WrapAll(stride[1..])));
      WrapAdd(idx[0] * stride[0], Dot(idx[1..], stride[1..]));
    }
  }

  /** One past the offset of last - 1, in wrapping arithmetic, is the wrapped number of positions. */
  lemma LinearLast(shape: seq<int>)
    ensures Wrap(Wrap(Dot(WrapAll(MinusOne(shape)), WrapAll(Strides(shape)))) + 1) == Wrap(Product(shape))
  {
    assert Wrap(1) == 1;
    hide Wrap, WrapAll, Dot, MinusOne, Strides, Product;
    WrapDot(MinusOne(shape), Strides(shape));
    WrapAdd(Linear(MinusOne(shape), shape), 1);
    LastOffset(shape);
  }

  lemma {:induction false} StridesFit(shape: seq<int>)
    requires Positive(shape) && Product(shape) < TWO63
    ensures forall i :: 0 <= i < |shape| ==> 0 < Strides(shape)[i] < TWO63
    ensures WrapAll(Strides(shape)) == Strides(shape)
  {
    if shape != [] {
      assert Positive(shape[1..]);
      ProductPositive(shape[1..]);
      MulMonotone(1, shape[0], Product(shape[1..]));
      StridesFit(shape[1..]);
      assert forall i :: 0 < i < |shape| ==> Strides(shape)[i] == Strides(shape[1..])[i - 1];
    }
  }

  /** The indices the rewritten loop visits from the zero array to last, in order. */
  function Visits(last: seq<int>): (r: seq<seq<int>>)
    requires Positive(last)
    ensures |r| == Product(last)
  {
    StridesPositive(last);
    ProductPositive(last);
    seq(Product(last), k requires 0 <= k < Product(last) => Digits(k, Strides(last)))
  }

  /** Every index of the box is visited, exactly once, and nothing else is. */
  lemma BoxVisitedOnce(last: seq<int>, idx: seq<int>)
    requires Positive(last)
    ensures idx in Visits(last) <==> InBox(idx, last)
    ensures InBox(idx, last) ==>
      forall k :: 0 <= k < |Visits(last)| ==> (Visits(last)[k] == idx <==> k == Linear(idx, last))
  {
    StridesPositive(last);
    forall k | 0 <= k < |Visits(last)|
      ensures InBox(Visits(last)[k], last) && Linear(Visits(last)[k], last) == k
    {
      LinearOfDigits(k, last);
    }
    if InBox(idx, last) {
      LinearInRange(idx, last);
      DigitsOfLinear(idx, last);
      assert Visits(last)[Linear(idx, last)] == idx;
    }
  }

  /** The visits come in lexicographic order. */
  lemma VisitsInOrder(last: seq<int>, j: nat, k: nat)
    requires Positive(last) && j < |Visits(last)| && k < |Visits(last)|
    ensures |Visits(last)[j]| == |Visits(last)[k]|
    ensures LexLess(Visits(last)[j], Visits(last)[k]) <==> j < k
  {
    LinearOfDigits(j, last);
    LinearOfDigits(k, last);
    LinearOrder(Visits(last)[j], Visits(last)[k], last);
  }

  /** With an extent of zero, or with a product below zero, the loop does not run, and should not. */
  lemma {:induction false} ZeroExtent(shape: seq<int>)
    ensures Product(shape) == 0 <==> exists i :: 0 <= i < |shape| && shape[i] == 0
  {
    if shape != [] {
      ZeroExtent(shape[1..]);
      if Product(shape[1..]) == 0 {
        var i :| 0 <= i < |shape[1..]| && shape[1..][i] == 0;
        assert shape[i + 1] == 0;
      } else if shape[0] == 0 {
        assert shape[0] == 0;
      } else {
        NoZero(shape[0], Product(shape[1..]));
        forall i | 0 <= i < |shape| ensures shape[i] != 0 {
          if i > 0 {
            assert shape[i] == shape[1..][i - 1];
          }
        }
      }
    }
  }

  lemma NoZero(a: int, b: int)
    requires a != 0 && b != 0
    ensures a * b != 0
  {
  }

  /** The box of a shape holds an index exactly when every extent is positive. */
  lemma BoxHasOrigin(shape: seq<int>)
    ensures Positive(shape) <==> exists idx :: InBox(idx, shape)
  {
    if Positive(shape) {
      var origin := seq(|shape|, i => 0);
      assert InBox(origin, shape);
    }
  }

  /** How often the rewritten loop runs: its bound is the wrapped product of the extents, whatever their
      signs. */
  function Runs(last: seq<int>): nat {
    if Wrap(Product(last)) > 0 then Wrap(Product(last)) else 0
  }

  /** The number of indices of a box. */
  function BoxSize(last: seq<int>): nat {
    if (forall i :: 0 <= i < |last| ==> last[i] > 0) && Product(last) > 0 then Product(last) else 0
  }

  /** The loop runs once for each index of the box if and only if the box is not empty and has fewer than
      2^63 indices, or is empty and the wrapped product of its extents is not positive. */
  lemma RunsExactlyOnBoxes(last: seq<int>)
    ensures Runs(last) == BoxSize(last) <==> if Positive(last) then Product(last) < TWO63 else Wrap(Product(last)) <= 0
    ensures BoxSize(last) > 0 <==> exists idx :: InBox(idx, last)
  {
    BoxHasOrigin(last);
    if Positive(last) {
      ProductPositive(last);
    }
  }

  /** Two extents of -1 make it run once over an empty box. */
  lemma NegativeExtentsRunOnce()
    ensures Runs([-1, -1]) == 1 && BoxSize([-1, -1]) == 0 && forall idx :: !InBox(idx, [-1, -1])
  {
    assert Product([-1, -1]) == -1 * Product([-1]) by {
      assert [-1, -1][1..] == [-1];
    }
    assert [-1, -1][0] == -1;
    assert Product([-1]) == -1 by {
      assert [-1][1..] == [];
    }
  }

  /** Where a stride is zero the loop does not run, so that it never divides by zero. */
  lemma {:induction false} ZeroStride(shape: seq<int>, i: nat)
    requires i < |shape| && Wrap(Strides(shape)[i]) == 0
    ensures Wrap(Product(shape)) == 0
    decreases |shape|
  {
    hide Wrap;
    if i > 0 {
      ZeroStride(shape[1..], i - 1);
    }
    WrapMul(shape[0], Product(shape[1..]));
    WrapZero();
  }

  lemma WrapZero()
    ensures Wrap(0) == 0
  {
  }

  ghost predicate DividesSafely(last: seq<int>) {
    Runs(last) > 0 ==> NonZero(WrapAll(Strides(last)))
  }

  lemma StridesNonZero(last: seq<int>)
    ensures DividesSafely(last)
  {
    hide Wrap;
    WrapZero();
    forall i | 0 <= i < |last| && WrapAll(Strides(last))[i] == 0 ensures Wrap(Product(last)) == 0 {
      ZeroStride(last, i);
    }
  }

  /** The indices the rewritten loop gives its body, for any extents. */
  ghost function Given(last: seq<int>): (r: seq<seq<int>>)
    ensures |r| == Runs(last)
  {
    StridesNonZero(last);
    seq(Runs(last), k requires 0 <= k < Runs(last) => TruncDigits(k, WrapAll(Strides(last))))
  }

  /** On a box with positive extents and fewer than 2^63 indices these are exactly its indices. */
  lemma GivenVisits(last: seq<int>)
    requires Positive(last) && Product(last) < TWO63
    ensures Given(last) == Visits(last)
  {
    hide TruncDigits, Digits;
    ProductPositive(last);
    StridesFit(last);
    forall k | 0 <= k < Product(last) ensures Given(last)[k] == Visits(last)[k] {
      TruncDigitsNatural(k, Strides(last));
    }
  }

  /** A loop from the zero array to last after the rewriting, for any extents: it makes the layout of last,
      computes the linear bound, and turns each linear index back into an array index. */
  method VisitBox(last: seq<int>) returns (seen: seq<seq<int>>)
    requires |last| > 0
    ensures seen == Given(last) && |seen| == Runs(last)
    ensures Positive(last) && Product(last) < TWO63 ==> seen == Visits(last)
  {
    hide Wrap, WrapAll, Dot, TruncDigits, Strides, Product, Visits;
    var layout := new Layout.Create(last);
    var end := layout.ArrayIndexToLinearIndex(WrapAll(MinusOne(last)));
    end := Wrap(end + 1);
    LinearLast(last);
    assert end == Wrap(Product(last));
    StridesNonZero(last);
    seen := [];
    var k := 0;
    while k < end
      invariant 0 <= k && (k == 0 || k <= end)
      invariant layout.Valid() && layout.shape == last
      invariant k <= Runs(last) && seen == Given(last)[..k]
    {
      var idx := layout.LinearIndexToArrayIndex(k);
      assert Given(last)[..k + 1] == Given(last)[..k] + [Given(last)[k]];
      seen := seen + [idx];
      k := k + 1;
    }
    assert Given(last)[..k] == Given(last);
    if Positive(last) && Product(last) < TWO63 {
      GivenVisits(last);
    }
  }
}
