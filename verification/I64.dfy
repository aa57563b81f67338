/** The 64-bit signed integers of the source language, with wrap-around. */
module I64 {
  const TWO63: int := 0x8000_0000_0000_0000
  const TWO64: int := 0x1_0000_0000_0000_0000

  type i64 = x: int | -TWO63 <= x < TWO63

  /** The value an i64 operation stores when its exact result is x. */
  function Wrap(x: int): (r: i64)
    ensures (r - x) % TWO64 == 0
    ensures -TWO63 <= x < TWO63 ==> r == x
  {
    (x + TWO63) % TWO64 - TWO63
  }

  /** A counter that starts one below its first value comes back to it, even at the least i64. */
  lemma PreDecrementWrapsBack(first: i64)
    ensures Wrap(Wrap(first - 1) + 1) == first
  {
    if first == -TWO63 {
      assert Wrap(first - 1) == TWO63 - 1;
    }
  }

  /** What i64 division and remainder compute: they truncate toward zero. */
  function TruncDiv(a: int, b: int): int
    requires b != 0
  {
    if a >= 0 then a / b else -((-a) / b)
  }

  function TruncMod(a: int, b: int): int
    requires b != 0
  {
    a - TruncDiv(a, b) * b
  }

  function Abs(x: int): nat {
    if x < 0 then -x else x
  }

  /** What is left of a division is smaller than the divisor and on the side of the dividend. */
  ghost predicate Leaves(a: int, b: int, q: int, rest: int) {
    a == q * b + rest && Abs(rest) < Abs(b) && (rest != 0 ==> (rest > 0 <==> a > 0))
  }

  lemma DivRest(n: nat, b: int)
    requires b != 0
    ensures n == (n / b) * b + n % b && 0 <= n % b < Abs(b)
  {
  }

  lemma NegatedProduct(q: int, b: int)
    ensures (-q) * b == -(q * b)
  {
  }

  lemma TruncModIs(a: int, b: int)
    requires b != 0
    ensures TruncMod(a, b) == if a >= 0 then a % b else -((-a) % b)
    ensures Abs(TruncMod(a, b)) < Abs(b)
  {
    if a >= 0 {
      DivRest(a, b);
    } else {
      DivRest(-a, b);
      NegatedProduct((-a) / b, b);
    }
  }

  lemma RestSide(a: int, b: int)
    requires b != 0
    ensures var r := TruncMod(a, b); Abs(r) < Abs(b) && (r != 0 ==> (r > 0 <==> a > 0))
  {
    TruncModIs(a, b);
    hide TruncMod;
    var rest: nat := if a >= 0 then a % b else (-a) % b;
    if a == 0 {
      assert 0 % b == 0;
    }
  }

  lemma TruncLeaves(a: int, b: int)
    requires b != 0
    ensures Leaves(a, b, TruncDiv(a, b), TruncMod(a, b))
  {
    RestSide(a, b);
    hide TruncDiv;
  }
}
