/** Exact stand-ins for the floating-point helpers the configurator uses:
    Python's `round` (round half to even), powers of two with integer
    exponents, and `math.floor(math.log2(num / den))`. */
module Rounding {
  import opened Bits

  function Abs(x: real): real {
    if x < 0.0 then -x else x
  }

  /** Python's `round(x)`: the nearest integer, ties to the even neighbour. */
  function RoundHalfEven(x: real): (r: int)
    ensures Abs(r as real - x) <= 0.5
    ensures Abs(r as real - x) == 0.5 ==> r % 2 == 0
  {
    var f := x.Floor;
    var d := x - f as real;
    if d < 0.5 then f
    else if d > 0.5 then f + 1
    else if f % 2 == 0 then f
    else f + 1
  }

  /** A value strictly closer than one half to an integer rounds to it. */
  lemma RoundNear(x: real, n: int)
    requires Abs(x - n as real) < 0.5
    ensures RoundHalfEven(x) == n
  {
  }

  /** Python's `math.floor(x)` on an exact value. */
  function Floor(x: real): (r: int)
    ensures r as real <= x < r as real + 1.0
  {
    x.Floor
  }

  /** `2 ** e` for an integer exponent. */
  function Exp2(e: int): (r: real)
    ensures r > 0.0
    decreases if e >= 0 then e else -e
  {
    if e == 0 then 1.0
    else if e > 0 then 2.0 * Exp2(e - 1)
    else Exp2(e + 1) / 2.0
  }

  lemma Exp2Succ(e: int)
    ensures Exp2(e + 1) == 2.0 * Exp2(e)
  {
  }

  lemma {:induction false} Exp2Nat(e: nat)
    ensures Exp2(e) == Pow2(e) as real
  {
    if e > 0 {
      Exp2Nat(e - 1);
    }
  }

  /** `2^e * den <= num < 2^(e+1) * den`. */
  predicate InBracket(e: int, num: real, den: real) {
    Exp2(e) * den <= num < Exp2(e + 1) * den
  }

  /** `math.floor(math.log2(num / den))`, computed exactly: the unique
      exponent `e` with `2^e <= num / den < 2^(e+1)`, found by doubling the
      denominator while it fits under `num`, or doubling `num` while it is
      below the denominator. */
  function FloorLog2(num: real, den: real): (e: int)
    requires num > 0.0 && den > 0.0
    ensures InBracket(e, num, den)
    decreases if num >= den then 0 else 1, if num >= den then (num / den).Floor else (den / num).Floor
  {
    if num >= 2.0 * den then
      HalfQuotient(num, den);
      FloorShrink(num / den, num / (2.0 * den));
      var e' := FloorLog2(num, 2.0 * den);
      StepUp(num, den, e');
      e' + 1
    else if num < den then
      if 2.0 * num < den then
        HalfQuotient(den, num);
        FloorShrink(den / num, den / (2.0 * num));
        var e' := FloorLog2(2.0 * num, den);
        StepDown(num, den, e');
        e' - 1
      else
        var e' := FloorLog2(2.0 * num, den);
        StepDown(num, den, e');
        e' - 1
    else
      0
  }

  lemma HalfQuotient(n: real, d: real)
    requires d > 0.0 && n >= 2.0 * d
    ensures n / d >= 2.0 && (n / (2.0 * d)) * 2.0 == n / d
  {
    var q := n / d;
    assert q * d == n;
    var h := n / (2.0 * d);
    assert h * (2.0 * d) == n;
    assert (h * 2.0) * d == q * d;
    if q < 2.0 {
      MulLtPos(q, 2.0, d);
    }
  }

  lemma MulLtPos(a: real, b: real, c: real)
    requires a < b && c > 0.0
    ensures a * c < b * c
  {
  }

  /** Halving a value of at least 2 lowers its floor. */
  lemma FloorShrink(big: real, small: real)
    requires big >= 2.0 && small * 2.0 == big
    ensures 0 <= small.Floor < big.Floor
  {
  }

  lemma StepUp(num: real, den: real, e: int)
    requires InBracket(e, num, 2.0 * den)
    ensures InBracket(e + 1, num, den)
  {
    Exp2Succ(e);
    Exp2Succ(e + 1);
    HalveDen(Exp2(e), Exp2(e + 1), Exp2(e + 2), num, den);
  }

  lemma StepDown(num: real, den: real, e: int)
    requires InBracket(e, 2.0 * num, den)
    ensures InBracket(e - 1, num, den)
  {
    Exp2Succ(e - 1);
    Exp2Succ(e);
    HalveNum(Exp2(e - 1), Exp2(e), Exp2(e + 1), num, den);
  }

  lemma HalveDen(a: real, a1: real, a2: real, n: real, d: real)
    requires a1 == 2.0 * a && a2 == 2.0 * a1
    requires a * (2.0 * d) <= n < a1 * (2.0 * d)
    ensures a1 * d <= n < a2 * d
  {
  }

  lemma HalveNum(a0: real, a: real, a1: real, n: real, d: real)
    requires a == 2.0 * a0 && a1 == 2.0 * a
    requires a * d <= 2.0 * n < a1 * d
    ensures a0 * d <= n < a * d
  {
  }

  lemma {:induction false} Exp2Mono(a: int, b: int)
    requires a <= b
    ensures Exp2(a) <= Exp2(b)
    decreases b - a
  {
    if a < b {
      Exp2Mono(a, b - 1);
      Exp2Succ(b - 1);
    }
  }

  lemma ChainLe(a: real, b: real, d: real, n: real)
    requires a <= b && d > 0.0 && b * d <= n
    ensures a * d <= n
  {
    MulLeReal(a, b, d);
  }

  lemma ChainLt(a: real, b: real, d: real, n: real)
    requires a <= b && d > 0.0 && n < a * d
    ensures !(b * d <= n)
  {
    MulLeReal(a, b, d);
  }

  lemma NonPosMul(a: real, b: real)
    requires a <= 0.0 && b >= 0.0
    ensures a * b <= 0.0
  {
  }

  lemma NonNegMul(a: real, b: real)
    requires a >= 0.0 && b >= 0.0
    ensures a * b >= 0.0
  {
  }

  lemma MulLeReal(a: real, b: real, c: real)
    requires a <= b && c >= 0.0
    ensures a * c <= b * c
  {
  }

  /** `floor(log2(num / den)) >= j` exactly when `2^j * den <= num`; the
      power `b = 2^j` is passed in so callers can supply a literal. */
  lemma FloorLog2AtLeast(num: real, den: real, j: int, b: real)
    requires num > 0.0 && den > 0.0 && b == Exp2(j)
    ensures FloorLog2(num, den) >= j <==> b * den <= num
  {
    BracketAtLeast(FloorLog2(num, den), j, b, num, den);
  }

  /** `floor(log2(num / den))` is the exponent of any bracket around the
      quotient. */
  lemma FloorLog2Exact(num: real, den: real, k: int)
    requires num > 0.0 && den > 0.0 && InBracket(k, num, den)
    ensures FloorLog2(num, den) == k
  {
    BracketUnique(FloorLog2(num, den), k, num, den);
  }

  /** A quotient has only one log2 bracket. */
  lemma BracketUnique(e: int, k: int, num: real, den: real)
    requires den > 0.0 && InBracket(e, num, den) && InBracket(k, num, den)
    ensures e == k
  {
    BracketAtLeast(e, k, Exp2(k), num, den);
    BracketAtLeast(e, k + 1, Exp2(k + 1), num, den);
  }

  /** For the exponent `e` with `2^e * den <= num < 2^(e+1) * den`,
      `e >= j` exactly when `2^j * den <= num`. */
  lemma BracketAtLeast(e: int, j: int, b: real, num: real, den: real)
    requires den > 0.0 && InBracket(e, num, den) && b == Exp2(j)
    ensures e >= j <==> b * den <= num
  {
    if e >= j {
      Exp2Mono(j, e);
    } else {
      Exp2Mono(e + 1, j);
    }
    BracketCore(Exp2(e), Exp2(e + 1), b, e >= j, num, den);
  }

  lemma BracketCore(ae: real, ae1: real, aj: real, ge: bool, num: real, den: real)
    requires den > 0.0 && ae * den <= num < ae1 * den
    requires ge ==> aj <= ae
    requires !ge ==> ae1 <= aj
    ensures ge <==> aj * den <= num
  {
    if ge {
      ChainLe(aj, ae, den, num);
    } else {
      ChainLt(ae1, aj, den, num);
    }
  }

  /** Rounding a value in `[0, n)` for even `n` gives `0..n`, and gives `n`
      exactly from `n - 1/2` on (the tie goes to the even `n`). */
  lemma RoundInRange(y: real, n: int)
    requires n >= 2 && n % 2 == 0 && 0.0 <= y < n as real
    ensures 0 <= RoundHalfEven(y) <= n
    ensures RoundHalfEven(y) == n <==> y >= n as real - 0.5
  {
  }

  /** For an even `k`, `round(y) >= k` exactly when `y >= k - 1/2`: the tie
      at `k - 1/2` goes to the even `k`. */
  lemma RoundAtLeast(y: real, k: int)
    requires k % 2 == 0
    ensures RoundHalfEven(y) >= k <==> y >= k as real - 0.5
  {
  }

  /** Rounding a value within `b` of `t` lands within `b + 1/2` of `t`. */
  lemma RoundWithin(x: real, t: real, b: real)
    requires Abs(x - t) <= b
    ensures Abs(RoundHalfEven(x) as real - t) <= b + 0.5
  {
  }

  /** A product `p = u * k` with `k > 0` has the sign of `u`. Callers pass
      `p` already expanded, so that only linear reasoning remains for them. */
  lemma MulSign(u: real, k: real, p: real)
    requires k > 0.0 && p == u * k
    ensures u >= 0.0 <==> p >= 0.0
    ensures u > 0.0 <==> p > 0.0
  {
    if u >= 0.0 {
      MulLeReal(0.0, u, k);
    } else {
      MulLeReal(u, 0.0, k);
      assert u * k != 0.0;
    }
    if u <= 0.0 {
      MulLeReal(u, 0.0, k);
    } else {
      MulLeReal(0.0, u, k);
      assert u * k != 0.0;
    }
  }
}
