/** The exponent/mantissa codecs of `Cc1101Configurator`: data rate, channel
    spacing, receiver bandwidth, frequency deviation and base frequency. All
    arithmetic is exact: `round` is round-half-even on reals and
    `floor(log2(.))` is computed exactly. */
module Rates {
  import opened Bits
  import opened Results
  import opened Rounding
  import opened Registers
  import opened Fields

  /** An exponent and a mantissa as computed, before they are range checked. */
  datatype ExpMant = ExpMant(e: int, m: int)

  /** The setters' overflow step: a mantissa rounded up to 256 becomes
      mantissa 0 with the next exponent. */
  function Carry256(e: int, m: int): ExpMant {
    if m == 256 then ExpMant(e + 1, 0) else ExpMant(e, m)
  }

  /** A product kept as a term of its own, so that lemmas about products of
      computed quantities match their callers' terms. */
  function Mul(x: real, y: real): (r: real)
    ensures x > 0.0 && y > 0.0 ==> r > 0.0
  {
    x * y
  }

  /** One mantissa unit at exponent weight `a`: `fosc * a / P`. */
  function Step(fosc: real, a: real, P: real): (r: real)
    requires P > 0.0
    ensures fosc > 0.0 && a > 0.0 ==> r > 0.0
  {
    fosc * a / P
  }

  /** What mantissa `m` stands for at exponent weight `a`:
      `(256 + m) * fosc * a / P`. */
  function MantValue(m: int, fosc: real, a: real, P: real): real
    requires P > 0.0
  {
    Mul((256 + m) as real, Step(fosc, a, P))
  }

  /** What a (256 + M) * 2^E field pair stands for when one unit is
      fosc / P: `(256 + M) * fosc * 2^E / P`. */
  function Value256(em: ExpMant, fosc: real, P: real): real
    requires P > 0.0
  {
    MantValue(em.m, fosc, Exp2(em.e), P)
  }

  /** `num / den` lies in [lo, hi). */
  predicate Bracketed(lo: real, hi: real, num: real, den: real) {
    lo * den <= num < hi * den
  }

  /** The target measured in steps of `fosc * a / P`: `v * P / (fosc * a)`. */
  function Ratio(v: real, fosc: real, P: real, a: real): (x: real)
    requires fosc > 0.0 && a > 0.0
    ensures x * (fosc * a) == v * P
  {
    v * P / (fosc * a)
  }

  /** The mantissa step of Mant256 for a real target and a given exponent. */
  function Encode256(v: real, fosc: real, P: real, e: int): ExpMant
    requires fosc > 0.0
  {
    Carry256(e, RoundHalfEven(Ratio(v, fosc, P, Exp2(e)) - 256.0))
  }

  /** The data-rate and channel-spacing setters for a target `v` and a field
      scale `P = 2^k`:
      E = floor(log2(v * (P / 256) / fosc)), M = round(v * P / (fosc * 2^E) - 256),
      then the 256 carry. The mantissa always fits 8 bits and the pair
      encodes `v` to within 1/512. */
  function Mant256(v: real, fosc: real, P: real): (em: ExpMant)
    requires v > 0.0 && fosc > 0.0 && P > 0.0
    ensures 0 <= em.m <= 255
    ensures Abs(Value256(em, fosc, P) - v) <= v / 512.0
  {
    var e := FloorLog2(v * (P / 256.0), fosc);
    Mant256Approx(v, fosc, P, e);
    Encode256(v, fosc, P, e)
  }

  /** The final exponent of Mant256 is at least `j` exactly when
      `1023 * fosc * 2^j <= 4 * v * P`, i.e. when the target is at least
      255.75 mantissa steps of weight `2^j`. */
  lemma Mant256Probe(v: real, fosc: real, P: real, j: int, b: real)
    requires v > 0.0 && fosc > 0.0 && P > 0.0 && b == Exp2(j)
    ensures Mant256(v, fosc, P).e >= j <==> 1023.0 * fosc * b <= 4.0 * v * P
  {
    Mant256Exponent(v, fosc, P, FloorLog2(v * (P / 256.0), fosc), j, b);
  }

  /** The normalised target `x = v * P / (fosc * a)` lies in [256, 512) and
      `v = x * S` for the step `S = fosc * a / P`. */
  lemma RatioCore(v: real, fosc: real, P: real, a: real)
    requires v > 0.0 && fosc > 0.0 && P > 0.0 && a > 0.0
    requires Bracketed(a, 2.0 * a, v * (P / 256.0), fosc)
    ensures 256.0 <= Ratio(v, fosc, P, a) < 512.0
    ensures v == Mul(Ratio(v, fosc, P, a), Step(fosc, a, P))
  {
    assert a * fosc == fosc * a && (2.0 * a) * fosc == 2.0 * (fosc * a);
    assert 256.0 * (v * (P / 256.0)) == v * P;
    QuotientRange(Ratio(v, fosc, P, a), fosc * a, v * P, 256.0, 512.0);
    StepRatio(v, fosc, P, a);
  }

  /** The target is its ratio times the step. */
  lemma StepRatio(v: real, fosc: real, P: real, a: real)
    requires fosc > 0.0 && P > 0.0 && a > 0.0
    ensures v == Mul(Ratio(v, fosc, P, a), Step(fosc, a, P))
  {
    var x := Ratio(v, fosc, P, a);
    var S := Step(fosc, a, P);
    assert S * P == fosc * a;
    assert (x * S) * P == x * (fosc * a);
    MulCancel(x * S, v, P);
  }

  lemma MulLtReal(a: real, b: real, c: real)
    requires a < b && c > 0.0
    ensures a * c < b * c
  {
  }

  /** A value within half a step of the target misses it by at most
      `1 / (2q)` of the target when the target is at least `q` steps. */
  lemma HalfStep(v: real, x: real, S: real, q: real, m: real)
    requires S > 0.0 && x >= q && q > 0.0 && v == Mul(x, S) && Abs(m - x) <= 0.5
    ensures Abs(Mul(m, S) - v) <= v / (2.0 * q)
  {
    assert Mul(m, S) - v == (m - x) * S;
    if m >= x {
      MulLeReal(0.0, m - x, S);
      MulLeReal(m - x, 0.5, S);
    } else {
      MulLeReal(0.0, x - m, S);
      MulLeReal(x - m, 0.5, S);
      assert (m - x) * S == -((x - m) * S);
    }
    assert Abs(Mul(m, S) - v) <= 0.5 * S;
    MulLeReal(q, x, S);
    HalfOfShare(v, S, q);
  }

  lemma HalfOfShare(v: real, S: real, q: real)
    requires q > 0.0 && q * S <= v
    ensures 0.5 * S <= v / (2.0 * q)
  {
    assert v / (2.0 * q) * (2.0 * q) == v;
    assert 0.5 * S * (2.0 * q) == q * S;
    if 0.5 * S > v / (2.0 * q) {
      MulLtReal(v / (2.0 * q), 0.5 * S, 2.0 * q);
    }
  }

  /** For the exponent `e` of the log2 bracket, the mantissa fits 8 bits and
      the encoded value is within 1/512 of the target. */
  lemma Mant256Approx(v: real, fosc: real, P: real, e: int)
    requires v > 0.0 && fosc > 0.0 && P > 0.0
    requires InBracket(e, v * (P / 256.0), fosc)
    ensures 0 <= Encode256(v, fosc, P, e).m <= 255
    ensures Abs(Value256(Encode256(v, fosc, P, e), fosc, P) - v) <= v / 512.0
  {
    CarriedApprox(v, fosc, P, e, RoundHalfEven(Ratio(v, fosc, P, Exp2(e)) - 256.0));
  }

  lemma CarriedApprox(v: real, fosc: real, P: real, e: int, m0: int)
    requires v > 0.0 && fosc > 0.0 && P > 0.0
    requires InBracket(e, v * (P / 256.0), fosc)
    requires m0 == RoundHalfEven(Ratio(v, fosc, P, Exp2(e)) - 256.0)
    ensures 0 <= Carry256(e, m0).m <= 255
    ensures Abs(Value256(Carry256(e, m0), fosc, P) - v) <= v / 512.0
  {
    Exp2Succ(e);
    assert Bracketed(Exp2(e), Exp2(e + 1), v * (P / 256.0), fosc);
    CoreApprox(v, fosc, P, Exp2(e), Exp2(e + 1), m0);
    CarryValue(e, m0, fosc, P);
  }

  /** For the exponent `e` of the log2 bracket and a probe power `b = 2^j`,
      the final exponent is at least `j` exactly when
      `1023 * fosc * 2^j <= 4 * v * P`. */
  lemma Mant256Exponent(v: real, fosc: real, P: real, e: int, j: int, b: real)
    requires v > 0.0 && fosc > 0.0 && P > 0.0 && b == Exp2(j)
    requires InBracket(e, v * (P / 256.0), fosc)
    ensures Encode256(v, fosc, P, e).e >= j <==> 1023.0 * fosc * b <= 4.0 * v * P
  {
    ProbePowers(e, j, b);
    CarriedExponent(v, fosc, P, e, j, b, RoundHalfEven(Ratio(v, fosc, P, Exp2(e)) - 256.0));
  }

  lemma CarriedExponent(v: real, fosc: real, P: real, e: int, j: int, b: real, m0: int)
    requires v > 0.0 && fosc > 0.0 && P > 0.0 && ProbeRel(Exp2(e), b, j - e)
    requires InBracket(e, v * (P / 256.0), fosc)
    requires m0 == RoundHalfEven(Ratio(v, fosc, P, Exp2(e)) - 256.0)
    ensures Carry256(e, m0).e >= j <==> 1023.0 * fosc * b <= 4.0 * v * P
  {
    Exp2Succ(e);
    assert Bracketed(Exp2(e), Exp2(e + 1), v * (P / 256.0), fosc);
    CoreProbe(v, fosc, P, Exp2(e), Exp2(e + 1), b, j - e, m0);
  }

  /** How a probe power `b = 2^j` compares with `a = 2^e` for `d = j - e`. */
  predicate ProbeRel(a: real, b: real, d: int) {
    && (d <= 0 ==> 0.0 < b <= a)
    && (d == 1 ==> b == 2.0 * a)
    && (d >= 2 ==> b >= 4.0 * a)
  }

  /** The probe power relations hold for powers of two. */
  lemma ProbePowers(e: int, j: int, b: real)
    requires b == Exp2(j)
    ensures ProbeRel(Exp2(e), b, j - e)
  {
    Exp2Succ(e);
    if j <= e {
      Exp2Mono(j, e);
    } else if j >= e + 2 {
      Exp2Mono(e + 2, j);
      Exp2Succ(e + 1);
    }
  }

  /** The rounded mantissa before the carry: it lies in 0..256, is 256
      exactly when the normalised target is at least 511.5, and is within one
      half of the normalised target minus 256. */
  lemma RoundedMantissa(v: real, fosc: real, P: real, a: real, a1: real, m0: int)
    requires v > 0.0 && fosc > 0.0 && P > 0.0 && a > 0.0 && a1 == 2.0 * a
    requires Bracketed(a, a1, v * (P / 256.0), fosc)
    requires m0 == RoundHalfEven(Ratio(v, fosc, P, a) - 256.0)
    ensures 256.0 <= Ratio(v, fosc, P, a) < 512.0
    ensures v == Mul(Ratio(v, fosc, P, a), Step(fosc, a, P))
    ensures 0 <= m0 <= 256
    ensures m0 == 256 <==> Ratio(v, fosc, P, a) >= 511.5
    ensures Abs((256 + m0) as real - Ratio(v, fosc, P, a)) <= 0.5
  {
    RatioCore(v, fosc, P, a);
    RoundInRange(Ratio(v, fosc, P, a) - 256.0, 256);
  }

  lemma CoreApprox(v: real, fosc: real, P: real, a: real, a1: real, m0: int)
    requires v > 0.0 && fosc > 0.0 && P > 0.0 && a > 0.0 && a1 == 2.0 * a
    requires Bracketed(a, a1, v * (P / 256.0), fosc)
    requires m0 == RoundHalfEven(Ratio(v, fosc, P, a) - 256.0)
    ensures 0 <= m0 <= 256
    ensures Abs(MantValue(m0, fosc, a, P) - v) <= v / 512.0
  {
    RoundedMantissa(v, fosc, P, a, a1, m0);
    HalfStep(v, Ratio(v, fosc, P, a), Step(fosc, a, P), 256.0, (256 + m0) as real);
  }

  lemma CoreProbe(v: real, fosc: real, P: real, a: real, a1: real, b: real, d: int, m0: int)
    requires v > 0.0 && fosc > 0.0 && P > 0.0 && a > 0.0 && a1 == 2.0 * a
    requires Bracketed(a, a1, v * (P / 256.0), fosc)
    requires m0 == RoundHalfEven(Ratio(v, fosc, P, a) - 256.0)
    requires ProbeRel(a, b, d)
    ensures (d <= 0 || (d == 1 && m0 == 256)) <==> 1023.0 * fosc * b <= 4.0 * v * P
  {
    RoundedMantissa(v, fosc, P, a, a1, m0);
    ScaledPowers(fosc, a, b, d);
    ExponentProbe(Ratio(v, fosc, P, a), fosc * a, fosc * b, d, m0 == 256, 256.0);
  }

  /** The probe relations of ProbePowers, multiplied by `fosc`. */
  lemma ScaledPowers(fosc: real, a: real, b: real, d: int)
    requires fosc > 0.0 && a > 0.0 && ProbeRel(a, b, d)
    ensures fosc * a > 0.0 && ProbeRel(fosc * a, fosc * b, d)
  {
    MulSign(a, fosc, fosc * a);
    if d <= 0 {
      MulSign(b, fosc, fosc * b);
      MulSign(a - b, fosc, fosc * a - fosc * b);
    } else if d == 1 {
      assert fosc * b == 2.0 * (fosc * a);
    } else {
      MulSign(b - 4.0 * a, fosc, fosc * b - 4.0 * (fosc * a));
    }
  }

  /** The exponent-threshold arithmetic for a mantissa base `q` (the
      normalised target `x` lies in [q, 2q) and the carry happens from
      `2q - 1/2` on), with `D` the unit at exponent `e`, `B` the unit at
      the probe exponent `j`, and `d = j - e`. */
  lemma ExponentProbe(x: real, D: real, B: real, d: int, carried: bool, q: real)
    requires q >= 1.0 && q <= x < 2.0 * q && D > 0.0
    requires ProbeRel(D, B, d)
    requires carried <==> x >= 2.0 * q - 0.5
    ensures (d <= 0 || (d == 1 && carried)) <==> (4.0 * q - 1.0) * B <= 4.0 * Mul(x, D)
  {
    if d <= 0 {
      ProbeBelow(x, D, B, q);
    } else if d == 1 {
      ProbeNext(x, D, q);
    } else {
      ProbeAbove(x, D, B, q);
    }
  }

  /** A probe at or below the exponent always passes. */
  lemma ProbeBelow(x: real, D: real, B: real, q: real)
    requires q >= 1.0 && q <= x && 0.0 < B <= D
    ensures (4.0 * q - 1.0) * B <= 4.0 * Mul(x, D)
  {
    MulSign(D - B, 4.0 * q - 1.0, (4.0 * q - 1.0) * D - (4.0 * q - 1.0) * B);
    MulSign(x - q, D, Mul(x, D) - q * D);
    assert (4.0 * q - 1.0) * D == 4.0 * (q * D) - D;
  }

  /** A probe one above the exponent passes exactly when the mantissa carries. */
  lemma ProbeNext(x: real, D: real, q: real)
    requires D > 0.0
    ensures (4.0 * q - 1.0) * (2.0 * D) <= 4.0 * Mul(x, D) <==> x >= 2.0 * q - 0.5
  {
    MulSign(x - 2.0 * q + 0.5, D, Mul(x, D) - 2.0 * (q * D) + 0.5 * D);
    assert (4.0 * q - 1.0) * (2.0 * D) == 8.0 * (q * D) - 2.0 * D;
  }

  /** A probe two or more above the exponent never passes. */
  lemma ProbeAbove(x: real, D: real, B: real, q: real)
    requires q >= 1.0 && x < 2.0 * q && D > 0.0 && B >= 4.0 * D
    ensures 4.0 * Mul(x, D) < (4.0 * q - 1.0) * B
  {
    MulSign(B - 4.0 * D, 4.0 * q - 1.0, (4.0 * q - 1.0) * B - 16.0 * (q * D) + 4.0 * D);
    MulSign(2.0 * q - x, D, 2.0 * (q * D) - Mul(x, D));
    MulSign(q - 1.0, D, q * D - D);
  }

  /** The carry keeps the encoded value: mantissa 256 at weight `2^e` is
      mantissa 0 at weight `2^(e+1)`. */
  lemma CarryValue(e: int, m0: int, fosc: real, P: real)
    requires P > 0.0 && 0 <= m0 <= 256
    ensures Value256(Carry256(e, m0), fosc, P) == MantValue(m0, fosc, Exp2(e), P)
  {
    if m0 == 256 {
      Exp2Succ(e);
      StepDouble(fosc, Exp2(e), P);
    }
  }

  lemma StepDouble(fosc: real, a: real, P: real)
    requires P > 0.0
    ensures Step(fosc, 2.0 * a, P) == 2.0 * Step(fosc, a, P)
  {
  }

  // ---- (4 + M) * 2^E divisors: receiver bandwidth ----

  /** The carry the bandwidth setter needs (and the source leaves out): a
      mantissa rounded up to 4 becomes 0 with the next exponent. */
  function Carry4(e: int, m: int): ExpMant {
    if m == 4 then ExpMant(e + 1, 0) else ExpMant(e, m)
  }

  /** The channel filter bandwidth `fosc / (8 * (4 + m) * a)` for the
      exponent weight `a = 2^e`. */
  function BwValue(m: int, a: real, fosc: real): real
    requires m >= 0 && a > 0.0
  {
    fosc / (8.0 * Mul((4 + m) as real, a))
  }

  /** The bandwidth exponent: `floor(log2(fosc / (8 * bw)) - 2)`. */
  function BwExponent(fosc: real, bw: real): int
    requires fosc > 0.0 && bw > 0.0
  {
    FloorLog2(fosc, 8.0 * bw) - 2
  }

  /** The bandwidth mantissa: `round(fosc / (8 * bw) / 2^e - 4)`. */
  function BwMantissa(fosc: real, bw: real, e: int): int
    requires bw > 0.0
  {
    RoundHalfEven(Ratio(fosc, 8.0 * bw, 1.0, Exp2(e)) - 4.0)
  }

  /** The bandwidth setter with the carry: the mantissa fits 2 bits and the
      pair encodes `bw` to within 1/8. */
  function BwEncode(fosc: real, bw: real): (em: ExpMant)
    requires fosc > 0.0 && bw > 0.0
    ensures 0 <= em.m <= 3
    ensures Abs(BwValue(em.m, Exp2(em.e), fosc) - bw) <= bw / 8.0
  {
    var e := BwExponent(fosc, bw);
    BwApprox(fosc, bw, e, BwMantissa(fosc, bw, e));
    Carry4(e, BwMantissa(fosc, bw, e))
  }

  /** The final bandwidth exponent is at least `j` exactly when
      `30 * bw * 2^j <= fosc`. */
  lemma BwEncodeProbe(fosc: real, bw: real, j: int, b: real)
    requires fosc > 0.0 && bw > 0.0 && b == Exp2(j)
    ensures BwEncode(fosc, bw).e >= j <==> 30.0 * bw * b <= fosc
  {
    var e := BwExponent(fosc, bw);
    ProbePowers(e, j, b);
    BwProbe(fosc, bw, e, j, b, BwMantissa(fosc, bw, e));
  }

  /** Without the carry the mantissa lies in 0..4 and still approximates
      `bw` to within 1/8; with it the mantissa lies in 0..3. */
  lemma BwApprox(fosc: real, bw: real, e: int, m0: int)
    requires fosc > 0.0 && bw > 0.0 && InBracket(e + 2, fosc, 8.0 * bw)
    requires m0 == BwMantissa(fosc, bw, e)
    ensures 0 <= m0 <= 4
    ensures Abs(BwValue(m0, Exp2(e), fosc) - bw) <= bw / 8.0
    ensures 0 <= Carry4(e, m0).m <= 3
    ensures Abs(BwValue(Carry4(e, m0).m, Exp2(Carry4(e, m0).e), fosc) - bw) <= bw / 8.0
  {
    BwBracket(fosc, bw, e);
    BwCore(fosc, bw, Exp2(e), m0);
    Carry4Value(e, m0, fosc);
  }

  lemma BwProbe(fosc: real, bw: real, e: int, j: int, b: real, m0: int)
    requires fosc > 0.0 && bw > 0.0 && InBracket(e + 2, fosc, 8.0 * bw)
    requires ProbeRel(Exp2(e), b, j - e)
    requires m0 == BwMantissa(fosc, bw, e)
    ensures Carry4(e, m0).e >= j <==> 30.0 * bw * b <= fosc
  {
    BwBracket(fosc, bw, e);
    BwProbeCore(fosc, bw, Exp2(e), b, j - e, m0);
  }

  /** The log2 bracket of `fosc / (8 * bw)` at `e + 2`, in terms of `2^e`. */
  lemma BwBracket(fosc: real, bw: real, e: int)
    requires bw > 0.0 && InBracket(e + 2, fosc, 8.0 * bw)
    ensures Bracketed(4.0 * Exp2(e), 8.0 * Exp2(e), fosc, 8.0 * bw)
  {
    Exp2Succ(e);
    Exp2Succ(e + 1);
    Exp2Succ(e + 2);
    MulEq(Exp2(e + 2), 4.0 * Exp2(e), 8.0 * bw);
    MulEq(Exp2(e + 3), 8.0 * Exp2(e), 8.0 * bw);
  }

  lemma MulEq(x: real, y: real, z: real)
    requires x == y
    ensures x * z == y * z
  {
  }

  /** The carry keeps the bandwidth: `(4 + 4) * 2^e = (4 + 0) * 2^(e+1)`. */
  lemma Carry4Value(e: int, m0: int, fosc: real)
    requires 0 <= m0 <= 4
    ensures BwValue(Carry4(e, m0).m, Exp2(Carry4(e, m0).e), fosc) == BwValue(m0, Exp2(e), fosc)
  {
    if m0 == 4 {
      Exp2Succ(e);
      assert Mul(4.0, Exp2(e + 1)) == Mul(8.0, Exp2(e));
    }
  }

  /** The normalised bandwidth target `x = fosc / (8 * bw * a)` lies in
      [4, 8). */
  lemma BwRatio(fosc: real, bw: real, a: real)
    requires fosc > 0.0 && bw > 0.0 && a > 0.0
    requires Bracketed(4.0 * a, 8.0 * a, fosc, 8.0 * bw)
    ensures 4.0 <= Ratio(fosc, 8.0 * bw, 1.0, a) < 8.0
    ensures fosc == Mul(Ratio(fosc, 8.0 * bw, 1.0, a), 8.0 * bw * a)
  {
    var D := 8.0 * bw * a;
    var x := Ratio(fosc, 8.0 * bw, 1.0, a);
    assert x * D == fosc;
    assert 4.0 * D <= fosc < 8.0 * D;
    if x < 4.0 {
      MulLtReal(x, 4.0, D);
    }
    if x >= 8.0 {
      MulLeReal(8.0, x, D);
    }
  }

  lemma BwCore(fosc: real, bw: real, a: real, m0: int)
    requires fosc > 0.0 && bw > 0.0 && a > 0.0
    requires Bracketed(4.0 * a, 8.0 * a, fosc, 8.0 * bw)
    requires m0 == RoundHalfEven(Ratio(fosc, 8.0 * bw, 1.0, a) - 4.0)
    ensures 0 <= m0 <= 4
    ensures Abs(BwValue(m0, a, fosc) - bw) <= bw / 8.0
  {
    BwRatio(fosc, bw, a);
    RoundInRange(Ratio(fosc, 8.0 * bw, 1.0, a) - 4.0, 4);
    BwCancel(fosc, bw, a, (4 + m0) as real, Ratio(fosc, 8.0 * bw, 1.0, a));
    BwError(BwValue(m0, a, fosc), (4 + m0) as real, Ratio(fosc, 8.0 * bw, 1.0, a), bw);
  }

  lemma BwProbeCore(fosc: real, bw: real, a: real, b: real, d: int, m0: int)
    requires fosc > 0.0 && bw > 0.0 && a > 0.0
    requires Bracketed(4.0 * a, 8.0 * a, fosc, 8.0 * bw)
    requires m0 == RoundHalfEven(Ratio(fosc, 8.0 * bw, 1.0, a) - 4.0)
    requires ProbeRel(a, b, d)
    ensures (d <= 0 || (d == 1 && m0 == 4)) <==> 30.0 * bw * b <= fosc
  {
    BwRatio(fosc, bw, a);
    RoundInRange(Ratio(fosc, 8.0 * bw, 1.0, a) - 4.0, 4);
    var D := 8.0 * bw * a;
    var B := 8.0 * bw * b;
    ScaledPowers(8.0 * bw, a, b, d);
    assert ProbeRel(D, B, d);
    ExponentProbe(Ratio(fosc, 8.0 * bw, 1.0, a), D, B, d, m0 == 4, 4.0);
  }

  /** `V = fosc / (8 * M * a)` with `fosc = x * 8 * bw * a` gives
      `V * M = x * bw`. */
  lemma BwCancel(fosc: real, bw: real, a: real, M: real, x: real)
    requires a > 0.0 && M > 0.0 && bw > 0.0 && fosc == Mul(x, 8.0 * bw * a)
    ensures Mul(fosc / (8.0 * Mul(M, a)), M) == Mul(x, bw)
  {
    var V := fosc / (8.0 * Mul(M, a));
    assert V * (8.0 * (M * a)) == fosc;
    assert (V * M) * (8.0 * a) == (x * bw) * (8.0 * a);
    MulCancel(V * M, x * bw, 8.0 * a);
  }

  lemma MulCancel(u: real, w: real, k: real)
    requires k > 0.0 && u * k == w * k
    ensures u == w
  {
    if u < w {
      MulLtReal(u, w, k);
    } else if w < u {
      MulLtReal(w, u, k);
    }
  }

  /** A divisor within one half of the exact one, and at least 4, misses the
      bandwidth by at most 1/8. */
  lemma BwError(V: real, M: real, x: real, bw: real)
    requires M >= 4.0 && bw > 0.0 && Mul(V, M) == Mul(x, bw) && Abs(M - x) <= 0.5
    ensures Abs(V - bw) <= bw / 8.0
  {
    if V >= bw {
      NonNegMul(M - 4.0, V - bw);
      assert (M - 4.0) * (V - bw) == M * V - M * bw - 4.0 * V + 4.0 * bw;
      NonPosMul(x - M - 0.5, bw);
      assert (x - M - 0.5) * bw == x * bw - M * bw - 0.5 * bw;
    } else {
      NonNegMul(M - 4.0, bw - V);
      assert (M - 4.0) * (bw - V) == M * bw - M * V - 4.0 * bw + 4.0 * V;
      NonPosMul(M - x - 0.5, bw);
      assert (M - x - 0.5) * bw == M * bw - x * bw - 0.5 * bw;
    }
  }

  // ---- (8 + M) * 2^E multipliers: frequency deviation ----

  /** The deviation `(8 + m) * fosc / 2^17 * a` for the exponent weight `a = 2^e`. */
  function DevValue(m: int, a: real, fosc: real): real {
    Mul((8 + m) as real, Step(fosc, a, 131072.0))
  }

  /** The deviation exponent: `floor(log2(dev * 2^14 / fosc))`. */
  function DevExponent(fosc: real, dev: real): int
    requires fosc > 0.0 && dev > 0.0
  {
    FloorLog2(dev * 16384.0, fosc)
  }

  /** The deviation mantissa: `floor(dev * 2^17 / (fosc * 2^e) - 8)`. */
  function DevMantissa(fosc: real, dev: real, e: int): int
    requires fosc > 0.0
  {
    Floor(Ratio(dev, fosc, 131072.0, Exp2(e)) - 8.0)
  }

  /** For the exponent of the log2 bracket the truncated mantissa fits 3 bits
      and the encoded deviation lies at or below the target, by less than
      1/8 of it. */
  lemma DevApprox(fosc: real, dev: real, e: int, m: int)
    requires fosc > 0.0 && dev > 0.0 && InBracket(e, dev * 16384.0, fosc)
    requires m == DevMantissa(fosc, dev, e)
    ensures 0 <= m <= 7
    ensures DevValue(m, Exp2(e), fosc) <= dev < DevValue(m, Exp2(e), fosc) + dev / 8.0
  {
    BracketOfExp(e, dev * 16384.0, fosc);
    DevCore(fosc, dev, Exp2(e), m);
  }

  /** The log2 bracket at `e` as a bracket between `2^e` and `2 * 2^e`. */
  lemma BracketOfExp(e: int, num: real, den: real)
    requires InBracket(e, num, den)
    ensures Bracketed(Exp2(e), 2.0 * Exp2(e), num, den)
  {
    Exp2Succ(e);
    MulEq(Exp2(e + 1), 2.0 * Exp2(e), den);
  }

  lemma DevCore(fosc: real, dev: real, a: real, m: int)
    requires fosc > 0.0 && dev > 0.0 && a > 0.0
    requires Bracketed(a, 2.0 * a, dev * 16384.0, fosc)
    requires m == Floor(Ratio(dev, fosc, 131072.0, a) - 8.0)
    ensures 0 <= m <= 7
    ensures DevValue(m, a, fosc) <= dev < DevValue(m, a, fosc) + dev / 8.0
  {
    var x := Ratio(dev, fosc, 131072.0, a);
    DevRatio(fosc, dev, a);
    DevError(dev, x, Step(fosc, a, 131072.0), (8 + m) as real);
  }

  /** The normalised deviation target `x = dev * 2^17 / (fosc * a)` lies in
      [8, 16) and `dev = x * S` for the step `S = fosc * a / 2^17`. */
  lemma DevRatio(fosc: real, dev: real, a: real)
    requires fosc > 0.0 && dev > 0.0 && a > 0.0
    requires Bracketed(a, 2.0 * a, dev * 16384.0, fosc)
    ensures 8.0 <= Ratio(dev, fosc, 131072.0, a) < 16.0
    ensures dev == Mul(Ratio(dev, fosc, 131072.0, a), Step(fosc, a, 131072.0))
  {
    assert a * fosc == fosc * a && (2.0 * a) * fosc == 2.0 * (fosc * a);
    QuotientRange(Ratio(dev, fosc, 131072.0, a), fosc * a, dev * 131072.0, 8.0, 16.0);
    StepRatio(dev, fosc, 131072.0, a);
  }

  /** `x = N / D` lies in [lo, hi) when `N` lies in [lo * D, hi * D). */
  lemma QuotientRange(x: real, D: real, N: real, lo: real, hi: real)
    requires D > 0.0 && x * D == N && lo * D <= N < hi * D
    ensures lo <= x < hi
  {
    if x < lo {
      MulLtReal(x, lo, D);
    }
    if x >= hi {
      MulLeReal(hi, x, D);
    }
  }

  /** A multiplier `M` in `(x - 1, x]` with `x >= 8` steps leaves the
      product below the target by less than one step, at most 1/8 of it. */
  lemma DevError(dev: real, x: real, S: real, M: real)
    requires S > 0.0 && x >= 8.0 && dev == Mul(x, S) && M <= x < M + 1.0
    ensures Mul(M, S) <= dev < Mul(M, S) + dev / 8.0
  {
    MulLeMul(M, x, S);
    BelowNextStep(x, S, M);
    MulLeMul(8.0, x, S);
    assert Mul(8.0, S) == 8.0 * S;
  }

  lemma BelowNextStep(x: real, S: real, M: real)
    requires S > 0.0 && x < M + 1.0
    ensures Mul(x, S) < Mul(M, S) + S
  {
    MulLtReal(x - M - 1.0, 0.0, S);
    assert (x - M - 1.0) * S == Mul(x, S) - Mul(M, S) - S;
  }

  lemma MulLeMul(a: real, b: real, c: real)
    requires a <= b && c >= 0.0
    ensures Mul(a, c) <= Mul(b, c)
  {
    MulLeReal(a, b, c);
  }
}
