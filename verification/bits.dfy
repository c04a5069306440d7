/** Bit lists, their big-endian values and the packing of bit lists into
    bytes, as the Python code does with `x <<= 1; x |= bit` loops. */
module Bits {

  /** A physical or logical bit as the Python lists hold it (the ints 0 and 1). */
  type Bit = b: int | 0 <= b <= 1

  /** A byte as the Python lists hold it (an int in 0..255). */
  type Byte = x: int | 0 <= x < 256

  function Pow2(n: nat): (r: nat)
    ensures r >= 1
  {
    if n == 0 then 1 else 2 * Pow2(n - 1)
  }

  lemma Pow2Add(a: nat, b: nat)
    ensures Pow2(a + b) == Pow2(a) * Pow2(b)
  {
    if a > 0 {
      Pow2Add(a - 1, b);
    }
  }

  /** Big-endian value of a bit list: the result of running `x = (x << 1) | bit`
      over the list from the left, starting at 0. */
  function BitsValue(bits: seq<Bit>): (r: nat)
    ensures r < Pow2(|bits|)
  {
    if |bits| == 0 then 0 else 2 * BitsValue(bits[..|bits| - 1]) + bits[|bits| - 1]
  }

  /** The `n` low bits of `x`, most significant first. */
  function NatBits(x: nat, n: nat): (r: seq<Bit>)
    ensures |r| == n
  {
    if n == 0 then [] else NatBits(x / 2, n - 1) + [x % 2]
  }

  /** The eight bits of a byte, most significant first. */
  function ByteBits(b: Byte): (r: seq<Bit>)
    ensures |r| == 8
  {
    NatBits(b, 8)
  }

  /** Concatenation of the bits of every byte, each most significant first. */
  function BytesBits(bytes: seq<Byte>): (r: seq<Bit>)
    ensures |r| == 8 * |bytes|
  {
    if |bytes| == 0 then [] else ByteBits(bytes[0]) + BytesBits(bytes[1..])
  }

  lemma {:induction false} BitsValueOfNatBits(x: nat, n: nat)
    ensures BitsValue(NatBits(x, n)) == x % Pow2(n)
  {
    if n > 0 {
      var r := NatBits(x, n);
      assert r[..n - 1] == NatBits(x / 2, n - 1);
      BitsValueOfNatBits(x / 2, n - 1);
      ModDivPow2(x, n);
    }
  }

  /** `x % 2^n` splits into the last bit and the higher bits. */
  lemma ModDivPow2(x: nat, n: nat)
    requires n > 0
    ensures x % Pow2(n) == 2 * ((x / 2) % Pow2(n - 1)) + x % 2
  {
    var p := Pow2(n - 1);
    var q := x / 2;
    assert x == 2 * q + x % 2;
    assert q == p * (q / p) + q % p;
    assert x == 2 * p * (q / p) + (2 * (q % p) + x % 2);
    assert 0 <= 2 * (q % p) + x % 2 < 2 * p;
    LemmaModUnique(x, 2 * p, q / p, 2 * (q % p) + x % 2);
  }

  lemma LemmaModUnique(x: int, m: int, k: int, r: int)
    requires m > 0 && 0 <= r < m && x == m * k + r
    ensures x % m == r && x / m == k
  {
    var q := x / m;
    var s := x % m;
    assert m * q + s == m * k + r;
    assert m * (q - k) == r - s;
    if q > k {
      MulAtLeast(m, q - k);
    } else if q < k {
      MulAtLeast(m, k - q);
    }
  }

  lemma MulAtLeast(m: int, d: int)
    requires m > 0 && d >= 1
    ensures m * d >= m
  {
  }

  lemma {:induction false} NatBitsOfBitsValue(bits: seq<Bit>)
    ensures NatBits(BitsValue(bits), |bits|) == bits
  {
    if |bits| > 0 {
      var n := |bits|;
      var v := BitsValue(bits);
      var pre := bits[..n - 1];
      assert v / 2 == BitsValue(pre) && v % 2 == bits[n - 1];
      NatBitsOfBitsValue(pre);
      assert bits == pre + [bits[n - 1]];
    }
  }

  lemma {:induction false} BitsValueAppend(a: seq<Bit>, b: seq<Bit>)
    ensures BitsValue(a + b) == BitsValue(a) * Pow2(|b|) + BitsValue(b)
  {
    if |b| > 0 {
      var ab := a + b;
      var b' := b[..|b| - 1];
      var last := b[|b| - 1];
      assert ab[..|ab| - 1] == a + b';
      assert ab[|ab| - 1] == last;
      BitsValueAppend(a, b');
      ShiftStep(BitsValue(ab), BitsValue(a), Pow2(|b'|), BitsValue(b'), last, BitsValue(b), Pow2(|b|));
    } else {
      assert a + b == a;
    }
  }

  lemma ShiftStep(x: int, va: int, p: int, v': int, l: int, vb: int, p2: int)
    requires x == 2 * (va * p + v') + l && p2 == 2 * p && vb == 2 * v' + l
    ensures x == va * p2 + vb
  {
  }

  /** Packs a bit list whose length is a multiple of 8 into bytes, eight bits
      per byte, most significant first. */
  function PackBytes(bits: seq<Bit>): (r: seq<Byte>)
    requires |bits| % 8 == 0
    ensures |r| == |bits| / 8
  {
    if |bits| == 0 then []
    else
      assert BitsValue(bits[..8]) < Pow2(8) == 256;
      [BitsValue(bits[..8])] + PackBytes(bits[8..])
  }

  /** Byte `i` of the packed list is the value of bits 8i..8i+8. */
  lemma {:induction false} PackBytesIndex(bits: seq<Bit>, i: nat)
    requires |bits| % 8 == 0 && i < |bits| / 8
    ensures PackBytes(bits)[i] == BitsValue(bits[8 * i..8 * i + 8])
  {
    var rest := bits[8..];
    assert |rest| == |bits| - 8;
    assert PackBytes(bits) == [BitsValue(bits[..8])] + PackBytes(rest);
    if i > 0 {
      PackBytesIndex(rest, i - 1);
      var j := 8 * (i - 1);
      assert j + 8 == 8 * i - 0 - 0 && j + 8 <= |rest|;
      assert rest[j..j + 8] == bits[8 * i..8 * i + 8];
    }
  }

  /** Unpacking then packing gives the bytes back. */
  lemma {:induction false} PackBytesOfBytesBits(bytes: seq<Byte>)
    ensures PackBytes(BytesBits(bytes)) == bytes
  {
    if |bytes| > 0 {
      var bits := BytesBits(bytes);
      assert bits == ByteBits(bytes[0]) + BytesBits(bytes[1..]);
      assert bits[..8] == ByteBits(bytes[0]);
      assert bits[8..] == BytesBits(bytes[1..]);
      BitsValueOfNatBits(bytes[0], 8);
      assert Pow2(8) == 256;
      assert BitsValue(bits[..8]) == bytes[0];
      PackBytesOfBytesBits(bytes[1..]);
      assert PackBytes(bits) == [bytes[0]] + bytes[1..];
    }
  }

  /** Python's `|` on non-negative integers. */
  function Or(a: nat, b: nat): nat
    decreases a + b
  {
    if a == 0 then b
    else if b == 0 then a
    else 2 * Or(a / 2, b / 2) + (if a % 2 == 1 || b % 2 == 1 then 1 else 0)
  }

  /** OR-ing a value below 2^n into a multiple of 2^n is addition. */
  lemma {:induction false} OrDisjoint(a: nat, n: nat, b: nat)
    requires b < Pow2(n)
    ensures Or(a * Pow2(n), b) == a * Pow2(n) + b
  {
    if n > 0 && a != 0 && b != 0 {
      var A := a * Pow2(n);
      assert A == 2 * (a * Pow2(n - 1));
      assert A / 2 == a * Pow2(n - 1) && A % 2 == 0;
      OrDisjoint(a, n - 1, b / 2);
    }
  }

  /** `int.from_bytes(bytes, 'big')`. */
  function FromBytesBig(bytes: seq<Byte>): (r: nat)
    ensures r < Pow2(8 * |bytes|)
  {
    if |bytes| == 0 then 0
    else
      var init := bytes[..|bytes| - 1];
      Pow2Add(8 * |init|, 8);
      assert Pow2(8) == 256;
      FromBytesBig(init) * 256 + bytes[|bytes| - 1]
  }

  /** `x.to_bytes(n, 'big')` for an `x` that fits: its `n` base-256 digits,
      most significant first. */
  function ToBytesBig(x: nat, n: nat): (r: seq<Byte>)
    requires x < Pow2(8 * n)
    ensures |r| == n && FromBytesBig(r) == x
  {
    if n == 0 then []
    else
      Pow2Add(8 * (n - 1), 8);
      assert Pow2(8) == 256;
      var r := ToBytesBig(x / 256, n - 1) + [x % 256];
      assert r[..n - 1] == ToBytesBig(x / 256, n - 1);
      r
  }

  /** Decoding and re-encoding at the same length gives the bytes back. */
  lemma {:induction false} ToBytesOfFromBytes(bytes: seq<Byte>)
    ensures ToBytesBig(FromBytesBig(bytes), |bytes|) == bytes
  {
    if |bytes| > 0 {
      var n := |bytes|;
      var init := bytes[..n - 1];
      LemmaModUnique(FromBytesBig(bytes), 256, FromBytesBig(init), bytes[n - 1]);
      ToBytesOfFromBytes(init);
      assert bytes == init + [bytes[n - 1]];
    }
  }
}
