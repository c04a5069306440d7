/** `Princeton25bit_Protocol`: the PT2262-style line code in which every
    logical bit is four physical bits (1110 for a one, 1000 for a zero),
    24 address and data bits are followed by a sync bit and a gap, and the
    24-bit value splits into an address (high bits) and `dataBits` low
    data bits. */
module Princeton {
  import opened Bits
  import opened PySeq

  const High: seq<Bit> := [1, 1, 1, 0]
  const Low: seq<Bit> := [1, 0, 0, 0]

  /** The sync bit (a zero pattern) and the gap appended after the 24 bits. */
  const Trailer: seq<Bit> := [1, 0, 0, 0, 0, 0, 0, 0]

  function Pattern(b: Bit): (r: seq<Bit>)
    ensures |r| == 4
  {
    if b == 1 then High else Low
  }

  /** Each logical bit replaced by its pattern, in order. */
  function Patterns(bits: seq<Bit>): (r: seq<Bit>)
    ensures |r| == 4 * |bits|
  {
    if |bits| == 0 then [] else Pattern(bits[0]) + Patterns(bits[1..])
  }

  lemma {:induction false} PatternsAppend(a: seq<Bit>, b: seq<Bit>)
    ensures Patterns(a + b) == Patterns(a) + Patterns(b)
  {
    if |a| > 0 {
      assert (a + b)[1..] == a[1..] + b;
      PatternsAppend(a[1..], b);
    } else {
      assert a + b == b;
    }
  }

  predicate IsPattern(w: seq<Bit>) {
    w == High || w == Low
  }

  /** `bits[i:i+4]`. */
  function Window(bits: seq<Bit>, i: int): seq<Bit> {
    Slice(bits, i, i + 4)
  }

  // ---- parsing ----

  /** The first index from `i` on whose four-bit window is a pattern, or the
      length when there is none. */
  function FirstPattern(bits: seq<Bit>, i: nat): (r: nat)
    requires i <= |bits|
    ensures i <= r <= |bits|
    ensures r < |bits| ==> IsPattern(Window(bits, r))
    ensures forall j | i <= j < r :: !IsPattern(Window(bits, j))
    decreases |bits| - i
  {
    if i == |bits| then i
    else if IsPattern(Window(bits, i)) then i
    else FirstPattern(bits, i + 1)
  }

  /** `_align_bits`: the suffix from the first pattern on, or `[]`. */
  function AlignBits(bits: seq<Bit>): (r: seq<Bit>)
    ensures |r| <= |bits| && r == bits[|bits| - |r|..]
    ensures r == [] || (|r| >= 4 && IsPattern(r[..4]))
    ensures r == [] <==> forall j | 0 <= j < |bits| :: !IsPattern(Window(bits, j))
    ensures forall j | 0 <= j < |bits| - |r| :: !IsPattern(Window(bits, j))
  {
    var i := FirstPattern(bits, 0);
    if i < |bits| then
      assert Window(bits, i) == bits[i..i + 4];
      bits[i..]
    else []
  }

  /** A list that starts with a pattern is already aligned. */
  lemma AlignAligned(bits: seq<Bit>)
    requires |bits| >= 4 && IsPattern(bits[..4])
    ensures AlignBits(bits) == bits
  {
    assert Window(bits, 0) == bits[..4];
  }

  /** `_to_logical_bits`: every complete group of four that is a pattern
      becomes its bit; other groups and a trailing partial group vanish. */
  function LogicalBits(bits: seq<Bit>): (r: seq<Bit>)
    ensures |r| <= |bits| / 4
    ensures |bits| < 4 ==> r == []
    decreases |bits|
  {
    if |bits| < 4 then []
    else
      var w := bits[..4];
      (if w == High then [1] else if w == Low then [0] else []) + LogicalBits(bits[4..])
  }

  /** A complete group that is neither pattern contributes nothing. */
  lemma LogicalBitsSkips(w: seq<Bit>, rest: seq<Bit>)
    requires |w| == 4 && !IsPattern(w)
    ensures LogicalBits(w + rest) == LogicalBits(rest)
  {
    assert (w + rest)[..4] == w;
    assert (w + rest)[4..] == rest;
  }

  lemma {:induction false} LogicalBitsAppend(a: seq<Bit>, b: seq<Bit>)
    requires |a| % 4 == 0
    ensures LogicalBits(a + b) == LogicalBits(a) + LogicalBits(b)
    decreases |a|
  {
    if |a| == 0 {
      assert a + b == b;
    } else {
      assert (a + b)[..4] == a[..4];
      assert (a + b)[4..] == a[4..] + b;
      LogicalBitsAppend(a[4..], b);
    }
  }

  /** Decoding the patterns of a bit list gives the list back. */
  lemma {:induction false} LogicalBitsOfPatterns(bits: seq<Bit>)
    ensures LogicalBits(Patterns(bits)) == bits
  {
    if |bits| > 0 {
      var p := Patterns(bits);
      assert p[..4] == Pattern(bits[0]);
      assert p[4..] == Patterns(bits[1..]);
      LogicalBitsOfPatterns(bits[1..]);
      assert bits == [bits[0]] + bits[1..];
    }
  }

  /** `_to_logical_bytes`: exactly 25 logical bits give three bytes, the
      first 24 bits packed most significant first; anything else gives
      None. */
  function LogicalBytes(bits: seq<Bit>): (r: Option<seq<Byte>>)
    ensures r.Some? <==> |bits| == 25
    ensures r.Some? ==> |r.value| == 3 && FromBytesBig(r.value) == BitsValue(bits[..24])
  {
    if |bits| != 25 then None
    else
      FromBytesOfPack(bits[..24]);
      Some(PackBytes(bits[..24]))
  }

  datatype Option<T> = None | Some(value: T)

  lemma {:induction false} FromBytesCons(b: Byte, rest: seq<Byte>)
    ensures FromBytesBig([b] + rest) == b * Pow2(8 * |rest|) + FromBytesBig(rest)
    decreases |rest|
  {
    var s := [b] + rest;
    if |rest| > 0 {
      var n := |rest|;
      var init := rest[..n - 1];
      assert s[..|s| - 1] == [b] + init;
      assert s[|s| - 1] == rest[n - 1];
      FromBytesCons(b, init);
      Pow2Add(8 * (n - 1), 8);
      assert Pow2(8) == 256;
      ConsArith(b, Pow2(8 * (n - 1)), FromBytesBig(init), rest[n - 1], Pow2(8 * n), FromBytesBig(rest));
    } else {
      assert s[..|s| - 1] == [];
    }
  }

  lemma ConsArith(b: int, p0: int, f0: int, last: int, p: int, f: int)
    requires p == p0 * 256 && f == f0 * 256 + last
    ensures (b * p0 + f0) * 256 + last == b * p + f
  {
    assert (b * p0) * 256 == b * (p0 * 256);
  }

  /** Packing bits into bytes keeps their big-endian value. */
  lemma {:induction false} FromBytesOfPack(bits: seq<Bit>)
    requires |bits| % 8 == 0
    ensures FromBytesBig(PackBytes(bits)) == BitsValue(bits)
    decreases |bits|
  {
    if |bits| > 0 {
      var rest := bits[8..];
      FromBytesOfPack(rest);
      FromBytesCons(BitsValue(bits[..8]), PackBytes(rest));
      assert bits == bits[..8] + rest;
      BitsValueAppend(bits[..8], rest);
    }
  }

  /** `x <<= 8; x |= byte` over the bytes, from 0. */
  function OrFold(bytes: seq<Byte>): nat {
    if |bytes| == 0 then 0
    else Or(OrFold(bytes[..|bytes| - 1]) * 256, bytes[|bytes| - 1])
  }

  /** The OR fold is the big-endian value: each byte fits below the shift. */
  lemma {:induction false} OrFoldValue(bytes: seq<Byte>)
    ensures OrFold(bytes) == FromBytesBig(bytes)
  {
    if |bytes| > 0 {
      var init := bytes[..|bytes| - 1];
      OrFoldValue(init);
      assert Pow2(8) == 256;
      OrDisjoint(OrFold(init), 8, bytes[|bytes| - 1]);
    }
  }

  /** The decoded address and data fields. */
  datatype Values = Values(address: nat, data: nat)

  /** `(address << data_bits) | data`. */
  function Combine(v: Values, dataBits: nat): nat {
    Or(v.address * Pow2(dataBits), v.data)
  }

  /** The number whose low `dataBits` bits hold `data` and whose high bits
      hold `address`, when `data` fits. */
  function Joined(v: Values, dataBits: nat): nat {
    v.address * Pow2(dataBits) + v.data
  }

  /** With the data inside its field the OR is that number. */
  lemma CombineJoined(v: Values, dataBits: nat)
    requires v.data < Pow2(dataBits)
    ensures Combine(v, dataBits) == Joined(v, dataBits)
  {
    OrDisjoint(v.address, dataBits, v.data);
  }

  /** `_to_logical_values`: the big-endian OR-fold of the bytes, split
      into address and data fields. */
  function LogicalValues(bytes: seq<Byte>, dataBits: nat): (r: Values)
    ensures r.data < Pow2(dataBits)
    ensures Joined(r, dataBits) == FromBytesBig(bytes)
  {
    OrFoldValue(bytes);
    Split(OrFold(bytes), dataBits)
  }

  /** Address is `x >> data_bits`, data is `x & (2**data_bits - 1)`, that
      is `x` modulo `2**data_bits`. */
  function Split(x: nat, dataBits: nat): (r: Values)
    ensures r.data < Pow2(dataBits)
    ensures Joined(r, dataBits) == x
  {
    SplitBy(x, Pow2(dataBits))
  }

  /** Quotient and remainder by a positive modulus. */
  function SplitBy(x: nat, p: nat): (r: Values)
    requires p > 0
    ensures r.data < p && r.address * p + r.data == x
  {
    Values(x / p, x % p)
  }

  /** Splitting a combined value recovers fields whose data fits. */
  lemma SplitCombine(v: Values, dataBits: nat)
    requires v.data < Pow2(dataBits)
    ensures Split(Combine(v, dataBits), dataBits) == v
  {
    CombineJoined(v, dataBits);
    LemmaModUnique(Joined(v, dataBits), Pow2(dataBits), v.address, v.data);
  }

  /** `parse`: align, decode groups, demand exactly 25 logical bits, then
      split the value of the first 24. */
  function Parse(bits: seq<Bit>, dataBits: nat): (r: Option<Values>)
    ensures r.Some? <==> |LogicalBits(AlignBits(bits))| == 25
    ensures r.Some? ==>
      (r.value.data < Pow2(dataBits) && Joined(r.value, dataBits) == BitsValue(LogicalBits(AlignBits(bits))[..24]))
  {
    var logical := LogicalBits(AlignBits(bits));
    match LogicalBytes(logical)
    case None => None
    case Some(bytes) => Some(LogicalValues(bytes, dataBits))
  }

  // ---- encoding ----

  /** The loop of `_get_physical_bits`: `k` times, prepend the pattern of
      the lowest bit of `x` and shift `x` right. */
  function PrependLoop(x: nat, k: nat, acc: seq<Bit>): seq<Bit> {
    if k == 0 then acc else PrependLoop(x / 2, k - 1, Pattern(x % 2) + acc)
  }

  /** The loop lays out the patterns of the `k` low bits of `x`, most
      significant first, in front of what it started with. */
  lemma {:induction false} PrependLoopPatterns(x: nat, k: nat, acc: seq<Bit>)
    ensures PrependLoop(x, k, acc) == Patterns(NatBits(x, k)) + acc
  {
    if k > 0 {
      PrependLoopPatterns(x / 2, k - 1, Pattern(x % 2) + acc);
      PatternsAppend(NatBits(x / 2, k - 1), [x % 2]);
      assert Patterns([x % 2]) == Pattern(x % 2);
    }
  }

  /** `_get_physical_bits`. */
  function PhysicalBits(v: Values, dataBits: nat): seq<Bit> {
    PrependLoop(Combine(v, dataBits), 24, []) + Trailer
  }

  /** 104 physical bits: the patterns of the 24 low bits of the combined
      value, most significant first, then the sync bit and the gap. */
  lemma PhysicalBitsLayout(v: Values, dataBits: nat)
    ensures PhysicalBits(v, dataBits) == Patterns(NatBits(Combine(v, dataBits), 24)) + Trailer
    ensures |PhysicalBits(v, dataBits)| == 104
  {
    PrependLoopPatterns(Combine(v, dataBits), 24, []);
  }

  /** Round trip: values whose data fits the data field and whose combined
      value fits 24 bits are parsed back from their physical bits. */
  lemma ParsePhysicalBits(v: Values, dataBits: nat)
    requires v.data < Pow2(dataBits) && Combine(v, dataBits) < Pow2(24)
    ensures Parse(PhysicalBits(v, dataBits), dataBits) == Some(v)
  {
    var x := Combine(v, dataBits);
    var bits := PhysicalBits(v, dataBits);
    assert BitsValue(LogicalBits(AlignBits(bits))[..24]) == x by {
      PhysicalLogical(v, dataBits);
      BitsValueOfNatBits(x, 24);
      ModSmall(x, Pow2(24));
    }
    assert |LogicalBits(AlignBits(bits))| == 25 by {
      PhysicalLogical(v, dataBits);
    }
    ParseFields(bits, dataBits, v);
  }

  lemma ModSmall(x: nat, p: nat)
    requires x < p
    ensures x % p == x
  {
  }

  /** A successful parse whose combined value is that of `v` is `v`, when
      `v`'s data fits its field. */
  lemma ParseFields(bits: seq<Bit>, dataBits: nat, v: Values)
    requires Parse(bits, dataBits).Some? && v.data < Pow2(dataBits)
    requires Joined(Parse(bits, dataBits).value, dataBits) == Combine(v, dataBits)
    ensures Parse(bits, dataBits) == Some(v)
  {
    var r := Parse(bits, dataBits).value;
    CombineJoined(v, dataBits);
    LemmaModUnique(Joined(v, dataBits), Pow2(dataBits), v.address, v.data);
    LemmaModUnique(Joined(v, dataBits), Pow2(dataBits), r.address, r.data);
  }

  /** The logical bits of an encoding: the 24 bits, then the sync zero. */
  lemma PhysicalLogical(v: Values, dataBits: nat)
    ensures var nb := NatBits(Combine(v, dataBits), 24);
      LogicalBits(AlignBits(PhysicalBits(v, dataBits))) == nb + [0]
      && (nb + [0])[..24] == nb
  {
    var nb := NatBits(Combine(v, dataBits), 24);
    PhysicalBitsLayout(v, dataBits);
    LayoutLogical(nb);
    assert (nb + [0])[..24] == nb;
  }

  /** Patterns followed by the trailer align at the first pattern and
      decode to their bits and the sync zero. */
  lemma LayoutLogical(nb: seq<Bit>)
    requires |nb| > 0
    ensures LogicalBits(AlignBits(Patterns(nb) + Trailer)) == nb + [0]
  {
    PatternsAligned(nb, Trailer);
    PatternsThen(nb, Trailer);
    TrailerLogical();
  }

  /** Patterns followed by anything are already aligned. */
  lemma PatternsAligned(nb: seq<Bit>, rest: seq<Bit>)
    requires |nb| > 0
    ensures AlignBits(Patterns(nb) + rest) == Patterns(nb) + rest
  {
    PatternsCons(nb, rest);
    AlignStart(Pattern(nb[0]), Patterns(nb[1..]) + rest);
  }

  lemma PatternsCons(nb: seq<Bit>, rest: seq<Bit>)
    requires |nb| > 0
    ensures Patterns(nb) + rest == Pattern(nb[0]) + (Patterns(nb[1..]) + rest)
  {
    assert Patterns(nb) == Pattern(nb[0]) + Patterns(nb[1..]);
    Assoc(Pattern(nb[0]), Patterns(nb[1..]), rest);
  }

  lemma Assoc(a: seq<Bit>, b: seq<Bit>, c: seq<Bit>)
    ensures (a + b) + c == a + (b + c)
  {
  }

  lemma AlignStart(w: seq<Bit>, tail: seq<Bit>)
    requires IsPattern(w)
    ensures AlignBits(w + tail) == w + tail
  {
    assert (w + tail)[..4] == w;
    AlignAligned(w + tail);
  }

  /** Decoding patterns followed by anything decodes the rest after them. */
  lemma PatternsThen(nb: seq<Bit>, rest: seq<Bit>)
    ensures LogicalBits(Patterns(nb) + rest) == nb + LogicalBits(rest)
  {
    LemmaModUnique(|Patterns(nb)|, 4, |nb|, 0);
    LogicalBitsAppend(Patterns(nb), rest);
    LogicalBitsOfPatterns(nb);
  }

  lemma TrailerLogical()
    ensures LogicalBits(Trailer) == [0]
  {
    assert Trailer[..4] == Low && Trailer[4..][..4] == [0, 0, 0, 0];
    assert Trailer[4..][4..] == [];
  }

  /** The sync bit is not checked: 24 logical bits followed by a one parse
      the same as followed by the zero the protocol prescribes. */
  lemma ParseIgnoresSyncBit(bits: seq<Bit>, sync: Bit, dataBits: nat)
    requires |bits| == 24
    ensures Parse(Patterns(bits + [sync]), dataBits) == Parse(Patterns(bits + [0]), dataBits)
    ensures Parse(Patterns(bits + [sync]), dataBits).Some?
  {
    ParseOfPatterns(bits + [sync], dataBits);
    ParseOfPatterns(bits + [0], dataBits);
    assert (bits + [sync])[..24] == bits == (bits + [0])[..24];
  }

  lemma ParseOfPatterns(logical: seq<Bit>, dataBits: nat)
    requires |logical| == 25
    ensures Parse(Patterns(logical), dataBits) == Some(LogicalValues(PackBytes(logical[..24]), dataBits))
  {
    var p := Patterns(logical);
    assert logical == [logical[0]] + logical[1..];
    assert p[..4] == Pattern(logical[0]);
    AlignAligned(p);
    LogicalBitsOfPatterns(logical);
  }

  /** `get_physical_bytes`: the physical bits packed eight to a byte. */
  function PhysicalBytes(v: Values, dataBits: nat): (r: seq<Byte>)
    ensures |r| == 13
  {
    PhysicalBitsLayout(v, dataBits);
    PackBytes(PhysicalBits(v, dataBits))
  }

  /** The value of a four-bit pattern as a nibble: 0xE or 0x8. */
  function PatternNibble(b: Bit): Byte {
    if b == 1 then 0xE else 0x8
  }

  /** A byte made of two pattern nibbles. */
  predicate PatternByte(x: Byte) {
    x == 0xEE || x == 0xE8 || x == 0x8E || x == 0x88
  }

  lemma PatternValue(b: Bit)
    ensures BitsValue(Pattern(b)) == PatternNibble(b)
  {
    var p := Pattern(b);
    assert p[..3][..2][..1][..0] == [];
    assert p[..3][..2][..1] == [1];
    assert BitsValue([1]) == 1;
    if b == 1 {
      assert p[..3][..2] == [1, 1] && p[..3] == [1, 1, 1];
    } else {
      assert p[..3][..2] == [1, 0] && p[..3] == [1, 0, 0];
    }
  }

  lemma TrailerValue()
    ensures BitsValue(Trailer) == 0x80
  {
    var z: seq<Bit> := [0, 0, 0, 0];
    assert z[..3][..2][..1][..0] == [] && z[..3][..2][..1] == [0];
    assert BitsValue(z[..3][..2][..1]) == 0;
    assert z[..3][..2] == [0, 0] && z[..3] == [0, 0, 0];
    assert BitsValue(z[..3]) == 0;
    assert BitsValue(z) == 0;
    assert Trailer == Pattern(0) + z;
    BitsValueAppend(Pattern(0), z);
    PatternValue(0);
    assert Pow2(4) == 16;
  }

  /** Two patterns packed into a byte are two nibbles. */
  lemma TwoPatterns(a: Bit, b: Bit)
    ensures BitsValue(Pattern(a) + Pattern(b)) == 16 * PatternNibble(a) + PatternNibble(b)
  {
    BitsValueAppend(Pattern(a), Pattern(b));
    PatternValue(a);
    PatternValue(b);
    assert Pow2(4) == 16;
  }

  /** Packing the patterns of an even number of bits: byte `k` holds the
      nibbles of bits `2k` and `2k + 1`. */
  lemma {:induction false} PackPatterns(bits: seq<Bit>, k: nat)
    requires |bits| % 2 == 0 && k < |bits| / 2
    ensures |Patterns(bits)| % 8 == 0
    ensures PackBytes(Patterns(bits))[k] == 16 * PatternNibble(bits[2 * k]) + PatternNibble(bits[2 * k + 1])
  {
    var p := Patterns(bits);
    var head := Pattern(bits[0]) + Pattern(bits[1]);
    assert bits[1..][0] == bits[1] && bits[1..][1..] == bits[2..];
    assert Patterns(bits[1..]) == Pattern(bits[1]) + Patterns(bits[2..]);
    assert p == head + Patterns(bits[2..]);
    assert p[..8] == head;
    assert p[8..] == Patterns(bits[2..]);
    if k == 0 {
      TwoPatterns(bits[0], bits[1]);
    } else {
      PackPatterns(bits[2..], k - 1);
      assert bits[2..][2 * (k - 1)] == bits[2 * k];
      assert bits[2..][2 * (k - 1) + 1] == bits[2 * k + 1];
    }
  }

  lemma {:induction false} PackAppend(a: seq<Bit>, b: seq<Bit>)
    requires |a| % 8 == 0 && |b| % 8 == 0
    ensures PackBytes(a + b) == PackBytes(a) + PackBytes(b)
    decreases |a|
  {
    var ab := a + b;
    if |a| > 0 {
      assert ab[..8] == a[..8];
      assert ab[8..] == a[8..] + b;
      PackAppend(a[8..], b);
      assert PackBytes(ab) == [BitsValue(a[..8])] + PackBytes(a[8..] + b);
      assert PackBytes(a) == [BitsValue(a[..8])] + PackBytes(a[8..]);
    } else {
      assert ab == b;
    }
  }

  /** The 13 physical bytes: twelve made of the nibbles 0xE and 0x8 (two
      logical bits each), then 0x80 for the sync bit and the gap. */
  lemma PhysicalBytesShape(v: Values, dataBits: nat)
    ensures forall k | 0 <= k < 12 :: PatternByte(PhysicalBytes(v, dataBits)[k])
    ensures PhysicalBytes(v, dataBits)[12] == 0x80
  {
    var nb := NatBits(Combine(v, dataBits), 24);
    PhysicalBitsLayout(v, dataBits);
    PackAppend(Patterns(nb), Trailer);
    var r := PhysicalBytes(v, dataBits);
    assert r == PackBytes(Patterns(nb)) + PackBytes(Trailer);
    assert Trailer[..8] == Trailer && Trailer[8..] == [];
    assert PackBytes(Trailer) == [BitsValue(Trailer)];
    TrailerValue();
    assert r[12] == BitsValue(Trailer);
    forall k | 0 <= k < 12
      ensures PatternByte(r[k])
    {
      PackPatterns(nb, k);
    }
  }
}
