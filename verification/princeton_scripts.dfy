/** The two example scripts for 24-bit Princeton remotes: the transmitter
    builds the line code by hand and packs it into bytes for the FIFO; the
    receiver strips leading zeros from a captured bit stream, decodes the
    four-bit groups and tolerates up to three lost leading zero bits. */
module PrincetonScripts {
  import opened Bits
  import opened Results
  import opened Princeton

  function Zeros(n: nat): (r: seq<Bit>)
    ensures |r| == n
  {
    if n == 0 then [] else [0] + Zeros(n - 1)
  }

  const Gap: seq<Bit> := [0, 0, 0, 0]

  // ---- transmitter ----

  /** The bit list of `build_princeton_packet`: 16 zero bits of lead-in,
      the pattern of every data bit (each byte most significant bit
      first), the sync pattern, four zero bits and 16 zero bits. */
  function TransmitBits(data: seq<Byte>): (r: seq<Bit>)
    ensures |r| == 32 * |data| + 40
  {
    Zeros(16) + Patterns(BytesBits(data)) + Low + Gap + Zeros(16)
  }

  /** `build_princeton_packet`: the bit list packed eight bits to a byte,
      most significant first. */
  function TransmitPacket(data: seq<Byte>): (r: seq<Byte>)
    ensures |r| == 4 * |data| + 5
  {
    LemmaModUnique(32 * |data| + 40, 8, 4 * |data| + 5, 0);
    PackBytes(TransmitBits(data))
  }

  lemma {:induction false} ZerosSnoc(n: nat)
    ensures Zeros(n) + [0] == [0] + Zeros(n)
  {
    if n > 0 {
      ZerosSnoc(n - 1);
      assert Zeros(n) + [0] == [0] + (Zeros(n - 1) + [0]);
    }
  }

  lemma {:induction false} ZerosValue(n: nat)
    ensures BitsValue(Zeros(n)) == 0
  {
    if n > 0 {
      ZerosSnoc(n - 1);
      assert Zeros(n)[..n - 1] == Zeros(n - 1);
      ZerosValue(n - 1);
    }
  }

  /** Sixteen zero bits are two zero bytes. */
  lemma PackLeadIn()
    ensures PackBytes(Zeros(16)) == [0, 0]
  {
    var z := Zeros(16);
    ZerosAppend(8, 8);
    assert z[..8] == Zeros(8) && z[8..] == Zeros(8);
    assert Zeros(8)[..8] == Zeros(8) && Zeros(8)[8..] == [];
    ZerosValue(8);
  }

  lemma {:induction false} ZerosAppend(a: nat, b: nat)
    ensures Zeros(a + b) == Zeros(a) + Zeros(b)
  {
    if a > 0 {
      ZerosAppend(a - 1, b);
      assert Zeros(a + b) == [0] + Zeros(a - 1 + b);
    }
  }

  lemma LowGap()
    ensures Low + Gap == Trailer
  {
  }

  /** The bit list regrouped as lead-in, data patterns and the packed
      tail. */
  lemma TransmitBitsGrouped(data: seq<Byte>)
    ensures TransmitBits(data) == Zeros(16) + (Patterns(BytesBits(data)) + (Trailer + Zeros(16)))
  {
    var z := Zeros(16);
    var p := Patterns(BytesBits(data));
    LowGap();
    Assoc(Low, Gap, z);
    Assoc(p, Low, Gap + z);
    Assoc(z + p, Low, Gap);
    Assoc(z, p, Trailer + z);
  }

  /** The tail packs to the sync byte and two zero bytes. */
  lemma PackTail()
    ensures |Trailer + Zeros(16)| % 8 == 0
    ensures PackBytes(Trailer + Zeros(16)) == [0x80, 0, 0]
  {
    PackAppend(Trailer, Zeros(16));
    PackLeadIn();
    PackTrailer();
  }

  lemma PackTrailer()
    ensures PackBytes(Trailer) == [0x80]
  {
    assert Trailer[..8] == Trailer && Trailer[8..] == [];
    TrailerValue();
  }

  /** The packet is two zero bytes, the packed patterns of the data bits,
      the sync byte 0x80 and two zero bytes. */
  lemma TransmitPacketLayout(data: seq<Byte>)
    ensures |Patterns(BytesBits(data))| % 8 == 0
    ensures TransmitPacket(data) == [0, 0] + PackBytes(Patterns(BytesBits(data))) + [0x80, 0, 0]
  {
    var p := Patterns(BytesBits(data));
    LemmaModUnique(|p|, 8, 4 * |data|, 0);
    TransmitBitsGrouped(data);
    PackTail();
    PackLeadIn();
    PackFramed(Zeros(16), p, Trailer + Zeros(16));
  }

  lemma PackFramed(z: seq<Bit>, p: seq<Bit>, tail: seq<Bit>)
    requires |z| % 8 == 0 && |p| % 8 == 0 && |tail| % 8 == 0
    requires PackBytes(z) == [0, 0] && PackBytes(tail) == [0x80, 0, 0]
    ensures PackBytes(z + (p + tail)) == [0, 0] + PackBytes(p) + [0x80, 0, 0]
  {
    PackAppend(p, tail);
    PackAppend(z, p + tail);
  }

  /** Every byte between the lead-in and the sync byte holds two pattern
      nibbles (0xE for a one bit, 0x8 for a zero bit), so it is one of
      0xEE, 0xE8, 0x8E and 0x88. */
  lemma TransmitPatternBytes(data: seq<Byte>)
    ensures forall k | 2 <= k < 4 * |data| + 2 :: PatternByte(TransmitPacket(data)[k])
  {
    var bits := BytesBits(data);
    LemmaModUnique(|Patterns(bits)|, 8, 4 * |data|, 0);
    TransmitPacketLayout(data);
    PackedPatternBytes(bits);
    FramedBytes(TransmitPacket(data), PackBytes(Patterns(bits)));
  }

  /** Packed patterns of whole bytes are pattern bytes. */
  lemma PackedPatternBytes(bits: seq<Bit>)
    requires |bits| % 8 == 0
    ensures |Patterns(bits)| % 8 == 0
    ensures forall k | 0 <= k < |Patterns(bits)| / 8 :: PatternByte(PackBytes(Patterns(bits))[k])
  {
    var n := |bits| / 8;
    LemmaModUnique(|Patterns(bits)|, 8, 4 * n, 0);
    LemmaModUnique(|bits|, 2, 4 * n, 0);
    forall k | 0 <= k < |Patterns(bits)| / 8
      ensures PatternByte(PackBytes(Patterns(bits))[k])
    {
      PackPatterns(bits, k);
      NibblesPatternByte(bits[2 * k], bits[2 * k + 1]);
    }
  }

  lemma FramedBytes(t: seq<Byte>, x: seq<Byte>)
    requires t == [0, 0] + x + [0x80, 0, 0]
    requires forall k | 0 <= k < |x| :: PatternByte(x[k])
    ensures forall k | 2 <= k < |x| + 2 :: PatternByte(t[k])
  {
    forall k | 2 <= k < |x| + 2
      ensures PatternByte(t[k])
    {
      assert t[k] == x[k - 2];
    }
  }

  lemma NibblesPatternByte(a: Bit, b: Bit)
    ensures PatternByte(16 * PatternNibble(a) + PatternNibble(b))
  {
  }

  /** For three data bytes the middle thirteen bytes are exactly what the
      library encoder produces for the address and data fields the library
      decodes from those bytes. */
  lemma TransmitMatchesLibrary(data: seq<Byte>, dataBits: nat)
    requires |data| == 3
    ensures TransmitPacket(data)[2..15] == PhysicalBytes(LogicalValues(data, dataBits), dataBits)
  {
    var bits := BytesBits(data);
    LemmaModUnique(|Patterns(bits)|, 8, 12, 0);
    var x := PackBytes(Patterns(bits));
    assert TransmitPacket(data)[2..15] == x + [0x80] by {
      TransmitPacketLayout(data);
      FramedSlice(TransmitPacket(data), x);
    }
    assert PhysicalBytes(LogicalValues(data, dataBits), dataBits) == x + [0x80] by {
      LibraryBits(data, dataBits);
      PackAppend(Patterns(bits), Trailer);
      PackTrailer();
    }
  }

  lemma FramedSlice(t: seq<Byte>, x: seq<Byte>)
    requires t == [0, 0] + x + [0x80, 0, 0]
    ensures t[2..|x| + 3] == x + [0x80]
  {
  }

  /** The library's physical bits for the values it decodes from three
      bytes are the patterns of those bytes' bits and the trailer. */
  lemma LibraryBits(data: seq<Byte>, dataBits: nat)
    requires |data| == 3
    ensures PhysicalBits(LogicalValues(data, dataBits), dataBits) == Patterns(BytesBits(data)) + Trailer
  {
    var v := LogicalValues(data, dataBits);
    var bits := BytesBits(data);
    CombineJoined(v, dataBits);
    FromBytesBits(data);
    NatBitsOfBitsValue(bits);
    PhysicalBitsLayout(v, dataBits);
  }

  /** The big-endian value of bytes is the value of their bits. */
  lemma FromBytesBits(data: seq<Byte>)
    ensures FromBytesBig(data) == BitsValue(BytesBits(data))
  {
    var bits := BytesBits(data);
    LemmaModUnique(|bits|, 8, |data|, 0);
    FromBytesOfPack(bits);
    PackBytesOfBytesBits(data);
  }

  // ---- receiver ----

  /** The leading-zero loop of `try_parse_bits`: the suffix from the first
      one bit on, or nothing. */
  function StripLeading(bits: seq<Bit>): (r: seq<Bit>)
    ensures |r| <= |bits| && r == bits[|bits| - |r|..]
    ensures r == [] || r[0] == 1
  {
    if |bits| == 0 then []
    else if bits[0] == 0 then StripLeading(bits[1..])
    else bits
  }

  /** The group loop of `try_parse_bits`: each complete group of four is
      1000 (a zero), 1110 (a one), 0000 (the end of the packet) or anything
      else (skipped); a trailing partial group is ignored. */
  function Groups(bits: seq<Bit>): (r: seq<Bit>)
    ensures |r| <= |bits| / 4
    ensures |bits| < 4 ==> r == []
    decreases |bits|
  {
    if |bits| < 4 then []
    else
      var w := bits[..4];
      if w == Low then [0] + Groups(bits[4..])
      else if w == High then [1] + Groups(bits[4..])
      else if w == Gap then []
      else Groups(bits[4..])
  }

  /** A complete group other than 1000, 1110 and 0000 is skipped. */
  lemma GroupsSkips(w: seq<Bit>, rest: seq<Bit>)
    requires |w| == 4 && !IsPattern(w) && w != Gap
    ensures Groups(w + rest) == Groups(rest)
  {
    assert (w + rest)[..4] == w;
    assert (w + rest)[4..] == rest;
  }

  /** A 0000 group ends the packet: nothing after it is read. */
  lemma GroupsStopAtGap(rest: seq<Bit>)
    ensures Groups(Gap + rest) == []
  {
    assert (Gap + rest)[..4] == Gap;
  }

  /** Outcome of `try_parse_bits`: its boolean and the `logical_bits` it
      leaves behind. */
  datatype BitsParse = BitsParse(ok: bool, logical: seq<Bit>)

  /** `try_parse_bits`: an empty list fails with IndexError at the first
      index; a list of zeros fails; otherwise the groups of what is left
      after the leading zeros decide. */
  function TryParseBits(physical: seq<Bit>): (r: Result<BitsParse>)
    ensures r.Ok? <==> |physical| > 0
    ensures r.Ok? && r.value.ok ==> |r.value.logical| == 25 && r.value.logical[24] == 0
  {
    if |physical| == 0 then Err(IndexError)
    else
      var s := StripLeading(physical);
      if |s| == 0 then Ok(BitsParse(false, []))
      else Ok(AcceptGroups(Groups(s)))
  }

  /** The final test of `try_parse_bits`: 22 to 25 groups ending in the
      zero sync bit succeed and are padded with zeros in front to 25. */
  function AcceptGroups(g: seq<Bit>): (r: BitsParse)
    ensures r.ok <==> 22 <= |g| <= 25 && g[|g| - 1] == 0
    ensures r.ok ==> |r.logical| == 25 && r.logical[24] == 0 && r.logical[25 - |g|..] == g
    ensures !r.ok ==> r.logical == g
  {
    if 22 <= |g| <= 25 && g[|g| - 1] == 0 then
      PadLast(g);
      BitsParse(true, Zeros(25 - |g|) + g)
    else BitsParse(false, g)
  }

  lemma PadLast(g: seq<Bit>)
    requires 1 <= |g| <= 25
    ensures (Zeros(25 - |g|) + g)[24] == g[|g| - 1]
    ensures (Zeros(25 - |g|) + g)[25 - |g|..] == g
  {
  }

  /** `try_parse_bytes`: as many whole bytes as the logical bits hold, most
      significant bit first; success means exactly three. */
  function TryParseBytes(logical: seq<Bit>): (r: (bool, seq<Byte>))
    ensures |r.1| == |logical| / 8
    ensures r.0 <==> 24 <= |logical| < 32
    ensures forall k | 0 <= k < |r.1| :: r.1[k] == BitsValue(logical[8 * k..8 * k + 8])
  {
    var n := |logical| / 8;
    LemmaModUnique(8 * n, 8, n, 0);
    var bytes := PackBytes(logical[..8 * n]);
    PackedPrefix(logical, n);
    (|bytes| == 3, bytes)
  }

  /** Byte `k` of the packed whole-byte prefix is the value of bits
      `8k .. 8k + 8`, most significant first. */
  lemma PackedPrefix(logical: seq<Bit>, n: nat)
    requires 8 * n <= |logical|
    ensures |logical[..8 * n]| % 8 == 0
    ensures forall k | 0 <= k < n :: PackBytes(logical[..8 * n])[k] == BitsValue(logical[8 * k..8 * k + 8])
  {
    LemmaModUnique(8 * n, 8, n, 0);
    forall k | 0 <= k < n
      ensures PackBytes(logical[..8 * n])[k] == BitsValue(logical[8 * k..8 * k + 8])
    {
      PackBytesIndex(logical[..8 * n], k);
      assert logical[..8 * n][8 * k..8 * k + 8] == logical[8 * k..8 * k + 8];
    }
  }

  /** A `PrincetonPacket` after construction: its logical bits and bytes. */
  datatype Received = Received(logical: seq<Bit>, bytes: seq<Byte>)

  /** The `PrincetonPacket` constructor: parse the bits and, when that
      succeeds, the bytes. */
  function ReceivePacket(physical: seq<Bit>): (r: Result<Received>)
    ensures r.Ok? <==> |physical| > 0
    ensures r.Ok? && r.value.bytes != [] ==> |r.value.bytes| == 3
  {
    match TryParseBits(physical)
    case Err(e) => Err(e)
    case Ok(p) =>
      if p.ok then Ok(Received(p.logical, TryParseBytes(p.logical).1))
      else Ok(Received(p.logical, []))
  }

  // ---- receiver properties ----

  /** Leading zeros in front of a list starting with a one are stripped. */
  lemma {:induction false} StripZerosPrefix(z: nat, s: seq<Bit>)
    requires |s| > 0 && s[0] == 1
    ensures StripLeading(Zeros(z) + s) == s
  {
    if z > 0 {
      assert (Zeros(z) + s)[1..] == Zeros(z - 1) + s;
      StripZerosPrefix(z - 1, s);
    } else {
      assert Zeros(z) + s == s;
    }
  }

  /** Only zeros are stripped. */
  lemma {:induction false} StripDropsZeros(bits: seq<Bit>)
    ensures forall i | 0 <= i < |bits| - |StripLeading(bits)| :: bits[i] == 0
  {
    if |bits| > 0 && bits[0] == 0 {
      StripDropsZeros(bits[1..]);
      forall i | 0 <= i < |bits| - |StripLeading(bits)|
        ensures bits[i] == 0
      {
        if i > 0 {
          assert bits[i] == bits[1..][i - 1];
        }
      }
    }
  }

  /** A capture of nothing but zeros is rejected without groups. */
  lemma {:induction false} ReceiveZeros(n: nat)
    requires n > 0
    ensures TryParseBits(Zeros(n)) == Ok(BitsParse(false, []))
  {
    StripAllZeros(n);
  }

  lemma {:induction false} StripAllZeros(n: nat)
    ensures StripLeading(Zeros(n)) == []
  {
    if n > 0 {
      assert Zeros(n)[1..] == Zeros(n - 1);
      StripAllZeros(n - 1);
    }
  }

  /** The groups of patterns followed by four zero bits are the bits the
      patterns encode; whatever follows the gap is ignored. */
  lemma {:induction false} GroupsOfPatterns(b: seq<Bit>, rest: seq<Bit>)
    ensures Groups(Patterns(b) + Gap + rest) == b
  {
    var s := Patterns(b) + Gap + rest;
    if |b| == 0 {
      assert s == Gap + rest;
      assert s[..4] == Gap;
    } else {
      var t := Patterns(b[1..]) + Gap + rest;
      assert s == Pattern(b[0]) + t by {
        Assoc(Patterns(b), Gap, rest);
        PatternsCons(b, Gap + rest);
        Assoc(Patterns(b[1..]), Gap, rest);
      }
      GroupsStep(b[0], t);
      GroupsOfPatterns(b[1..], rest);
      assert b == [b[0]] + b[1..];
    }
  }

  lemma GroupsStep(x: Bit, t: seq<Bit>)
    ensures Groups(Pattern(x) + t) == [x] + Groups(t)
  {
    var s := Pattern(x) + t;
    assert s[..4] == Pattern(x) && s[4..] == t;
  }

  /** A capture of `z` zero bits, the patterns of `b` and of the sync zero,
      then the gap: the receiver accepts exactly when `b` has 21 to 24
      bits, pads missing leading bits with zeros, and otherwise leaves the
      decoded groups unpadded. */
  lemma ReceiveCapture(z: nat, b: seq<Bit>, rest: seq<Bit>)
    ensures var p := TryParseBits(Zeros(z) + Patterns(b + [0]) + Gap + rest);
      p.Ok?
      && p.value.ok == (21 <= |b| <= 24)
      && p.value.logical == (if p.value.ok then Zeros(24 - |b|) + b + [0] else b + [0])
  {
    var c := b + [0];
    var body := Patterns(c) + Gap + rest;
    var physical := Zeros(z) + Patterns(c) + Gap + rest;
    assert physical == Zeros(z) + body by {
      Assoc(Zeros(z), Patterns(c), Gap);
      Assoc(Zeros(z), Patterns(c) + Gap, rest);
    }
    assert body[0] == 1 by {
      Assoc(Patterns(c), Gap, rest);
      PatternsHead(c, Gap + rest);
    }
    StripZerosPrefix(z, body);
    GroupsOfPatterns(c, rest);
    assert c[|c| - 1] == 0;
    assert TryParseBits(physical) == Ok(AcceptGroups(c));
    if 21 <= |b| <= 24 {
      Assoc(Zeros(24 - |b|), b, [0]);
    }
  }

  /** Patterns start with a one bit. */
  lemma PatternsHead(c: seq<Bit>, t: seq<Bit>)
    requires |c| > 0
    ensures (Patterns(c) + t)[0] == 1
  {
    assert Patterns(c) == Pattern(c[0]) + Patterns(c[1..]);
  }

  /** Leading zero bits do not change a value. */
  lemma ZerosPrefixValue(k: nat, b: seq<Bit>)
    ensures BitsValue(Zeros(k) + b) == BitsValue(b)
  {
    BitsValueAppend(Zeros(k), b);
    ZerosValue(k);
  }

  /** A capture that lost up to three leading zero logical bits still
      yields three bytes whose big-endian value is the value of the bits
      that arrived. */
  lemma ReceiveShortCapture(z: nat, b: seq<Bit>, rest: seq<Bit>)
    requires 21 <= |b| <= 24
    ensures var r := ReceivePacket(Zeros(z) + Patterns(b + [0]) + Gap + rest);
      r.Ok? && |r.value.bytes| == 3 && FromBytesBig(r.value.bytes) == BitsValue(b)
  {
    ReceiveCapture(z, b, rest);
    var logical := Zeros(24 - |b|) + b + [0];
    assert logical[..24] == Zeros(24 - |b|) + b;
    LemmaModUnique(24, 8, 3, 0);
    FromBytesOfPack(logical[..24]);
    ZerosPrefixValue(24 - |b|, b);
  }

  /** Round trip between the two scripts: the receiver gets back exactly
      the data bytes the transmitter encoded when there are three of them,
      and reports failure for any other count (8n + 1 logical bits lie
      between 22 and 25 only for n = 3). */
  lemma ReceiveTransmitted(data: seq<Byte>)
    ensures var r := ReceivePacket(TransmitBits(data));
      r.Ok?
      && r.value.logical == BytesBits(data) + [0]
      && r.value.bytes == (if |data| == 3 then data else [])
  {
    TransmitBitsCapture(data);
    ReceiveDataCapture(data);
  }

  lemma ReceiveDataCapture(data: seq<Byte>)
    ensures var r := ReceivePacket(Zeros(16) + Patterns(BytesBits(data) + [0]) + Gap + Zeros(16));
      r.Ok?
      && r.value.logical == BytesBits(data) + [0]
      && r.value.bytes == (if |data| == 3 then data else [])
  {
    var b := BytesBits(data);
    var physical := Zeros(16) + Patterns(b + [0]) + Gap + Zeros(16);
    ReceiveCapture(16, b, Zeros(16));
    var p := TryParseBits(physical).value;
    assert p.ok == (|data| == 3) by {
      ByteCount(|data|);
    }
    if |data| == 3 {
      assert p.logical == b + [0] by {
        assert Zeros(24 - |b|) + b == b;
      }
      BytesOfLogical(data);
    }
    ReceiveOf(physical, p);
  }

  lemma ByteCount(n: nat)
    ensures (21 <= 8 * n <= 24) == (n == 3)
  {
  }

  /** The transmitter's bit list is a capture in the receiver's sense:
      zero lead-in, the patterns of the data bits and the sync zero, the
      gap, zero tail. */
  lemma TransmitBitsCapture(data: seq<Byte>)
    ensures TransmitBits(data) == Zeros(16) + Patterns(BytesBits(data) + [0]) + Gap + Zeros(16)
  {
    var b := BytesBits(data);
    PatternsAppend(b, [0]);
    assert Patterns([0]) == Low;
    Assoc(Zeros(16), Patterns(b), Low);
  }

  lemma ReceiveOf(physical: seq<Bit>, p: BitsParse)
    requires TryParseBits(physical) == Ok(p)
    ensures ReceivePacket(physical) == Ok(Received(p.logical, if p.ok then TryParseBytes(p.logical).1 else []))
  {
  }

  /** The three bytes come back from their bits and the sync zero. */
  lemma BytesOfLogical(data: seq<Byte>)
    requires |data| == 3
    ensures TryParseBytes(BytesBits(data) + [0]).1 == data
  {
    var logical := BytesBits(data) + [0];
    assert logical[..24] == BytesBits(data);
    PackBytesOfBytesBits(data);
  }
}
