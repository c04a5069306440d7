/** The KIA EV6 key-fob receiver script: the fob sends its 24-byte payload
    five times back to back; the radio is set to a fixed length of 136 bytes
    so that one reception holds the first payload (whose preamble and sync
    word the radio consumed) and four more repetitions, each behind 4 bytes
    of preamble and sync word. The script takes the first 24 bytes, counts
    how many later slots repeat them, and Manchester-decodes the payload. */
module Kia {
  import opened Bits
  import PySeq
  import Results
  import Controller

  /** `payload_length`: the fob's payload in bytes. */
  const PayloadLength := 24

  /** Distance between two repetitions: 2 preamble bytes, 2 sync word bytes
      and the payload. */
  const Stride := 4 + PayloadLength

  /** The fixed packet length the script configures: one cut-off payload and
      four complete repetitions. */
  const CaptureLength := 136

  /** `get_payload`: the first 24 bytes (fewer if the packet is shorter). */
  function GetPayload(p: Controller.Packet): (r: seq<Byte>)
    ensures r <= p.payload
    ensures |r| == if |p.payload| < PayloadLength then |p.payload| else PayloadLength
  {
    PySeq.Slice(p.payload, 0, PayloadLength)
  }

  /** Slot `i` of the packet (bytes `28i .. 28i+24`, clamped as Python does)
      repeats the payload. */
  predicate Repeats(p: Controller.Packet, i: nat)
  {
    PySeq.Slice(p.payload, i * Stride, i * Stride + PayloadLength) == GetPayload(p)
  }

  /** For each slot 1 to 5, whether it repeats the payload: the outcomes of
      the five comparisons of the loop, in order. */
  function Slots(p: Controller.Packet): (r: seq<bool>)
    ensures |r| == 5
    ensures forall j :: 0 <= j < 5 ==> r[j] == Repeats(p, j + 1)
  {
    seq(5, j requires 0 <= j < 5 => Repeats(p, j + 1))
  }

  /** The counter `quality += 1` run over the comparison outcomes. */
  function Count(flags: seq<bool>): (r: nat)
    ensures r <= |flags|
    ensures r == |flags| <==> forall j :: 0 <= j < |flags| ==> flags[j]
  {
    if |flags| == 0 then 0 else (if flags[0] then 1 else 0) + Count(flags[1..])
  }

  /** `check_payload_quality`: how many of the slots 1 to 5 repeat the
      payload. Five slots are compared although the configured capture only
      holds four repetitions. */
  function CheckPayloadQuality(p: Controller.Packet): (r: nat)
    ensures r <= 5
    ensures r == 5 <==> forall j :: 1 <= j <= 5 ==> Repeats(p, j)
  {
    var r := Count(Slots(p));
    assert (forall j :: 0 <= j < 5 ==> Slots(p)[j]) <==> (forall j :: 1 <= j <= 5 ==> Repeats(p, j)) by {
      if forall j :: 0 <= j < 5 ==> Slots(p)[j] {
        forall j | 1 <= j <= 5 ensures Repeats(p, j) {
          assert Slots(p)[j - 1];
        }
      }
    }
    r
  }

  /** The counter is the number of comparisons that succeeded. */
  lemma {:induction false} CountIsMultiplicity(flags: seq<bool>)
    ensures Count(flags) == multiset(flags)[true]
  {
    if |flags| > 0 {
      CountIsMultiplicity(flags[1..]);
      assert flags == [flags[0]] + flags[1..];
    }
  }

  /** The quality is the number of the comparisons of slots 1 to 5 with the
      payload that succeed. */
  lemma QualityCountsSlots(p: Controller.Packet)
    ensures CheckPayloadQuality(p) == multiset(Slots(p))[true]
  {
    CountIsMultiplicity(Slots(p));
  }

  /** The byte stream the fob produces as the radio captures it: the first
      payload, then per repetition its 4 header bytes and the payload again. */
  function Repetitions(payload: seq<Byte>, headers: seq<seq<Byte>>): (r: seq<Byte>)
  {
    if |headers| == 0 then [] else headers[0] + payload + Repetitions(payload, headers[1..])
  }

  /** Length of the repetitions: a stride per repetition. */
  lemma {:induction false} RepetitionsLength(payload: seq<Byte>, headers: seq<seq<Byte>>)
    requires |payload| == PayloadLength
    requires forall k :: 0 <= k < |headers| ==> |headers[k]| == 4
    ensures |Repetitions(payload, headers)| == Stride * |headers|
  {
    if |headers| > 0 {
      RepetitionsLength(payload, headers[1..]);
    }
  }

  /** Repetition `k` sits at `28k + 4` within the repetitions. */
  lemma {:induction false} RepetitionAt(payload: seq<Byte>, headers: seq<seq<Byte>>, k: nat)
    requires |payload| == PayloadLength
    requires forall k :: 0 <= k < |headers| ==> |headers[k]| == 4
    requires k < |headers|
    ensures |Repetitions(payload, headers)| == Stride * |headers|
    ensures Repetitions(payload, headers)[Stride * k + 4..Stride * k + Stride] == payload
  {
    RepetitionsLength(payload, headers);
    var r := Repetitions(payload, headers);
    var rest := Repetitions(payload, headers[1..]);
    assert r == (headers[0] + payload) + rest;
    if k > 0 {
      RepetitionAt(payload, headers[1..], k - 1);
      assert r[Stride * k + 4..Stride * k + Stride] == rest[Stride * (k - 1) + 4..Stride * (k - 1) + Stride];
    }
  }

  /** Slot `k + 1` of a capture made of a payload and its repetitions holds
      repetition `k`. */
  lemma CaptureSlot(payload: seq<Byte>, headers: seq<seq<Byte>>, k: nat)
    requires |payload| == PayloadLength
    requires forall k :: 0 <= k < |headers| ==> |headers[k]| == 4
    requires k < |headers|
    ensures Repeats(Controller.Packet(payload + Repetitions(payload, headers), Results.None, Results.None, Results.None, false), k + 1)
  {
    RepetitionAt(payload, headers, k);
    var all := payload + Repetitions(payload, headers);
    assert all[..PayloadLength] == payload;
    var i := (k + 1) * Stride;
    assert all[i..i + PayloadLength] == Repetitions(payload, headers)[Stride * k + 4..Stride * k + Stride];
  }

  /** A 136-byte capture of a fob that repeats its payload scores 4, the
      maximum the script's log line announces: slots 1 to 4 repeat the
      payload and slot 5 lies beyond the capture. */
  lemma QualityOfCapture(payload: seq<Byte>, headers: seq<seq<Byte>>)
    requires |payload| == PayloadLength && |headers| == 4
    requires forall k :: 0 <= k < |headers| ==> |headers[k]| == 4
    ensures |payload + Repetitions(payload, headers)| == CaptureLength
    ensures CheckPayloadQuality(Controller.Packet(payload + Repetitions(payload, headers), Results.None, Results.None, Results.None, false)) == 4
  {
    var p := Controller.Packet(payload + Repetitions(payload, headers), Results.None, Results.None, Results.None, false);
    RepetitionsLength(payload, headers);
    forall k | 0 <= k < 4 ensures Slots(p)[k] {
      CaptureSlot(payload, headers, k);
    }
    QualityBelowFive(p);
    CountFour(Slots(p));
  }

  lemma CountFour(flags: seq<bool>)
    requires |flags| == 5 && !flags[4]
    requires forall j :: 0 <= j < 4 ==> flags[j]
    ensures Count(flags) == 4
  {
    assert flags == [true, true, true, true, false];
    CountIsMultiplicity(flags);
  }

  /** With a full payload, slot 5 can only repeat it in a packet of at least
      164 bytes; any shorter packet scores at most 4. An empty packet scores
      5, since every slot is then empty like its payload. */
  lemma QualityBelowFive(p: Controller.Packet)
    ensures PayloadLength <= |p.payload| < 5 * Stride + PayloadLength ==>
      !Repeats(p, 5) && CheckPayloadQuality(p) <= 4
    ensures |p.payload| == 0 ==> CheckPayloadQuality(p) == 5
  {
    if PayloadLength <= |p.payload| < 5 * Stride + PayloadLength {
      assert |PySeq.Slice(p.payload, 5 * Stride, 5 * Stride + PayloadLength)| < PayloadLength;
    }
  }

  /** `raw_binary`: the payload's bytes as eight binary digits each, most
      significant first, without the first digit. */
  function RawBinary(payload: seq<Byte>): (r: seq<Bit>)
    ensures |r| == if |payload| == 0 then 0 else 8 * |payload| - 1
    ensures |payload| > 0 ==> PackBytes([BytesBits(payload)[0]] + r) == payload
  {
    var b := BytesBits(payload);
    if |b| == 0 then []
    else
      assert [b[0]] + b[1..] == b;
      PackBytesOfBytesBits(payload);
      b[1..]
  }

  /** The pair loop: `01` gives 0, `10` gives 1, `00`, `11` and a trailing
      single digit give nothing. */
  function Halves(raw: seq<Bit>): (r: seq<Bit>)
    ensures |r| <= |raw| / 2
    decreases |raw|
  {
    if |raw| < 2 then []
    else (if raw[..2] == [0, 1] then [0] else if raw[..2] == [1, 0] then [1] else []) + Halves(raw[2..])
  }

  /** Manchester encoding as the fob sends it: 0 as `01`, 1 as `10`. */
  function ManchesterEncode(bits: seq<Bit>): (r: seq<Bit>)
    ensures |r| == 2 * |bits|
  {
    if |bits| == 0 then [] else (if bits[0] == 0 then [0, 1] else [1, 0]) + ManchesterEncode(bits[1..])
  }

  /** Decoding the pairs undoes the encoding, whatever single digit trails. */
  lemma {:induction false} HalvesOfEncode(bits: seq<Bit>, tail: seq<Bit>)
    requires |tail| <= 1
    ensures Halves(ManchesterEncode(bits) + tail) == bits
  {
    if |bits| > 0 {
      var pair: seq<Bit> := if bits[0] == 0 then [0, 1] else [1, 0];
      var s := ManchesterEncode(bits) + tail;
      assert s == pair + (ManchesterEncode(bits[1..]) + tail);
      assert s[..2] == pair && s[2..] == ManchesterEncode(bits[1..]) + tail;
      HalvesOfEncode(bits[1..], tail);
      assert bits == [bits[0]] + bits[1..];
    } else {
      assert ManchesterEncode(bits) + tail == tail;
    }
  }

  /** Decoding works pair by pair: a prefix of even length decodes on its own. */
  lemma {:induction false} HalvesAppend(a: seq<Bit>, b: seq<Bit>)
    requires |a| % 2 == 0
    ensures Halves(a + b) == Halves(a) + Halves(b)
    decreases |a|
  {
    if |a| > 0 {
      var s := a + b;
      assert s[..2] == a[..2] && s[2..] == a[2..] + b;
      HalvesAppend(a[2..], b);
    } else {
      assert a + b == b;
    }
  }

  /** An invalid pair (`00` or `11`) is skipped without a trace. */
  lemma HalvesSkipsInvalid(x: Bit, rest: seq<Bit>)
    ensures Halves([x, x] + rest) == Halves(rest)
  {
    HalvesAppend([x, x], rest);
  }

  lemma {:induction false} Pow2Monotone(a: nat, b: nat)
    requires a <= b
    ensures Pow2(a) <= Pow2(b)
    decreases b
  {
    if a < b {
      Pow2Monotone(a, b - 1);
    }
  }

  /** `int(m[i:i+8], 2)` for `i` in steps of 8: groups of eight bits, most
      significant first, the last group possibly shorter. */
  function Group8(bits: seq<Bit>): (r: seq<Byte>)
    ensures |r| == (|bits| + 7) / 8
    decreases |bits|
  {
    if |bits| == 0 then []
    else
      var g := if |bits| <= 8 then bits else bits[..8];
      Pow2Monotone(|g|, 8);
      assert BitsValue(g) < Pow2(8) == 256;
      [BitsValue(g)] + (if |bits| <= 8 then [] else Group8(bits[8..]))
  }

  /** On whole bytes the grouping is the usual packing, so it inverts the
      bits of a byte string. */
  lemma {:induction false} Group8Aligned(bits: seq<Bit>)
    requires |bits| % 8 == 0
    ensures Group8(bits) == PackBytes(bits)
    decreases |bits|
  {
    if |bits| > 8 {
      Group8Aligned(bits[8..]);
    } else if |bits| == 8 {
      assert bits[..8] == bits && bits[8..] == [];
    }
  }

  /** A short tail becomes one final byte holding its value. */
  lemma {:induction false} Group8Tail(bits: seq<Bit>, tail: seq<Bit>)
    requires |bits| % 8 == 0 && 0 < |tail| < 8
    ensures Group8(bits + tail) == PackBytes(bits) + [BitsValue(tail)]
    decreases |bits|
  {
    if |bits| > 0 {
      var s := bits + tail;
      assert s[..8] == bits[..8] && s[8..] == bits[8..] + tail;
      Group8Tail(bits[8..], tail);
    } else {
      assert bits + tail == tail;
    }
  }

  /** `manchester_decode`. */
  function ManchesterDecode(payload: seq<Byte>): (r: seq<Byte>)
    ensures |payload| > 0 ==> |Halves(RawBinary(payload))| <= 4 * |payload| - 1
    ensures |r| <= |payload| / 2 + 1
  {
    Group8(Halves(RawBinary(payload)))
  }

  /** A payload whose bit stream is one leading digit, a Manchester-encoded
      message and at most one trailing digit decodes to the message grouped
      into bytes; for the fob's 24 bytes that is 95 bits, eleven whole bytes
      and a twelfth holding the last seven bits. */
  lemma ManchesterRoundTrip(payload: seq<Byte>, lead: Bit, message: seq<Bit>, tail: seq<Bit>)
    requires |tail| <= 1
    requires BytesBits(payload) == [lead] + ManchesterEncode(message) + tail
    ensures ManchesterDecode(payload) == Group8(message)
    ensures |payload| == PayloadLength ==> |message| == 95 && |ManchesterDecode(payload)| == 12
  {
    var encoded := ManchesterEncode(message) + tail;
    assert RawBinary(payload) == encoded by {
      assert BytesBits(payload) == [lead] + encoded;
    }
    HalvesOfEncode(message, tail);
    FobMessageLength(|payload|, |message|, |tail|);
  }

  /** Lengths: `8n` digits are one leading digit, two per message bit and
      at most one trailing digit. */
  lemma FobMessageLength(n: nat, m: nat, t: nat)
    requires t <= 1 && 8 * n == 1 + 2 * m + t
    ensures n == PayloadLength ==> m == 95 && (m + 7) / 8 == 12
  {
  }

  /** The fob's 24-byte payload decodes to twelve bytes: eleven hold
      message bits 0..87 eight at a time, and the twelfth holds the last
      seven bits as a value below 128. */
  lemma FobDecodeLayout(payload: seq<Byte>, lead: Bit, message: seq<Bit>, tail: seq<Bit>)
    requires |payload| == PayloadLength && |tail| <= 1
    requires BytesBits(payload) == [lead] + ManchesterEncode(message) + tail
    ensures |message| == 95
    ensures ManchesterDecode(payload) == PackBytes(message[..88]) + [BitsValue(message[88..])]
    ensures ManchesterDecode(payload)[11] < 128
  {
    ManchesterRoundTrip(payload, lead, message, tail);
    assert message[..88] + message[88..] == message;
    Group8Tail(message[..88], message[88..]);
    assert Pow2(7) == 128 by {
      assert Pow2(1) == 2 && Pow2(2) == 4 && Pow2(3) == 8 && Pow2(4) == 16;
      assert Pow2(5) == 32 && Pow2(6) == 64;
    }
  }
}
