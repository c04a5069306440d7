/** The numeric setters and getters of `Cc1101Configurator`: data rate,
    channel spacing, receiver bandwidth, frequency deviation and base
    frequency, on top of the exact exponent/mantissa arithmetic of Rates. */
module Codecs {
  import opened Bits
  import opened Results
  import opened PySeq
  import opened Rounding
  import opened Registers
  import opened Rates
  import opened Fields

  // ---- (256 + M) * 2^E pairs: data rate and channel spacing ----

  /** An exponent field and a whole mantissa register; one unit of the pair
      is `fosc / scale`. */
  datatype MantPair = MantPair(ef: BitField, mreg: nat, scale: real)

  predicate ValidPair(p: MantPair) {
    ValidField(p.ef) && p.mreg < NumRegisters && p.mreg != p.ef.reg && p.scale > 0.0
  }

  /** DRATE_E is MDMCFG4[3:0], DRATE_M is MDMCFG3, unit fosc / 2^28. */
  const DataRatePair := MantPair(BitField(MDMCFG4, 0, 4), MDMCFG3, 268435456.0)

  /** CHANSPC_E is MDMCFG1[1:0], CHANSPC_M is MDMCFG0, unit fosc / 2^18. */
  const SpacingPair := MantPair(BitField(MDMCFG1, 0, 2), MDMCFG0, 262144.0)

  function PairSetting(c: Configurator, p: MantPair): ExpMant
    requires ValidPair(p)
  {
    ExpMant(GetField(c.regs, p.ef), c.regs[p.mreg])
  }

  /** The exact value the pair encodes: `(256 + M) * fosc / scale * 2^E`. */
  function PairValue(c: Configurator, p: MantPair): real
    requires ValidPair(p)
  {
    Value256(PairSetting(c, p), c.fosc as real, p.scale)
  }

  /** `reg = (reg & ~mask) | E` followed by `mreg = M`. */
  function WritePair(c: Configurator, p: MantPair, em: ExpMant): (r: Configurator)
    requires ValidPair(p) && 0 <= em.e < Pow2(p.ef.width) && 0 <= em.m <= 255
    ensures PairSetting(r, p) == em
    ensures OnlyChanged(c, r, map[p.ef.reg := p.ef, p.mreg := Whole(p.mreg)])
  {
    SetFieldProperties(c.regs, p.ef, em.e);
    AgreeThenWhole(c.regs, SetField(c.regs, p.ef, em.e), map[p.ef.reg := p.ef], p.mreg, em.m);
    c.(regs := SetField(c.regs, p.ef, em.e)[p.mreg := em.m])
  }

  /** The exact data rate the registers encode. */
  function DataRateExact(c: Configurator): real {
    PairValue(c, DataRatePair)
  }

  /** `get_data_rate_baud`. */
  function DataRateBaud(c: Configurator): int {
    RoundHalfEven(DataRateExact(c))
  }

  /** `set_data_rate_baud`: a non-positive rate fails in `math.log2`; a rate
      whose exponent does not fit DRATE_E (below about 24.8 baud or above
      about 1.62 Mbaud at 26 MHz) is refused; otherwise the registers encode
      the rate to within 1/512 and nothing else changes. */
  function SetDataRateBaud(c: Configurator, rate: int): (r: Result<Configurator>)
    ensures rate <= 0 ==> r == Err(ValueError)
    ensures r.Ok? <==> 0 < rate && 1023 * c.fosc <= rate * 1073741824 && rate * 16384 < 1023 * c.fosc
    ensures 0 < rate && r.Err? ==> r.error == FieldOverflow
    ensures r.Ok? ==> Abs(DataRateExact(r.value) - rate as real) <= rate as real / 512.0
    ensures r.Ok? ==> OnlyChanged(c, r.value, map[MDMCFG4 := BitField(MDMCFG4, 0, 4), MDMCFG3 := Whole(MDMCFG3)])
  {
    if rate <= 0 then Err(ValueError)
    else
      var em := Mant256(rate as real, c.fosc as real, 268435456.0);
      DataRateRange(rate, c.fosc);
      assert Pow2(4) == 16;
      if 0 <= em.e <= 15 then Ok(WritePair(c, DataRatePair, em)) else Err(FieldOverflow)
  }

  /** The data-rate exponent fits DRATE_E exactly on the stated rate range. */
  lemma DataRateRange(rate: int, fosc: int)
    requires rate > 0 && fosc > 0
    ensures var e := Mant256(rate as real, fosc as real, 268435456.0).e;
      0 <= e <= 15 <==> 1023 * fosc <= rate * 1073741824 && rate * 16384 < 1023 * fosc
  {
    Mant256Probe(rate as real, fosc as real, 268435456.0, 0, 1.0);
    Mant256Probe(rate as real, fosc as real, 268435456.0, 16, 65536.0);
  }

  /** Reading back a rate just written gives it to within 1/512 plus the
      final rounding. */
  lemma DataRateRoundTrip(c: Configurator, rate: int)
    requires 0 < rate && 1023 * c.fosc <= rate * 1073741824 && rate * 16384 < 1023 * c.fosc
    ensures Abs(DataRateBaud(SetDataRateBaud(c, rate).value) as real - rate as real) <= rate as real / 512.0 + 0.5
  {
    var x := DataRateExact(SetDataRateBaud(c, rate).value);
    assert Abs(RoundHalfEven(x) as real - x) <= 0.5;
  }

  /** The exact channel spacing the registers encode. */
  function ChannelSpacingExact(c: Configurator): real {
    PairValue(c, SpacingPair)
  }

  /** `get_channel_spacing_hz`. */
  function ChannelSpacingHz(c: Configurator): int {
    RoundHalfEven(ChannelSpacingExact(c))
  }

  /** `set_channel_spacing_hz`: as the data rate, with a 2-bit exponent and
      unit fosc / 2^18. */
  function SetChannelSpacingHz(c: Configurator, spacing: int): (r: Result<Configurator>)
    ensures spacing <= 0 ==> r == Err(ValueError)
    ensures r.Ok? <==> 0 < spacing && 1023 * c.fosc <= spacing * 1048576 && spacing * 65536 < 1023 * c.fosc
    ensures 0 < spacing && r.Err? ==> r.error == FieldOverflow
    ensures r.Ok? ==> Abs(ChannelSpacingExact(r.value) - spacing as real) <= spacing as real / 512.0
    ensures r.Ok? ==> OnlyChanged(c, r.value, map[MDMCFG1 := BitField(MDMCFG1, 0, 2), MDMCFG0 := Whole(MDMCFG0)])
  {
    if spacing <= 0 then Err(ValueError)
    else
      var em := Mant256(spacing as real, c.fosc as real, 262144.0);
      SpacingRange(spacing, c.fosc);
      assert Pow2(2) == 4;
      if 0 <= em.e <= 3 then Ok(WritePair(c, SpacingPair, em)) else Err(FieldOverflow)
  }

  /** The spacing exponent fits CHANSPC_E exactly on the stated range. */
  lemma SpacingRange(spacing: int, fosc: int)
    requires spacing > 0 && fosc > 0
    ensures var e := Mant256(spacing as real, fosc as real, 262144.0).e;
      0 <= e <= 3 <==> 1023 * fosc <= spacing * 1048576 && spacing * 65536 < 1023 * fosc
  {
    Mant256Probe(spacing as real, fosc as real, 262144.0, 0, 1.0);
    Mant256Probe(spacing as real, fosc as real, 262144.0, 4, 16.0);
  }

  lemma ChannelSpacingRoundTrip(c: Configurator, spacing: int)
    requires 0 < spacing && 1023 * c.fosc <= spacing * 1048576 && spacing * 65536 < 1023 * c.fosc
    ensures Abs(ChannelSpacingHz(SetChannelSpacingHz(c, spacing).value) as real - spacing as real) <= spacing as real / 512.0 + 0.5
  {
    var x := ChannelSpacingExact(SetChannelSpacingHz(c, spacing).value);
    assert Abs(RoundHalfEven(x) as real - x) <= 0.5;
  }

  // ---- Receiver channel filter bandwidth (MDMCFG4[7:4]) ----

  const RxbwEField := BitField(MDMCFG4, 6, 2)
  const RxbwMField := BitField(MDMCFG4, 4, 2)

  /** CHANBW_E and CHANBW_M together: the high nibble of MDMCFG4. */
  const RxbwField := BitField(MDMCFG4, 4, 4)

  /** The exact bandwidth `fosc / (8 * (4 + M) * 2^E)` the registers select. */
  function BandwidthExact(c: Configurator): real {
    BwValue(GetField(c.regs, RxbwMField), Exp2(GetField(c.regs, RxbwEField)), c.fosc as real)
  }

  /** `get_receiver_bandwidth_hz`. */
  function ReceiverBandwidthHz(c: Configurator): int {
    RoundHalfEven(BandwidthExact(c))
  }

  /** `set_receiver_bandwidth_hz` as the source writes it: E is
      `floor(log2(fosc / (8 * bw)) - 2)`, M is `round(fosc / (8 * bw) / 2^E - 4)`,
      and `(E << 6) | (M << 4)` is OR-ed into the cleared high nibble, which
      then holds `(E * 4) | M`. M can round up to 4 and there is no carry, so
      that 4 lands in the exponent bits. */
  function SetReceiverBandwidthAsWritten(c: Configurator, bw: int): (r: Result<Configurator>)
    ensures bw == 0 ==> r == Err(ZeroDivisionError)
    ensures bw < 0 ==> r == Err(ValueError)
    ensures r.Ok? <==> 0 < bw && 32 * bw <= c.fosc < 512 * bw
    ensures 0 < bw && r.Err? ==> r.error == FieldOverflow
    ensures r.Ok? ==> OnlyChanged(c, r.value, map[MDMCFG4 := RxbwField])
  {
    if bw == 0 then Err(ZeroDivisionError)
    else if bw < 0 then Err(ValueError)
    else
      var f := c.fosc as real;
      var e := BwExponent(f, bw as real);
      AsWrittenRange(bw, c.fosc);
      if 0 <= e <= 3 then
        Ok(SetUnchecked(c, RxbwField, AsWrittenNibble(f, bw as real)))
      else
        Err(FieldOverflow)
  }

  /** The uncarried exponent fits CHANBW_E exactly for `32 * bw <= fosc < 512 * bw`. */
  lemma AsWrittenRange(bw: int, fosc: int)
    requires bw > 0 && fosc > 0
    ensures var e := BwExponent(fosc as real, bw as real);
      0 <= e <= 3 <==> 32 * bw <= fosc < 512 * bw
  {
    FloorLog2AtLeast(fosc as real, 8.0 * bw as real, 2, 4.0);
    FloorLog2AtLeast(fosc as real, 8.0 * bw as real, 6, 64.0);
  }

  /** `(E << 2) | M` for a 2-bit E and a mantissa that may have rounded up
      to 4: below 4 the OR is addition; a 4 lands on bit 2, the low bit of
      E, where it is absorbed when that bit is already set. */
  function NibbleOr(e: int, m: int): (n: nat)
    requires 0 <= e <= 3 && 0 <= m <= 4
    ensures n < 16
    ensures m <= 3 ==> n == e * 4 + m
    ensures m == 4 ==> n == (if e % 2 == 1 then e * 4 else e * 4 + 4)
  {
    if m <= 3 then
      assert Pow2(2) == 4;
      OrDisjoint(e, 2, m);
      Or(e * 4, m)
    else
      assert Or(0, 4) == 4 && Or(4, 4) == 4 && Or(8, 4) == 12 && Or(12, 4) == 12;
      Or(e * 4, m)
  }

  /** The nibble the as-written setter stores. */
  function AsWrittenNibble(f: real, bw: real): (n: nat)
    requires f > 0.0 && bw > 0.0 && 0 <= BwExponent(f, bw) <= 3
    ensures n < 16
  {
    var e := BwExponent(f, bw);
    var m := BwMantissa(f, bw, e);
    BwApprox(f, bw, e, m);
    NibbleOr(e, m)
  }

  /** `set_receiver_bandwidth_hz` with the carry it evidently intends: a
      mantissa of 4 becomes 0 with the next exponent. It succeeds exactly for
      `30 * bw <= fosc < 480 * bw` and then selects a bandwidth within 1/8 of
      the request. */
  function SetReceiverBandwidthHz(c: Configurator, bw: int): (r: Result<Configurator>)
    ensures bw == 0 ==> r == Err(ZeroDivisionError)
    ensures bw < 0 ==> r == Err(ValueError)
    ensures r.Ok? <==> 0 < bw && 30 * bw <= c.fosc < 480 * bw
    ensures 0 < bw && r.Err? ==> r.error == FieldOverflow
    ensures r.Ok? ==> Abs(BandwidthExact(r.value) - bw as real) <= bw as real / 8.0
    ensures r.Ok? ==> OnlyChanged(c, r.value, map[MDMCFG4 := RxbwField])
  {
    if bw == 0 then Err(ZeroDivisionError)
    else if bw < 0 then Err(ValueError)
    else
      var em := BwEncode(c.fosc as real, bw as real);
      BandwidthRange(bw, c.fosc);
      if 0 <= em.e <= 3 then
        assert Pow2(4) == 16;
        var r := SetUnchecked(c, RxbwField, em.e * 4 + em.m);
        NibbleSplit(r.regs[MDMCFG4]);
        Ok(r)
      else
        Err(FieldOverflow)
  }

  /** The carried exponent fits CHANBW_E exactly for `30 * bw <= fosc < 480 * bw`. */
  lemma BandwidthRange(bw: int, fosc: int)
    requires bw > 0 && fosc > 0
    ensures var e := BwEncode(fosc as real, bw as real).e;
      0 <= e <= 3 <==> 30 * bw <= fosc < 480 * bw
  {
    BwEncodeProbe(fosc as real, bw as real, 0, 1.0);
    BwEncodeProbe(fosc as real, bw as real, 4, 16.0);
  }

  /** The high nibble of a byte splits into CHANBW_E (its top two bits) and
      CHANBW_M (its low two bits). */
  lemma NibbleSplit(b: Byte)
    ensures FieldBits(b, RxbwEField) == FieldBits(b, RxbwField) / 4
    ensures FieldBits(b, RxbwMField) == FieldBits(b, RxbwField) % 4
  {
    assert Pow2(2) == 4 && Pow2(4) == 16 && Pow2(6) == 64;
    LemmaModUnique(b, 16, b / 16, b % 16);
    LemmaModUnique(b / 16, 4, (b / 16) / 4, (b / 16) % 4);
    LemmaModUnique(b, 64, (b / 16) / 4, ((b / 16) % 4) * 16 + b % 16);
    LemmaModUnique(b / 16, 16, 0, b / 16);
    LemmaModUnique(b / 64, 4, 0, b / 64);
  }

  /** Reading back a bandwidth just written gives it to within 1/8 plus the
      final rounding. */
  lemma BandwidthRoundTrip(c: Configurator, bw: int)
    requires 0 < bw && 30 * bw <= c.fosc < 480 * bw
    ensures Abs(ReceiverBandwidthHz(SetReceiverBandwidthHz(c, bw).value) as real - bw as real) <= bw as real / 8.0 + 0.5
  {
    var x := BandwidthExact(SetReceiverBandwidthHz(c, bw).value);
    assert Abs(RoundHalfEven(x) as real - x) <= 0.5;
  }

  /** At 26 MHz a request for 210 kHz gives E = 1 and M = round(3.74) = 4;
      without the carry the register reads back as E = 1, M = 0, i.e.
      406250 Hz, almost twice the request. */
  lemma BandwidthCarryMissing(c: Configurator)
    requires c.fosc == 26000000
    ensures SetReceiverBandwidthAsWritten(c, 210000).Ok?
    ensures ReceiverBandwidthHz(SetReceiverBandwidthAsWritten(c, 210000).value) == 406250
    ensures Abs(BandwidthExact(SetReceiverBandwidthAsWritten(c, 210000).value) - 210000.0) > 210000.0 / 8.0
  {
    CounterexampleSteps();
    var r := SetUnchecked(c, RxbwField, 4);
    BandwidthOfNibble(r);
    assert BandwidthExact(r) == 406250.0 by {
      assert BandwidthExact(r) == 26000000.0 / (8.0 * Mul(4.0, 2.0));
    }
    RoundNear(406250.0, 406250);
  }

  /** Whenever the source's mantissa fits two bits, the as-written setter
      agrees with the corrected one on every input, failures included. */
  lemma BandwidthAsWrittenAgrees(c: Configurator, bw: int)
    requires bw <= 0 || BwMantissa(c.fosc as real, bw as real, BwExponent(c.fosc as real, bw as real)) <= 3
    ensures SetReceiverBandwidthAsWritten(c, bw) == SetReceiverBandwidthHz(c, bw)
  {
    if bw > 0 {
      var f := c.fosc as real;
      var e := BwExponent(f, bw as real);
      BwApprox(f, bw as real, e, BwMantissa(f, bw as real, e));
      assert BwEncode(f, bw as real) == ExpMant(e, BwMantissa(f, bw as real, e));
    }
  }

  /** When the source's mantissa rounds up to 4, the as-written setter
      succeeds and stores `NibbleOr(E, 4)`. For an even E that is the carried
      pair, so it agrees with the corrected setter; for an odd E it reads back
      as exponent E with mantissa 0, twice the carried bandwidth and more than
      3/4 of the request above it. */
  lemma BandwidthAsWrittenCarry(c: Configurator, bw: int)
    requires 0 < bw && 32 * bw <= c.fosc < 512 * bw
    requires BwMantissa(c.fosc as real, bw as real, BwExponent(c.fosc as real, bw as real)) == 4
    ensures var e := BwExponent(c.fosc as real, bw as real);
      var r := SetReceiverBandwidthAsWritten(c, bw);
      && r.Ok?
      && GetField(r.value.regs, RxbwField) == NibbleOr(e, 4)
      && (r == SetReceiverBandwidthHz(c, bw) <==> e % 2 == 0)
      && (e % 2 == 1 ==> BandwidthExact(r.value) == BwValue(0, Exp2(e), c.fosc as real))
      && (e % 2 == 1 ==> BandwidthExact(r.value) - bw as real >= 3.0 * bw as real / 4.0)
  {
    var f := c.fosc as real;
    var e := BwExponent(f, bw as real);
    AsWrittenRange(bw, c.fosc);
    BwApprox(f, bw as real, e, 4);
    if e % 2 == 0 {
      assert BwEncode(f, bw as real) == ExpMant(e + 1, 0);
      assert SetReceiverBandwidthHz(c, bw) == Ok(SetUnchecked(c, RxbwField, (e + 1) * 4 + 0));
    } else {
      BandwidthAsWrittenOdd(c, bw, e);
    }
  }

  /** The odd-exponent half of `BandwidthAsWrittenCarry`. */
  lemma BandwidthAsWrittenOdd(c: Configurator, bw: int, e: int)
    requires 0 < bw && 32 * bw <= c.fosc < 512 * bw
    requires e == BwExponent(c.fosc as real, bw as real) && e % 2 == 1
    requires BwMantissa(c.fosc as real, bw as real, e) == 4
    ensures var r := SetReceiverBandwidthAsWritten(c, bw);
      && r.Ok?
      && r != SetReceiverBandwidthHz(c, bw)
      && BandwidthExact(r.value) == BwValue(0, Exp2(e), c.fosc as real)
      && BandwidthExact(r.value) - bw as real >= 3.0 * bw as real / 4.0
  {
    var f := c.fosc as real;
    AsWrittenRange(bw, c.fosc);
    BwApprox(f, bw as real, e, 4);
    var r := SetReceiverBandwidthAsWritten(c, bw);
    assert GetField(r.value.regs, RxbwField) == e * 4;
    BandwidthOfNibble(r.value);
    CarryDoubles(f, e);
    if e <= 2 {
      assert GetField(SetReceiverBandwidthHz(c, bw).value.regs, RxbwField) == (e + 1) * 4;
    }
  }

  /** Mantissa 0 at exponent e is twice mantissa 0 at exponent e + 1. */
  lemma CarryDoubles(f: real, e: int)
    requires e >= 0
    ensures BwValue(0, Exp2(e), f) == 2.0 * BwValue(0, Exp2(e + 1), f)
  {
    assert Exp2(e + 1) == 2.0 * Exp2(e);
    assert Mul(4.0, Exp2(e + 1)) == 2.0 * Mul(4.0, Exp2(e));
  }

  /** The bandwidth read back from a CHANBW nibble `n`: exponent `n / 4`, mantissa `n % 4`. */
  lemma BandwidthOfNibble(c: Configurator)
    ensures var n := GetField(c.regs, RxbwField);
      BandwidthExact(c) == BwValue(n % 4, Exp2(n / 4), c.fosc as real)
  {
    NibbleSplit(c.regs[MDMCFG4]);
  }

  /** The exponent and mantissa the source computes for 210 kHz at 26 MHz. */
  lemma CounterexampleSteps()
    ensures BwExponent(26000000.0, 210000.0) == 1
    ensures BwMantissa(26000000.0, 210000.0, 1) == 4
    ensures AsWrittenNibble(26000000.0, 210000.0) == 4 && Exp2(1) == 2.0
  {
    assert Exp2(3) == 8.0 && Exp2(4) == 16.0 && Exp2(1) == 2.0;
    FloorLog2Exact(26000000.0, 8.0 * 210000.0, 3);
    RoundNear(Ratio(26000000.0, 8.0 * 210000.0, 1.0, Exp2(1)) - 4.0, 4);
  }

  // ---- Frequency deviation (DEVIATN) ----

  const DevEField := BitField(DEVIATN, 4, 3)
  const DevMField := BitField(DEVIATN, 0, 3)

  /** `get_deviation_hz`: `(8 + M) * fosc / 2^17 * 2^E`, left unrounded. */
  function DeviationHz(c: Configurator): real {
    DevValue(GetField(c.regs, DevMField), Exp2(GetField(c.regs, DevEField)), c.fosc as real)
  }

  /** `(E << 4) | M` for 3-bit E and M: E lands in DEVIATION_E, M in
      DEVIATION_M, and the two reserved bits are clear. */
  function DevByte(e: int, m: int): (b: Byte)
    requires 0 <= e <= 7 && 0 <= m <= 7
    ensures FieldBits(b, DevEField) == e && FieldBits(b, DevMField) == m
    ensures b == 16 * e + m
  {
    assert Pow2(4) == 16 && Pow2(3) == 8;
    OrDisjoint(e, 4, m);
    LemmaModUnique(16 * e + m, 16, e, m);
    LemmaModUnique(16 * e + m, 8, 2 * e, m);
    Or(e * 16, m)
  }

  /** `set_deviation_hz`: a non-positive deviation fails in `math.log2`; an
      exponent outside DEVIATION_E is refused; otherwise the truncated
      mantissa puts the encoded deviation at or below the request, by less
      than 1/8 of it, and only DEVIATN changes. */
  function SetDeviationHz(c: Configurator, dev: int): (r: Result<Configurator>)
    ensures dev <= 0 ==> r == Err(ValueError)
    ensures r.Ok? <==> 0 < dev && c.fosc <= dev * 16384 && dev * 64 < c.fosc
    ensures 0 < dev && r.Err? ==> r.error == FieldOverflow
    ensures r.Ok? ==> DeviationHz(r.value) <= dev as real < DeviationHz(r.value) + dev as real / 8.0
    ensures r.Ok? ==> r.value.regs[DEVIATN] == 16 * GetField(r.value.regs, DevEField) + GetField(r.value.regs, DevMField)
    ensures r.Ok? ==> OnlyChanged(c, r.value, map[DEVIATN := Whole(DEVIATN)])
  {
    if dev <= 0 then Err(ValueError)
    else
      var f := c.fosc as real;
      var e := DevExponent(f, dev as real);
      DeviationRange(dev, c.fosc);
      if 0 <= e <= 7 then
        var m := DevMantissa(f, dev as real, e);
        DevApprox(f, dev as real, e, m);
        SetWholeProperties(c.regs, DEVIATN, DevByte(e, m));
        Ok(c.(regs := c.regs[DEVIATN := DevByte(e, m)]))
      else
        Err(FieldOverflow)
  }

  /** The deviation exponent fits DEVIATION_E exactly for
      `fosc / 2^14 <= dev < fosc / 2^6`. */
  lemma DeviationRange(dev: int, fosc: int)
    requires dev > 0 && fosc > 0
    ensures var e := DevExponent(fosc as real, dev as real);
      0 <= e <= 7 <==> fosc <= dev * 16384 && dev * 64 < fosc
  {
    var e := DevExponent(fosc as real, dev as real);
    assert Exp2(8) == 256.0;
    FloorLog2AtLeast(dev as real * 16384.0, fosc as real, 0, 1.0);
    FloorLog2AtLeast(dev as real * 16384.0, fosc as real, 8, 256.0);
    assert e >= 0 <==> fosc as real <= dev as real * 16384.0;
    assert e >= 8 <==> 256.0 * fosc as real <= dev as real * 16384.0;
  }

  // ---- Base frequency (FREQ2, FREQ1, FREQ0) ----

  /** The 24-bit frequency word `FREQ2:FREQ1:FREQ0`, big-endian. */
  function FrequencyWord(c: Configurator): nat {
    FromBytesBig(c.regs[FREQ2..FREQ0 + 1])
  }

  /** `get_base_frequency_hz`: `round(word * fosc / 2^16)`. */
  function BaseFrequencyHz(c: Configurator): int {
    FrequencyOfWord(FrequencyWord(c), c.fosc)
  }

  /** `round(word * fosc / 2^16)`. */
  function FrequencyOfWord(w: nat, fosc: Hz): int {
    RoundHalfEven(w as real * fosc as real / 65536.0)
  }

  /** The frequency word the setter computes: `round(freq * 2^16 / fosc)`. */
  function FrequencyWordFor(freq: int, fosc: Hz): int {
    RoundHalfEven(freq as real * 65536.0 / fosc as real)
  }

  /** `set_base_frequency_hz`: the word `round(freq * 2^16 / fosc)` is
      stored big-endian in FREQ2..FREQ0; `to_bytes(3, 'big')` raises
      OverflowError when it is negative or needs more than 24 bits. Only the
      three frequency registers change, and they then hold the word. */
  function SetBaseFrequencyHz(c: Configurator, freq: int): (r: Result<Configurator>)
    ensures r.Ok? <==> 0 <= FrequencyWordFor(freq, c.fosc) < 16777216
    ensures r.Err? ==> r.error == OverflowError
    ensures r.Ok? ==> FrequencyWord(r.value) == FrequencyWordFor(freq, c.fosc)
    ensures r.Ok? ==> OnlyChanged(c, r.value, WholeRange(FREQ2, 3))
  {
    var w := FrequencyWordFor(freq, c.fosc);
    if 0 <= w < 16777216 then Ok(StoreFrequencyWord(c, w)) else Err(OverflowError)
  }

  /** `regs[FREQ2:FREQ0 + 1] = list(w.to_bytes(3, 'big'))` for a word that fits. */
  function StoreFrequencyWord(c: Configurator, w: nat): (r: Configurator)
    requires w < 16777216
    ensures FrequencyWord(r) == w
    ensures OnlyChanged(c, r, WholeRange(FREQ2, 3))
  {
    Pow2Of24();
    var bytes := ToBytesBig(w, 3);
    SliceWholeProperties(c.regs, FREQ2, bytes);
    c.(regs := SliceAssign(c.regs, FREQ2, FREQ2 + |bytes|, bytes))
  }

  lemma Pow2Of24()
    ensures Pow2(8 * 3) == 16777216
  {
    assert Pow2(8) == 256;
    Pow2Add(8, 8);
    Pow2Add(16, 8);
  }

  /** The setter succeeds exactly for `-fosc / 2^17 <= freq < (2^24 - 1/2) * fosc / 2^16`. */
  lemma BaseFrequencyRange(c: Configurator, freq: int)
    ensures SetBaseFrequencyHz(c, freq).Ok? <==>
      -(c.fosc as int) <= freq * 131072 && freq * 131072 < 33554431 * c.fosc
  {
    var y := freq as real * 65536.0 / c.fosc as real;
    RoundAtLeast(y, 0);
    RoundAtLeast(y, 16777216);
    WordBounds(freq as real, c.fosc as real, y);
  }

  lemma WordBounds(freq: real, fosc: real, y: real)
    requires fosc > 0.0 && y == freq * 65536.0 / fosc
    ensures y >= -0.5 <==> -fosc <= freq * 131072.0
    ensures y < 16777215.5 <==> freq * 131072.0 < 33554431.0 * fosc
  {
    assert y * fosc == freq * 65536.0;
    if y < -0.5 {
      MulLtReal(y, -0.5, fosc);
    } else {
      MulLeReal(-0.5, y, fosc);
    }
    if y < 16777215.5 {
      MulLtReal(y, 16777215.5, fosc);
    } else {
      MulLeReal(16777215.5, y, fosc);
    }
  }

  /** Reading back a frequency just written gives it to within half a
      synthesizer step `fosc / 2^16`, plus the final rounding. */
  lemma BaseFrequencyRoundTrip(c: Configurator, freq: int)
    requires -(c.fosc as int) <= freq * 131072 && freq * 131072 < 33554431 * c.fosc
    ensures SetBaseFrequencyHz(c, freq).Ok?
    ensures SetBaseFrequencyHz(c, freq).Ok? &&
      Abs(BaseFrequencyHz(SetBaseFrequencyHz(c, freq).value) as real - freq as real) <= c.fosc as real / 131072.0 + 0.5
  {
    assert SetBaseFrequencyHz(c, freq).Ok? by {
      BaseFrequencyRange(c, freq);
    }
    var r := SetBaseFrequencyHz(c, freq).value;
    assert Abs(BaseFrequencyHz(r) as real - freq as real) <= c.fosc as real / 131072.0 + 0.5 by {
      assert FrequencyWord(r) == FrequencyWordFor(freq, c.fosc) && r.fosc == c.fosc;
      ReadbackBound(r, freq);
    }
  }

  lemma ReadbackBound(r: Configurator, freq: int)
    requires FrequencyWord(r) == FrequencyWordFor(freq, r.fosc)
    ensures Abs(BaseFrequencyHz(r) as real - freq as real) <= r.fosc as real / 131072.0 + 0.5
  {
    FrequencyReadback(FrequencyWord(r), r.fosc, freq);
  }

  /** The frequency the setter's word stands for, rounded, is within half a
      synthesizer step plus one half of the request. */
  lemma FrequencyReadback(w: nat, fosc: Hz, freq: int)
    requires w == FrequencyWordFor(freq, fosc)
    ensures Abs(FrequencyOfWord(w, fosc) as real - freq as real) <= fosc as real / 131072.0 + 0.5
  {
    var x := w as real * fosc as real / 65536.0;
    var b := fosc as real / 131072.0;
    assert Abs(x - freq as real) <= b by {
      FrequencyWordError(freq, fosc);
    }
    FrequencyOfWordIs(w, fosc, x);
    RoundWithin(x, freq as real, b);
  }

  lemma FrequencyOfWordIs(w: nat, fosc: Hz, x: real)
    requires x == w as real * fosc as real / 65536.0
    ensures FrequencyOfWord(w, fosc) == RoundHalfEven(x)
  {
  }

  /** The word the setter computes stands for a frequency within half a
      synthesizer step of the request. */
  lemma FrequencyWordError(freq: int, fosc: Hz)
    ensures Abs(FrequencyWordFor(freq, fosc) as real * fosc as real / 65536.0 - freq as real) <= fosc as real / 131072.0
  {
    var y := freq as real * 65536.0 / fosc as real;
    WordError(freq as real, fosc as real, y, FrequencyWordFor(freq, fosc) as real);
  }

  /** A word within one half of `y = freq * 2^16 / fosc` stands for a
      frequency within `fosc / 2^17` of `freq`. */
  lemma WordError(freq: real, fosc: real, y: real, w: real)
    requires fosc > 0.0 && y == freq * 65536.0 / fosc && Abs(w - y) <= 0.5
    ensures Abs(w * fosc / 65536.0 - freq) <= fosc / 131072.0
  {
    assert y * fosc == freq * 65536.0;
    HalfScaled(w - y, fosc, w * fosc - freq * 65536.0);
  }

  /** Reading the base frequency and writing it back leaves the registers as
      they were, provided one synthesizer step `fosc / 2^16` exceeds 1 Hz. */
  lemma BaseFrequencyFixedPoint(c: Configurator)
    requires c.fosc > 65536
    ensures SetBaseFrequencyHz(c, BaseFrequencyHz(c)) == Ok(c)
  {
    var w := FrequencyWord(c);
    var F := BaseFrequencyHz(c);
    WordBack(w, c.fosc, F);
    assert FrequencyWordFor(F, c.fosc) == w;
    var bytes := c.regs[FREQ2..FREQ0 + 1];
    ToBytesOfFromBytes(bytes);
    Pow2Of24();
    assert ToBytesBig(w, 3) == bytes;
    assert c.regs[..FREQ2] + bytes + c.regs[FREQ2 + 3..] == c.regs;
  }

  /** The frequency read from word `w` converts back to `w`. */
  lemma WordBack(w: nat, fosc: Hz, F: int)
    requires fosc > 65536 && F == FrequencyOfWord(w, fosc)
    ensures FrequencyWordFor(F, fosc) == w
  {
    var f := fosc as real;
    var t := w as real * f / 65536.0;
    var y := F as real * 65536.0 / f;
    assert Abs(F as real - t) <= 0.5;
    assert y * f == F as real * 65536.0;
    assert t * 65536.0 == w as real * f;
    MulSign(y - w as real - 0.5, f, y * f - w as real * f - 0.5 * f);
    MulSign(w as real - y - 0.5, f, w as real * f - y * f - 0.5 * f);
    RoundNear(y, w);
  }

  /** `|e| <= 1/2` scales to `|e * k| <= k / 2`. */
  lemma HalfScaled(e: real, k: real, p: real)
    requires k > 0.0 && -0.5 <= e <= 0.5 && p == e * k
    ensures -0.5 * k <= p <= 0.5 * k
  {
    MulLeReal(e, 0.5, k);
    assert e * k <= 0.5 * k;
    MulLeReal(-0.5, e, k);
    assert -0.5 * k <= e * k;
  }
}
