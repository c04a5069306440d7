/** The discrete field accessors of `Cc1101Configurator`: enumerations and
    flags that are one bit group of one register, the preamble-length table,
    the GDO pin configuration, and the two setters with side effects on other
    registers (modulation format and packet format). */
module Fields {
  import opened Bits
  import opened Results
  import opened PySeq
  import opened Registers

  const SyncModeField := BitField(MDMCFG2, 0, 3)
  const ManchesterField := BitField(MDMCFG2, 3, 1)
  const ModulationField := BitField(MDMCFG2, 4, 3)
  /** MDMCFG2 bit 7, which the source's FEC accessors use. In the CC1101
      register map this bit is DEM_DCFILT_OFF, the demodulator's DC
      blocking filter switch. */
  const DcFilterOffField := BitField(MDMCFG2, 7, 1)
  /** MDMCFG1 bit 7, FEC_EN in the CC1101 register map. */
  const FecField := BitField(MDMCFG1, 7, 1)
  const LengthModeField := BitField(PKTCTRL0, 0, 2)
  const CrcEnableField := BitField(PKTCTRL0, 2, 1)
  const PacketFormatField := BitField(PKTCTRL0, 4, 2)
  const WhiteningField := BitField(PKTCTRL0, 6, 1)
  const AddressCheckField := BitField(PKTCTRL1, 0, 2)
  const AppendStatusField := BitField(PKTCTRL1, 2, 1)
  const CrcAutoFlushField := BitField(PKTCTRL1, 3, 1)
  const PreambleField := BitField(MDMCFG1, 4, 3)
  const FocGateField := BitField(FOCCFG, 5, 1)
  const FocPreKField := BitField(FOCCFG, 3, 2)
  const FocPostKField := BitField(FOCCFG, 2, 1)
  const FocLimitField := BitField(FOCCFG, 0, 2)
  const AgcFilterLengthField := BitField(AGCCTRL0, 0, 2)
  const AgcFreezeField := BitField(AGCCTRL0, 2, 2)
  const AgcWaitTimeField := BitField(AGCCTRL0, 4, 2)
  const AgcHystLevelField := BitField(AGCCTRL0, 6, 2)
  const CsAbsThresholdField := BitField(AGCCTRL1, 0, 4)
  const CsRelThresholdField := BitField(AGCCTRL1, 4, 2)
  const LnaPriorityField := BitField(AGCCTRL1, 6, 1)
  const MagnTargetField := BitField(AGCCTRL2, 0, 3)
  const MaxLnaGainField := BitField(AGCCTRL2, 3, 3)
  const MaxDvgaGainField := BitField(AGCCTRL2, 6, 2)

  lemma Pow2Small()
    ensures Pow2(1) == 2 && Pow2(2) == 4 && Pow2(3) == 8 && Pow2(4) == 16
    ensures Pow2(5) == 32 && Pow2(6) == 64 && Pow2(7) == 128 && Pow2(8) == 256
  {
  }

  /** A setter guarded by `assert lo <= v <= hi` in front of a plain field
      write, where the asserted range is exactly the range of the field. */
  function SetChecked(c: Configurator, f: BitField, v: int): (r: Result<Configurator>)
    requires ValidField(f)
    ensures r.Ok? <==> 0 <= v < Pow2(f.width)
    ensures r.Err? ==> r.error == AssertionError
    ensures r.Ok? ==> GetField(r.value.regs, f) == v && OnlyChanged(c, r.value, map[f.reg := f])
  {
    if 0 <= v < Pow2(f.width) then
      SetFieldProperties(c.regs, f, v);
      Ok(c.(regs := SetField(c.regs, f, v)))
    else
      Err(AssertionError)
  }

  /** An unchecked setter `reg = (reg & ~mask) | (v << shift)`, for a value
      that fits the field. */
  function SetUnchecked(c: Configurator, f: BitField, v: nat): (r: Configurator)
    requires ValidField(f) && v < Pow2(f.width)
    ensures GetField(r.regs, f) == v && OnlyChanged(c, r, map[f.reg := f])
  {
    SetFieldProperties(c.regs, f, v);
    c.(regs := SetField(c.regs, f, v))
  }

  /** A flag setter `reg = (reg & ~(1 << shift)) | (enable << shift)`. */
  function SetFlag(c: Configurator, f: BitField, enable: bool): (r: Configurator)
    requires ValidField(f) && f.width == 1
    ensures (GetField(r.regs, f) == 1) == enable && OnlyChanged(c, r, map[f.reg := f])
  {
    SetUnchecked(c, f, if enable then 1 else 0)
  }

  // ---- Byte synchronization (MDMCFG2, SYNC1/SYNC0) ----

  function SyncMode(c: Configurator): nat {
    GetField(c.regs, SyncModeField)
  }

  function SetSyncMode(c: Configurator, mode: int): (r: Result<Configurator>)
    ensures r.Ok? <==> 0 <= mode <= 7
    ensures r.Err? ==> r.error == AssertionError
    ensures r.Ok? ==> SyncMode(r.value) == mode && OnlyChanged(c, r.value, map[MDMCFG2 := SyncModeField])
  {
    Pow2Small();
    SetChecked(c, SyncModeField, mode)
  }

  /** `registers[SYNC1:SYNC0+1]`. */
  function SyncWord(c: Configurator): seq<Byte> {
    Slice(c.regs, SYNC1, SYNC0 + 1)
  }

  /** `registers[SYNC1:SYNC0+1] = sync_word` for a two-byte word. */
  function SetSyncWord(c: Configurator, word: seq<Byte>): (r: Configurator)
    requires |word| == 2
    ensures SyncWord(r) == word
    ensures OnlyChanged(c, r, map[SYNC1 := Whole(SYNC1), SYNC0 := Whole(SYNC0)])
  {
    SliceAssignPair(c.regs, SYNC1, word);
    SetTwoWholeProperties(c.regs, SYNC1, SYNC0, word[0], word[1]);
    c.(regs := SliceAssign(c.regs, SYNC1, SYNC0 + 1, word))
  }

  // ---- Packet control (PKTCTRL0, PKTCTRL1, PKTLEN, ADDR) ----

  /** The footprint of whole registers `i .. i + n - 1`. */
  function WholeRange(i: nat, n: nat): map<nat, BitField> {
    map k | i <= k < i + n :: Whole(k)
  }

  /** Slice-assigning `data` over as many registers overwrites exactly those
      registers, which then read back `data`. */
  lemma SliceWholeProperties(regs: RegisterFile, i: nat, data: seq<Byte>)
    requires i + |data| <= NumRegisters
    ensures |SliceAssign(regs, i, i + |data|, data)| == NumRegisters
    ensures SliceAssign(regs, i, i + |data|, data)[i..i + |data|] == data
    ensures AgreeOutside(regs, SliceAssign(regs, i, i + |data|, data), WholeRange(i, |data|))
  {
    var r := SliceAssign(regs, i, i + |data|, data);
    assert r == regs[..i] + data + regs[i + |data|..];
    assert Pow2(8) == 256;
    forall k | 0 <= k < NumRegisters
      ensures if k in WholeRange(i, |data|) then ClearField(regs[k], Whole(k)) == ClearField(r[k], Whole(k)) else regs[k] == r[k]
    {
      if k < i {
        assert r[k] == regs[..i][k];
      } else if k >= i + |data| {
        assert r[k] == regs[i + |data|..][k - i - |data|];
      } else {
        assert ClearField(regs[k], Whole(k)) == 0 == ClearField(r[k], Whole(k));
      }
    }
  }

  function WhiteningEnabled(c: Configurator): bool {
    GetField(c.regs, WhiteningField) == 1
  }

  function SetWhiteningEnabled(c: Configurator, enable: bool): (r: Configurator)
    ensures WhiteningEnabled(r) == enable && OnlyChanged(c, r, map[PKTCTRL0 := WhiteningField])
  {
    SetFlag(c, WhiteningField, enable)
  }

  /** The preamble lengths indexed by MDMCFG1.NUM_PREAMBLE. */
  const PreambleLengths: seq<nat> := [2, 3, 4, 6, 8, 12, 16, 24]

  /** Python's `list.index`: the position of the first occurrence. */
  function IndexOf(s: seq<nat>, x: nat): (i: nat)
    requires x in s
    ensures i < |s| && s[i] == x && x !in s[..i]
  {
    if s[0] == x then 0
    else
      assert s == [s[0]] + s[1..];
      var j := IndexOf(s[1..], x);
      assert s[..j + 1] == [s[0]] + s[1..][..j];
      j + 1
  }

  function PreambleLengthBytes(c: Configurator): nat {
    Pow2Small();
    PreambleLengths[GetField(c.regs, PreambleField)]
  }

  function SetPreambleLengthBytes(c: Configurator, length: int): (r: Result<Configurator>)
    ensures r.Ok? <==> length in {2, 3, 4, 6, 8, 12, 16, 24}
    ensures r.Err? ==> r.error == ValueError
    ensures r.Ok? ==> PreambleLengthBytes(r.value) == length
    ensures r.Ok? ==> OnlyChanged(c, r.value, map[MDMCFG1 := PreambleField])
  {
    if length >= 0 && length in PreambleLengths then
      Pow2Small();
      Ok(SetUnchecked(c, PreambleField, IndexOf(PreambleLengths, length)))
    else
      Err(ValueError)
  }

  function PacketLengthMode(c: Configurator): nat {
    GetField(c.regs, LengthModeField)
  }

  function SetPacketLengthMode(c: Configurator, mode: nat): (r: Configurator)
    requires mode <= 3
    ensures PacketLengthMode(r) == mode && OnlyChanged(c, r, map[PKTCTRL0 := LengthModeField])
  {
    Pow2Small();
    SetUnchecked(c, LengthModeField, mode)
  }

  function PacketLength(c: Configurator): Byte {
    c.regs[PKTLEN]
  }

  function SetPacketLength(c: Configurator, length: Byte): (r: Configurator)
    ensures PacketLength(r) == length && OnlyChanged(c, r, map[PKTLEN := Whole(PKTLEN)])
  {
    SetWholeProperties(c.regs, PKTLEN, length);
    c.(regs := c.regs[PKTLEN := length])
  }

  function CrcEnabled(c: Configurator): bool {
    GetField(c.regs, CrcEnableField) == 1
  }

  function SetCrcEnabled(c: Configurator, enable: bool): (r: Configurator)
    ensures CrcEnabled(r) == enable && OnlyChanged(c, r, map[PKTCTRL0 := CrcEnableField])
  {
    SetFlag(c, CrcEnableField, enable)
  }

  function AddressCheckMode(c: Configurator): nat {
    GetField(c.regs, AddressCheckField)
  }

  function SetAddressCheckMode(c: Configurator, mode: nat): (r: Configurator)
    requires mode <= 3
    ensures AddressCheckMode(r) == mode && OnlyChanged(c, r, map[PKTCTRL1 := AddressCheckField])
  {
    Pow2Small();
    SetUnchecked(c, AddressCheckField, mode)
  }

  function DeviceAddress(c: Configurator): Byte {
    c.regs[ADDR]
  }

  function SetDeviceAddress(c: Configurator, address: Byte): (r: Configurator)
    ensures DeviceAddress(r) == address && OnlyChanged(c, r, map[ADDR := Whole(ADDR)])
  {
    SetWholeProperties(c.regs, ADDR, address);
    c.(regs := c.regs[ADDR := address])
  }

  function CrcAutoFlush(c: Configurator): bool {
    GetField(c.regs, CrcAutoFlushField) == 1
  }

  function SetCrcAutoFlush(c: Configurator, enable: bool): (r: Configurator)
    ensures CrcAutoFlush(r) == enable && OnlyChanged(c, r, map[PKTCTRL1 := CrcAutoFlushField])
  {
    SetFlag(c, CrcAutoFlushField, enable)
  }

  function AppendStatusEnabled(c: Configurator): bool {
    GetField(c.regs, AppendStatusField) == 1
  }

  function SetAppendStatusEnabled(c: Configurator, enable: bool): (r: Configurator)
    ensures AppendStatusEnabled(r) == enable && OnlyChanged(c, r, map[PKTCTRL1 := AppendStatusField])
  {
    SetFlag(c, AppendStatusField, enable)
  }

  /** `get_fec_enable` as written: it reads MDMCFG2 bit 7. */
  function FecEnabledAsWritten(c: Configurator): bool {
    GetField(c.regs, DcFilterOffField) == 1
  }

  /** `set_fec_enable` as written: it writes MDMCFG2 bit 7. */
  function SetFecEnabledAsWritten(c: Configurator, enable: bool): (r: Configurator)
    ensures FecEnabledAsWritten(r) == enable && OnlyChanged(c, r, map[MDMCFG2 := DcFilterOffField])
  {
    SetFlag(c, DcFilterOffField, enable)
  }

  /** The setter as written never reaches the FEC_EN bit: enabling FEC
      leaves MDMCFG1 as it was and switches the DC blocking filter off
      instead. */
  lemma FecAsWrittenMissesFecBit(c: Configurator, enable: bool)
    ensures GetField(SetFecEnabledAsWritten(c, enable).regs, FecField) == GetField(c.regs, FecField)
    ensures (GetField(SetFecEnabledAsWritten(c, enable).regs, DcFilterOffField) == 1) == enable
  {
    assert SetFecEnabledAsWritten(c, enable).regs[MDMCFG1] == c.regs[MDMCFG1];
  }

  function FecEnabled(c: Configurator): bool {
    GetField(c.regs, FecField) == 1
  }

  /** FEC switched through FEC_EN (MDMCFG1 bit 7). */
  function SetFecEnabled(c: Configurator, enable: bool): (r: Configurator)
    ensures FecEnabled(r) == enable && OnlyChanged(c, r, map[MDMCFG1 := FecField])
  {
    SetFlag(c, FecField, enable)
  }

  /** Switching FEC on or off leaves the DC blocking filter setting and the
      rest of the modem configuration in MDMCFG2 alone. */
  lemma FecKeepsDcFilter(c: Configurator, enable: bool)
    ensures SetFecEnabled(c, enable).regs[MDMCFG2] == c.regs[MDMCFG2]
    ensures GetField(SetFecEnabled(c, enable).regs, DcFilterOffField) == GetField(c.regs, DcFilterOffField)
  {
    assert SetFecEnabled(c, enable).regs[MDMCFG2] == c.regs[MDMCFG2];
  }

  // ---- Frequency offset compensation (FOCCFG) ----

  datatype FocSetting = FocSetting(gate: nat, preK: nat, postK: nat, limit: nat)

  function FocSettings(c: Configurator): FocSetting {
    FocSetting(GetField(c.regs, FocGateField), GetField(c.regs, FocPreKField),
               GetField(c.regs, FocPostKField), GetField(c.regs, FocLimitField))
  }

  /** FOCCFG is overwritten as a whole with `(gate << 5) | (preK << 3) |
      (postK << 2) | limit`; for in-range arguments the four groups are
      disjoint, so the OR is a sum. */
  function SetFocSettings(c: Configurator, gate: nat, preK: nat, postK: nat, limit: nat): (r: Configurator)
    requires gate <= 1 && preK <= 3 && postK <= 1 && limit <= 3
    ensures FocSettings(r) == FocSetting(gate, preK, postK, limit)
    ensures GetField(r.regs, BitField(FOCCFG, 6, 2)) == 0
    ensures OnlyChanged(c, r, map[FOCCFG := Whole(FOCCFG)])
  {
    var v := gate * 32 + preK * 8 + postK * 4 + limit;
    Pow2Small();
    FocPack(gate, preK, postK, limit);
    SetWholeProperties(c.regs, FOCCFG, v);
    c.(regs := c.regs[FOCCFG := v])
  }

  lemma FocPack(gate: nat, preK: nat, postK: nat, limit: nat)
    requires gate <= 1 && preK <= 3 && postK <= 1 && limit <= 3
    ensures var v := gate * 32 + preK * 8 + postK * 4 + limit;
      v < 64 && (v / 32) % 2 == gate && (v / 8) % 4 == preK && (v / 4) % 2 == postK && v % 4 == limit && (v / 64) % 4 == 0
  {
    var v := gate * 32 + preK * 8 + postK * 4 + limit;
    LemmaModUnique(v, 32, gate, preK * 8 + postK * 4 + limit);
    LemmaModUnique(v, 8, gate * 4 + preK, postK * 4 + limit);
    LemmaModUnique(gate * 4 + preK, 4, gate, preK);
    LemmaModUnique(v, 4, gate * 8 + preK * 2 + postK, limit);
    LemmaModUnique(gate * 8 + preK * 2 + postK, 2, gate * 4 + preK, postK);
    LemmaModUnique(v, 64, 0, v);
  }

  // ---- GDO pins (IOCFG2..IOCFG0) ----

  /** The register `registers[IOCFG2 + (2 - n)]` refers to for pin `n`, with
      Python's negative indexing. */
  function GdoRegister(n: int): (r: Result<nat>)
    ensures r.Ok? <==> -44 <= n <= 49
    ensures r.Err? ==> r.error == IndexError
    ensures r.Ok? ==> r.value < NumRegisters
  {
    Index(IOCFG2 + (2 - n), NumRegisters)
  }

  /** Pins 0, 1, 2 are IOCFG0, IOCFG1, IOCFG2; pin 3 wraps around to the last
      register, TEST0. */
  lemma GdoRegisterOfPin(n: int)
    ensures n == 0 ==> GdoRegister(n) == Ok(IOCFG0)
    ensures n == 1 ==> GdoRegister(n) == Ok(IOCFG1)
    ensures n == 2 ==> GdoRegister(n) == Ok(IOCFG2)
    ensures n == 3 ==> GdoRegister(n) == Ok(TEST0)
  {
  }

  function GdoConfigField(i: nat): BitField {
    BitField(i, 0, 6)
  }

  function GdoInvertedField(i: nat): BitField {
    BitField(i, 6, 1)
  }

  function GdoConfig(c: Configurator, n: int): Result<nat> {
    var i :- GdoRegister(n);
    Ok(GetField(c.regs, GdoConfigField(i)))
  }

  function SetGdoConfig(c: Configurator, n: int, config: Byte): (r: Result<Configurator>)
    ensures r.Ok? <==> -44 <= n <= 49
    ensures r.Err? ==> r.error == IndexError
    ensures r.Ok? ==> var i := GdoRegister(n).value;
      r.value.regs[i] == config && OnlyChanged(c, r.value, map[i := Whole(i)])
    ensures 0 <= n <= 2 ==> r.Ok? && GdoConfig(r.value, n) == Ok(config % 64)
  {
    var i :- GdoRegister(n);
    Pow2Small();
    SetWholeProperties(c.regs, i, config);
    Ok(c.(regs := c.regs[i := config]))
  }

  function GdoInverted(c: Configurator, n: int): Result<bool> {
    var i :- GdoRegister(n);
    Ok(GetField(c.regs, GdoInvertedField(i)) == 1)
  }

  function SetGdoInverted(c: Configurator, n: int, inverted: bool): (r: Result<Configurator>)
    ensures r.Ok? <==> -44 <= n <= 49
    ensures r.Err? ==> r.error == IndexError
    ensures r.Ok? ==> GdoInverted(r.value, n) == Ok(inverted)
    ensures r.Ok? ==> var i := GdoRegister(n).value;
      OnlyChanged(c, r.value, map[i := GdoInvertedField(i)])
  {
    var i :- GdoRegister(n);
    Ok(SetFlag(c, GdoInvertedField(i), inverted))
  }

  // ---- Modulation (MDMCFG2, FREND0) ----

  const Frend0Bit0 := BitField(FREND0, 0, 1)
  const Frend0Bit3 := BitField(FREND0, 3, 1)
  const Frend0Bits12 := BitField(FREND0, 1, 2)
  const Frend0Low := BitField(FREND0, 0, 4)

  function ModulationFormat(c: Configurator): nat {
    GetField(c.regs, ModulationField)
  }

  /** Writes MOD_FORMAT, then clears FREND0 bit 3 and, for ASK/OOK (format
      3), sets FREND0 bit 0 (PA power index 1). */
  function SetModulationFormat(c: Configurator, format: nat): (r: Configurator)
    requires format <= 7
    ensures ModulationFormat(r) == format
    ensures GetField(r.regs, Frend0Bit3) == 0
    ensures GetField(r.regs, Frend0Bit0) == if format == 3 then 1 else GetField(c.regs, Frend0Bit0)
    ensures GetField(r.regs, Frend0Bits12) == GetField(c.regs, Frend0Bits12)
    ensures OnlyChanged(c, r, map[MDMCFG2 := ModulationField, FREND0 := Frend0Low])
  {
    Pow2Small();
    var c1 := SetUnchecked(c, ModulationField, format);
    var c2 := SetUnchecked(c1, Frend0Bit3, 0);
    var r := if format == 3 then SetUnchecked(c2, Frend0Bit0, 1) else c2;
    Frend0Facts(c.regs[FREND0], format == 3);
    r
  }

  /** The FREND0 byte arithmetic of SetModulationFormat. */
  lemma Frend0Facts(b: Byte, setBit0: bool)
    ensures var b2 := WriteField(b, Frend0Bit3, 0);
      var b3 := if setBit0 then WriteField(b2, Frend0Bit0, 1) else b2;
      FieldBits(b3, Frend0Bit3) == 0 &&
      FieldBits(b3, Frend0Bit0) == (if setBit0 then 1 else FieldBits(b, Frend0Bit0)) &&
      FieldBits(b3, Frend0Bits12) == FieldBits(b, Frend0Bits12) &&
      ClearField(b3, Frend0Low) == ClearField(b, Frend0Low)
  {
    ClearBit3(b);
    if setBit0 {
      SetBit0(WriteField(b, Frend0Bit3, 0));
    }
  }

  /** `b` has high nibble `hi`, bit 3 `d3`, bits 2..1 `m` and bit 0 `b0`, as
      the FREND0 fields see it. */
  predicate Frend0Split(b: Byte, hi: int, d3: int, m: int, b0: int) {
    && FieldBits(b, Frend0Bit0) == b0
    && FieldBits(b, Frend0Bits12) == m
    && FieldBits(b, Frend0Bit3) == d3
    && ClearField(b, Frend0Low) == hi * 16
    && ClearField(b, Frend0Bit3) == b - d3 * 8
    && ClearField(b, Frend0Bit0) == b - b0
  }

  /** Every byte splits into its own digits. */
  lemma SplitByte(b: Byte)
    ensures b == (b / 16) * 16 + ((b / 8) % 2) * 8 + ((b / 2) % 4) * 2 + b % 2
    ensures Frend0Split(b, b / 16, (b / 8) % 2, (b / 2) % 4, b % 2)
  {
    LowNibble(b);
    LowFields(b);
  }

  /** The byte assembled from digits splits back into them. */
  lemma SplitOfDigits(b: Byte, hi: nat, d3: nat, m: nat, b0: nat)
    requires d3 <= 1 && m <= 3 && b0 <= 1 && b == hi * 16 + d3 * 8 + m * 2 + b0
    ensures Frend0Split(b, hi, d3, m, b0)
  {
    BitsOf(hi, d3, m, b0);
    LowFields(b);
  }

  lemma ClearBit3(b: Byte)
    ensures var b2 := WriteField(b, Frend0Bit3, 0);
      FieldBits(b2, Frend0Bit3) == 0 && FieldBits(b2, Frend0Bit0) == FieldBits(b, Frend0Bit0) &&
      FieldBits(b2, Frend0Bits12) == FieldBits(b, Frend0Bits12) &&
      ClearField(b2, Frend0Low) == ClearField(b, Frend0Low)
  {
    SplitByte(b);
    assert WriteField(b, Frend0Bit3, 0) == b - ((b / 8) % 2) * 8;
    SplitOfDigits(WriteField(b, Frend0Bit3, 0), b / 16, 0, (b / 2) % 4, b % 2);
  }

  lemma SetBit0(b: Byte)
    requires FieldBits(b, Frend0Bit3) == 0
    ensures var b3 := WriteField(b, Frend0Bit0, 1);
      FieldBits(b3, Frend0Bit3) == 0 && FieldBits(b3, Frend0Bit0) == 1 &&
      FieldBits(b3, Frend0Bits12) == FieldBits(b, Frend0Bits12) &&
      ClearField(b3, Frend0Low) == ClearField(b, Frend0Low)
  {
    SplitByte(b);
    assert Pow2(Frend0Bit0.shift) == 1;
    assert WriteField(b, Frend0Bit0, 1) == b - b % 2 + 1;
    SplitOfDigits(WriteField(b, Frend0Bit0, 1), b / 16, 0, (b / 2) % 4, 1);
  }

  /** The four FREND0 fields of a byte in plain arithmetic. */
  lemma LowFields(b: Byte)
    ensures FieldBits(b, Frend0Bit0) == b % 2 && FieldBits(b, Frend0Bits12) == (b / 2) % 4
    ensures FieldBits(b, Frend0Bit3) == (b / 8) % 2
    ensures ClearField(b, Frend0Bit3) == b - ((b / 8) % 2) * 8
    ensures ClearField(b, Frend0Bit0) == b - b % 2
    ensures ClearField(b, Frend0Low) == b - b % 16
  {
    Pow2Small();
    assert Pow2(0) == 1;
  }

  /** A byte split as `hi:4 | bit3 | bits2..1 | bit0`. */
  lemma LowNibble(b: Byte)
    ensures b == (b / 16) * 16 + ((b / 8) % 2) * 8 + ((b / 2) % 4) * 2 + b % 2
  {
  }

  lemma BitsOf(hi: nat, d3: nat, m: nat, b0: nat)
    requires d3 <= 1 && m <= 3 && b0 <= 1
    ensures var b := hi * 16 + d3 * 8 + m * 2 + b0;
      b % 2 == b0 && (b / 2) % 4 == m && (b / 8) % 2 == d3 && b - (b % 16) == hi * 16
  {
    var b := hi * 16 + d3 * 8 + m * 2 + b0;
    LemmaModUnique(b, 2, hi * 8 + d3 * 4 + m, b0);
    LemmaModUnique(hi * 8 + d3 * 4 + m, 4, hi * 2 + d3, m);
    LemmaModUnique(b, 8, hi * 2 + d3, m * 2 + b0);
    LemmaModUnique(hi * 2 + d3, 2, hi, d3);
    LemmaModUnique(b, 16, hi, d3 * 8 + m * 2 + b0);
  }

  function ManchesterEnabled(c: Configurator): bool {
    GetField(c.regs, ManchesterField) == 1
  }

  function SetManchesterEnabled(c: Configurator, enable: bool): (r: Configurator)
    ensures ManchesterEnabled(r) == enable && OnlyChanged(c, r, map[MDMCFG2 := ManchesterField])
  {
    SetFlag(c, ManchesterField, enable)
  }

  // ---- Channel number (CHANNR) ----

  function ChannelNumber(c: Configurator): Byte {
    c.regs[CHANNR]
  }

  function SetChannelNumber(c: Configurator, channel: int): (r: Result<Configurator>)
    ensures r.Ok? <==> 0 <= channel <= 255
    ensures r.Err? ==> r.error == AssertionError
    ensures r.Ok? ==> ChannelNumber(r.value) == channel && OnlyChanged(c, r.value, map[CHANNR := Whole(CHANNR)])
  {
    if 0 <= channel <= 255 then
      SetWholeProperties(c.regs, CHANNR, channel);
      Ok(c.(regs := c.regs[CHANNR := channel]))
    else
      Err(AssertionError)
  }

  // ---- Packet format (PKTCTRL0, GDO pins) ----

  function PacketFormat(c: Configurator): nat {
    GetField(c.regs, PacketFormatField)
  }

  /** GDO0 = sync word asserted (0x06) is what normal packet mode uses. */
  const GdoSyncWord: Byte := 0x06
  const GdoSerialClock: Byte := 0x0B
  const GdoSyncSerialData: Byte := 0x0C
  const GdoAsyncSerialData: Byte := 0x0D
  const GdoCarrierSense: Byte := 0x0E

  /** The GDO configuration a packet format selects before PKT_FORMAT is
      written: pin 0 for formats 0, 1 and 3, pin 2 for formats 1 and 3. */
  function PacketFormatPins(c: Configurator, format: nat): Configurator
    requires format <= 3
  {
    if format == 0 then SetGdoConfig(c, 0, GdoSyncWord).value
    else if format == 1 then SetGdoConfig(SetGdoConfig(c, 0, GdoSyncSerialData).value, 2, GdoSerialClock).value
    else if format == 3 then SetGdoConfig(SetGdoConfig(c, 0, GdoCarrierSense).value, 2, GdoAsyncSerialData).value
    else c
  }

  function SetPacketFormat(c: Configurator, format: int): (r: Result<Configurator>)
    ensures r.Ok? <==> 0 <= format <= 3
    ensures r.Err? ==> r.error == AssertionError
    ensures r.Ok? ==> PacketFormat(r.value) == format
    ensures r.Ok? && format == 0 ==> GdoConfig(r.value, 0) == Ok(0x06)
    ensures r.Ok? && format == 1 ==> GdoConfig(r.value, 0) == Ok(0x0C) && GdoConfig(r.value, 2) == Ok(0x0B)
    ensures r.Ok? && format == 3 ==> GdoConfig(r.value, 0) == Ok(0x0E) && GdoConfig(r.value, 2) == Ok(0x0D)
    ensures r.Ok? && format == 0 ==>
      OnlyChanged(c, r.value, map[PKTCTRL0 := PacketFormatField, IOCFG0 := Whole(IOCFG0)])
    ensures r.Ok? && format == 2 ==> OnlyChanged(c, r.value, map[PKTCTRL0 := PacketFormatField])
    ensures r.Ok? ==>
      OnlyChanged(c, r.value, map[PKTCTRL0 := PacketFormatField, IOCFG0 := Whole(IOCFG0), IOCFG2 := Whole(IOCFG2)])
  {
    if 0 <= format <= 3 then
      Pow2Small();
      var c1 := PacketFormatPins(c, format);
      var r := SetUnchecked(c1, PacketFormatField, format);
      Ok(r)
    else
      Err(AssertionError)
  }

  /** `set_packet_format` writes whole bytes to the GDO registers, so the
      inversion bits end up clear: IOCFG0 holds exactly 0x06, 0x0C or 0x0E
      and IOCFG2 exactly 0x0B or 0x0D. */
  lemma PacketFormatBytes(c: Configurator, format: nat)
    requires format <= 3
    ensures var r := SetPacketFormat(c, format);
      r.Ok? && (format == 0 ==> r.value.regs[IOCFG0] == GdoSyncWord)
    ensures var r := SetPacketFormat(c, format);
      r.Ok? && (format == 1 ==> r.value.regs[IOCFG0] == GdoSyncSerialData && r.value.regs[IOCFG2] == GdoSerialClock)
    ensures var r := SetPacketFormat(c, format);
      r.Ok? && (format == 3 ==> r.value.regs[IOCFG0] == GdoCarrierSense && r.value.regs[IOCFG2] == GdoAsyncSerialData)
  {
  }

  // ---- AGC control (AGCCTRL2..AGCCTRL0) ----

  function AgcFilterLength(c: Configurator): nat {
    GetField(c.regs, AgcFilterLengthField)
  }

  function SetAgcFilterLength(c: Configurator, length: int): (r: Result<Configurator>)
    ensures r.Ok? <==> 0 <= length <= 3
    ensures r.Err? ==> r.error == AssertionError
    ensures r.Ok? ==> AgcFilterLength(r.value) == length && OnlyChanged(c, r.value, map[AGCCTRL0 := AgcFilterLengthField])
  {
    Pow2Small();
    SetChecked(c, AgcFilterLengthField, length)
  }

  function AgcFreeze(c: Configurator): nat {
    GetField(c.regs, AgcFreezeField)
  }

  function SetAgcFreeze(c: Configurator, freeze: int): (r: Result<Configurator>)
    ensures r.Ok? <==> 0 <= freeze <= 3
    ensures r.Err? ==> r.error == AssertionError
    ensures r.Ok? ==> AgcFreeze(r.value) == freeze && OnlyChanged(c, r.value, map[AGCCTRL0 := AgcFreezeField])
  {
    Pow2Small();
    SetChecked(c, AgcFreezeField, freeze)
  }

  function AgcWaitTime(c: Configurator): nat {
    GetField(c.regs, AgcWaitTimeField)
  }

  function SetAgcWaitTime(c: Configurator, waitTime: int): (r: Result<Configurator>)
    ensures r.Ok? <==> 0 <= waitTime <= 3
    ensures r.Err? ==> r.error == AssertionError
    ensures r.Ok? ==> AgcWaitTime(r.value) == waitTime && OnlyChanged(c, r.value, map[AGCCTRL0 := AgcWaitTimeField])
  {
    Pow2Small();
    SetChecked(c, AgcWaitTimeField, waitTime)
  }

  function AgcHystLevel(c: Configurator): nat {
    GetField(c.regs, AgcHystLevelField)
  }

  function SetAgcHystLevel(c: Configurator, level: int): (r: Result<Configurator>)
    ensures r.Ok? <==> 0 <= level <= 3
    ensures r.Err? ==> r.error == AssertionError
    ensures r.Ok? ==> AgcHystLevel(r.value) == level && OnlyChanged(c, r.value, map[AGCCTRL0 := AgcHystLevelField])
  {
    Pow2Small();
    SetChecked(c, AgcHystLevelField, level)
  }

  function CarrierSenseAbsThreshold(c: Configurator): nat {
    GetField(c.regs, CsAbsThresholdField)
  }

  function SetCarrierSenseAbsThreshold(c: Configurator, threshold: int): (r: Result<Configurator>)
    ensures r.Ok? <==> 0 <= threshold <= 15
    ensures r.Err? ==> r.error == AssertionError
    ensures r.Ok? ==> CarrierSenseAbsThreshold(r.value) == threshold
    ensures r.Ok? ==> OnlyChanged(c, r.value, map[AGCCTRL1 := CsAbsThresholdField])
  {
    Pow2Small();
    SetChecked(c, CsAbsThresholdField, threshold)
  }

  function CarrierSenseRelThreshold(c: Configurator): nat {
    GetField(c.regs, CsRelThresholdField)
  }

  function SetCarrierSenseRelThreshold(c: Configurator, threshold: int): (r: Result<Configurator>)
    ensures r.Ok? <==> 0 <= threshold <= 3
    ensures r.Err? ==> r.error == AssertionError
    ensures r.Ok? ==> CarrierSenseRelThreshold(r.value) == threshold
    ensures r.Ok? ==> OnlyChanged(c, r.value, map[AGCCTRL1 := CsRelThresholdField])
  {
    Pow2Small();
    SetChecked(c, CsRelThresholdField, threshold)
  }

  function LnaPriority(c: Configurator): nat {
    GetField(c.regs, LnaPriorityField)
  }

  function SetLnaPriority(c: Configurator, priority: int): (r: Result<Configurator>)
    ensures r.Ok? <==> 0 <= priority <= 1
    ensures r.Err? ==> r.error == AssertionError
    ensures r.Ok? ==> LnaPriority(r.value) == priority && OnlyChanged(c, r.value, map[AGCCTRL1 := LnaPriorityField])
  {
    Pow2Small();
    SetChecked(c, LnaPriorityField, priority)
  }

  function MagnTarget(c: Configurator): nat {
    GetField(c.regs, MagnTargetField)
  }

  function SetMagnTarget(c: Configurator, target: int): (r: Result<Configurator>)
    ensures r.Ok? <==> 0 <= target <= 7
    ensures r.Err? ==> r.error == AssertionError
    ensures r.Ok? ==> MagnTarget(r.value) == target && OnlyChanged(c, r.value, map[AGCCTRL2 := MagnTargetField])
  {
    Pow2Small();
    SetChecked(c, MagnTargetField, target)
  }

  function MaxLnaGain(c: Configurator): nat {
    GetField(c.regs, MaxLnaGainField)
  }

  function SetMaxLnaGain(c: Configurator, gain: int): (r: Result<Configurator>)
    ensures r.Ok? <==> 0 <= gain <= 7
    ensures r.Err? ==> r.error == AssertionError
    ensures r.Ok? ==> MaxLnaGain(r.value) == gain && OnlyChanged(c, r.value, map[AGCCTRL2 := MaxLnaGainField])
  {
    Pow2Small();
    SetChecked(c, MaxLnaGainField, gain)
  }

  function MaxDvgaGain(c: Configurator): nat {
    GetField(c.regs, MaxDvgaGainField)
  }

  function SetMaxDvgaGain(c: Configurator, gain: int): (r: Result<Configurator>)
    ensures r.Ok? <==> 0 <= gain <= 3
    ensures r.Err? ==> r.error == AssertionError
    ensures r.Ok? ==> MaxDvgaGain(r.value) == gain && OnlyChanged(c, r.value, map[AGCCTRL2 := MaxDvgaGainField])
  {
    Pow2Small();
    SetChecked(c, MaxDvgaGainField, gain)
  }

  // ---- Power table ----

  function Patable(c: Configurator): seq<Byte> {
    c.patable
  }

  function SetPatable(c: Configurator, patable: seq<int>): (r: Result<Configurator>)
    ensures r.Ok? <==> 1 <= |patable| <= 8 && forall i | 0 <= i < |patable| :: 0 <= patable[i] <= 0xFF
    ensures r.Err? ==> r.error == AssertionError
    ensures r.Ok? ==> Patable(r.value) == patable && r.value.regs == c.regs && r.value.fosc == c.fosc
  {
    if 1 <= |patable| <= 8 && forall i | 0 <= i < |patable| :: 0 <= patable[i] <= 0xFF then
      Ok(c.(patable := seq(|patable|, i requires 0 <= i < |patable| => patable[i] as Byte)))
    else
      Err(AssertionError)
  }
}
