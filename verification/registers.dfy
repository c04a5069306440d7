/** The register bank the configurator edits: the 47 configuration registers
    of the CC1101 (IOCFG2 at 0x00 through TEST0 at 0x2E), the power table, and
    the generic mask-and-shift access that every field accessor uses. */
module Registers {
  import opened Bits

  const NumRegisters: nat := 47

  // Configuration register addresses (CC1101 register map).
  const IOCFG2: nat := 0x00
  const IOCFG1: nat := 0x01
  const IOCFG0: nat := 0x02
  const FIFOTHR: nat := 0x03
  const SYNC1: nat := 0x04
  const SYNC0: nat := 0x05
  const PKTLEN: nat := 0x06
  const PKTCTRL1: nat := 0x07
  const PKTCTRL0: nat := 0x08
  const ADDR: nat := 0x09
  const CHANNR: nat := 0x0A
  const FREQ2: nat := 0x0D
  const FREQ1: nat := 0x0E
  const FREQ0: nat := 0x0F
  const MDMCFG4: nat := 0x10
  const MDMCFG3: nat := 0x11
  const MDMCFG2: nat := 0x12
  const MDMCFG1: nat := 0x13
  const MDMCFG0: nat := 0x14
  const DEVIATN: nat := 0x15
  const FOCCFG: nat := 0x19
  const AGCCTRL2: nat := 0x1B
  const AGCCTRL1: nat := 0x1C
  const AGCCTRL0: nat := 0x1D
  const FREND0: nat := 0x22
  const TEST0: nat := 0x2E

  /** The register mirror: one byte per configuration register. */
  type RegisterFile = s: seq<Byte> | |s| == NumRegisters
    witness seq(47, _ => 0)

  /** Oscillator frequency in Hz (26 MHz on the boards the driver targets). */
  type Hz = f: int | f > 0 witness 26_000_000

  /** The state of `Cc1101Configurator`: register mirror, power table and
      crystal frequency. */
  datatype Configurator = Configurator(regs: RegisterFile, patable: seq<Byte>, fosc: Hz)

  /** A group of `width` adjacent bits starting at bit `shift` of one register,
      i.e. the bits the Python code selects with `(reg >> shift) & (2^width - 1)`
      and clears with `reg & ~mask`. */
  datatype BitField = BitField(reg: nat, shift: nat, width: nat)

  predicate ValidField(f: BitField) {
    f.reg < NumRegisters && 1 <= f.width && f.shift + f.width <= 8
  }

  /** `(b >> shift) & (2^width - 1)`. */
  function FieldBits(b: Byte, f: BitField): (v: nat)
    ensures v < Pow2(f.width)
  {
    (b / Pow2(f.shift)) % Pow2(f.width)
  }

  /** `b & ~mask`: the byte with the field's bits cleared. */
  function ClearField(b: Byte, f: BitField): int {
    b - FieldBits(b, f) * Pow2(f.shift)
  }

  /** `(b & ~mask) | (v << shift)` for a value that fits the field. */
  function WriteField(b: Byte, f: BitField, v: nat): (r: Byte)
    requires ValidField(f) && v < Pow2(f.width)
  {
    FieldWriteFacts(b, f, v);
    ClearField(b, f) + v * Pow2(f.shift)
  }

  function GetField(regs: RegisterFile, f: BitField): (v: nat)
    requires ValidField(f)
    ensures v < Pow2(f.width)
  {
    FieldBits(regs[f.reg], f)
  }

  function SetField(regs: RegisterFile, f: BitField, v: nat): (r: RegisterFile)
    requires ValidField(f) && v < Pow2(f.width)
  {
    regs[f.reg := WriteField(regs[f.reg], f, v)]
  }

  /** Registers `a` and `b` agree outside the footprint `fp`: a register not
      in the map is equal in both, and a register in it may differ only in
      the bits of its field. */
  predicate AgreeOutside(a: RegisterFile, b: RegisterFile, fp: map<nat, BitField>) {
    forall i | 0 <= i < NumRegisters ::
      if i in fp then ClearField(a[i], fp[i]) == ClearField(b[i], fp[i]) else a[i] == b[i]
  }

  /** `c'` differs from `c` at most in the register bits named by `fp`. */
  predicate OnlyChanged(c: Configurator, c': Configurator, fp: map<nat, BitField>) {
    c'.patable == c.patable && c'.fosc == c.fosc && AgreeOutside(c.regs, c'.regs, fp)
  }

  /** The whole of register `r`. */
  function Whole(r: nat): BitField {
    BitField(r, 0, 8)
  }

  /** Overwriting a whole register changes nothing outside it. */
  lemma SetWholeProperties(regs: RegisterFile, r: nat, v: Byte)
    requires r < NumRegisters
    ensures AgreeOutside(regs, regs[r := v], map[r := Whole(r)])
  {
    assert Pow2(8) == 256;
    assert ClearField(regs[r], Whole(r)) == 0 == ClearField(v, Whole(r));
  }

  /** Overwriting two whole registers changes nothing outside them. */
  lemma SetTwoWholeProperties(regs: RegisterFile, r1: nat, r2: nat, v1: Byte, v2: Byte)
    requires r1 < NumRegisters && r2 < NumRegisters && r1 != r2
    ensures AgreeOutside(regs, regs[r1 := v1][r2 := v2], map[r1 := Whole(r1), r2 := Whole(r2)])
  {
    assert Pow2(8) == 256;
    assert ClearField(regs[r1], Whole(r1)) == 0 == ClearField(v1, Whole(r1));
    assert ClearField(regs[r2], Whole(r2)) == 0 == ClearField(v2, Whole(r2));
  }

  /** A further whole-register write widens the footprint by that register. */
  lemma AgreeThenWhole(a: RegisterFile, b: RegisterFile, fp: map<nat, BitField>, r: nat, v: Byte)
    requires r < NumRegisters && r !in fp && AgreeOutside(a, b, fp)
    ensures AgreeOutside(a, b[r := v], fp[r := Whole(r)])
  {
    assert Pow2(8) == 256;
    assert ClearField(a[r], Whole(r)) == 0 == ClearField(v, Whole(r));
  }

  /** Writing a field and reading it back gives the value written, and no
      other bit of the bank changes. */
  lemma SetFieldProperties(regs: RegisterFile, f: BitField, v: nat)
    requires ValidField(f) && v < Pow2(f.width)
    ensures GetField(SetField(regs, f, v), f) == v
    ensures AgreeOutside(regs, SetField(regs, f, v), map[f.reg := f])
  {
    FieldWriteFacts(regs[f.reg], f, v);
    var r := SetField(regs, f, v);
    forall i | 0 <= i < NumRegisters
      ensures if i in map[f.reg := f] then ClearField(regs[i], f) == ClearField(r[i], f) else regs[i] == r[i]
    {
    }
  }

  /** The arithmetic behind WriteField: the written byte still fits, its
      field reads back `v`, and its other bits are those of `b`. */
  lemma FieldWriteFacts(b: Byte, f: BitField, v: nat)
    requires ValidField(f) && v < Pow2(f.width)
    ensures 0 <= ClearField(b, f) + v * Pow2(f.shift) < 256
    ensures FieldBits(ClearField(b, f) + v * Pow2(f.shift), f) == v
    ensures ClearField(ClearField(b, f) + v * Pow2(f.shift), f) == ClearField(b, f)
  {
    Pow2Add(f.shift, f.width);
    Pow2Add(f.shift + f.width, 8 - f.shift - f.width);
    assert Pow2(8) == 256;
    DigitWrite(b, Pow2(f.shift), Pow2(f.width), Pow2(8 - f.shift - f.width), v);
  }

  /** Replacing the base-`Q` digit of weight `P` of a byte. */
  lemma DigitWrite(b: int, P: int, Q: int, R: int, v: int)
    requires P > 0 && Q > 0 && R > 0 && (P * Q) * R == 256 && 0 <= b < 256 && 0 <= v < Q
    ensures var w := b - ((b / P) % Q) * P + v * P;
      0 <= w < 256 && (w / P) % Q == v && w - ((w / P) % Q) * P == b - ((b / P) % Q) * P
  {
    DigitSplit(b, P, Q);
    DigitJoin(b, P, Q, R, v, (b / P) / Q, (b / P) % Q, b % P);
  }

  /** A byte as high part, base-`Q` digit of weight `P`, and low part. */
  lemma DigitSplit(b: int, P: int, Q: int)
    requires P > 0 && Q > 0 && 0 <= b
    ensures b == ((b / P) / Q) * (Q * P) + ((b / P) % Q) * P + b % P
    ensures (b / P) / Q >= 0 && 0 <= (b / P) % Q < Q && 0 <= b % P < P
  {
    DivMod(b, P);
    DivMod(b / P, Q);
    Distribute(b, b / P, P, b % P, (b / P) / Q, Q, (b / P) % Q);
  }

  lemma DivMod(x: int, d: int)
    requires x >= 0 && d > 0
    ensures x == (x / d) * d + x % d && x / d >= 0 && 0 <= x % d < d
  {
  }

  /** Putting digit `v` in place of digit `fld` keeps the byte in range and
      reads back `v`. */
  lemma DigitJoin(b: int, P: int, Q: int, R: int, v: int, hi: int, fld: int, lo: int)
    requires P > 0 && Q > 0 && R > 0 && (P * Q) * R == 256 && 0 <= b < 256 && 0 <= v < Q
    requires b == hi * (Q * P) + fld * P + lo && hi >= 0 && 0 <= fld < Q && 0 <= lo < P
    ensures 0 <= b - fld * P + v * P < 256
    ensures ((b - fld * P + v * P) / P) % Q == v
  {
    var w := b - fld * P + v * P;
    Regroup(w, hi, Q, P, lo, v);
    LemmaModUnique(w, P, hi * Q + v, lo);
    LemmaModUnique(hi * Q + v, Q, hi, v);
    MulMono(v, Q - 1, P);
    MulMono(0, fld, P);
    MulMono(0, v, P);
    assert (Q - 1) * P == Q * P - P;
    FitsByte(b, hi, Q * P, R, lo, v * P);
  }

  lemma Distribute(b: int, q1: int, P: int, lo: int, hi: int, Q: int, fld: int)
    requires b == q1 * P + lo && q1 == hi * Q + fld
    ensures b == hi * (Q * P) + fld * P + lo
  {
    assert q1 * P == hi * (Q * P) + fld * P;
  }

  lemma Regroup(w: int, hi: int, Q: int, P: int, lo: int, v: int)
    requires w == hi * (Q * P) + lo + v * P
    ensures w == P * (hi * Q + v) + lo
  {
  }

  /** If `b = hi*QP + (field)` with `b < R*QP`, any field value keeps the byte
      below `R*QP`. */
  lemma FitsByte(b: int, hi: int, QP: int, R: int, lo: int, vP: int)
    requires QP > 0 && R * QP == 256 && 0 <= b < 256 && hi >= 0
    requires hi * QP <= b && 0 <= lo && 0 <= vP && lo + vP < QP
    ensures 0 <= hi * QP + lo + vP < 256
  {
    if hi >= R {
      MulMono(R, hi, QP);
    }
    MulMono(hi + 1, R, QP);
    assert (hi + 1) * QP == hi * QP + QP;
  }

  lemma MulMono(a: int, b: int, c: int)
    requires a <= b && c >= 0
    ensures a * c <= b * c
  {
  }
}
