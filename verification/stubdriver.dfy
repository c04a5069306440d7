/** The in-memory stub driver: the reference behaviour of the chip the
    controller talks to. It keeps a register list, a power table list and a
    MARC state; command strobes move the MARC state, burst writes are Python
    slice assignments, burst reads are Python slices. */
module StubDriver {
  import opened Bits
  import opened PySeq
  import opened Addresses

  /** The stub's mutable attributes, as one value. The lists are plain
      Python lists, so their lengths are not fixed. */
  datatype Chip = Chip(regs: seq<Byte>, patable: seq<Byte>, marc: Byte)

  /** Register contents the stub starts from. */
  const InitialRegisters: seq<Byte> := [
    0x29, 0x2e, 0x3f, 0x07, 0xd3, 0x91, 0xff, 0x04, 0x45, 0x00, 0x00, 0x0f,
    0x00, 0x1e, 0xc4, 0xec, 0x8c, 0x22, 0x02, 0x22, 0xf8, 0x47, 0x07, 0x30,
    0x04, 0x76, 0x6c, 0x03, 0x40, 0x91, 0x87, 0x6b, 0xf8, 0x56, 0x10, 0xa9,
    0x0a, 0x20, 0x0d, 0x41, 0x00, 0x59, 0x7f, 0x3f, 0x88, 0x31, 0x0b]

  const InitialPatable: seq<Byte> := [0xc6, 0x00, 0x00, 0x00, 0x00, 0x00, 0x00, 0x00]

  /** The stub's attribute values before any call. */
  function Initial(): (c: Chip)
    ensures |c.regs| == 47 && |c.patable| == 8 && c.marc == MARCSTATE_IDLE
  {
    Chip(InitialRegisters, InitialPatable, MARCSTATE_IDLE)
  }

  /** The MARC states a strobe can put the stub in. */
  predicate KnownState(s: Byte) {
    s == MARCSTATE_IDLE || s == MARCSTATE_TX || s == MARCSTATE_RX
  }

  /** `read_status_register`: fixed identification values, a fixed RSSI,
      the MARC state, and 0 for every other status register. */
  function ReadStatus(c: Chip, register: int): (v: Byte)
    ensures register == PARTNUM ==> v == 0x00
    ensures register == VERSION ==> v == 0x04
    ensures register == RSSI ==> v == 0x30
    ensures register == MARCSTATE ==> v == c.marc
    ensures register !in {PARTNUM, VERSION, RSSI, MARCSTATE} ==> v == 0
  {
    if register == PARTNUM then 0x00
    else if register == VERSION then 0x04
    else if register == RSSI then 0x30
    else if register == MARCSTATE then c.marc
    else 0
  }

  /** `read_burst`: a prefix of the power table, or a slice of the
      registers starting at `register`. */
  function ReadBurst(c: Chip, register: int, length: int): (r: seq<Byte>)
    ensures register == PATABLE && 0 <= length <= |c.patable| ==> r == c.patable[..length]
    ensures register != PATABLE && 0 <= register && 0 <= length && register + length <= |c.regs| ==>
      r == c.regs[register..register + length]
  {
    if register == PATABLE then Slice(c.patable, 0, length)
    else Slice(c.regs, register, register + length)
  }

  /** `command_strobe`: SIDLE, STX and SRX select IDLE, TX and RX; any other
      strobe (SRES, SFTX, SFRX, ...) changes nothing. */
  function Strobe(c: Chip, command: int): (r: Chip)
    ensures r.regs == c.regs && r.patable == c.patable
    ensures command == SIDLE ==> r.marc == MARCSTATE_IDLE
    ensures command == STX ==> r.marc == MARCSTATE_TX
    ensures command == SRX ==> r.marc == MARCSTATE_RX
    ensures command !in {SIDLE, STX, SRX} ==> r == c
  {
    var m1 := if command == SIDLE then MARCSTATE_IDLE else c.marc;
    var m2 := if command == STX then MARCSTATE_TX else m1;
    var m3 := if command == SRX then MARCSTATE_RX else m2;
    c.(marc := m3)
  }

  /** `write_burst`: a power-table write replaces a prefix of the table, a
      TX FIFO write ends the transmission (the stub keeps no FIFO), and any
      other address is a slice assignment into the register list. */
  function WriteBurst(c: Chip, register: nat, data: seq<Byte>): (r: Chip)
    ensures register == TXFIFO ==> r == c.(marc := MARCSTATE_IDLE)
    ensures register == PATABLE ==> r.regs == c.regs && r.marc == c.marc
    ensures register == PATABLE && |data| <= |c.patable| ==>
      r.patable == data + c.patable[|data|..]
    ensures register != PATABLE && register != TXFIFO ==> r.patable == c.patable && r.marc == c.marc
    ensures register != PATABLE && register != TXFIFO && register + |data| <= |c.regs| ==>
      r.regs == c.regs[..register] + data + c.regs[register + |data|..]
  {
    if register == PATABLE then c.(patable := SliceAssign(c.patable, 0, |data|, data))
    else if register == TXFIFO then c.(marc := MARCSTATE_IDLE)
    else c.(regs := SliceAssign(c.regs, register, register + |data|, data))
  }

  /** Reading back a register burst returns what was written, and no other
      register changes. */
  lemma RegisterBurstRoundTrip(c: Chip, register: nat, data: seq<Byte>)
    requires register != PATABLE && register != TXFIFO
    requires register + |data| <= |c.regs|
    ensures |WriteBurst(c, register, data).regs| == |c.regs|
    ensures ReadBurst(WriteBurst(c, register, data), register, |data|) == data
    ensures forall k | 0 <= k < |c.regs| && !(register <= k < register + |data|) ::
      WriteBurst(c, register, data).regs[k] == c.regs[k]
  {
    var r := WriteBurst(c, register, data);
    assert r.regs[register..register + |data|] == data;
    forall k | 0 <= k < |c.regs| && !(register <= k < register + |data|)
      ensures r.regs[k] == c.regs[k]
    {
      if k < register {
        assert r.regs[k] == c.regs[..register][k];
      } else {
        assert r.regs[k] == c.regs[register + |data|..][k - register - |data|];
      }
    }
  }

  /** Reading back a power-table prefix returns what was written; the rest of
      the table, the registers and the MARC state do not change. */
  lemma PatableRoundTrip(c: Chip, data: seq<Byte>)
    requires |data| <= |c.patable|
    ensures |WriteBurst(c, PATABLE, data).patable| == |c.patable|
    ensures ReadBurst(WriteBurst(c, PATABLE, data), PATABLE, |data|) == data
    ensures WriteBurst(c, PATABLE, data).patable[|data|..] == c.patable[|data|..]
  {
    var r := WriteBurst(c, PATABLE, data);
    assert r.patable[..|data|] == data;
    assert r.patable[|data|..] == c.patable[|data|..];
  }

  /** One call the controller makes on the driver that changes the stub. */
  datatype Command = StrobeCmd(command: nat) | BurstCmd(register: nat, data: seq<Byte>)

  function Apply(c: Chip, cmd: Command): Chip {
    match cmd
    case StrobeCmd(s) => Strobe(c, s)
    case BurstCmd(reg, data) => WriteBurst(c, reg, data)
  }

  /** The stub after a sequence of calls, in order. */
  function Run(c: Chip, cmds: seq<Command>): Chip
    decreases |cmds|
  {
    if |cmds| == 0 then c else Run(Apply(c, cmds[0]), cmds[1..])
  }

  /** Whatever calls the controller makes, the stub's MARC state stays one of
      IDLE, TX and RX: no call can produce any other state. */
  lemma {:induction false} RunKeepsKnownState(c: Chip, cmds: seq<Command>)
    requires KnownState(c.marc)
    ensures KnownState(Run(c, cmds).marc)
    decreases |cmds|
  {
    if |cmds| > 0 {
      RunKeepsKnownState(Apply(c, cmds[0]), cmds[1..]);
    }
  }

  /** Strobes never touch the registers or the power table. */
  lemma {:induction false} StrobesKeepMemory(c: Chip, cmds: seq<Command>)
    requires forall i | 0 <= i < |cmds| :: cmds[i].StrobeCmd?
    ensures Run(c, cmds).regs == c.regs && Run(c, cmds).patable == c.patable
    decreases |cmds|
  {
    if |cmds| > 0 {
      StrobesKeepMemory(Apply(c, cmds[0]), cmds[1..]);
    }
  }
}
