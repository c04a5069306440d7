# A Dafny model of the epCC1101 driver core

This project models the logic of a Python driver for the TI CC1101 sub-GHz
transceiver and proves properties of that model. The logic covered is:

- **Configurator** (`Cc1101Configurator`). The 47-byte register mirror and
  the 8-byte power table. It includes every field getter and setter, and the
  exponent/mantissa codecs for data rate, receiver bandwidth, deviation, base
  frequency and channel spacing.
- **Controller** (`Cc1101`, current and legacy). It covers:
  - the MARC-state checks of `transmit` and `receive`;
  - the fixed/variable length rules and the length byte;
  - the TX FIFO chunk loop;
  - the post-processing of a received packet;
  - RSSI conversion;
  - configuration read/write and preset loading;
  - the bitstream of a raw capture.
- **Stub driver**. The in-memory chip used as the driver's reference
  behaviour: a register array, a power table and a MARC state moved by
  command strobes.
- **Line codes**:
  - the Princeton (PT2262) 25-bit protocol, encode and parse;
  - the Princeton transmitter and receiver example scripts;
  - the KIA EV6 key-fob Manchester decoder;
  - the raw-packet interpreter, which estimates bit times from edge time
    stamps and rebuilds the bits.

Registers are byte values in a sequence; every setter is a pure function
from one configurator state to the next. Driver calls made by the controller
are recorded as a trace of events. The values the chip would answer (MARC
state, TXBYTES readings, the drained FIFO, the edge capture) are parameters.
Python exceptions become the `Err` arm of a `Result`, named after the
exception class (`ValueError`, `AssertionError`, `IndexError`, ...). Two
error values are not Python exceptions:
- `FieldOverflow` marks a codec exponent that does not fit its register field;
- `Stalled` marks a TX FIFO poll loop that used up the modelled TXBYTES readings.

The modules follow the source:

| module | source |
|---|---|
| `Registers`, `Fields` | field accessors of `configurator.py` |
| `Rounding`, `Rates`, `Codecs` | the numeric codecs of `configurator.py` |
| `Controller` | `epCC1101/cc1101.py` |
| `LegacyController` | the top-level `cc1101.py` |
| `StubDriver` | `stubs/driver.py` |
| `Princeton` | `packet.py` |
| `PrincetonScripts` | the two Princeton example scripts |
| `Kia` | the KIA receiver |
| `Edges`, `Interpreter` | `raw_packet_interpreter.py` |

`Bits` and `PySeq` hold bit-list packing and Python's slice and index
semantics. `Addresses` holds the register, strobe and status addresses.

Where the specification and the code disagree, the model follows the code:

- `Princeton25bit_Protocol.parse` does not check that the 25th (sync) bit
  is 0. `Princeton.ParseIgnoresSyncBit` states this.
- In normal packet mode, a receive timeout returns None without the final
  SIDLE strobe. `Controller.ReceiveTimeout` states this.

## Model

| member | source | states |
|---|---|---|
| Registers.SetFieldProperties | src/epCC1101/epCC1101/configurator.py:150-169 | writing a bit group with `(reg & ~mask) \| (v << shift)` and reading it back with `(reg >> shift) & mask` gives the value written; every other bit of every register is unchanged |
| Registers.SetWholeProperties | src/epCC1101/epCC1101/configurator.py:254-260 | overwriting one whole register changes nothing outside it |
| Fields.SetUnchecked | src/epCC1101/epCC1101/configurator.py:221-244 | an unguarded field setter makes the getter return the value and changes only that field |
| Fields.SetFlag | src/epCC1101/epCC1101/configurator.py:187-199 | a flag setter makes the flag read back as set and changes only that bit |
| Fields.SetChecked | src/epCC1101/epCC1101/configurator.py:597-604 | a setter guarded by a range assertion fails with AssertionError exactly outside the field's range; inside it the getter returns the value and only that field changes |
| Fields.SetSyncMode | src/epCC1101/epCC1101/configurator.py:134-169 | sync mode 0..7 is accepted, anything else raises AssertionError; the getter reads the mode back and only MDMCFG2 bits 0..2 change |
| Fields.SetSyncWord | src/epCC1101/epCC1101/configurator.py:171-185 | the two-byte word is read back as written and only SYNC1 and SYNC0 change |
| Fields.SliceWholeProperties | src/epCC1101/epCC1101/configurator.py:179-185 | slice-assigning data over as many registers keeps 47 registers, holds the data there and leaves all others |
| Fields.SetWhiteningEnabled | src/epCC1101/epCC1101/configurator.py:187-199 | the flag reads back as set; only PKTCTRL0 bit 6 changes |
| Fields.IndexOf | src/epCC1101/epCC1101/configurator.py:209-219 | `list.index` returns the first position holding the value |
| Fields.SetPreambleLengthBytes | src/epCC1101/epCC1101/configurator.py:201-219 | lengths outside {2,3,4,6,8,12,16,24} raise ValueError; accepted lengths read back unchanged; only MDMCFG1 bits 4..6 change |
| Fields.SetPacketLengthMode | src/epCC1101/epCC1101/configurator.py:221-244 | the mode reads back and only PKTCTRL0 bits 0..1 change |
| Fields.SetPacketLength | src/epCC1101/epCC1101/configurator.py:246-260 | PKTLEN reads back and no other register changes |
| Fields.SetCrcEnabled | src/epCC1101/epCC1101/configurator.py:262-276 | the flag reads back; only PKTCTRL0 bit 2 changes |
| Fields.SetAddressCheckMode | src/epCC1101/epCC1101/configurator.py:278-303 | the mode reads back; only PKTCTRL1 bits 0..1 change |
| Fields.SetDeviceAddress | src/epCC1101/epCC1101/configurator.py:305-319 | ADDR reads back and no other register changes |
| Fields.SetCrcAutoFlush | src/epCC1101/epCC1101/configurator.py:321-335 | the flag reads back; only PKTCTRL1 bit 3 changes |
| Fields.SetAppendStatusEnabled | src/epCC1101/epCC1101/configurator.py:337-351 | the flag reads back; only PKTCTRL1 bit 2 changes |
| Fields.SetFecEnabledAsWritten | src/epCC1101/epCC1101/configurator.py:353-369 | the accessors as written: the flag reads back from MDMCFG2 bit 7 and only that bit changes |
| Fields.FecAsWrittenMissesFecBit | src/epCC1101/epCC1101/configurator.py:353-369 | enabling FEC as written leaves FEC_EN (MDMCFG1 bit 7) as it was and sets MDMCFG2 bit 7, the DC blocking filter switch, instead |
| Fields.SetFecEnabled | src/epCC1101/epCC1101/configurator.py:353-369 | FEC switched through FEC_EN: the flag reads back and only MDMCFG1 bit 7 changes |
| Fields.FecKeepsDcFilter | src/epCC1101/epCC1101/configurator.py:353-369 | switching FEC leaves MDMCFG2, and so the DC filter bit, unchanged |
| Fields.FocPack | src/epCC1101/epCC1101/configurator.py:102-132 | packing gate, pre-K, post-K and limit into one byte keeps each in its own bit group and leaves bits 6..7 clear |
| Fields.SetFocSettings | src/epCC1101/epCC1101/configurator.py:73-132 | FOCCFG is rewritten whole: the four settings read back, bits 6..7 become 0, no other register changes |
| Fields.GdoRegister | src/epCC1101/epCC1101/configurator.py:371-381 | pin n selects register `IOCFG2 + (2 - n)` with Python's negative indexing; an index outside the list raises IndexError |
| Fields.GdoRegisterOfPin | src/epCC1101/epCC1101/configurator.py:371-381 | pins 0, 1, 2 select IOCFG0, IOCFG1, IOCFG2; pin 3 wraps to the last register |
| Fields.SetGdoConfig | src/epCC1101/epCC1101/configurator.py:371-391 | the whole byte is overwritten and nothing else; for pins 0..2 the getter returns the low six bits of the value written |
| Fields.SetGdoInverted | src/epCC1101/epCC1101/configurator.py:393-411 | the inversion flag reads back and only bit 6 of that register changes |
| Fields.SetModulationFormat | src/epCC1101/epCC1101/configurator.py:413-445 | the format reads back; FREND0 bit 3 is cleared; FREND0 bit 0 is set for format 3 and kept otherwise; FREND0 bits 1..2 and 4..7 and every other register are unchanged |
| Fields.Frend0Facts | src/epCC1101/epCC1101/configurator.py:441-445 | clearing FREND0 bit 3 and optionally setting bit 0 leaves bits 1..2 and 4..7 untouched |
| Fields.SetManchesterEnabled | src/epCC1101/epCC1101/configurator.py:447-461 | the flag reads back; only MDMCFG2 bit 3 changes |
| Fields.SetChannelNumber | src/epCC1101/epCC1101/configurator.py:534-549 | channels outside 0..255 raise AssertionError; accepted ones read back and only CHANNR changes |
| Fields.SetPacketFormat | src/epCC1101/epCC1101/configurator.py:551-577 | formats outside 0..3 raise AssertionError. The format reads back; format 0 sets the GDO0 signal to 0x06; format 1 sets GDO0 to 0x0C and GDO2 to 0x0B; format 3 sets GDO0 to 0x0E and GDO2 to 0x0D; format 2 touches no IOCFG register. Nothing but PKTCTRL0 bits 4..5 and those registers changes |
| Fields.PacketFormatBytes | src/epCC1101/epCC1101/configurator.py:551-577 | the GDO registers receive whole bytes, so the inversion bit is cleared: after format 0 IOCFG0 is exactly 0x06, after format 1 IOCFG0 is 0x0C and IOCFG2 0x0B, after format 3 IOCFG0 is 0x0E and IOCFG2 0x0D |
| Fields.SetAgcFilterLength | src/epCC1101/epCC1101/configurator.py:579-604 | values outside 0..3 raise AssertionError; accepted values read back and only their field changes |
| Fields.SetAgcFreeze | src/epCC1101/epCC1101/configurator.py:606-621 | values outside 0..3 raise AssertionError; accepted values read back and only their field changes |
| Fields.SetAgcWaitTime | src/epCC1101/epCC1101/configurator.py:623-638 | values outside 0..3 raise AssertionError; accepted values read back and only their field changes |
| Fields.SetAgcHystLevel | src/epCC1101/epCC1101/configurator.py:640-655 | values outside 0..3 raise AssertionError; accepted values read back and only their field changes |
| Fields.SetCarrierSenseAbsThreshold | src/epCC1101/epCC1101/configurator.py:657-672 | values outside 0..15 raise AssertionError; accepted values read back and only their field changes |
| Fields.SetCarrierSenseRelThreshold | src/epCC1101/epCC1101/configurator.py:674-689 | values outside 0..3 raise AssertionError; accepted values read back and only their field changes |
| Fields.SetLnaPriority | src/epCC1101/epCC1101/configurator.py:691-706 | values outside 0..1 raise AssertionError; accepted values read back and only their field changes |
| Fields.SetMagnTarget | src/epCC1101/epCC1101/configurator.py:708-723 | values outside 0..7 raise AssertionError; accepted values read back and only their field changes |
| Fields.SetMaxLnaGain | src/epCC1101/epCC1101/configurator.py:725-740 | values outside 0..7 raise AssertionError; accepted values read back and only their field changes |
| Fields.SetMaxDvgaGain | src/epCC1101/epCC1101/configurator.py:742-757 | values outside 0..3 raise AssertionError; accepted values read back and only their field changes |
| Fields.SetPatable | src/epCC1101/epCC1101/configurator.py:760-776 | the power table is replaced and read back; the registers are unchanged |
| Rounding.RoundHalfEven | src/epCC1101/epCC1101/configurator.py:19-29 | Python's `round`: the nearest integer, ties going to the even one |
| Rounding.RoundNear | src/epCC1101/epCC1101/configurator.py:19-29 | a value closer than one half to an integer rounds to it |
| Rounding.Floor | src/epCC1101/epCC1101/configurator.py:474-486 | `math.floor`: the greatest integer not above the value |
| Rounding.FloorLog2 | src/epCC1101/epCC1101/configurator.py:31-46 | `floor(log2(num / den))`: the exponent e with `2^e * den <= num < 2^(e+1) * den` |
| Rates.Mant256 | src/epCC1101/epCC1101/configurator.py:31-46 | the exponent and the rounded mantissa with 256 carried into the exponent: the mantissa is 0..255 and the pair encodes the request to within 1/512 |
| Rates.Mant256Probe | src/epCC1101/epCC1101/configurator.py:31-46 | the carried exponent is at least j exactly when `1023 fosc 2^j <= 4 v P`: it is a threshold function of the request |
| Rates.BwEncode | src/epCC1101/epCC1101/configurator.py:59-71 | the bandwidth exponent and mantissa with a mantissa of 4 carried into the exponent: the mantissa is 0..3 and the pair selects the request to within 1/8 |
| Rates.BwEncodeProbe | src/epCC1101/epCC1101/configurator.py:59-71 | the carried bandwidth exponent is at least j exactly when `30 bw 2^j <= fosc` |
| Rates.DevApprox | src/epCC1101/epCC1101/configurator.py:474-486 | the deviation mantissa, taken with `floor`, is 0..7 and the encoded deviation lies at most 1/8 below the request |
| Codecs.WritePair | src/epCC1101/epCC1101/configurator.py:31-46 | writing exponent and mantissa reads back both and changes only the exponent field and the mantissa register |
| Codecs.SetDataRateBaud | src/epCC1101/epCC1101/configurator.py:19-46 | non-positive rates fail in `log2`; the setter succeeds exactly on the rates whose exponent fits DRATE_E; the encoded rate is within 1/512 of the request; only the MDMCFG4 low nibble and MDMCFG3 change |
| Codecs.DataRateRange | src/epCC1101/epCC1101/configurator.py:31-46 | the exponent fits four bits exactly for `1023 fosc <= rate * 2^30` and `rate * 2^14 < 1023 fosc` |
| Codecs.DataRateRoundTrip | src/epCC1101/epCC1101/configurator.py:19-46 | the rate read back after a successful write is within 1/512 of the request, plus the getter's rounding |
| Codecs.SetChannelSpacingHz | src/epCC1101/epCC1101/configurator.py:505-532 | as the data rate, with a two-bit exponent in MDMCFG1 bits 0..1 and the mantissa in MDMCFG0 |
| Codecs.SpacingRange | src/epCC1101/epCC1101/configurator.py:515-532 | the spacing exponent fits two bits exactly on the stated range |
| Codecs.ChannelSpacingRoundTrip | src/epCC1101/epCC1101/configurator.py:505-532 | the spacing read back is within 1/512 of the request plus rounding |
| Codecs.SetReceiverBandwidthAsWritten | src/epCC1101/epCC1101/configurator.py:59-71 | the setter as written: zero raises ZeroDivisionError, negatives fail in `log2`; it succeeds exactly for `32 bw <= fosc < 512 bw`; only the MDMCFG4 high nibble changes |
| Codecs.BandwidthAsWrittenAgrees | src/epCC1101/epCC1101/configurator.py:59-71 | whenever the rounded mantissa fits two bits, the setter as written gives exactly the result of the corrected setter, failures included |
| Codecs.BandwidthAsWrittenCarry | src/epCC1101/epCC1101/configurator.py:59-71 | when the rounded mantissa is 4 the setter as written succeeds and stores `(E << 2) \| 4`; that equals the corrected result exactly when E is even, and for an odd E the register reads back as exponent E with mantissa 0, at least 3/4 of the request too wide |
| Codecs.AsWrittenRange | src/epCC1101/epCC1101/configurator.py:59-71 | the uncarried exponent fits two bits exactly for `32 bw <= fosc < 512 bw` |
| Codecs.NibbleOr | src/epCC1101/epCC1101/configurator.py:66-70 | `(E << 2) \| M` is `4E + M` for a mantissa up to 3; a mantissa of 4 ORs into the exponent bits |
| Codecs.BandwidthCarryMissing | src/epCC1101/epCC1101/configurator.py:49-71 | at 26 MHz, a request for 210000 Hz is accepted but reads back as 406250 Hz, more than 1/8 away |
| Codecs.SetReceiverBandwidthHz | src/epCC1101/epCC1101/configurator.py:49-71 | the setter with the carry: it succeeds exactly for `30 bw <= fosc < 480 bw`; the selected bandwidth is within 1/8 of the request; only the MDMCFG4 high nibble changes |
| Codecs.BandwidthRange | src/epCC1101/epCC1101/configurator.py:59-71 | the carried exponent fits two bits exactly for `30 bw <= fosc < 480 bw` |
| Codecs.NibbleSplit | src/epCC1101/epCC1101/configurator.py:49-57 | CHANBW_E and CHANBW_M are the top two and next two bits of the MDMCFG4 high nibble |
| Codecs.BandwidthRoundTrip | src/epCC1101/epCC1101/configurator.py:49-71 | the bandwidth read back after a write is within 1/8 of the request, plus rounding |
| Codecs.DevByte | src/epCC1101/epCC1101/configurator.py:474-486 | `(E << 4) \| M` puts E in DEVIATION_E and M in DEVIATION_M |
| Codecs.SetDeviationHz | src/epCC1101/epCC1101/configurator.py:463-486 | non-positive deviations fail in `log2`; the setter succeeds exactly when the exponent fits three bits; the encoded deviation is at most the request and within 1/8 below it; DEVIATN is rewritten whole as `(E << 4) \| M` and nothing else changes |
| Codecs.DeviationRange | src/epCC1101/epCC1101/configurator.py:474-486 | the deviation exponent fits three bits exactly for `fosc <= dev * 2^14` and `dev * 64 < fosc` |
| Codecs.SetBaseFrequencyHz | src/epCC1101/epCC1101/configurator.py:488-503 | the word `round(f * 2^16 / fosc)` is stored big-endian in FREQ2..FREQ0; a word outside 0..2^24-1 raises OverflowError; nothing else changes |
| Codecs.StoreFrequencyWord | src/epCC1101/epCC1101/configurator.py:496-503 | `w.to_bytes(3, 'big')` written over FREQ2..FREQ0 reads back as w |
| Codecs.BaseFrequencyRange | src/epCC1101/epCC1101/configurator.py:496-503 | the setter succeeds exactly for `-fosc <= f * 2^17 < (2^25 - 1) * fosc` |
| Codecs.BaseFrequencyRoundTrip | src/epCC1101/epCC1101/configurator.py:488-503 | a frequency written and read back is within `fosc / 2^17` plus rounding of the request |
| Codecs.BaseFrequencyFixedPoint | src/epCC1101/epCC1101/configurator.py:488-503 | for fosc above 2^16, writing back the frequency just read leaves the configurator unchanged |
| Codecs.WordBack | src/epCC1101/epCC1101/configurator.py:488-503 | for fosc above 2^16, the frequency read from a word converts back to that word |
| Controller.Frame | src/epCC1101/epCC1101/cc1101.py:361-373 | fixed mode rejects a length other than PKTLEN, variable mode one above PKTLEN, with ValueError; variable mode prepends one byte equal to the length; other modes pass the data unchanged |
| Controller.FirstRoom | src/epCC1101/epCC1101/cc1101.py:339-340 | the polling loop stops at the first reading that leaves room for a chunk, and at no earlier one |
| Controller.WriteTxFifo | src/epCC1101/epCC1101/cc1101.py:337-347 | `_write_data_to_tx_fifo` as a trace of TXBYTES reads and FIFO writes; its contract is carried by Controller.FifoLoopGated and Controller.TxFifoChunks: `len // chunk_size + 1` writes of at most the chunk size that concatenate to the data, each after a reading with room |
| Controller.FifoLoopGated | src/epCC1101/epCC1101/cc1101.py:337-347 | every FIFO write of the chunk loop comes right after a TXBYTES reading with room, and all readings before it showed none |
| Controller.FifoLoopChunks | src/epCC1101/epCC1101/cc1101.py:337-341 | from chunk i on, a completed loop writes the remaining chunks, each at most the chunk size, that together are the data from `i * chunk_size` |
| Controller.TxFifoChunks | src/epCC1101/epCC1101/cc1101.py:337-347 | a completed chunk loop writes `len // chunk_size + 1` chunks, each at most the chunk size, whose concatenation is the data, each gated on `(TXBYTES & 0x7F) <= 55 - chunk_size` |
| Controller.Transmit | src/epCC1101/epCC1101/cc1101.py:349-399 | `transmit` as a trace of driver calls; its contract is carried by Controller.TransmitLengthRules, Controller.TransmitStates, Controller.TransmitNormalEvents and Controller.TransmitSendsFrame: a bad length fails before any call, a state other than IDLE raises ValueError, and a success writes the framed data and ends with SIDLE |
| Controller.TransmitLengthRules | src/epCC1101/epCC1101/cc1101.py:361-373 | a rejected length raises ValueError before any driver call |
| Controller.TransmitStates | src/epCC1101/epCC1101/cc1101.py:375-399 | MARCSTATE is read first; any state but IDLE raises ValueError before any flush or strobe; a success flushes, strobes STX and ends with SIDLE; format 2 sends nothing |
| Controller.TransmitNormalEvents | src/epCC1101/epCC1101/cc1101.py:375-399 | in normal mode the calls are: the state read, SFTX, STX, the chunk loop, the optional end-of-transmission wait, then SIDLE |
| Controller.TransmitSendsFrame | src/epCC1101/epCC1101/cc1101.py:349-399 | the FIFO writes of a normal-mode transmission are the framed data in chunks of at most the chunk size; in variable mode that is the length byte and then the data |
| Controller.PostProcessAsWritten | src/epCC1101/epCC1101/cc1101.py:444-460 | the post-processing as written succeeds exactly when the FIFO holds the length byte (all modes but fixed) and the two status bytes (when appended), and raises IndexError otherwise. The payload is the FIFO between them. The last two bytes give RSSI, LQI and CRC flag. The length is the byte count (fixed mode) or the length byte, minus two whenever status bytes are appended |
| Controller.VariableLengthMiscounted | src/epCC1101/epCC1101/cc1101.py:449-460 | for every variable-length frame with status bytes, the as-written length is two less than the payload length |
| Controller.PostProcess | src/epCC1101/epCC1101/cc1101.py:444-460 | the same, except the length: the payload size in fixed mode, the length byte as sent otherwise |
| Controller.FrameRoundTrip | src/epCC1101/epCC1101/cc1101.py:361-373 | what `transmit` frames in fixed or variable mode, received with its status bytes, post-processes to the data with its true length, the RSSI, the LQI (low seven bits) and the CRC flag (bit 7) |
| Controller.PostProcessDifference | src/epCC1101/epCC1101/cc1101.py:449-460 | the two post-processings agree on success, payload and status fields; they differ only in the length, and only in variable mode with status bytes |
| Controller.RawEdges | src/epCC1101/epCC1101/cc1101.py:487-497 | each captured transition becomes an edge with the same level and its time measured from the capture start; adding the start time back restores the capture's transitions exactly |
| Controller.ReceiveData | src/epCC1101/epCC1101/cc1101.py:423-500 | the data path never strobes SRX or SFRX; in normal mode it post-processes the FIFO as written, with `length -= 2` |
| Controller.Receive | src/epCC1101/epCC1101/cc1101.py:401-500 | `receive` as a trace of driver calls; its contract is carried by Controller.ReceiveStates, Controller.ReceiveTimeout, Controller.ReceiveNormalPacket and Controller.ReceiveFrame: only IDLE and RX are accepted, a timeout gives None, and a transmitted frame comes back with its data and status fields |
| Controller.ReceiveStates | src/epCC1101/epCC1101/cc1101.py:408-421 | states other than IDLE and RX raise ValueError after the state read alone; otherwise the RX FIFO is flushed and SRX is strobed exactly when the state is IDLE |
| Controller.ReceiveTimeout | src/epCC1101/epCC1101/cc1101.py:429-432 | in normal mode a timeout before the packet starts returns None, not an exception, and skips SIDLE |
| Controller.PacketFormatPinsMatchReceive | src/epCC1101/epCC1101/cc1101.py:426-485 | after `set_packet_format(0)` the pin assertions of `receive` hold exactly when GDO0 is wired; after `set_packet_format(3)`, exactly when GDO0 and GDO2 are wired |
| Controller.ReceiveNormalPacket | src/epCC1101/epCC1101/cc1101.py:425-470 | a normal-mode reception returns the FIFO contents post-processed as written and ends with SIDLE |
| Controller.ReceiveFrame | src/epCC1101/epCC1101/cc1101.py:425-470 | `receive` recovers a frame `transmit` sent in fixed or variable length mode: exact payload, RSSI, LQI and CRC flag, and the exact length except in variable mode with status bytes, where it is two short |
| Controller.Signed8 | src/epCC1101/epCC1101/cc1101.py:193-198 | a byte read as two's complement lies in -128..127 and agrees with the byte modulo 256 |
| Controller.RssiRaw | src/epCC1101/epCC1101/cc1101.py:142-167 | the raw RSSI is returned in RX or RX_END, any other state raises ValueError |
| Controller.RssiDbm | src/epCC1101/epCC1101/cc1101.py:169-198 | the dBm value is the signed reading halved minus 74, so it lies in -138..-10.5; states other than RX and RX_END raise ValueError |
| Controller.GetConfiguration | src/epCC1101/epCC1101/cc1101.py:200-214 | the configurator takes the first 47 registers and the 8 power-table bytes read from the chip |
| Controller.SetConfiguration | src/epCC1101/epCC1101/cc1101.py:216-238 | writing the configuration leaves the chip's MARC state unchanged |
| Controller.ConfigurationRoundTrip | src/epCC1101/epCC1101/cc1101.py:200-238 | writing the configuration to the stub and reading it back gives the registers, and the power table with the chip's own entries behind a short one |
| Controller.LoadPreset | src/epCC1101/epCC1101/cc1101.py:240-264 | `load_preset` replaces the registers and power table and writes them to the chip; its contract is carried by Controller.LoadPresetReadsBack: with a full power table the configuration reads back as the preset |
| Controller.LoadPresetReadsBack | src/epCC1101/epCC1101/cc1101.py:200-264 | after loading a preset with a full power table, reading the configuration back yields the preset |
| Controller.Bitstream | src/epCC1101/epCC1101/cc1101.py:33-40 | a data rate that reads back as 0 baud raises ZeroDivisionError; otherwise the bitstream is as long as the sum of the pulses' rounded bit counts |
| Controller.BitstreamRuns | src/epCC1101/epCC1101/cc1101.py:33-40 | every bit of pulse k's run equals one minus the level that pulse ended in |
| LegacyController.LegacyTransmit | src/cc1101.py:77-120 | the legacy `transmit` as a trace of driver calls; its contract is carried by LegacyController.LegacyTransmitFraming: the same length rules and framing as the current transmit, IDLE only, unmasked TXBYTES polling and no SIDLE |
| LegacyController.LegacyTransmitFraming | src/cc1101.py:88-120 | the legacy transmit rejects exactly the lengths the current one rejects and frames identically; any state but IDLE raises ValueError; the FIFO writes are the frame in `len // chunk_size + 1` chunks, each gated on the unmasked TXBYTES; no SIDLE is ever strobed |
| LegacyController.LegacyPostProcess | src/cc1101.py:154-170 | the legacy post-processing fails only with IndexError (too few bytes) or TypeError |
| LegacyController.LegacyPostProcessModes | src/cc1101.py:154-170 | in fixed and variable mode it equals the current post-processing as written; in infinite mode with status bytes it always fails, with IndexError on fewer than two bytes and TypeError otherwise; without status bytes it returns the data with no length |
| LegacyController.LegacyReceive | src/cc1101.py:122-174 | the legacy `receive` as a trace of driver calls; its contract is carried by LegacyController.LegacyReceiveStates and LegacyController.LegacyPostProcessModes: IDLE only, SRX and never SFRX, None on a timeout, and otherwise the FIFO post-processed as the legacy code does |
| LegacyController.LegacyReceiveStates | src/cc1101.py:132-170 | any state but IDLE raises ValueError after the state read alone, including RX, which the current `receive` accepts; with IDLE it strobes SRX and never SFRX or SIDLE; a blocking wait that times out returns None, and otherwise the result is the legacy post-processing of the FIFO, its error included |
| StubDriver.Initial | src/epCC1101/epCC1101/stubs/driver.py:10-12 | the stub starts with 47 registers, 8 power-table bytes and MARC state IDLE |
| StubDriver.ReadStatus | src/epCC1101/epCC1101/stubs/driver.py:20-29 | PARTNUM reads 0x00, VERSION 0x04, RSSI 0x30, MARCSTATE the current state, anything else 0 |
| StubDriver.ReadBurst | src/epCC1101/epCC1101/stubs/driver.py:31-35 | a power-table read is a prefix of the table; any other read is the register slice |
| StubDriver.Strobe | src/epCC1101/epCC1101/stubs/driver.py:37-43 | SIDLE, STX and SRX select IDLE, TX and RX; every other strobe leaves the stub unchanged; no strobe touches registers or power table |
| StubDriver.WriteBurst | src/epCC1101/epCC1101/stubs/driver.py:45-51 | a TXFIFO write only sets the state to IDLE; a power-table write replaces a prefix of the table; any other write replaces a register slice; no other part changes |
| StubDriver.RegisterBurstRoundTrip | src/epCC1101/epCC1101/stubs/driver.py:31-51 | a register burst that fits reads back as written and leaves every other register |
| StubDriver.PatableRoundTrip | src/epCC1101/epCC1101/stubs/driver.py:31-51 | a power-table prefix reads back as written and the rest of the table is kept |
| StubDriver.RunKeepsKnownState | src/epCC1101/epCC1101/stubs/driver.py:12-49 | whatever strobes and bursts are applied, the MARC state stays IDLE, TX or RX |
| StubDriver.StrobesKeepMemory | src/epCC1101/epCC1101/stubs/driver.py:37-43 | a sequence of strobes never changes registers or power table |
| Edges.Levels | src/epCC1101/raw_packet_interpreter.py:40-42 | one level per edge after the first |
| Edges.Pulses | src/epCC1101/raw_packet_interpreter.py:13-14 | one duration per level |
| Edges.Expand | src/epCC1101/raw_packet_interpreter.py:38-44 | the runs laid end to end are as long as the sum of the counts |
| Edges.ExpandRun | src/epCC1101/raw_packet_interpreter.py:38-44 | bit j of the expansion, taken between the run totals before and up to pulse k, is one minus pulse k's level |
| Interpreter.Insert | src/epCC1101/raw_packet_interpreter.py:16-19 | inserting into an ascending list keeps it ascending and adds exactly the element |
| Interpreter.Sort | src/epCC1101/raw_packet_interpreter.py:16-19 | `sorted` returns an ascending permutation of its input |
| Interpreter.SortedUnique | src/epCC1101/raw_packet_interpreter.py:16-19 | two ascending permutations of the same values are equal, so the sort result is determined |
| Interpreter.BinsPartition | src/epCC1101/raw_packet_interpreter.py:11-14 | the two level bins together hold exactly the pulse durations |
| Interpreter.BinClean | src/epCC1101/raw_packet_interpreter.py:11-14 | a bin holds only durations filed under its level |
| Interpreter.BelowMembers | src/epCC1101/raw_packet_interpreter.py:26-29 | the candidates are exactly the durations at most the bound |
| Interpreter.SumBounds | src/epCC1101/raw_packet_interpreter.py:31-34 | the sum of n values between lo and hi lies between `n * lo` and `n * hi` |
| Interpreter.LevelMean | src/epCC1101/raw_packet_interpreter.py:21-34 | the per-level estimate fails only with ZeroDivisionError |
| Interpreter.SortedMeanBounds | src/epCC1101/raw_packet_interpreter.py:21-34 | on five or more sorted non-negative durations the candidate mean exists and lies between the smallest and 1.5 times the mean of the first five |
| Interpreter.LevelMeanBounds | src/epCC1101/raw_packet_interpreter.py:21-34 | with at least five non-negative durations the mean exists and lies between the shortest duration and 1.5 times the mean of the five shortest |
| Interpreter.LevelMeanClean | src/epCC1101/raw_packet_interpreter.py:21-34 | if at least five pulses last exactly one bit time t and the rest at least two, the estimate is exactly t |
| Interpreter.EstimateBitLength | src/epCC1101/raw_packet_interpreter.py:9-36 | the estimate is two bit times, or fails with AssertionError, IndexError or ZeroDivisionError |
| Interpreter.EstimateErrors | src/epCC1101/raw_packet_interpreter.py:9-36 | it fails exactly on 20 or fewer edges (AssertionError), on a level outside the two bins, or on a level with no candidate |
| Interpreter.Counts | src/epCC1101/raw_packet_interpreter.py:40-43 | one count per pulse, or IndexError or ZeroDivisionError |
| Interpreter.CountsOk | src/epCC1101/raw_packet_interpreter.py:40-43 | the counts succeed exactly when every level selects a non-zero bit time |
| Interpreter.CountsNear | src/epCC1101/raw_packet_interpreter.py:40-43 | pulses within half a bit time of n bit times count as exactly n |
| Interpreter.CalcBits | src/epCC1101/raw_packet_interpreter.py:38-44 | `calc_bits` fails only with IndexError or ZeroDivisionError |
| Interpreter.CalcBitsRuns | src/epCC1101/raw_packet_interpreter.py:38-44 | every bit of pulse k's run equals one minus the level that pulse ended in |
| Interpreter.Interpret | src/epCC1101/raw_packet_interpreter.py:4-7 | construction fails exactly when the bit times cannot be estimated or some level selects no non-zero bit time, and only with AssertionError, IndexError or ZeroDivisionError; on success it keeps the two estimated bit times and the bits `calc_bits` rebuilds from them |
| Interpreter.EstimateClean | src/epCC1101/raw_packet_interpreter.py:9-36 | on a clean capture the estimate is exactly the two bit times |
| Interpreter.CountsClean | src/epCC1101/raw_packet_interpreter.py:38-44 | pulses of whole bit times count exactly those numbers of bits |
| Interpreter.InterpretClean | src/epCC1101/raw_packet_interpreter.py:4-44 | on a clean capture of whole bit times t0 and t1 with at least five single-bit pulses per level, the interpreter recovers t0 and t1 and exactly the transmitted bits |
| Princeton.Patterns | src/epCC1101/epCC1101/packet.py:126-127 | four physical bits per logical bit |
| Princeton.PatternsAppend | src/epCC1101/epCC1101/packet.py:194-201 | the patterns of two bit lists laid end to end are the patterns of their concatenation |
| Princeton.FirstPattern | src/epCC1101/epCC1101/packet.py:143-147 | the first position whose four-bit window is a pattern, and none before it |
| Princeton.AlignBits | src/epCC1101/epCC1101/packet.py:143-147 | `_align_bits` returns the suffix from the first index whose four-bit window is 1110 or 1000: no window before that index is a pattern, and the result is `[]` exactly when no window is |
| Princeton.AlignAligned | src/epCC1101/epCC1101/packet.py:143-147 | input starting with a pattern is returned unchanged |
| Princeton.LogicalBits | src/epCC1101/epCC1101/packet.py:149-156 | `_to_logical_bits` yields at most one bit per complete four-bit group, and nothing for fewer than four bits |
| Princeton.LogicalBitsSkips | src/epCC1101/epCC1101/packet.py:149-156 | a complete group that is neither 1110 nor 1000 contributes no bit: decoding continues with the next group |
| Princeton.LogicalBitsOfPatterns | src/epCC1101/epCC1101/packet.py:149-156 | decoding the patterns of a bit list gives that bit list back |
| Princeton.LogicalBitsAppend | src/epCC1101/epCC1101/packet.py:149-156 | decoding works group by group: a prefix of whole groups decodes independently of what follows |
| Princeton.LogicalBytes | src/epCC1101/epCC1101/packet.py:158-171 | exactly 25 logical bits give three bytes, holding the first 24 bits MSB-first; any other count gives None |
| Princeton.FromBytesOfPack | src/epCC1101/epCC1101/packet.py:158-171 | the big-endian value of the packed bytes is the value of the bits |
| Princeton.OrFoldValue | src/epCC1101/epCC1101/packet.py:176-178 | `value = (value << 8) \| byte` over the bytes gives their big-endian value |
| Princeton.LogicalValues | src/epCC1101/epCC1101/packet.py:173-182 | the data is below `2^data_bits` and `address * 2^data_bits + data` is the bytes' big-endian value |
| Princeton.SplitCombine | src/epCC1101/epCC1101/packet.py:173-196 | splitting `(address << data_bits) \| data` gives the address and data back |
| Princeton.Parse | src/epCC1101/epCC1101/packet.py:184-192 | parse succeeds exactly when 25 logical bits result, and then the value holds the first 24 of them |
| Princeton.PrependLoopPatterns | src/epCC1101/epCC1101/packet.py:194-201 | the loop that prepends the pattern of the low bit 24 times lays out the patterns of the 24 bits MSB-first |
| Princeton.PhysicalBits | src/epCC1101/epCC1101/packet.py:194-201 | `_get_physical_bits`; its contract is carried by Princeton.PhysicalBitsLayout and Princeton.ParsePhysicalBits: 24 MSB-first patterns and the 1,0,0,0,0,0,0,0 trailer, which parse back to the value when it fits |
| Princeton.PhysicalBitsLayout | src/epCC1101/epCC1101/packet.py:194-201 | the physical bits are 24 MSB-first patterns of the combined value followed by 1,0,0,0,0,0,0,0: 104 bits |
| Princeton.ParsePhysicalBits | src/epCC1101/epCC1101/packet.py:184-201 | parsing the physical bits of a value gives the value back when the data fits `data_bits` and the combined value fits 24 bits |
| Princeton.ParseIgnoresSyncBit | src/epCC1101/epCC1101/packet.py:184-192 | parse accepts 25 patterns whatever the 25th bit is, and gives the same result |
| Princeton.ParseOfPatterns | src/epCC1101/epCC1101/packet.py:184-192 | 25 patterns parse to the values of their first 24 bits |
| Princeton.PhysicalBytes | src/epCC1101/epCC1101/packet.py:203-212 | `get_physical_bytes` returns 13 bytes |
| Princeton.TrailerValue | src/epCC1101/epCC1101/packet.py:200 | the trailer 1,0,0,0,0,0,0,0 packs to 0x80 |
| Princeton.PhysicalBytesShape | src/epCC1101/epCC1101/packet.py:203-212 | bytes 0..11 have only the nibbles 0xE and 0x8 and the last byte is 0x80 |
| PrincetonScripts.TransmitBits | examples/princeton24bit/transmitter.py:29-39 | the bit list has `32 * len(data) + 40` bits |
| PrincetonScripts.TransmitBitsGrouped | examples/princeton24bit/transmitter.py:29-39 | the bit list is 16 zeros, the MSB-first patterns of the data bits, 1000, 0000 and 16 zeros |
| PrincetonScripts.TransmitPacket | examples/princeton24bit/transmitter.py:41-48 | the packet has `4 * len(data) + 5` bytes |
| PrincetonScripts.TransmitPacketLayout | examples/princeton24bit/transmitter.py:28-48 | the packet is two zero bytes, the packed patterns, then 0x80, 0x00, 0x00 |
| PrincetonScripts.TransmitPatternBytes | examples/princeton24bit/transmitter.py:28-48 | every byte between the lead-in and the trailer has only the nibbles 0xE and 0x8 |
| PrincetonScripts.TransmitMatchesLibrary | examples/princeton24bit/transmitter.py:28-48 | for three data bytes, bytes 2..14 equal the protocol class's physical bytes for the same 24-bit value |
| PrincetonScripts.StripLeading | examples/princeton24bit/receiver.py:46-50 | stripping leaves a suffix that is empty or starts with 1 |
| PrincetonScripts.StripZerosPrefix | examples/princeton24bit/receiver.py:46-50 | leading zeros in front of a list that starts with 1 are removed exactly |
| PrincetonScripts.StripDropsZeros | examples/princeton24bit/receiver.py:46-50 | every stripped bit is 0 |
| PrincetonScripts.Groups | examples/princeton24bit/receiver.py:52-58 | at most one logical bit per complete group of four, and nothing for fewer than four bits |
| PrincetonScripts.GroupsSkips | examples/princeton24bit/receiver.py:52-58 | a complete group other than 1000, 1110 and 0000 is skipped: decoding continues with the next group |
| PrincetonScripts.GroupsStopAtGap | examples/princeton24bit/receiver.py:52-58 | a 0000 group ends decoding; nothing after it is read |
| PrincetonScripts.GroupsOfPatterns | examples/princeton24bit/receiver.py:52-58 | patterns followed by the 0000 group decode to their bits, whatever follows |
| PrincetonScripts.TryParseBits | examples/princeton24bit/receiver.py:38-68 | empty input raises IndexError; otherwise a success holds 25 bits ending in 0 |
| PrincetonScripts.AcceptGroups | examples/princeton24bit/receiver.py:61-68 | success exactly for 22..25 bits ending in 0, which are then left-padded with zeros to 25 |
| PrincetonScripts.ReceiveZeros | examples/princeton24bit/receiver.py:46-50 | an all-zero capture fails without logical bits |
| PrincetonScripts.TryParseBytes | examples/princeton24bit/receiver.py:70-86 | one byte per complete group of eight bits, byte k holding bits 8k..8k+7 most significant first; success exactly for 24 to 31 bits |
| PrincetonScripts.ReceivePacket | examples/princeton24bit/receiver.py:26-36 | a non-empty capture is processed; a successful byte parse gives three bytes |
| PrincetonScripts.ReceiveCapture | examples/princeton24bit/receiver.py:38-68 | a capture of leading zeros, the patterns of b and a sync 0, then 0000, parses exactly when b has 21..24 bits, giving b and the sync bit padded to 25 |
| PrincetonScripts.ReceiveShortCapture | examples/princeton24bit/receiver.py:38-86 | such a capture gives three bytes whose value is b's |
| PrincetonScripts.ReceiveTransmitted | examples/princeton24bit/receiver.py:38-86 | receiving the transmitter's bit list recovers the data bits and the sync bit, and exactly the data bytes when there are three |
| Kia.GetPayload | examples/kia_ev6/kia_ev6_key_fob_receiver.py:37-38 | the payload is the packet's first 24 bytes, or all of a shorter packet |
| Kia.CheckPayloadQuality | examples/kia_ev6/kia_ev6_key_fob_receiver.py:40-47 | the quality is at most 5, and 5 exactly when all of slots 1..5 repeat the payload |
| Kia.Count | examples/kia_ev6/kia_ev6_key_fob_receiver.py:42-46 | the counter never exceeds the number of comparisons and reaches it exactly when all succeed |
| Kia.QualityCountsSlots | examples/kia_ev6/kia_ev6_key_fob_receiver.py:40-47 | the quality is the number of the five slot comparisons that succeed |
| Kia.RepetitionAt | examples/kia_ev6/kia_ev6_key_fob_receiver.py:21-25 | in a run of repetitions each behind four header bytes, repetition k sits at `28k + 4 .. 28k + 28` |
| Kia.CaptureSlot | examples/kia_ev6/kia_ev6_key_fob_receiver.py:40-47 | in such a capture, slot k + 1 matches for every repetition k |
| Kia.QualityOfCapture | examples/kia_ev6/kia_ev6_key_fob_receiver.py:21-47 | a 136-byte capture of a payload and four repetitions, each behind four header bytes, scores exactly 4 |
| Kia.QualityBelowFive | examples/kia_ev6/kia_ev6_key_fob_receiver.py:40-47 | with a full payload and fewer than 164 bytes the fifth slot cannot match, so the score is at most 4; an empty packet scores 5 |
| Kia.RawBinary | examples/kia_ev6/kia_ev6_key_fob_receiver.py:51-52 | n bytes give `8n - 1` digits; with the dropped first digit restored they pack back to the payload |
| Kia.Halves | examples/kia_ev6/kia_ev6_key_fob_receiver.py:55-62 | the pair loop yields at most one bit per complete pair |
| Kia.HalvesOfEncode | examples/kia_ev6/kia_ev6_key_fob_receiver.py:55-62 | decoding the pairs undoes Manchester encoding (0 as 01, 1 as 10), whatever single digit trails |
| Kia.HalvesAppend | examples/kia_ev6/kia_ev6_key_fob_receiver.py:55-62 | decoding works pair by pair: an even-length prefix decodes independently of what follows |
| Kia.HalvesSkipsInvalid | examples/kia_ev6/kia_ev6_key_fob_receiver.py:55-62 | the pairs 00 and 11 are dropped without a trace |
| Kia.Group8 | examples/kia_ev6/kia_ev6_key_fob_receiver.py:64 | groups of eight bits, the last possibly shorter, give one byte each |
| Kia.Group8Aligned | examples/kia_ev6/kia_ev6_key_fob_receiver.py:64 | on whole bytes the grouping is MSB-first packing |
| Kia.Group8Tail | examples/kia_ev6/kia_ev6_key_fob_receiver.py:64 | a short last group becomes one final byte holding its value |
| Kia.ManchesterDecode | examples/kia_ev6/kia_ev6_key_fob_receiver.py:49-65 | n payload bytes give at most `4n - 1` decoded bits |
| Kia.ManchesterRoundTrip | examples/kia_ev6/kia_ev6_key_fob_receiver.py:49-65 | a payload whose bits are a leading digit, an encoded message and at most one trailing digit decodes to the message grouped into bytes; for 24 bytes that is 95 bits in 12 bytes |
| Kia.FobDecodeLayout | examples/kia_ev6/kia_ev6_key_fob_receiver.py:49-65 | a 24-byte fob payload decodes to twelve bytes: eleven hold message bits 0..87, the twelfth the last seven bits as a value below 128 |

## Left out

- The hardware: SPI transfers, GPIO pins, edge waits, sleeps and time stamps.
  - The controller records these calls as events.
  - The chip's answers (MARC state, TXBYTES readings, whether the packet started) are parameters.
  - `epCC1101/addresses.py` is not part of this model. Register and strobe addresses follow the CC1101 data sheet's register map.
- Controller.FifoLoop: the TXBYTES readings are a finite list. Where the source sleeps and polls forever until the FIFO has room (cc1101.py:339-340), the model stops with `Err(Stalled)` once the readings run out; nothing is claimed about a device that never makes room.
- The RX drain loop of `receive` is abstracted: its result, the drained FIFO contents, is one input sequence.
- The synchronous serial reader: its packet is opaque.
- `Received_Packet` time stamps and durations.
- Floating point. Python's `round` is modelled exactly on reals; `log2` plus `floor` is the exact integer floor of the binary logarithm. IEEE effects at power-of-two boundaries are not modelled.
- fosc is a positive integer parameter; the boards use 26 MHz.
- Codecs.SetDataRateBaud returns a FieldOverflow error when the computed exponent does not fit its field. The source writes the overlong value into the register, where it spills into neighbouring bits; that register content is not modelled.
- Codecs.SetChannelSpacingHz returns FieldOverflow in the same way.
- Codecs.SetReceiverBandwidthHz returns FieldOverflow in the same way.
- Codecs.SetReceiverBandwidthAsWritten returns FieldOverflow in the same way.
- Codecs.SetDeviationHz returns FieldOverflow in the same way.
- Fields.SetSyncWord requires a two-byte word. A longer or shorter list would change the length of the Python register list.
- Fields.SetPacketLengthMode requires a mode of 0..3. The source ORs any integer into PKTCTRL0 without a check, so a larger value would spill into neighbouring bits.
- Fields.SetAddressCheckMode requires a mode of 0..3, for the same reason.
- Fields.SetFocSettings requires each setting to fit its bit group, for the same reason.
- Fields.SetModulationFormat requires a format of 0..7, for the same reason.
- Fields.SetPacketLength and Fields.SetDeviceAddress take a byte. Python would store any integer and fail only when the registers are written to the chip.
- Fields.SetGdoConfig takes a byte for the same reason.
- Controller.GetConfiguration returns IndexError when the chip's burst read is not 47 bytes long. The source would store the short list.
- Chunk sizes are naturals. A zero chunk size makes the source divide by zero; the model's chunk loop reports that as a failure.
- The stub driver's class-level lists are shared between instances in Python; the model gives each chip its own value.
- The stub's `read_byte`, `wait_for_edge`, `read_gdo0`, `read_gdo2` and serial stubs return constants and are not modelled.
- Princeton: `address_bits` is stored but never used by the source, so it is not modelled.
- Princeton.PhysicalBits: the address, the data and `data_bits` are naturals. In Python a negative `data_bits` raises ValueError at the shift (packet.py:196), and a negative address or data is sent as the low 24 bits of its two's complement. The protocol's fields are unsigned, so neither case is modelled.
- Princeton.Parse: `data_bits` is a natural. In Python a negative value raises ValueError at `x >> self.data_bits` (packet.py:180).
- Princeton: physical bits are 0 or 1 only. Python lists could hold other integers.
- `Protocol` and `Cc1101_Packet_Protocol` are not modelled: their property accessors recurse on themselves, and `setup_configurator` only forwards to configurator setters.
- `AsyncRxPacket.get_bitstream` reads an attribute that is never set, so it is not modelled. The trivial packet holder classes are not modelled either.
- The example scripts' top-level code is not modelled: hardware setup, the main loops, the fivefold repetition of the transmitted packet, logging and `print`.
- PrincetonScripts.TransmitPacket: data values are bytes. Python would accept larger integers and shift their high bits away.
- PrincetonScripts.TryParseBits returns the logical bits; the mutation of the caller's `physical_bits` list by `pop(0)` is not modelled.
- `print_registers`, `print_description` and the preset tables are not modelled.
- Kia: the receiver script logs the quality as a fraction of 4, while `check_payload_quality` compares five slots. Logging is not modelled; Kia.QualityOfCapture shows that the documented 136-byte capture scores 4.

## Findings

| source | as written | input that shows it | evidently intended | confidence | as-written member | corrected member |
|---|---|---|---|---|---|---|
| src/epCC1101/epCC1101/configurator.py:59-71 | the rounded bandwidth mantissa may be 4. `(E << 2) \| M` then ORs it into the exponent bits instead of carrying into E | fosc 26 MHz, `set_receiver_bandwidth_hz(210000)` gives E = 1, M = 4 and reads back 406250 Hz | carry a mantissa of 4 into E + 1 with M = 0, as the data-rate setter does for 256 | not executed | Codecs.SetReceiverBandwidthAsWritten, Codecs.BandwidthAsWrittenCarry, Codecs.BandwidthCarryMissing | Codecs.SetReceiverBandwidthHz, Codecs.BandwidthRoundTrip |
| src/epCC1101/epCC1101/configurator.py:353-369 | `get_fec_enable` and `set_fec_enable` use MDMCFG2 bit 7, which the CC1101 register map defines as DEM_DCFILT_OFF; FEC_EN is MDMCFG1 bit 7 | any register state with FEC_EN at 0: `set_fec_enable(True)` leaves it at 0 and sets DEM_DCFILT_OFF | read and write MDMCFG1 bit 7 | not executed | Fields.SetFecEnabledAsWritten, Fields.FecAsWrittenMissesFecBit | Fields.SetFecEnabled, Fields.FecKeepsDcFilter |
| src/epCC1101/epCC1101/cc1101.py:449-460 | with append status on in variable length mode, `length -= 2` is applied to the length byte, which never counted the two status bytes | variable mode, a 3-byte payload framed as `[3, a, b, c]` plus RSSI and status reports length 1 | subtract 2 only where the length was the FIFO byte count (fixed mode) | not executed | Controller.PostProcessAsWritten, Controller.VariableLengthMiscounted, Controller.ReceiveFrame | Controller.PostProcess, Controller.FrameRoundTrip |
