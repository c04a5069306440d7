/** The `Cc1101` controller of the current driver package: transmit and
    receive framing, the TX FIFO chunk loop, the MARC state checks, the
    post-processing of a received packet, RSSI conversion, configuration
    transfer and the bitstream of a raw capture.

    The controller talks to an abstract driver. A call is modelled as a
    function of the configurator, the driver's static attributes and the
    answers the device gives (MARC state, TXBYTES readings, whether the
    start-of-packet edge came, the drained FIFO bytes, the raw capture); it
    returns the driver calls made, in order, and the result or exception. */
module Controller {
  import opened Bits
  import opened Results
  import opened PySeq
  import opened Rounding
  import opened Registers
  import opened Fields
  import opened Codecs
  import opened Addresses
  import opened Edges
  import StubDriver

  /** One call on the driver. Status reads carry the value the device
      answered. */
  datatype Event =
    | StrobeEv(command: nat)
    | StatusRead(register: nat, value: Byte)
    | BurstWrite(register: nat, data: seq<Byte>)
    | AwaitTxEnd              // falling edge on GDO0 at the end of a FIFO transmission
    | AwaitRxStart            // rising edge on GDO0 (sync word found), with a timeout
    | DrainRxFifo             // the RX FIFO read loop while GDO0 is high
    | SyncSerialWrite(data: seq<Byte>, baud: int)
    | AsyncSerialWrite(data: seq<Byte>, baud: int)
    | SyncSerialRead
    | AsyncSerialRead

  /** The driver calls a controller operation made, and how it ended. */
  datatype Outcome<T> = Outcome(events: seq<Event>, result: Result<T>)

  /** The driver attributes the controller consults: the FIFO chunk size and
      whether GDO0 and GDO2 are wired to host pins (`gdo0 is not None`). */
  datatype Link = Link(chunkSize: nat, gdo0: bool, gdo2: bool)

  // ---- Transmit framing ----

  /** The length rule `transmit` enforces: fixed length mode needs exactly
      PKTLEN bytes, variable length mode at most PKTLEN. */
  predicate LengthRejected(c: Configurator, n: nat) {
    (PacketLengthMode(c) == 0 && n != PacketLength(c))
    || (PacketLengthMode(c) == 1 && n > PacketLength(c))
  }

  /** The bytes `transmit` sends: in variable length mode the data behind a
      length byte, otherwise the data itself. */
  function Frame(c: Configurator, data: seq<Byte>): (r: Result<seq<Byte>>)
    ensures r.Err? <==> LengthRejected(c, |data|)
    ensures r.Err? ==> r.error == ValueError
    ensures r.Ok? && PacketLengthMode(c) == 1 ==>
      |r.value| == |data| + 1 && r.value[0] == |data| && r.value[1..] == data
    ensures r.Ok? && PacketLengthMode(c) != 1 ==> r.value == data
  {
    var mode := PacketLengthMode(c);
    var expected := PacketLength(c);
    if mode == 0 && |data| != expected then Err(ValueError)
    else if mode == 1 && |data| > expected then Err(ValueError)
    else if mode == 1 then Ok([|data|] + data)
    else Ok(data)
  }

  // ---- TX FIFO chunk loop ----

  /** Chunk `i` of the data: `data[size*i : min(size*(i+1), len(data))]`. */
  function Chunk(data: seq<Byte>, size: nat, i: nat): seq<Byte> {
    Slice(data, size * i, if size * (i + 1) < |data| then size * (i + 1) else |data|)
  }

  /** Whether a TXBYTES reading lets the next chunk in. The current driver
      masks off the underflow flag (bit 7) first, the legacy one does not. */
  predicate Room(reading: Byte, size: nat, masked: bool) {
    (if masked then reading % 128 else reading) <= 55 - size
  }

  /** How many readings the wait loop consumes before the one that shows
      room, or all of them if none does. */
  function FirstRoom(readings: seq<Byte>, size: nat, masked: bool): (k: nat)
    ensures k <= |readings|
    ensures forall j | 0 <= j < k :: !Room(readings[j], size, masked)
    ensures k < |readings| ==> Room(readings[k], size, masked)
  {
    if |readings| == 0 then 0
    else if Room(readings[0], size, masked) then 0
    else 1 + FirstRoom(readings[1..], size, masked)
  }

  function Polls(readings: seq<Byte>): (r: seq<Event>)
    ensures |r| == |readings|
    ensures forall j | 0 <= j < |r| :: r[j] == StatusRead(TXBYTES, readings[j])
  {
    seq(|readings|, j requires 0 <= j < |readings| => StatusRead(TXBYTES, readings[j]))
  }

  /** Iterations `i .. n-1` of the chunk loop: poll TXBYTES until it shows
      room, then write chunk `i` to the TX FIFO. */
  function FifoLoop(data: seq<Byte>, size: nat, i: nat, n: nat, readings: seq<Byte>, masked: bool): (o: Outcome<()>)
    requires size > 0
    decreases n - i
  {
    if i >= n then Outcome([], Ok(()))
    else
      var k := FirstRoom(readings, size, masked);
      if k == |readings| then Outcome(Polls(readings), Err(Stalled))
      else
        var rest := FifoLoop(data, size, i + 1, n, readings[k + 1..], masked);
        Outcome(Polls(readings[..k + 1]) + [BurstWrite(TXFIFO, Chunk(data, size, i))] + rest.events, rest.result)
  }

  /** `_write_data_to_tx_fifo`: `len(data) // size + 1` chunk writes. */
  function WriteTxFifo(data: seq<Byte>, size: nat, readings: seq<Byte>, masked: bool): Outcome<()> {
    if size == 0 then Outcome([], Err(ZeroDivisionError))
    else FifoLoop(data, size, 0, |data| / size + 1, readings, masked)
  }

  /** The payloads of the FIFO writes in a trace, in order. */
  function Writes(events: seq<Event>): seq<seq<Byte>> {
    if |events| == 0 then []
    else (if events[0].BurstWrite? then [events[0].data] else []) + Writes(events[1..])
  }

  function Flatten(chunks: seq<seq<Byte>>): seq<Byte> {
    if |chunks| == 0 then [] else chunks[0] + Flatten(chunks[1..])
  }

  lemma {:induction false} WritesAppend(a: seq<Event>, b: seq<Event>)
    ensures Writes(a + b) == Writes(a) + Writes(b)
  {
    if |a| > 0 {
      assert (a + b)[1..] == a[1..] + b;
      WritesAppend(a[1..], b);
    } else {
      assert a + b == b;
    }
  }

  /** The shape of the chunk loop's calls: every call is a TXBYTES reading
      or a TX FIFO write; a reading without room is followed by another
      reading, a reading with room by a write, and every write comes right
      after a reading with room. */
  predicate Gated(events: seq<Event>, size: nat, masked: bool)
    decreases |events|
  {
    |events| == 0
    || (events[0].StatusRead? && events[0].register == TXBYTES
        && if Room(events[0].value, size, masked)
           then |events| >= 2 && events[1].BurstWrite? && events[1].register == TXFIFO
             && Gated(events[2..], size, masked)
           else Gated(events[1..], size, masked))
  }

  lemma {:induction false} PollsThenGated(readings: seq<Byte>, size: nat, masked: bool, tail: seq<Event>)
    requires forall j | 0 <= j < |readings| :: !Room(readings[j], size, masked)
    requires Gated(tail, size, masked)
    ensures Gated(Polls(readings) + tail, size, masked)
  {
    if |readings| > 0 {
      PollsThenGated(readings[1..], size, masked, tail);
      assert (Polls(readings) + tail)[1..] == Polls(readings[1..]) + tail;
    } else {
      assert Polls(readings) + tail == tail;
    }
  }

  lemma GatedStep(v: Byte, size: nat, masked: bool, chunk: seq<Byte>, rest: seq<Event>)
    requires Room(v, size, masked) && Gated(rest, size, masked)
    ensures Gated([StatusRead(TXBYTES, v), BurstWrite(TXFIFO, chunk)] + rest, size, masked)
  {
    var ev := [StatusRead(TXBYTES, v), BurstWrite(TXFIFO, chunk)] + rest;
    assert ev[2..] == rest;
  }

  lemma PollsSnoc(readings: seq<Byte>, k: nat)
    requires k < |readings|
    ensures Polls(readings[..k + 1]) == Polls(readings[..k]) + [StatusRead(TXBYTES, readings[k])]
  {
  }

  /** One iteration of the chunk loop: polls without room up to reading
      `k`, which has room, then the write, then a gated rest. */
  lemma GatedIteration(readings: seq<Byte>, k: nat, size: nat, masked: bool, chunk: seq<Byte>, rest: seq<Event>)
    requires k < |readings| && Room(readings[k], size, masked) && Gated(rest, size, masked)
    requires forall j | 0 <= j < k :: !Room(readings[j], size, masked)
    ensures Gated(Polls(readings[..k + 1]) + [BurstWrite(TXFIFO, chunk)] + rest, size, masked)
  {
    GatedStep(readings[k], size, masked, chunk, rest);
    var tail := [StatusRead(TXBYTES, readings[k]), BurstWrite(TXFIFO, chunk)] + rest;
    PollsThenGated(readings[..k], size, masked, tail);
    PollsSnoc(readings, k);
    assert Polls(readings[..k + 1]) + [BurstWrite(TXFIFO, chunk)] + rest == Polls(readings[..k]) + tail;
  }

  lemma {:induction false} FifoLoopGated(data: seq<Byte>, size: nat, i: nat, n: nat, readings: seq<Byte>, masked: bool)
    requires size > 0
    ensures Gated(FifoLoop(data, size, i, n, readings, masked).events, size, masked)
    decreases n - i
  {
    if i < n {
      var k := FirstRoom(readings, size, masked);
      if k < |readings| {
        var rest := FifoLoop(data, size, i + 1, n, readings[k + 1..], masked).events;
        FifoLoopGated(data, size, i + 1, n, readings[k + 1..], masked);
        GatedIteration(readings, k, size, masked, Chunk(data, size, i), rest);
      } else {
        PollsThenGated(readings, size, masked, []);
        assert Polls(readings) + [] == Polls(readings);
      }
    }
  }

  lemma MulLe(a: nat, b: nat, c: nat)
    requires a <= b
    ensures c * a <= c * b
  {
  }

  /** Where chunk `i` starts and ends, for `i <= len // size`. */
  lemma ChunkBounds(len: nat, size: nat, i: nat)
    requires size > 0 && i <= len / size
    ensures size * i <= len
    ensures size * (i + 1) == size * i + size
    ensures i < len / size ==> size * (i + 1) <= len
    ensures i == len / size ==> len < size * (i + 1)
  {
    var q := len / size;
    assert len == size * q + len % size;
    MulLe(i, q, size);
    if i < q {
      MulLe(i + 1, q, size);
    }
  }

  /** Chunk `i` of `n = len(data) // size + 1`: a full chunk before the last
      iteration, the remainder in the last one. */
  lemma ChunkFacts(data: seq<Byte>, size: nat, i: nat, n: nat)
    requires size > 0 && n == |data| / size + 1 && i < n
    ensures size * i <= |data| && |Chunk(data, size, i)| <= size
    ensures i + 1 < n ==> (size * (i + 1) <= |data|
      && Chunk(data, size, i) == data[size * i..size * (i + 1)]
      && data[size * i..] == Chunk(data, size, i) + data[size * (i + 1)..])
    ensures i + 1 == n ==> Chunk(data, size, i) == data[size * i..]
  {
    ChunkBounds(|data|, size, i);
    var lo := size * i;
    var hi := size * (i + 1);
    assert hi == lo + size;
    if i + 1 < n {
      assert Chunk(data, size, i) == Slice(data, lo, hi) == data[lo..hi];
      assert data[lo..] == data[lo..hi] + data[hi..];
    } else {
      assert Chunk(data, size, i) == Slice(data, lo, |data|) == data[lo..];
    }
  }

  /** The writes of iterations `i..n-1` carry `data[size*i:]`, one chunk of at
      most `size` bytes per iteration. */
  lemma {:induction false} FifoLoopChunks(data: seq<Byte>, size: nat, i: nat, n: nat, readings: seq<Byte>, masked: bool)
    requires size > 0 && n == |data| / size + 1 && i <= n
    requires FifoLoop(data, size, i, n, readings, masked).result.Ok?
    ensures |Writes(FifoLoop(data, size, i, n, readings, masked).events)| == n - i
    ensures forall w | w in Writes(FifoLoop(data, size, i, n, readings, masked).events) :: |w| <= size
    ensures i < n ==> size * i <= |data| && Flatten(Writes(FifoLoop(data, size, i, n, readings, masked).events)) == data[size * i..]
    decreases n - i
  {
    if i < n {
      var k := FirstRoom(readings, size, masked);
      var rest := FifoLoop(data, size, i + 1, n, readings[k + 1..], masked);
      var chunk := Chunk(data, size, i);
      var head := Polls(readings[..k + 1]);
      FifoLoopChunks(data, size, i + 1, n, readings[k + 1..], masked);
      FifoLoopStep(data, size, i, n, readings, masked);
      WritesOfStep(head, chunk, rest.events);
      var ws := Writes(rest.events);
      assert Writes(FifoLoop(data, size, i, n, readings, masked).events) == [chunk] + ws;
      ChunksCons(data, size, i, n, ws);
    }
  }

  /** Chunk `i` in front of the writes of iterations `i + 1 ..` covers the
      data from `i * size`. */
  lemma ChunksCons(data: seq<Byte>, size: nat, i: nat, n: nat, ws: seq<seq<Byte>>)
    requires size > 0 && n == |data| / size + 1 && i < n
    requires |ws| == n - (i + 1) && forall w | w in ws :: |w| <= size
    requires i + 1 < n ==> size * (i + 1) <= |data| && Flatten(ws) == data[size * (i + 1)..]
    ensures |[Chunk(data, size, i)] + ws| == n - i
    ensures forall w | w in [Chunk(data, size, i)] + ws :: |w| <= size
    ensures size * i <= |data| && Flatten([Chunk(data, size, i)] + ws) == data[size * i..]
  {
    var chunk := Chunk(data, size, i);
    ChunkFacts(data, size, i, n);
    assert ([chunk] + ws)[1..] == ws;
    if i + 1 == n {
      assert ws == [];
    }
  }

  /** A completed iteration: polls up to and including the reading with
      room, the chunk write, then the remaining iterations. */
  lemma FifoLoopStep(data: seq<Byte>, size: nat, i: nat, n: nat, readings: seq<Byte>, masked: bool)
    requires size > 0 && i < n
    requires FifoLoop(data, size, i, n, readings, masked).result.Ok?
    ensures FirstRoom(readings, size, masked) < |readings|
    ensures var k := FirstRoom(readings, size, masked);
      var rest := FifoLoop(data, size, i + 1, n, readings[k + 1..], masked);
      FifoLoop(data, size, i, n, readings, masked) ==
        Outcome(Polls(readings[..k + 1]) + [BurstWrite(TXFIFO, Chunk(data, size, i))] + rest.events, rest.result)
  {
  }

  /** One iteration's calls contribute exactly its chunk. */
  lemma WritesOfStep(head: seq<Event>, chunk: seq<Byte>, rest: seq<Event>)
    requires forall j | 0 <= j < |head| :: !head[j].BurstWrite?
    ensures Writes(head + [BurstWrite(TXFIFO, chunk)] + rest) == [chunk] + Writes(rest)
  {
    var tail := [BurstWrite(TXFIFO, chunk)] + rest;
    NoWrites(head);
    WritesAppend(head, tail);
    assert tail[1..] == rest;
    assert Writes(tail) == [chunk] + Writes(rest);
    assert head + [BurstWrite(TXFIFO, chunk)] + rest == head + tail;
  }

  /** A completed chunk loop makes `len(data) // size + 1` FIFO writes of at
      most `size` bytes each, which together are exactly the data; each write
      follows a TXBYTES reading that showed room. */
  lemma TxFifoChunks(data: seq<Byte>, size: nat, readings: seq<Byte>, masked: bool)
    requires WriteTxFifo(data, size, readings, masked).result.Ok?
    ensures size > 0
    ensures |Writes(WriteTxFifo(data, size, readings, masked).events)| == |data| / size + 1
    ensures forall w | w in Writes(WriteTxFifo(data, size, readings, masked).events) :: |w| <= size
    ensures Flatten(Writes(WriteTxFifo(data, size, readings, masked).events)) == data
    ensures Gated(WriteTxFifo(data, size, readings, masked).events, size, masked)
  {
    FifoLoopChunks(data, size, 0, |data| / size + 1, readings, masked);
    FifoLoopGated(data, size, 0, |data| / size + 1, readings, masked);
  }

  // ---- transmit ----

  /** What `transmit` does once the device is in IDLE and the TX FIFO is
      flushed and STX strobed: the data path the packet format selects,
      then SIDLE. */
  function TransmitData(c: Configurator, link: Link, framed: seq<Byte>, blocking: bool, readings: seq<Byte>): (o: Outcome<()>)
  {
    var format := PacketFormat(c);
    if format == 0 then
      var fifo := WriteTxFifo(framed, link.chunkSize, readings, true);
      if fifo.result.Err? then fifo
      else
        var wait := if blocking && link.gdo0 then [AwaitTxEnd] else [];
        Outcome(fifo.events + (wait + [StrobeEv(SIDLE)]), Ok(()))
    else if format == 1 then
      Outcome([SyncSerialWrite(framed, DataRateBaud(c)), StrobeEv(SIDLE)], Ok(()))
    else if format == 3 && !link.gdo0 then
      Outcome([], Err(AssertionError))
    else if format == 3 then
      Outcome([AsyncSerialWrite(framed, DataRateBaud(c)), StrobeEv(SIDLE)], Ok(()))
    else
      Outcome([StrobeEv(SIDLE)], Ok(()))
  }

  /** `transmit`: length rules, the IDLE check, flush and STX, then the data
      path. `marc` is the MARC state the device reports, `readings` its
      TXBYTES answers. */
  function Transmit(c: Configurator, link: Link, data: seq<Byte>, blocking: bool, marc: Byte, readings: seq<Byte>): (o: Outcome<()>)
  {
    var framed := Frame(c, data);
    if framed.Err? then Outcome([], Err(framed.error))
    else if marc != MARCSTATE_IDLE then Outcome([StatusRead(MARCSTATE, marc)], Err(ValueError))
    else
      var rest := TransmitData(c, link, framed.value, blocking, readings);
      Outcome([StatusRead(MARCSTATE, marc), StrobeEv(SFTX), StrobeEv(STX)] + rest.events, rest.result)
  }

  /** The length rules are checked before anything else: a rejected length
      raises ValueError without a single driver call, and only a rejected
      length does so. */
  lemma TransmitLengthRules(c: Configurator, link: Link, data: seq<Byte>, blocking: bool, marc: Byte, readings: seq<Byte>)
    ensures LengthRejected(c, |data|) <==>
      Transmit(c, link, data, blocking, marc, readings) == Outcome([], Err(ValueError))
  {
  }

  /** With an acceptable length, the first call reads MARCSTATE; any state
      but IDLE raises ValueError before any flush or strobe. A successful
      transmission flushes the TX FIFO, strobes STX first and SIDLE last; in
      random mode (format 2) nothing is sent in between. */
  lemma TransmitStates(c: Configurator, link: Link, data: seq<Byte>, blocking: bool, marc: Byte, readings: seq<Byte>)
    requires !LengthRejected(c, |data|)
    ensures var o := Transmit(c, link, data, blocking, marc, readings);
      |o.events| > 0 && o.events[0] == StatusRead(MARCSTATE, marc)
    ensures marc != MARCSTATE_IDLE ==>
      Transmit(c, link, data, blocking, marc, readings) == Outcome([StatusRead(MARCSTATE, marc)], Err(ValueError))
    ensures var o := Transmit(c, link, data, blocking, marc, readings);
      o.result.Ok? ==> (marc == MARCSTATE_IDLE && |o.events| >= 4
        && o.events[1] == StrobeEv(SFTX) && o.events[2] == StrobeEv(STX)
        && o.events[|o.events| - 1] == StrobeEv(SIDLE))
    ensures PacketFormat(c) == 2 && marc == MARCSTATE_IDLE ==>
      Transmit(c, link, data, blocking, marc, readings) ==
        Outcome([StatusRead(MARCSTATE, marc), StrobeEv(SFTX), StrobeEv(STX), StrobeEv(SIDLE)], Ok(()))
  {
  }

  /** The calls of a completed normal-mode transmission: state check, flush,
      STX, the chunk loop, the optional end-of-transmission wait, SIDLE. */
  lemma TransmitNormalEvents(c: Configurator, link: Link, data: seq<Byte>, blocking: bool, marc: Byte, readings: seq<Byte>)
    requires PacketFormat(c) == 0
    requires Transmit(c, link, data, blocking, marc, readings).result.Ok?
    ensures Frame(c, data).Ok? && WriteTxFifo(Frame(c, data).value, link.chunkSize, readings, true).result.Ok?
    ensures Transmit(c, link, data, blocking, marc, readings).events ==
      [StatusRead(MARCSTATE, marc), StrobeEv(SFTX), StrobeEv(STX)]
      + (WriteTxFifo(Frame(c, data).value, link.chunkSize, readings, true).events
      + ((if blocking && link.gdo0 then [AwaitTxEnd] else []) + [StrobeEv(SIDLE)]))
  {
  }

  /** The calls around the chunk loop write nothing to the FIFO. */
  lemma WritesAroundFifo(marc: Byte, fifo: seq<Event>, wait: bool)
    ensures Writes([StatusRead(MARCSTATE, marc), StrobeEv(SFTX), StrobeEv(STX)] + (fifo
      + ((if wait then [AwaitTxEnd] else []) + [StrobeEv(SIDLE)]))) == Writes(fifo)
  {
    var start := [StatusRead(MARCSTATE, marc), StrobeEv(SFTX), StrobeEv(STX)];
    var tail := (if wait then [AwaitTxEnd] else []) + [StrobeEv(SIDLE)];
    WritesAppend(fifo, tail);
    WritesAppend(start, fifo + tail);
    NoWrites(start);
    NoWrites(tail);
  }

  lemma {:induction false} NoWrites(events: seq<Event>)
    requires forall j | 0 <= j < |events| :: !events[j].BurstWrite?
    ensures Writes(events) == []
  {
    if |events| > 0 {
      NoWrites(events[1..]);
    }
  }

  /** In normal packet mode the FIFO writes of a completed transmission are
      the framed data in chunks of at most the driver's chunk size; in
      variable length mode that is one length byte and then the data. */
  lemma TransmitSendsFrame(c: Configurator, link: Link, data: seq<Byte>, blocking: bool, marc: Byte, readings: seq<Byte>)
    requires PacketFormat(c) == 0
    requires Transmit(c, link, data, blocking, marc, readings).result.Ok?
    ensures var ws := Writes(Transmit(c, link, data, blocking, marc, readings).events);
      Flatten(ws) == Frame(c, data).value && (forall w | w in ws :: |w| <= link.chunkSize)
    ensures PacketLengthMode(c) == 1 ==>
      Flatten(Writes(Transmit(c, link, data, blocking, marc, readings).events)) == [|data|] + data
  {
    TransmitNormalEvents(c, link, data, blocking, marc, readings);
    var framed := Frame(c, data).value;
    TxFifoChunks(framed, link.chunkSize, readings, true);
    WritesAroundFifo(marc, WriteTxFifo(framed, link.chunkSize, readings, true).events, blocking && link.gdo0);
  }

  // ---- Receive post-processing ----

  /** The fields of a processed packet. `length` is None only where the
      source leaves it None. */
  datatype Packet = Packet(payload: seq<Byte>, length: Option<int>, rssi: Option<Byte>, lqi: Option<Byte>, crcOk: bool)

  /** Whether the chip appends the two status bytes (RSSI, LQI/CRC) that the
      post-processing strips: append status on and length mode 0 or 1. */
  predicate StripsStatus(c: Configurator) {
    AppendStatusEnabled(c) && PacketLengthMode(c) <= 1
  }

  /** The leading length byte, present in every mode but fixed length. */
  function LengthBytes(c: Configurator): nat {
    if PacketLengthMode(c) == 0 then 0 else 1
  }

  /** The two trailing status bytes, present when the chip appends them. */
  function StatusBytes(c: Configurator): nat {
    if StripsStatus(c) then 2 else 0
  }

  /** RSSI, LQI and CRC flag as decoded from the last two FIFO bytes. */
  predicate StatusFields(p: Packet, fifo: seq<Byte>) {
    |fifo| >= 2
    && p.rssi == Some(fifo[|fifo| - 2])
    && p.lqi == Some(fifo[|fifo| - 1] % 128)
    && p.crcOk == (fifo[|fifo| - 1] >= 128)
  }

  /** The packet post-processing of `receive` as written: in fixed length
      mode the length is the byte count, otherwise the first byte is the
      length and is removed; with status bytes the last two bytes become
      RSSI, LQI and CRC flag, and the length is reduced by two. */
  function PostProcessAsWritten(c: Configurator, fifo: seq<Byte>): (r: Result<Packet>)
    ensures r.Ok? <==> |fifo| >= LengthBytes(c) + StatusBytes(c)
    ensures r.Err? ==> r.error == IndexError
    ensures r.Ok? ==> r.value.payload == fifo[LengthBytes(c)..|fifo| - StatusBytes(c)]
    ensures r.Ok? ==> r.value.length == Some((if PacketLengthMode(c) == 0 then |fifo| else fifo[0]) - StatusBytes(c))
    ensures r.Ok? && StripsStatus(c) ==> StatusFields(r.value, fifo)
  {
    var mode := PacketLengthMode(c);
    if mode != 0 && |fifo| == 0 then Err(IndexError)
    else
      var length: int := if mode == 0 then |fifo| else fifo[0];
      var body := if mode == 0 then fifo else fifo[1..];
      if StripsStatus(c) then
        if |body| < 2 then Err(IndexError)
        else
          var status := body[|body| - 1];
          Ok(Packet(body[..|body| - 2], Some(length - 2), Some(body[|body| - 2]), Some(status % 128), status >= 128))
      else
        Ok(Packet(body, Some(length), None, None, false))
  }

  /** The post-processing with the length taken from the length byte as is
      in variable length mode: the length byte counts the payload only, so
      the two status bytes must not be subtracted from it. Otherwise as
      `PostProcessAsWritten`. */
  function PostProcess(c: Configurator, fifo: seq<Byte>): (r: Result<Packet>)
    ensures r.Ok? <==> |fifo| >= LengthBytes(c) + StatusBytes(c)
    ensures r.Err? ==> r.error == IndexError
    ensures r.Ok? ==> r.value.payload == fifo[LengthBytes(c)..|fifo| - StatusBytes(c)]
    ensures r.Ok? ==> r.value.length == Some(if PacketLengthMode(c) == 0 then |r.value.payload| else fifo[0])
    ensures r.Ok? && StripsStatus(c) ==> StatusFields(r.value, fifo)
  {
    var mode := PacketLengthMode(c);
    if mode != 0 && |fifo| == 0 then Err(IndexError)
    else
      var body := if mode == 0 then fifo else fifo[1..];
      if StripsStatus(c) then
        if |body| < 2 then Err(IndexError)
        else
          var status := body[|body| - 1];
          var length: int := if mode == 0 then |fifo| - 2 else fifo[0];
          Ok(Packet(body[..|body| - 2], Some(length), Some(body[|body| - 2]), Some(status % 128), status >= 128))
      else
        var length: int := if mode == 0 then |fifo| else fifo[0];
        Ok(Packet(body, Some(length), None, None, false))
  }

  /** What the RX FIFO holds for a frame sent with this configuration: the
      frame, then the two status bytes when the chip appends them. */
  function Received(c: Configurator, frame: seq<Byte>, rssi: Byte, status: Byte): seq<Byte> {
    if StripsStatus(c) then frame + [rssi, status] else frame
  }

  /** Transmit framing and receive post-processing are inverse: whatever
      `transmit` frames in fixed or variable length mode is recovered as the
      payload, with its length, the RSSI byte, the LQI (low seven bits) and
      the CRC flag (bit 7) of the appended status. */
  lemma FrameRoundTrip(c: Configurator, data: seq<Byte>, rssi: Byte, status: Byte)
    requires PacketLengthMode(c) <= 1 && Frame(c, data).Ok?
    ensures PostProcess(c, Received(c, Frame(c, data).value, rssi, status)) ==
      Ok(if StripsStatus(c) then Packet(data, Some(|data|), Some(rssi), Some(status % 128), status >= 128)
         else Packet(data, Some(|data|), None, None, false))
  {
    var f := Frame(c, data).value;
    var fifo := Received(c, f, rssi, status);
    if PacketLengthMode(c) == 1 {
      assert fifo[0] == |data|;
      if StripsStatus(c) {
        assert fifo[1..] == data + [rssi, status];
        assert (data + [rssi, status])[..|data|] == data;
      } else {
        assert fifo[1..] == data;
      }
    } else if StripsStatus(c) {
      assert fifo[..|data|] == data;
    }
  }

  /** The two versions differ only in the reported length, and only in
      variable length mode with status bytes, where the source reports two
      less than the length byte says. */
  lemma PostProcessDifference(c: Configurator, fifo: seq<Byte>)
    ensures PostProcess(c, fifo).Ok? <==> PostProcessAsWritten(c, fifo).Ok?
    ensures PostProcess(c, fifo).Ok? ==>
      var p := PostProcess(c, fifo).value;
      var q := PostProcessAsWritten(c, fifo).value;
      p.payload == q.payload && p.rssi == q.rssi && p.lqi == q.lqi && p.crcOk == q.crcOk
      && (if StripsStatus(c) && PacketLengthMode(c) == 1
          then q.length.value == p.length.value - 2 else q.length == p.length)
  {
  }

  /** The as-written length is wrong for every variable length packet with
      status bytes: it is two less than the number of payload bytes. */
  lemma VariableLengthMiscounted(c: Configurator, data: seq<Byte>, rssi: Byte, status: Byte)
    requires PacketLengthMode(c) == 1 && AppendStatusEnabled(c) && Frame(c, data).Ok?
    ensures var p := PostProcessAsWritten(c, Received(c, Frame(c, data).value, rssi, status));
      p.Ok? && p.value.payload == data && p.value.length == Some(|data| - 2)
  {
    FrameRoundTrip(c, data, rssi, status);
    PostProcessDifference(c, Received(c, Frame(c, data).value, rssi, status));
  }

  // ---- receive ----

  /** A capture from the asynchronous serial reader: start and end time and
      the (time, level) transitions. */
  datatype Transition = Transition(time: real, level: int)
  datatype Capture = Capture(start: real, end: real, transitions: seq<Transition>)

  /** What `receive` returns when it returns something. */
  datatype Reception =
    | Processed(packet: Packet)
    | SerialPacket                     // whatever the driver's synchronous serial read returns
    | RawPacket(edges: seq<Edge>, timestamp: real, lengthSeconds: real)

  /** The edges of a raw packet: each transition as (level, time since the
      start of the capture). */
  function RawEdges(capture: Capture): (r: seq<Edge>)
    ensures |r| == |capture.transitions|
    ensures forall k | 0 <= k < |r| ::
      r[k].level == capture.transitions[k].level && r[k].time == capture.transitions[k].time - capture.start
    ensures seq(|r|, k requires 0 <= k < |r| => Transition(r[k].time + capture.start, r[k].level)) == capture.transitions
  {
    seq(|capture.transitions|, k requires 0 <= k < |capture.transitions| =>
      Edge(capture.transitions[k].level, capture.transitions[k].time - capture.start))
  }

  /** The pin setup normal packet mode needs: GDO0 signals the sync word
      and is wired to the host. */
  predicate NormalModeReady(c: Configurator, link: Link) {
    GdoConfig(c, 0) == Ok(GdoSyncWord as nat) && link.gdo0
  }

  /** The pin setup asynchronous serial mode needs: GDO0 is carrier sense,
      GDO2 the serial data output, both wired. */
  predicate AsyncModeReady(c: Configurator, link: Link) {
    GdoConfig(c, 0) == Ok(GdoCarrierSense as nat) && GdoConfig(c, 2) == Ok(GdoAsyncSerialData as nat)
    && link.gdo0 && link.gdo2
  }

  /** What `receive` does once the device is receiving: the path the
      packet format selects, then SIDLE. `started` says whether the
      start-of-packet edge came before the timeout, `fifo` is what the drain
      loop read, `capture` what the asynchronous reader recorded. */
  function ReceiveData(c: Configurator, link: Link, started: bool, fifo: seq<Byte>, capture: Capture): (o: Outcome<Option<Reception>>)
    ensures StrobeEv(SRX) !in o.events && StrobeEv(SFRX) !in o.events
  {
    var format := PacketFormat(c);
    if format == 0 then
      if !NormalModeReady(c, link) then Outcome([], Err(AssertionError))
      else if !started then Outcome([AwaitRxStart], Ok(None))
      else
        match PostProcessAsWritten(c, fifo)
        case Err(e) => Outcome([AwaitRxStart, DrainRxFifo], Err(e))
        case Ok(p) => Outcome([AwaitRxStart, DrainRxFifo, StrobeEv(SIDLE)], Ok(Some(Processed(p))))
    else if format == 1 then
      Outcome([SyncSerialRead, StrobeEv(SIDLE)], Ok(Some(SerialPacket)))
    else if format == 2 then
      Outcome([StrobeEv(SIDLE)], Ok(None))
    else if !AsyncModeReady(c, link) then
      Outcome([], Err(AssertionError))
    else
      Outcome([AsyncSerialRead, StrobeEv(SIDLE)],
        Ok(Some(RawPacket(RawEdges(capture), capture.start, capture.end - capture.start))))
  }

  /** `receive`: the MARC state check, RX FIFO flush, SRX unless already
      receiving, then the data path. */
  function Receive(c: Configurator, link: Link, marc: Byte, started: bool, fifo: seq<Byte>, capture: Capture): (o: Outcome<Option<Reception>>)
  {
    var check := [StatusRead(MARCSTATE, marc)];
    if marc != MARCSTATE_IDLE && marc != MARCSTATE_RX then Outcome(check, Err(ValueError))
    else
      var start := check + [StrobeEv(SFRX)] + (if marc != MARCSTATE_RX then [StrobeEv(SRX)] else []);
      var rest := ReceiveData(c, link, started, fifo, capture);
      Outcome(start + rest.events, rest.result)
  }

  /** `receive` accepts IDLE and RX only, raising ValueError before any
      strobe otherwise; it always flushes the RX FIFO and strobes SRX exactly
      when the device is not yet receiving. */
  lemma ReceiveStates(c: Configurator, link: Link, marc: Byte, started: bool, fifo: seq<Byte>, capture: Capture)
    ensures var o := Receive(c, link, marc, started, fifo, capture);
      |o.events| >= 2 ==> o.events[0] == StatusRead(MARCSTATE, marc)
    ensures marc != MARCSTATE_IDLE && marc != MARCSTATE_RX <==>
      Receive(c, link, marc, started, fifo, capture) == Outcome([StatusRead(MARCSTATE, marc)], Err(ValueError))
    ensures marc == MARCSTATE_IDLE || marc == MARCSTATE_RX ==>
      var o := Receive(c, link, marc, started, fifo, capture);
      |o.events| >= 2 && o.events[..2] == [StatusRead(MARCSTATE, marc), StrobeEv(SFRX)]
      && (StrobeEv(SRX) in o.events <==> marc == MARCSTATE_IDLE)
  {
  }

  /** In normal packet mode a timeout before the start of the packet returns
      None, not an exception, and skips the final SIDLE. */
  lemma ReceiveTimeout(c: Configurator, link: Link, marc: Byte, fifo: seq<Byte>, capture: Capture)
    requires marc == MARCSTATE_IDLE || marc == MARCSTATE_RX
    requires PacketFormat(c) == 0 && NormalModeReady(c, link)
    ensures Receive(c, link, marc, false, fifo, capture).result == Ok(None)
    ensures StrobeEv(SIDLE) !in Receive(c, link, marc, false, fifo, capture).events
  {
  }

  /** The pin configuration `receive` asserts for normal and asynchronous
      serial mode is exactly what `set_packet_format` establishes for them:
      after `set_packet_format(0)` (or `(3)`) the only way `receive` can fail
      its assertions is an unwired pin. */
  lemma PacketFormatPinsMatchReceive(c: Configurator, link: Link)
    ensures SetPacketFormat(c, 0).Ok? && PacketFormat(SetPacketFormat(c, 0).value) == 0
    ensures NormalModeReady(SetPacketFormat(c, 0).value, link) <==> link.gdo0
    ensures SetPacketFormat(c, 3).Ok? && PacketFormat(SetPacketFormat(c, 3).value) == 3
    ensures AsyncModeReady(SetPacketFormat(c, 3).value, link) <==> link.gdo0 && link.gdo2
  {
  }

  /** A normal-mode reception that got its packet returns the post-processed
      FIFO contents and ends with SIDLE. */
  lemma ReceiveNormalPacket(c: Configurator, link: Link, marc: Byte, fifo: seq<Byte>, capture: Capture)
    requires marc == MARCSTATE_IDLE || marc == MARCSTATE_RX
    requires PacketFormat(c) == 0 && NormalModeReady(c, link) && PostProcessAsWritten(c, fifo).Ok?
    ensures var o := Receive(c, link, marc, true, fifo, capture);
      o.result == Ok(Some(Processed(PostProcessAsWritten(c, fifo).value)))
      && o.events[|o.events| - 1] == StrobeEv(SIDLE)
  {
  }

  /** End to end, `receive` recovers a frame `transmit` sent in fixed or
      variable length mode: the payload and the status fields are exact, and
      so is the length, except in variable length mode with status bytes,
      where the reported length is two short. */
  lemma ReceiveFrame(c: Configurator, link: Link, marc: Byte, data: seq<Byte>, rssi: Byte, status: Byte, capture: Capture)
    requires marc == MARCSTATE_IDLE || marc == MARCSTATE_RX
    requires PacketFormat(c) == 0 && NormalModeReady(c, link)
    requires PacketLengthMode(c) <= 1 && Frame(c, data).Ok?
    ensures var o := Receive(c, link, marc, true, Received(c, Frame(c, data).value, rssi, status), capture);
      o.result.Ok? && o.result.value.Some? && o.result.value.value.Processed?
      && var p := o.result.value.value.packet;
      p.payload == data
      && p.length == Some(if StripsStatus(c) && PacketLengthMode(c) == 1 then |data| - 2 else |data|)
      && (StripsStatus(c) ==> p.rssi == Some(rssi) && p.lqi == Some(status % 128) && p.crcOk == (status >= 128))
  {
    var fifo := Received(c, Frame(c, data).value, rssi, status);
    FrameRoundTrip(c, data, rssi, status);
    PostProcessDifference(c, fifo);
    ReceiveNormalPacket(c, link, marc, fifo, capture);
  }

  // ---- RSSI ----

  /** The two's complement value of a byte. */
  function Signed8(b: Byte): (s: int)
    ensures -128 <= s < 128 && (b - s) % 256 == 0
  {
    if b >= 128 then b - 256 else b
  }

  /** `get_rssi_raw`: the RSSI status byte, readable in RX and RX_END only. */
  function RssiRaw(marc: Byte, rssi: Byte): (r: Result<Byte>)
    ensures r.Ok? <==> marc == MARCSTATE_RX || marc == MARCSTATE_RX_END
    ensures r.Err? ==> r.error == ValueError
    ensures r.Ok? ==> r.value == rssi
  {
    if marc != MARCSTATE_RX && marc != MARCSTATE_RX_END then Err(ValueError) else Ok(rssi)
  }

  /** `get_rssi_dbm`: half the signed RSSI byte minus the 74 dB offset. */
  function RssiDbm(marc: Byte, rssi: Byte): (r: Result<real>)
    ensures r.Ok? <==> marc == MARCSTATE_RX || marc == MARCSTATE_RX_END
    ensures r.Err? ==> r.error == ValueError
    ensures r.Ok? ==> r.value == Signed8(rssi) as real / 2.0 - 74.0
    ensures r.Ok? ==> -138.0 <= r.value <= -10.5
  {
    var raw :- RssiRaw(marc, rssi);
    if raw >= 128 then Ok((raw - 256) as real / 2.0 - 74.0) else Ok(raw as real / 2.0 - 74.0)
  }

  // ---- Configuration transfer (against the stub chip) ----

  /** `get_configuration`: read 47 registers from IOCFG2 and 8 power-table
      bytes into the configurator. */
  function GetConfiguration(chip: StubDriver.Chip, c: Configurator): (r: Result<Configurator>)
    ensures r.Ok? <==> |StubDriver.ReadBurst(chip, IOCFG2, 47)| == NumRegisters
    ensures r.Ok? ==> r.value.patable == StubDriver.ReadBurst(chip, PATABLE, 8) && r.value.fosc == c.fosc
    ensures |chip.regs| >= NumRegisters ==> r.Ok? && r.value.regs == chip.regs[..NumRegisters]
  {
    var regs := StubDriver.ReadBurst(chip, IOCFG2, 47);
    var patable := StubDriver.ReadBurst(chip, PATABLE, 8);
    if |regs| != NumRegisters then Err(IndexError) else Ok(Configurator(regs, patable, c.fosc))
  }

  /** `set_configuration`: burst-write the registers from IOCFG2, then the
      power table. */
  function SetConfiguration(chip: StubDriver.Chip, c: Configurator): (r: StubDriver.Chip)
    ensures r.marc == chip.marc
  {
    StubDriver.WriteBurst(StubDriver.WriteBurst(chip, IOCFG2, c.regs), PATABLE, c.patable)
  }

  /** Writing the configuration to the chip and reading it back gives the
      registers back, and the power table with the chip's own entries behind
      a short one. */
  lemma ConfigurationRoundTrip(chip: StubDriver.Chip, c: Configurator)
    requires |chip.regs| == NumRegisters && |c.patable| <= |chip.patable| == 8
    ensures GetConfiguration(SetConfiguration(chip, c), c) ==
      Ok(c.(patable := c.patable + chip.patable[|c.patable|..]))
  {
    var mid := StubDriver.WriteBurst(chip, IOCFG2, c.regs);
    StubDriver.RegisterBurstRoundTrip(chip, IOCFG2, c.regs);
    assert mid.regs == c.regs;
    StubDriver.PatableRoundTrip(mid, c.patable);
    var r := SetConfiguration(chip, c);
    assert r.regs == c.regs && |r.regs| == NumRegisters;
    assert r.patable == c.patable + chip.patable[|c.patable|..] && |r.patable| == 8;
    assert StubDriver.ReadBurst(r, IOCFG2, 47) == c.regs;
    assert StubDriver.ReadBurst(r, PATABLE, 8) == r.patable;
  }

  /** A preset: a full register file and a power table. */
  datatype Preset = Preset(registers: RegisterFile, patable: seq<Byte>)

  /** `load_preset`: adopt the preset in the configurator and write it to
      the chip. */
  function LoadPreset(chip: StubDriver.Chip, c: Configurator, preset: Preset): (r: (Configurator, StubDriver.Chip))
    ensures r.0 == c.(regs := preset.registers, patable := preset.patable)
    ensures r.1 == SetConfiguration(chip, r.0)
  {
    var c1 := c.(regs := preset.registers, patable := preset.patable);
    (c1, SetConfiguration(chip, c1))
  }

  /** After loading a preset with a full power table, reading the
      configuration back yields the preset. */
  lemma LoadPresetReadsBack(chip: StubDriver.Chip, c: Configurator, preset: Preset)
    requires |chip.regs| == NumRegisters && |chip.patable| == 8 && |preset.patable| == 8
    ensures var (c1, chip1) := LoadPreset(chip, c, preset);
      GetConfiguration(chip1, c1) == Ok(c1)
      && c1.regs == preset.registers && c1.patable == preset.patable
  {
    var (c1, chip1) := LoadPreset(chip, c, preset);
    ConfigurationRoundTrip(chip, c1);
    assert c1.patable + chip.patable[8..] == c1.patable;
  }

  // ---- Raw_Received_Packet.get_bitstream ----

  /** The run counts of `get_bitstream`: each pulse divided by the bit time
      `1 / baud`, rounded half to even. */
  function BitCounts(edges: seq<Edge>, baud: int): (r: seq<int>)
    ensures |r| == |Levels(edges)|
  {
    var p := Pulses(edges);
    seq(|p|, k requires 0 <= k < |p| => RoundHalfEven(p[k] * baud as real))
  }

  /** `get_bitstream`: every pulse becomes a run of the inverted level. A
      data rate that reads back as 0 baud makes `1 / rate` fail. */
  function Bitstream(c: Configurator, edges: seq<Edge>): (r: Result<seq<int>>)
    ensures r.Err? <==> DataRateBaud(c) == 0
    ensures r.Err? ==> r.error == ZeroDivisionError
    ensures r.Ok? ==> |r.value| == Total(BitCounts(edges, DataRateBaud(c)))
  {
    var baud := DataRateBaud(c);
    if baud == 0 then Err(ZeroDivisionError)
    else Ok(Expand(Levels(edges), BitCounts(edges, baud)))
  }

  /** The bitstream is the pulses' runs end to end: the bits of pulse `k`
      occupy the positions between the run totals of pulses before it and
      up to it, and all equal one minus the level that pulse ended in. */
  lemma BitstreamRuns(c: Configurator, edges: seq<Edge>, k: nat, j: nat)
    requires Bitstream(c, edges).Ok? && k < |Levels(edges)|
    requires var counts := BitCounts(edges, DataRateBaud(c));
      Total(counts[..k]) <= j < Total(counts[..k + 1])
    ensures j < |Bitstream(c, edges).value| && Bitstream(c, edges).value[j] == 1 - edges[k + 1].level
  {
    ExpandRun(Levels(edges), BitCounts(edges, DataRateBaud(c)), k, j);
  }
}
