/** The legacy controller (the top-level `cc1101.py` next to the package):
    the same framing and chunk loop as the current one, but with an
    unmasked TXBYTES comparison, no final SIDLE, no packet-format dispatch,
    IDLE as the only state `receive` accepts, and a post-processing that
    strips status bytes whatever the length mode. */
module LegacyController {
  import opened Bits
  import opened Results
  import opened Registers
  import opened Fields
  import opened Addresses
  import opened Controller

  /** Legacy `transmit`: the current length rules and length byte, the IDLE
      check, flush and STX, the chunk loop on the raw TXBYTES value, and the
      optional end-of-transmission wait. */
  function LegacyTransmit(c: Configurator, link: Link, data: seq<Byte>, blocking: bool, marc: Byte, readings: seq<Byte>): (o: Outcome<()>)
  {
    var framed := Frame(c, data);
    if framed.Err? then Outcome([], Err(framed.error))
    else if marc != MARCSTATE_IDLE then Outcome([StatusRead(MARCSTATE, marc)], Err(ValueError))
    else
      var fifo := WriteTxFifo(framed.value, link.chunkSize, readings, false);
      var wait := if fifo.result.Ok? && blocking && link.gdo0 then [AwaitTxEnd] else [];
      Outcome([StatusRead(MARCSTATE, marc), StrobeEv(SFTX), StrobeEv(STX)] + (fifo.events + wait), fifo.result)
  }

  /** The legacy transmit rejects exactly the lengths the current one
      rejects, in the same way, and frames the data identically: the FIFO
      writes of a completed call are the current frame, cut into chunks
      each written after a raw TXBYTES reading at most `55 - chunk size`.
      Unlike the current version it never strobes SIDLE. */
  lemma LegacyTransmitFraming(c: Configurator, link: Link, data: seq<Byte>, blocking: bool, marc: Byte, readings: seq<Byte>)
    ensures LengthRejected(c, |data|) <==>
      LegacyTransmit(c, link, data, blocking, marc, readings) == Outcome([], Err(ValueError))
    ensures !LengthRejected(c, |data|) && marc != MARCSTATE_IDLE ==>
      LegacyTransmit(c, link, data, blocking, marc, readings) == Outcome([StatusRead(MARCSTATE, marc)], Err(ValueError))
    ensures StrobeEv(SIDLE) !in LegacyTransmit(c, link, data, blocking, marc, readings).events
    ensures LegacyTransmit(c, link, data, blocking, marc, readings).result.Ok? ==>
      var fifo := WriteTxFifo(Frame(c, data).value, link.chunkSize, readings, false);
      Flatten(Writes(fifo.events)) == Frame(c, data).value
      && |Writes(fifo.events)| == |Frame(c, data).value| / link.chunkSize + 1
      && Gated(fifo.events, link.chunkSize, false)
  {
    var o := LegacyTransmit(c, link, data, blocking, marc, readings);
    if !LengthRejected(c, |data|) && marc == MARCSTATE_IDLE {
      var fifo := WriteTxFifo(Frame(c, data).value, link.chunkSize, readings, false);
      if link.chunkSize > 0 {
        FifoLoopGated(Frame(c, data).value, link.chunkSize, 0, |Frame(c, data).value| / link.chunkSize + 1, readings, false);
      }
      GatedHasNoStrobe(fifo.events, link.chunkSize, false);
      if o.result.Ok? {
        TxFifoChunks(Frame(c, data).value, link.chunkSize, readings, false);
      }
    }
  }

  /** The chunk loop's calls are readings and FIFO writes only. */
  lemma {:induction false} GatedHasNoStrobe(events: seq<Event>, size: nat, masked: bool)
    requires Gated(events, size, masked)
    ensures StrobeEv(SIDLE) !in events
    decreases |events|
  {
    if |events| > 0 {
      if Room(events[0].value, size, masked) {
        GatedHasNoStrobe(events[2..], size, masked);
        assert events == events[..2] + events[2..];
      } else {
        GatedHasNoStrobe(events[1..], size, masked);
        assert events == [events[0]] + events[1..];
      }
    }
  }

  /** Legacy post-processing: fixed length mode counts the bytes, variable
      length mode takes and strips the length byte, any other mode leaves
      the length None. With append status on, the last two bytes are split
      off whatever the mode and the length is reduced by two, which fails on
      None. */
  function LegacyPostProcess(c: Configurator, fifo: seq<Byte>): (r: Result<Packet>)
    ensures r.Err? ==> r.error == IndexError || r.error == TypeError
  {
    var mode := PacketLengthMode(c);
    if mode == 1 && |fifo| == 0 then Err(IndexError)
    else
      var length: Option<int> := if mode == 0 then Some(|fifo|) else if mode == 1 then Some(fifo[0]) else None;
      var body := if mode == 1 then fifo[1..] else fifo;
      if AppendStatusEnabled(c) then
        if |body| < 2 then Err(IndexError)
        else if length.None? then Err(TypeError)
        else
          var status := body[|body| - 1];
          Ok(Packet(body[..|body| - 2], Some(length.value - 2), Some(body[|body| - 2]), Some(status % 128), status >= 128))
      else
        Ok(Packet(body, length, None, None, false))
  }

  /** In fixed and variable length mode the legacy post-processing is the
      current one as written; in infinite mode with append status on it
      cannot succeed: too few bytes raise IndexError, otherwise the length
      arithmetic on None raises TypeError. */
  lemma LegacyPostProcessModes(c: Configurator, fifo: seq<Byte>)
    ensures PacketLengthMode(c) <= 1 ==> LegacyPostProcess(c, fifo) == PostProcessAsWritten(c, fifo)
    ensures PacketLengthMode(c) >= 2 && AppendStatusEnabled(c) ==>
      LegacyPostProcess(c, fifo) == Err(if |fifo| < 2 then IndexError else TypeError)
    ensures PacketLengthMode(c) >= 2 && !AppendStatusEnabled(c) ==>
      LegacyPostProcess(c, fifo) == Ok(Packet(fifo, None, None, None, false))
  {
  }

  /** Legacy `receive`: the state must be exactly IDLE; SRX; with blocking
      and GDO0 wired a timeout returns None; otherwise the FIFO is drained
      and post-processed. No SIDLE follows. */
  function LegacyReceive(c: Configurator, link: Link, blocking: bool, marc: Byte, started: bool, fifo: seq<Byte>): (o: Outcome<Option<Packet>>)
  {
    if marc != MARCSTATE_IDLE then Outcome([StatusRead(MARCSTATE, marc)], Err(ValueError))
    else
      var start := [StatusRead(MARCSTATE, marc), StrobeEv(SRX)];
      var waits := blocking && link.gdo0;
      if waits && !started then Outcome(start + [AwaitRxStart], Ok(None))
      else
        var events := start + (if waits then [AwaitRxStart] else []) + [DrainRxFifo];
        match LegacyPostProcess(c, fifo)
        case Err(e) => Outcome(events, Err(e))
        case Ok(p) => Outcome(events, Ok(Some(p)))
  }

  /** The legacy receive refuses RX, which the current one accepts: any
      state but IDLE raises ValueError after the single state read. With
      IDLE it strobes SRX and never SFRX or SIDLE; a blocking wait that
      times out returns None, and otherwise the result is the legacy
      post-processing of the FIFO. */
  lemma LegacyReceiveStates(c: Configurator, link: Link, blocking: bool, marc: Byte, started: bool, fifo: seq<Byte>, capture: Capture)
    ensures marc != MARCSTATE_IDLE <==>
      LegacyReceive(c, link, blocking, marc, started, fifo) == Outcome([StatusRead(MARCSTATE, marc)], Err(ValueError))
    ensures marc == MARCSTATE_RX ==>
      LegacyReceive(c, link, blocking, marc, started, fifo).result == Err(ValueError)
      && Receive(c, link, marc, started, fifo, capture).result != Err(ValueError)
    ensures marc == MARCSTATE_IDLE ==>
      var ev := LegacyReceive(c, link, blocking, marc, started, fifo).events;
      ev[..2] == [StatusRead(MARCSTATE, marc), StrobeEv(SRX)]
      && StrobeEv(SFRX) !in ev && StrobeEv(SIDLE) !in ev
    ensures marc == MARCSTATE_IDLE && blocking && link.gdo0 && !started ==>
      LegacyReceive(c, link, blocking, marc, started, fifo).result == Ok(None)
    ensures marc == MARCSTATE_IDLE && (started || !blocking || !link.gdo0) ==>
      var r := LegacyReceive(c, link, blocking, marc, started, fifo).result;
      (r.Ok? <==> LegacyPostProcess(c, fifo).Ok?)
      && (r.Ok? ==> r.value == Some(LegacyPostProcess(c, fifo).value))
      && (r.Err? ==> r.error == LegacyPostProcess(c, fifo).error)
  {
    if marc == MARCSTATE_RX {
      var o := Receive(c, link, marc, started, fifo, capture);
      assert o.result == ReceiveData(c, link, started, fifo, capture).result;
    }
  }
}
