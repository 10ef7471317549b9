/**
 What the host controller tells the driver: the buffer-read-ready bit and interrupt, the transfer-active bits,
 and command complete (armv7/src/esdhcv2.cpp:105-266, 423-433, 458-477).
 */
module SdSignals {
  import opened Words
  import opened SdCards
  import opened Esdhcs
  import opened SdTransfers

  predicate Reading(h: Host) {
    h.state == ReadTransfer || h.state == ReadDone
  }

  /** The bits and settings that fetching a block does not touch. */
  predicate SameSignals(h: Host, g: Host) {
    && g.present.bren == h.present.bren && g.irqstat == h.irqstat && g.irqstaten == h.irqstaten
    && g.readWatermark == h.readWatermark
  }

  lemma CountKeepsSignals(s: System)
    requires |s.card.dataLine| == LINE_SIZE && Reading(s.host) && CountBlock(s).Running?
    ensures
      var h := CountBlock(s).next.host;
      SameSignals(s.host, h) && Reading(h) && h.fifo == s.host.fifo
  {
  }

  lemma FetchKeepsSignals(s: System)
    requires |s.card.dataLine| == LINE_SIZE && Reading(s.host) && SdProtocol(s).Running?
    ensures
      var h := SdProtocol(s).next.host;
      SameSignals(s.host, h) && Reading(h) && |h.fifo| >= |s.host.fifo|
  {
    if s.host.state == ReadTransfer && s.card.busy && TakeBlock(s.card, s.host.fifo).Running? {
      var p := TakeBlock(s.card, s.host.fifo).next;
      CountKeepsSignals(System(p.0, s.host.(fifo := p.1)));
    }
  }

  lemma ProtocolSignals(h: Host)
    requires Reading(h)
    ensures
      var g := HostProtocol(h);
      && g.fifo == h.fifo && g.readWatermark == h.readWatermark && g.irqstaten == h.irqstaten
      && (g.present.bren <==> h.present.bren || |h.fifo| >= h.readWatermark)
      && (g.irqstat.brr <==> h.irqstat.brr || (h.irqstaten.brr && |h.fifo| >= h.readWatermark))
      && (g.irqstat.tc <==> h.irqstat.tc || (h.irqstaten.tc && h.state == ReadDone && h.fifo == []))
      && (g.state == HostIdle <==> h.state == ReadDone && h.fifo == [])
      && g.irqstat.cc == h.irqstat.cc
  {
  }

  /** A clock cycle of a reading host announces data exactly if the buffer then holds the watermark's number of
      bytes, and signals it exactly if that is enabled. What was announced before stays so. */
  lemma DataAnnounced(s: System)
    requires |s.card.dataLine| == LINE_SIZE && HostTick(s).Running?
    requires s.host.state == ReadTransfer || s.host.state == ReadDone
    ensures
      var h := HostTick(s).next.host;
      && (h.present.bren <==> s.host.present.bren || |h.fifo| >= s.host.readWatermark)
      && (h.irqstat.brr <==> s.host.irqstat.brr || (s.host.irqstaten.brr && |h.fifo| >= s.host.readWatermark))
      && |h.fifo| >= |s.host.fifo| && h.readWatermark == s.host.readWatermark && h.irqstaten == s.host.irqstaten
  {
    FetchKeepsSignals(s);
    ProtocolSignals(SdProtocol(s).next.host);
  }

  // ---------------------------------------------------------------------------------------------
  // Over runs
  // ---------------------------------------------------------------------------------------------

  /** While data is announced the buffer holds at least the watermark, and the interrupt has come only after so
      many bytes had arrived. */
  predicate Truthful(t: Transfer, watermark: nat) {
    var h := t.sys.host;
    && h.readWatermark == watermark
    && (h.present.bren ==> |h.fifo| >= watermark)
    && (h.irqstat.brr ==> |t.delivered| + |h.fifo| >= watermark)
  }

  lemma StepIsTruthful(t: Transfer, e: Event, watermark: nat)
    requires |t.sys.card.dataLine| == LINE_SIZE && Step(t, e).Running? && Truthful(t, watermark)
    ensures Truthful(Step(t, e).next, watermark)
  {
    match e
    case CardClock =>
    case HostClock =>
      if Reading(t.sys.host) {
        DataAnnounced(t.sys);
      }
    case PortRead =>
      assert |t.delivered + t.sys.host.fifo[..PortCount(t.sys.host.fifo)]|
             == |t.delivered| + PortCount(t.sys.host.fifo);
  }

  /** In every interleaving, the driver finds the watermark's number of bytes whenever they are announced. */
  lemma {:induction false} AnnouncedDataIsThere(t: Transfer, events: seq<Event>, watermark: nat)
    requires |t.sys.card.dataLine| == LINE_SIZE && SdTransfers.Run(t, events).Running?
    requires Truthful(t, watermark)
    ensures Truthful(SdTransfers.Run(t, events).next, watermark)
    decreases |events|
  {
    if events != [] {
      StepIsTruthful(t, events[0], watermark);
      AnnouncedDataIsThere(Step(t, events[0]).next, events[1..], watermark);
    }
  }

  /** The other way round: a clock cycle of a reading host leaves no watermark's number of bytes unannounced,
      and unsignalled only if the signal is disabled. */
  lemma WaitingDataIsAnnounced(t: Transfer)
    requires |t.sys.card.dataLine| == LINE_SIZE && Step(t, HostClock).Running?
    requires t.sys.host.state == ReadTransfer || t.sys.host.state == ReadDone
    ensures
      var h := Step(t, HostClock).next.sys.host;
      |h.fifo| >= h.readWatermark ==> h.present.bren && (h.irqstaten.brr ==> h.irqstat.brr)
  {
    DataAnnounced(t.sys);
  }

  /** A read of the port takes the announcement back, and gives the first bytes of the buffer, low byte first. */
  lemma PortReadTakesBack(t: Transfer)
    requires |t.sys.card.dataLine| == LINE_SIZE
    ensures
      var f := t.sys.host.fifo;
      var u := Step(t, PortRead).next;
      && !u.sys.host.present.bren
      && u.sys.host.fifo == (if |f| < 4 then [] else f[4..])
      && u.delivered == t.delivered + (if |f| < 4 then f else f[..4])
  {
    var f := t.sys.host.fifo;
    if |f| < 4 {
      assert f[..|f|] == f && f[|f|..] == [];
    }
  }

  /** The word of four bytes. */
  lemma PortWord(a: Byte, b: Byte, c: Byte, d: Byte)
    ensures LittleEndian([a, b, c, d]) == a + 0x100 * b + 0x1_0000 * c + 0x100_0000 * d
  {
    var s := [a, b, c, d];
    assert s[1..] == [b, c, d] && [b, c, d][1..] == [c, d] && [c, d][1..] == [d] && [d][1..] == [];
    assert LittleEndian([d]) == d + 0x100 * LittleEndian([]);
    assert LittleEndian([c, d]) == c + 0x100 * LittleEndian([d]);
    assert LittleEndian([b, c, d]) == b + 0x100 * LittleEndian([c, d]);
  }

  // ---------------------------------------------------------------------------------------------
  // Transfer-active bits and commands
  // ---------------------------------------------------------------------------------------------

  /** Data line active, read transfer active and data inhibit are set exactly during a read. */
  predicate ActiveBitsMatch(h: Host) {
    h.present.dla == h.present.rta == h.present.cdihb == (h.state == ReadTransfer)
  }

  lemma CountMatches(s: System)
    requires |s.card.dataLine| == LINE_SIZE && CountBlock(s).Running?
    requires s.host.state == ReadTransfer && ActiveBitsMatch(s.host)
    ensures ActiveBitsMatch(CountBlock(s).next.host) && Reading(CountBlock(s).next.host)
  {
  }

  lemma HostTickMatches(s: System)
    requires |s.card.dataLine| == LINE_SIZE && HostTick(s).Running? && ActiveBitsMatch(s.host)
    ensures ActiveBitsMatch(HostTick(s).next.host)
  {
    if s.host.state == ReadTransfer && s.card.busy && TakeBlock(s.card, s.host.fifo).Running? {
      var p := TakeBlock(s.card, s.host.fifo).next;
      CountMatches(System(p.0, s.host.(fifo := p.1)));
    }
  }

  /** A command that the host executes begins a read together with these bits. */
  lemma CommandMatches(s: System, x: XferTyp)
    requires |s.card.dataLine| == LINE_SIZE && ActiveBitsMatch(s.host) && WriteXferTyp(s, x).Running?
    ensures ActiveBitsMatch(WriteXferTyp(s, x).next.host)
  {
    if !s.host.present.cihb {
      StartMatches(LatchCommand(s.host, x));
    }
  }

  lemma StartMatches(h: Host)
    requires ActiveBitsMatch(h) && StartTransfer(h).Running?
    ensures ActiveBitsMatch(FinishCommand(StartTransfer(h).next))
  {
  }

  /** Every step, and every command, keeps these bits right. */
  lemma ActiveBitsKept(t: Transfer, e: Event, x: XferTyp)
    requires |t.sys.card.dataLine| == LINE_SIZE && ActiveBitsMatch(t.sys.host)
    ensures Step(t, e).Running? ==> ActiveBitsMatch(Step(t, e).next.sys.host)
    ensures WriteXferTyp(t.sys, x).Running? ==> ActiveBitsMatch(WriteXferTyp(t.sys, x).next.host)
  {
    if e == HostClock && Step(t, e).Running? {
      HostTickMatches(t.sys);
    }
    if WriteXferTyp(t.sys, x).Running? {
      CommandMatches(t.sys, x);
    }
  }

  /** A command that is not held back goes to the card with its six-bit index and the argument; then command
      complete is signalled if enabled, further commands are accepted, and a read has begun if the command asked
      for data from the card. */
  lemma CommandExecuted(s: System, x: XferTyp)
    requires |s.card.dataLine| == LINE_SIZE && WriteXferTyp(s, x).Running?
    ensures s.host.present.cihb ==> WriteXferTyp(s, x).next == s
    ensures
      !s.host.present.cihb ==>
        var u := WriteXferTyp(s, x).next;
        && Command(s.card, x.cmdinx % 64, s.host.cmdarg) == Running(u.card)
        && (u.host.irqstat.cc <==> s.host.irqstat.cc || s.host.irqstaten.cc)
        && u.host.irqstat.tc == s.host.irqstat.tc && u.host.irqstat.brr == s.host.irqstat.brr
        && !u.host.present.cihb
        && u.host.state == (if x.dpsel then ReadTransfer else s.host.state) && (x.dpsel ==> x.dtdsel)
        && u.host.xfer == x.(cmdinx := x.cmdinx % 64)
        && u.host.fifo == s.host.fifo && u.host.blkcnt == s.host.blkcnt && u.host.cmdarg == s.host.cmdarg
  {
  }

  /** A multi-block read without block count goes on: a fetched block ends neither the transfer nor the card's
      sending, and counts nothing. A single-block read ends with its block. */
  lemma UncountedFetch(s: System)
    requires |s.card.dataLine| == LINE_SIZE && s.card.busy && 0 <= s.card.blocklen <= LINE_SIZE
    requires s.host.state == ReadTransfer && (!s.host.xfer.msbsel || !s.host.xfer.bcen)
    ensures
      var h := s.host;
      var f := h.fifo + s.card.dataLine[..s.card.blocklen];
      SdProtocol(s).Running?
      && var u := SdProtocol(s).next;
         && u.card == s.card.(busy := false) && u.host.fifo == f && u.host.blkcnt == h.blkcnt
         && u.host.state == (if h.xfer.msbsel then ReadTransfer else ReadDone)
  {
    if s.card.blocklen == 0 {
      assert s.card.dataLine[..0] == [];
    }
    assert LineBlock(s.card) == s.card.dataLine[..s.card.blocklen];
  }
}
