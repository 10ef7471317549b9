/**
 The multi-block read: card thread, host thread and data-port reads, interleaved in any order.

 The card puts blocks on the data line, the host moves them into its byte buffer, and the processor
 drains the buffer. SystemC fixes no order between the threads, so a run is any sequence of the three
 kinds of step. The theorems hold in every such run: no byte is lost, repeated or reordered
 (`TransferKeepsInvariant`, `CompletionDeliversRange`), nothing past the range is fetched, and every
 fair run completes (`FairRunsComplete`).
 */
module SdTransfers {
  import opened Words
  import opened SdCards
  import opened Esdhcs

  datatype Event = CardClock | HostClock | PortRead

  /** The hardware, and the bytes the processor has read from the data port so far. */
  datatype Transfer = Transfer(sys: System, delivered: seq<Byte>)

  /** What was asked for: `count` blocks of `len` bytes from block `first` of an image. */
  datatype Request = Request(image: seq<Byte>, first: Word, count: nat, len: nat)

  /** Where block k starts: k * len (`OffsetIsProduct`), as repeated addition. */
  function Offset(k: nat, len: nat): nat {
    if k == 0 then 0 else Offset(k - 1, len) + len
  }

  lemma {:induction false} OffsetIsProduct(k: nat, len: nat)
    ensures Offset(k, len) == k * len
  {
    if k != 0 {
      OffsetIsProduct(k - 1, len);
    }
  }

  lemma {:induction false} OffsetsGrow(j: nat, k: nat, len: nat)
    requires j <= k
    ensures Offset(j, len) <= Offset(k, len)
  {
    if j < k {
      OffsetsGrow(j, k - 1, len);
    }
  }

  /** A count the 16-bit register can hold, a block that fits the line, and a range that lies inside the
      image and is reachable with 32-bit offsets. */
  predicate ValidRequest(r: Request) {
    && 1 <= r.count <= 0x1_0000
    && r.len <= LINE_SIZE
    && r.first + r.count < WORD_MOD
    && Offset(r.first + r.count, r.len) <= |r.image|
    && Offset(r.first + r.count, r.len) <= WORD_MOD
  }

  /** Block k of the image. */
  function Block(r: Request, k: nat): seq<Byte> {
    if Offset(k + 1, r.len) <= |r.image| then r.image[Offset(k, r.len)..Offset(k + 1, r.len)] else []
  }

  /** Blocks `from` up to but not including `last`, one after the other. */
  function Blocks(r: Request, from: nat, last: nat): seq<Byte>
    decreases last
  {
    if last <= from then [] else Blocks(r, from, last - 1) + Block(r, last - 1)
  }

  /** The 16-bit block counter counts down to zero, so a count of zero stands for 65536. */
  function BlockCount(blkcnt: Half): nat {
    if blkcnt == 0 then 0x1_0000 else blkcnt
  }

  function Step(t: Transfer, e: Event): (r: Progress<Transfer>)
    requires |t.sys.card.dataLine| == LINE_SIZE
    ensures r.Running? ==> |r.next.sys.card.dataLine| == LINE_SIZE
  {
    match e
    case CardClock =>
      (match Tick(t.sys.card)
       case Stopped => Stopped
       case Running(c) => Running(t.(sys := t.sys.(card := c))))
    case HostClock =>
      (match HostTick(t.sys)
       case Stopped => Stopped
       case Running(s) => Running(t.(sys := s)))
    case PortRead =>
      Running(Transfer(t.sys.(host := DataPortRead(t.sys.host)),
                       t.delivered + t.sys.host.fifo[..PortCount(t.sys.host.fifo)]))
  }

  /** The state after a run, as long as no step stops the simulator. */
  function Run(t: Transfer, events: seq<Event>): (r: Progress<Transfer>)
    requires |t.sys.card.dataLine| == LINE_SIZE
    ensures r.Running? ==> |r.next.sys.card.dataLine| == LINE_SIZE
    decreases |events|
  {
    if events == [] then
      Running(t)
    else
      match Step(t, events[0])
      case Stopped => Stopped
      case Running(u) => Run(u, events[1..])
  }

  // ---------------------------------------------------------------------------------------------
  // The invariant
  // ---------------------------------------------------------------------------------------------

  /** Bytes in flight: on the data line, if it holds a block the host has not taken. */
  function OnLine(c: Card): seq<Byte>
    requires c.blocklen <= |c.dataLine|
  {
    if c.busy then LineBlock(c) else []
  }

  /** Blocks the host has taken off the line. */
  function Fetched(c: Card, r: Request): int {
    c.currentBlock - r.first - (if c.busy then 1 else 0)
  }

  predicate CardPart(c: Card, r: Request) {
    && |c.dataLine| == LINE_SIZE && c.image == r.image && c.blocklen == r.len
    && !c.singleBlock && !c.appSpecific
    && r.first <= c.currentBlock <= r.first + r.count
    && 0 <= Fetched(c, r)
  }

  predicate HostPart(h: Host, c: Card, r: Request) {
    && h.xfer.msbsel && h.xfer.bcen && !h.present.cihb
    && BlockCount(h.blkcntBackup) == r.count
    && match h.state
       case ReadTransfer =>
         c.state == Data && Fetched(c, r) < r.count && BlockCount(h.blkcnt) == r.count - Fetched(c, r)
       case ReadDone =>
         c.state == Tran && !c.busy && c.currentBlock == r.first + r.count && h.blkcnt == h.blkcntBackup
       case HostIdle =>
         c.state == Tran && !c.busy && c.currentBlock == r.first + r.count && h.blkcnt == h.blkcntBackup
         && h.fifo == []
       case _ => false
  }

  /** Conservation: delivered, buffered and waiting bytes are exactly the blocks read so far, in order. */
  predicate Conserved(t: Transfer, r: Request)
    requires ValidRequest(r) && CardPart(t.sys.card, r)
  {
    t.delivered + t.sys.host.fifo + OnLine(t.sys.card) == Blocks(r, r.first, t.sys.card.currentBlock)
  }

  /** When blocks hold whole words, so does the buffer. */
  predicate WordAligned(h: Host, r: Request) {
    r.len % 4 == 0 ==> |h.fifo| % 4 == 0
  }

  predicate Invariant(t: Transfer, r: Request) {
    && ValidRequest(r)
    && CardPart(t.sys.card, r)
    && HostPart(t.sys.host, t.sys.card, r)
    && Conserved(t, r)
    && WordAligned(t.sys.host, r)
  }

  lemma {:induction false} EmptyBlocksTakeNoSpace(k: nat)
    ensures Offset(k, 0) == 0
  {
    if k > 0 {
      EmptyBlocksTakeNoSpace(k - 1);
    }
  }

  /** Offsets within the request are 32-bit numbers. */
  lemma OffsetFits(r: Request, k: nat)
    requires ValidRequest(r) && k < r.first + r.count
    ensures Offset(k, r.len) + r.len == Offset(k + 1, r.len) <= |r.image|
    ensures Wrap(Offset(k, r.len)) == Offset(k, r.len)
  {
    OffsetsGrow(k + 1, r.first + r.count, r.len);
    EmptyBlocksTakeNoSpace(k);
  }

  /** Within the request the 32-bit product of block number and length is the byte offset. */
  lemma BlockInImage(r: Request, k: nat)
    requires ValidRequest(r) && k < r.first + r.count
    ensures var offset := Wrap(k * r.len);
            offset + r.len <= |r.image| && r.image[offset..offset + r.len] == Block(r, k)
  {
    OffsetIsProduct(k, r.len);
    OffsetFits(r, k);
  }

  /** Blocks laid end to end are one stretch of the image. */
  lemma {:induction false} BlocksAreSlice(r: Request, last: nat)
    requires r.first <= last && Offset(last, r.len) <= |r.image|
    ensures Offset(r.first, r.len) <= Offset(last, r.len)
    ensures Blocks(r, r.first, last) == r.image[Offset(r.first, r.len)..Offset(last, r.len)]
    decreases last
  {
    OffsetsGrow(r.first, last, r.len);
    if last > r.first {
      OffsetsGrow(r.first, last - 1, r.len);
      BlocksAreSlice(r, last - 1);
      var i, j, k := Offset(r.first, r.len), Offset(last - 1, r.len), Offset(last, r.len);
      assert Block(r, last - 1) == r.image[j..k];
      SliceExtends(r.image, i, j, k);
    }
  }

  lemma SliceExtends(s: seq<Byte>, i: nat, j: nat, k: nat)
    requires i <= j <= k <= |s|
    ensures s[i..j] + s[j..k] == s[i..k]
  {
  }

  /** The state right after CMD18 was accepted, from any idle configuration of card and host. */
  predicate ReadyToRead(s: System, r: Request) {
    && ValidRequest(r)
    && |s.card.dataLine| == LINE_SIZE && s.card.image == r.image && s.card.blocklen == r.len
    && s.card.state == Tran && !s.card.busy && !s.card.appSpecific
    && s.host.fifo == [] && !s.host.present.cihb
    && s.host.cmdarg == r.first
    && s.host.blkcnt == s.host.blkcntBackup && BlockCount(s.host.blkcnt) == r.count
  }

  const READ_MULTIPLE := XferTyp(18, true, true, true, true)

  /** The transfer once the processor wrote CMD18 to the command register. */
  function Started(s: System): Transfer
    requires |s.card.dataLine| == LINE_SIZE && WriteXferTyp(s, READ_MULTIPLE).Running?
  {
    Transfer(WriteXferTyp(s, READ_MULTIPLE).next, [])
  }

  lemma CommandStartsTransfer(s: System, r: Request)
    requires ReadyToRead(s, r)
    ensures WriteXferTyp(s, READ_MULTIPLE).Running?
    ensures Invariant(Started(s), r)
    ensures Started(s).sys.host.state == ReadTransfer && Started(s).sys.card.currentBlock == r.first
    ensures Started(s).sys.host.fifo == [] && !Started(s).sys.card.busy
    ensures Started(s).sys.host.blkcntBackup == s.host.blkcnt
  {
    assert Blocks(r, r.first, r.first) == [];
  }

  // ---------------------------------------------------------------------------------------------
  // Every step keeps it
  // ---------------------------------------------------------------------------------------------

  lemma CardSendsBlock(c: Card, r: Request)
    requires ValidRequest(r) && CardPart(c, r) && c.state == Data && !c.busy
    requires c.currentBlock < r.first + r.count
    ensures Tick(c).Running?
    ensures
      var d := Tick(c).next;
      && d == c.(dataLine := d.dataLine, currentBlock := c.currentBlock + 1, busy := true)
      && |d.dataLine| == LINE_SIZE && LineBlock(d) == Block(r, c.currentBlock)
  {
    BlockInImage(r, c.currentBlock);
    BlockSent(c, Wrap(c.currentBlock * c.blocklen), Block(r, c.currentBlock));
  }

  /** The block at an offset goes on the line. */
  lemma BlockSent(c: Card, offset: nat, block: seq<Byte>)
    requires |c.dataLine| == LINE_SIZE && c.state == Data && !c.busy && !c.singleBlock && 0 <= c.blocklen <= LINE_SIZE
    requires c.currentBlock + 1 < WORD_MOD && offset == Wrap(c.currentBlock * c.blocklen)
    requires offset + c.blocklen <= |c.image| && block == c.image[offset..offset + c.blocklen]
    ensures Tick(c).Running?
    ensures
      var d := Tick(c).next;
      && d == c.(dataLine := d.dataLine, currentBlock := c.currentBlock + 1, busy := true)
      && |d.dataLine| == LINE_SIZE && LineBlock(d) == block
  {
    FrontOfLine(block, c.dataLine[c.blocklen..]);
  }

  lemma FrontOfLine(a: seq<Byte>, b: seq<Byte>)
    ensures (a + b)[..|a|] == a
  {
  }

  lemma CardClockKeeps(t: Transfer, r: Request)
    requires Invariant(t, r)
    ensures Step(t, CardClock).Running? && Invariant(Step(t, CardClock).next, r)
  {
    var c := t.sys.card;
    if c.state == Data && !c.busy {
      CardSendsBlock(c, r);
      SentBlockKeeps(t, Tick(c).next, r);
    }
  }

  /** One more block on the line is one more block of the range in flight. */
  lemma SentBlockKeeps(t: Transfer, d: Card, r: Request)
    requires Invariant(t, r)
    requires
      var c := t.sys.card;
      && c.state == Data && !c.busy
      && d == c.(dataLine := d.dataLine, currentBlock := c.currentBlock + 1, busy := true)
      && |d.dataLine| == LINE_SIZE && LineBlock(d) == Block(r, c.currentBlock)
    ensures Invariant(t.(sys := t.sys.(card := d)), r)
  {
    var bytes := t.delivered + t.sys.host.fifo;
    assert bytes + [] == bytes;
  }

  lemma MoveAcross(a: seq<Byte>, b: seq<Byte>, c: seq<Byte>, k: nat)
    requires k <= |b|
    ensures (a + b[..k]) + b[k..] + c == a + b + c
  {
  }

  lemma PortReadKeeps(t: Transfer, r: Request)
    requires Invariant(t, r)
    ensures Step(t, PortRead).Running? && Invariant(Step(t, PortRead).next, r)
  {
    var h := t.sys.host;
    var k := PortCount(h.fifo);
    var u := Step(t, PortRead).next;
    MoveAcross(t.delivered, h.fifo, OnLine(t.sys.card), k);
    assert WordAligned(u.sys.host, r);
    assert HostPart(u.sys.host, u.sys.card, r);
  }

  lemma CountKeeps(s: System, r: Request)
    requires ValidRequest(r) && CardPart(s.card, r) && !s.card.busy && s.card.state == Data
    requires s.host.state == ReadTransfer && s.host.xfer.msbsel && s.host.xfer.bcen && !s.host.present.cihb
    requires BlockCount(s.host.blkcntBackup) == r.count && Fetched(s.card, r) <= r.count
    requires BlockCount(s.host.blkcnt) == r.count - (Fetched(s.card, r) - 1)
    ensures CountBlock(s).Running?
    ensures
      var u := CountBlock(s).next;
      && u.host.fifo == s.host.fifo && u.card == s.card.(state := u.card.state)
      && HostPart(u.host, u.card, r)
  {
    if s.host.blkcnt == 1 {
      assert CountBlock(s).next.card == s.card.(state := Tran);
    }
  }

  /** What fetching a block does: one more block counted, and the card stopped by CMD12 after the last. */
  lemma FetchCounts(s: System, r: Request)
    requires ValidRequest(r) && CardPart(s.card, r) && HostPart(s.host, s.card, r)
    requires s.host.state == ReadTransfer && s.card.busy
    ensures SdProtocol(s).Running?
    ensures
      var u := SdProtocol(s).next;
      && u.host.fifo == s.host.fifo + LineBlock(s.card)
      && u.card == s.card.(busy := false, state := u.card.state)
      && HostPart(u.host, u.card, r)
  {
    var fetched := System(s.card.(busy := false), s.host.(fifo := s.host.fifo + LineBlock(s.card)));
    assert SdProtocol(s) == CountBlock(fetched);
    CountKeeps(fetched, r);
  }

  /** The line's bytes move to the end of the buffer. */
  lemma MovedBytes(t: Transfer, u: System, r: Request)
    requires Invariant(t, r) && t.sys.card.busy
    requires u.host.fifo == t.sys.host.fifo + LineBlock(t.sys.card)
    requires u.card == t.sys.card.(busy := false, state := u.card.state) && HostPart(u.host, u.card, r)
    ensures Invariant(t.(sys := u), r)
  {
    MoveConserves(t.delivered, t.sys.host.fifo, LineBlock(t.sys.card));
    assert OnLine(u.card) == [] && OnLine(t.sys.card) == LineBlock(t.sys.card);
    BlockKeepsAlignment(t.sys.host, u.host, t.sys.card, r);
  }

  lemma MoveConserves(a: seq<Byte>, b: seq<Byte>, c: seq<Byte>)
    ensures a + (b + c) + [] == a + b + c
  {
  }

  lemma BlockKeepsAlignment(h: Host, g: Host, c: Card, r: Request)
    requires ValidRequest(r) && CardPart(c, r) && WordAligned(h, r) && g.fifo == h.fifo + LineBlock(c)
    ensures WordAligned(g, r)
  {
    assert |LineBlock(c)| == r.len;
  }

  lemma FetchKeeps(t: Transfer, r: Request)
    requires Invariant(t, r) && t.sys.host.state == ReadTransfer && t.sys.card.busy
    ensures SdProtocol(t.sys).Running?
    ensures Invariant(t.(sys := SdProtocol(t.sys).next), r)
  {
    FetchCounts(t.sys, r);
    MovedBytes(t, SdProtocol(t.sys).next, r);
  }

  lemma HostProtocolKeeps(t: Transfer, r: Request)
    requires Invariant(t, r)
    ensures Invariant(t.(sys := t.sys.(host := HostProtocol(t.sys.host))), r)
  {
    var g := AnnounceData(t.sys.host);
    assert g.fifo == t.sys.host.fifo && g.state == t.sys.host.state;
  }

  lemma HostClockKeeps(t: Transfer, r: Request)
    requires Invariant(t, r)
    ensures Step(t, HostClock).Running? && Invariant(Step(t, HostClock).next, r)
  {
    if t.sys.host.state == ReadTransfer && t.sys.card.busy {
      FetchKeeps(t, r);
      HostProtocolKeeps(t.(sys := SdProtocol(t.sys).next), r);
    } else if t.sys.host.state != HostIdle {
      HostProtocolKeeps(t, r);
    }
  }

  lemma StepKeeps(t: Transfer, e: Event, r: Request)
    requires Invariant(t, r)
    ensures Step(t, e).Running? && Invariant(Step(t, e).next, r)
  {
    match e
    case CardClock => CardClockKeeps(t, r);
    case HostClock => HostClockKeeps(t, r);
    case PortRead => PortReadKeeps(t, r);
  }

  /** In every interleaving the run goes on, and conserves the bytes of the image. */
  lemma {:induction false} TransferKeepsInvariant(t: Transfer, events: seq<Event>, r: Request)
    requires Invariant(t, r)
    ensures Run(t, events).Running? && Invariant(Run(t, events).next, r)
    decreases |events|
  {
    if events != [] {
      StepKeeps(t, events[0], r);
      TransferKeepsInvariant(Step(t, events[0]).next, events[1..], r);
    }
  }

  /** The bytes asked for. */
  function Range(r: Request): seq<Byte>
    requires ValidRequest(r)
  {
    OffsetsGrow(r.first, r.first + r.count, r.len);
    r.image[Offset(r.first, r.len)..Offset(r.first + r.count, r.len)]
  }

  lemma RangeInBytes(r: Request)
    requires ValidRequest(r)
    ensures r.first * r.len <= (r.first + r.count) * r.len <= |r.image|
    ensures Range(r) == r.image[r.first * r.len..(r.first + r.count) * r.len]
  {
    OffsetsGrow(r.first, r.first + r.count, r.len);
    OffsetIsProduct(r.first, r.len);
    OffsetIsProduct(r.first + r.count, r.len);
  }

  /** When the host is done, in whatever order the steps came, the processor has been given exactly the
      bytes of the requested blocks; the card is back in TRAN with an idle line, and the block counter
      shows its first value again. Until then a prefix of those bytes was delivered. */
  lemma CompletionDeliversRange(s: System, events: seq<Event>, r: Request)
    requires ReadyToRead(s, r)
    ensures WriteXferTyp(s, READ_MULTIPLE).Running? && Run(Started(s), events).Running?
    ensures
      var end := Run(Started(s), events).next;
      && end.delivered <= Range(r)
      && r.first <= end.sys.card.currentBlock <= r.first + r.count
      && (end.sys.host.state == HostIdle ==>
            && end.delivered == Range(r)
            && end.sys.card.state == Tran && !end.sys.card.busy
            && end.sys.card.currentBlock == r.first + r.count
            && end.sys.host.blkcnt == s.host.blkcnt)
  {
    CommandStartsTransfer(s, r);
    TransferKeepsInvariant(Started(s), events, r);
    BackupKept(Started(s), events, r);
    DeliveredInRange(Run(Started(s), events).next, r);
  }

  lemma DeliveredInRange(t: Transfer, r: Request)
    requires Invariant(t, r)
    ensures t.delivered <= Range(r)
    ensures t.sys.host.state == HostIdle ==> t.delivered == Range(r)
  {
    var k := t.sys.card.currentBlock;
    OffsetsGrow(k, r.first + r.count, r.len);
    BlocksAreSlice(r, k);
    assert t.delivered <= t.delivered + t.sys.host.fifo + OnLine(t.sys.card);
    assert t.delivered + [] + [] == t.delivered;
  }

  /** The completion bit of the status register is up only on a finished transfer. */
  predicate CompletionHonest(h: Host) {
    && (h.irqstat.tc ==> h.state == HostIdle)
    && (h.state == HostIdle && h.irqstaten.tc ==> h.irqstat.tc)
  }

  /** Completion is announced together with the idle state. */
  lemma AnnouncementIsHonest(h: Host)
    requires CompletionHonest(h)
    ensures CompletionHonest(HostProtocol(h))
  {
    var g := AnnounceData(h);
    assert CompletionHonest(g);
  }

  /** Fetching a block signals nothing. */
  lemma FetchSignalsNothing(s: System)
    requires |s.card.dataLine| == LINE_SIZE && s.host.state == ReadTransfer && SdProtocol(s).Running?
    ensures
      var h := SdProtocol(s).next.host;
      && h.irqstat == s.host.irqstat && h.irqstaten == s.host.irqstaten
      && (h.state == ReadTransfer || h.state == ReadDone)
  {
    if s.card.busy && TakeBlock(s.card, s.host.fifo).Running? {
      var p := TakeBlock(s.card, s.host.fifo).next;
      CountSignalsNothing(System(p.0, s.host.(fifo := p.1)));
    }
  }

  lemma CountSignalsNothing(s: System)
    requires |s.card.dataLine| == LINE_SIZE && s.host.state == ReadTransfer && CountBlock(s).Running?
    ensures
      var h := CountBlock(s).next.host;
      && h.irqstat == s.host.irqstat && h.irqstaten == s.host.irqstaten
      && (h.state == ReadTransfer || h.state == ReadDone)
  {
  }

  lemma HostClockIsHonest(s: System)
    requires |s.card.dataLine| == LINE_SIZE && HostTick(s).Running? && CompletionHonest(s.host)
    ensures CompletionHonest(HostTick(s).next.host)
  {
    if s.host.state != HostIdle {
      var h := SdProtocol(s).next.host;
      if s.host.state == ReadTransfer {
        FetchSignalsNothing(s);
      }
      AnnouncementIsHonest(h);
    }
  }

  lemma StepKeepsHonest(t: Transfer, e: Event, r: Request)
    requires Invariant(t, r) && CompletionHonest(t.sys.host)
    ensures Step(t, e).Running? && CompletionHonest(Step(t, e).next.sys.host)
  {
    StepKeeps(t, e, r);
    if e == HostClock {
      HostClockIsHonest(t.sys);
    }
  }

  /** Once the status bit was cleared before the command, transfer-complete is signalled only when
      everything was delivered, and always then unless the bit is disabled. */
  lemma {:induction false} CompletionInterrupt(t: Transfer, events: seq<Event>, r: Request)
    requires Invariant(t, r) && CompletionHonest(t.sys.host)
    ensures Run(t, events).Running? && CompletionHonest(Run(t, events).next.sys.host)
    ensures Run(t, events).next.sys.host.irqstat.tc ==> Run(t, events).next.delivered == Range(r)
    decreases |events|
  {
    if events == [] {
      DeliveredInRange(t, r);
    } else {
      StepKeeps(t, events[0], r);
      StepKeepsHonest(t, events[0], r);
      CompletionInterrupt(Step(t, events[0]).next, events[1..], r);
    }
  }

  lemma StepKeepsBackup(t: Transfer, e: Event, r: Request)
    requires Invariant(t, r)
    ensures Step(t, e).Running? && Step(t, e).next.sys.host.blkcntBackup == t.sys.host.blkcntBackup
  {
    StepKeeps(t, e, r);
  }

  lemma {:induction false} BackupKept(t: Transfer, events: seq<Event>, r: Request)
    requires Invariant(t, r)
    ensures Run(t, events).Running?
    ensures Run(t, events).next.sys.host.blkcntBackup == t.sys.host.blkcntBackup
    decreases |events|
  {
    if events != [] {
      StepKeeps(t, events[0], r);
      StepKeepsBackup(t, events[0], r);
      BackupKept(Step(t, events[0]).next, events[1..], r);
    }
  }

  /** When the block length is a multiple of four, every read of a non-empty buffer returns the next
      four bytes of the image, low byte first. */
  lemma PortReadsWholeWords(t: Transfer, r: Request)
    requires Invariant(t, r) && r.len % 4 == 0 && t.sys.host.fifo != []
    ensures PortCount(t.sys.host.fifo) == 4
    ensures
      var f := t.sys.host.fifo;
      LittleEndian(f[..4]) == ShiftedByte(f[0], 0) + ShiftedByte(f[1], 1) + ShiftedByte(f[2], 2) + ShiftedByte(f[3], 3)
    ensures Step(t, PortRead).next.delivered == t.delivered + t.sys.host.fifo[..4]
  {
    var f := t.sys.host.fifo[..4];
    assert f[1..][1..][1..][1..] == [];
    assert LittleEndian(f) == f[0] + 0x100 * LittleEndian(f[1..]);
    assert LittleEndian(f[1..]) == f[1] + 0x100 * LittleEndian(f[1..][1..]);
    assert LittleEndian(f[1..][1..]) == f[2] + 0x100 * LittleEndian(f[1..][1..][1..]);
  }

  // ---------------------------------------------------------------------------------------------
  // Termination
  // ---------------------------------------------------------------------------------------------

  function HostRank(s: HostState): nat {
    match s
    case ReadTransfer => 2
    case ReadDone => 1
    case _ => 0
  }

  /** What is still to do: blocks to load, the block on the line, bytes in the buffer, host states. */
  function Measure(t: Transfer, r: Request): nat
    requires CardPart(t.sys.card, r)
  {
    Offset(r.first + r.count - t.sys.card.currentBlock, r.len + 3)
      + (if t.sys.card.busy then r.len + 2 else 0) + |t.sys.host.fifo| + HostRank(t.sys.host.state)
  }

  /** Steps that only touch the read-enable bit and its interrupt bit make no progress. */
  predicate SameData(t: Transfer, u: Transfer) {
    && u.sys.card == t.sys.card && u.delivered == t.delivered
    && u.sys.host == t.sys.host.(present := u.sys.host.present, irqstat := u.sys.host.irqstat)
  }

  lemma CardClockProgress(t: Transfer, r: Request)
    requires Invariant(t, r)
    ensures Step(t, CardClock).Running? && CardPart(Step(t, CardClock).next.sys.card, r)
    ensures
      var u := Step(t, CardClock).next;
      if t.sys.card.state == Data && !t.sys.card.busy then Measure(u, r) < Measure(t, r) else SameData(t, u)
  {
    CardClockKeeps(t, r);
    if t.sys.card.state == Data && !t.sys.card.busy {
      CardSendsBlock(t.sys.card, r);
    }
  }

  lemma PortReadProgress(t: Transfer, r: Request)
    requires Invariant(t, r)
    ensures Step(t, PortRead).Running? && CardPart(Step(t, PortRead).next.sys.card, r)
    ensures
      var u := Step(t, PortRead).next;
      if t.sys.host.fifo != [] then Measure(u, r) < Measure(t, r) else SameData(t, u)
  {
    if t.sys.host.fifo == [] {
      assert t.delivered + [] == t.delivered;
    }
  }

  /** A fetch followed by the host protocol: the line's bytes are in the buffer, the state no earlier. */
  lemma FetchProgress(t: Transfer, r: Request)
    requires Invariant(t, r) && t.sys.host.state == ReadTransfer && t.sys.card.busy
    ensures Step(t, HostClock).Running?
    ensures
      var u := Step(t, HostClock).next;
      CardPart(u.sys.card, r) && Measure(u, r) < Measure(t, r)
  {
    FetchCounts(t.sys, r);
    FetchLowers(t, SdProtocol(t.sys).next, r);
  }

  lemma FetchLowers(t: Transfer, u: System, r: Request)
    requires Invariant(t, r) && t.sys.host.state == ReadTransfer && t.sys.card.busy
    requires u.host.fifo == t.sys.host.fifo + LineBlock(t.sys.card)
    requires u.card == t.sys.card.(busy := false, state := u.card.state) && HostPart(u.host, u.card, r)
    ensures
      var v := t.(sys := u.(host := HostProtocol(u.host)));
      CardPart(v.sys.card, r) && Measure(v, r) < Measure(t, r)
  {
    assert |LineBlock(t.sys.card)| == r.len;
    assert HostRank(HostProtocol(u.host).state) <= HostRank(u.host.state) <= 2;
  }

  lemma HostClockProgress(t: Transfer, r: Request)
    requires Invariant(t, r)
    ensures Step(t, HostClock).Running? && CardPart(Step(t, HostClock).next.sys.card, r)
    ensures
      var u := Step(t, HostClock).next;
      if || (t.sys.host.state == ReadTransfer && t.sys.card.busy)
         || (t.sys.host.state == ReadDone && t.sys.host.fifo == [])
      then Measure(u, r) < Measure(t, r) else SameData(t, u)
  {
    if t.sys.host.state == ReadTransfer && t.sys.card.busy {
      FetchProgress(t, r);
    } else {
      HostProtocolKeeps(t, r);
    }
  }

  /** The step that makes progress in a given state; every unfinished state has one. */
  function UsefulStep(t: Transfer): Event {
    if t.sys.host.state == ReadTransfer then
      if t.sys.card.busy then HostClock else CardClock
    else
      if t.sys.host.fifo != [] then PortRead else HostClock
  }

  /** Each step either lowers the measure or changes no data, and the useful one lowers it. */
  lemma StepProgress(t: Transfer, e: Event, r: Request)
    requires Invariant(t, r)
    ensures Step(t, e).Running? && CardPart(Step(t, e).next.sys.card, r)
    ensures Measure(Step(t, e).next, r) < Measure(t, r) || SameData(t, Step(t, e).next)
    ensures t.sys.host.state != HostIdle && e == UsefulStep(t) ==> Measure(Step(t, e).next, r) < Measure(t, r)
  {
    match e
    case CardClock => CardClockProgress(t, r);
    case HostClock => HostClockProgress(t, r);
    case PortRead => PortReadProgress(t, r);
  }

  /** A stretch of the schedule in which each of the three parties gets at least one turn. */
  predicate FairRound(round: seq<Event>) {
    CardClock in round && HostClock in round && PortRead in round
  }

  /** Where no data changed, the measure and the useful step are what they were. */
  lemma SameDataSameTask(t: Transfer, u: Transfer, r: Request)
    requires SameData(t, u) && CardPart(t.sys.card, r)
    ensures CardPart(u.sys.card, r) && Measure(u, r) == Measure(t, r) && UsefulStep(u) == UsefulStep(t)
    ensures u.sys.host.state == t.sys.host.state
  {
  }

  lemma {:induction false} RoundProgress(t: Transfer, round: seq<Event>, r: Request)
    requires Invariant(t, r)
    ensures Run(t, round).Running? && Invariant(Run(t, round).next, r)
    ensures Measure(Run(t, round).next, r) <= Measure(t, r)
    ensures t.sys.host.state != HostIdle && UsefulStep(t) in round ==>
              Measure(Run(t, round).next, r) < Measure(t, r)
    decreases |round|
  {
    if round != [] {
      StepKeeps(t, round[0], r);
      StepProgress(t, round[0], r);
      var u := Step(t, round[0]).next;
      RoundProgress(u, round[1..], r);
      if Measure(u, r) >= Measure(t, r) {
        SameDataSameTask(t, u, r);
      }
    }
  }

  /** The state after a schedule made of rounds. */
  function RunRounds(t: Transfer, rounds: seq<seq<Event>>): (u: Progress<Transfer>)
    requires |t.sys.card.dataLine| == LINE_SIZE
    ensures u.Running? ==> |u.next.sys.card.dataLine| == LINE_SIZE
    decreases |rounds|
  {
    if rounds == [] then
      Running(t)
    else
      match Run(t, rounds[0])
      case Stopped => Stopped
      case Running(u) => RunRounds(u, rounds[1..])
  }

  lemma {:induction false} FairRunsFinish(t: Transfer, rounds: seq<seq<Event>>, r: Request)
    requires Invariant(t, r)
    requires forall i | 0 <= i < |rounds| :: FairRound(rounds[i])
    requires |rounds| >= Measure(t, r)
    ensures RunRounds(t, rounds).Running? && Invariant(RunRounds(t, rounds).next, r)
    ensures RunRounds(t, rounds).next.sys.host.state == HostIdle
    decreases |rounds|
  {
    if rounds != [] {
      RoundProgress(t, rounds[0], r);
      var u := Run(t, rounds[0]).next;
      assert FairRound(rounds[0]);
      MeasureIsZeroWhenIdle(t, r);
      FairRunsFinish(u, rounds[1..], r);
    } else {
      MeasureIsZeroWhenIdle(t, r);
    }
  }

  lemma MeasureIsZeroWhenIdle(t: Transfer, r: Request)
    requires Invariant(t, r)
    ensures Measure(t, r) == 0 <==> t.sys.host.state == HostIdle
  {
  }

  lemma StartedMeasure(s: System, r: Request)
    requires ReadyToRead(s, r)
    ensures WriteXferTyp(s, READ_MULTIPLE).Running? && Invariant(Started(s), r)
    ensures Measure(Started(s), r) == r.count * (r.len + 3) + 2
  {
    CommandStartsTransfer(s, r);
    OffsetIsProduct(r.count, r.len + 3);
  }

  /** Started by CMD18, the transfer completes in every run made of enough fair rounds, and has then
      delivered exactly the requested range: `count * (len + 3) + 2` rounds always suffice. */
  lemma FairRunsComplete(s: System, rounds: seq<seq<Event>>, r: Request)
    requires ReadyToRead(s, r)
    requires forall i | 0 <= i < |rounds| :: FairRound(rounds[i])
    requires |rounds| >= r.count * (r.len + 3) + 2
    ensures WriteXferTyp(s, READ_MULTIPLE).Running?
    ensures RunRounds(Started(s), rounds).Running?
    ensures
      var end := RunRounds(Started(s), rounds).next;
      end.sys.host.state == HostIdle && end.delivered == Range(r) && Invariant(end, r)
  {
    StartedMeasure(s, r);
    var t := Started(s);
    FairRunsFinish(t, rounds, r);
    DeliveredInRange(RunRounds(t, rounds).next, r);
  }
}
