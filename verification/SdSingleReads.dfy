/**
 The single-block read, CMD17 (armv7/src/sd.cpp:543-559, 166-185, armv7/src/esdhcv2.cpp:105-166): card thread,
 host thread and port reads in any order.
 */
module SdSingleReads {
  import opened Words
  import opened SdCards
  import opened Esdhcs
  import opened SdTransfers

  /** One block that fits the line and lies inside the image, below 2^32. */
  predicate ValidBlock(image: seq<Byte>, first: Word, len: nat) {
    && len <= LINE_SIZE && first + 1 < WORD_MOD
    && Offset(first, len) + len <= |image| && Offset(first, len) + len <= WORD_MOD
  }

  /** The block asked for. */
  function Wanted(image: seq<Byte>, first: Word, len: nat): seq<Byte>
    requires ValidBlock(image, first, len)
  {
    image[Offset(first, len)..Offset(first, len) + len]
  }

  /** The command: CMD17 with data from the card, a single block. */
  const READ_SINGLE := XferTyp(17, true, false, true, false)

  predicate ReadyForBlock(s: System, image: seq<Byte>, first: Word, len: nat) {
    && |s.card.dataLine| == LINE_SIZE && s.card.image == image && s.card.blocklen == len
    && s.card.state == Tran && !s.card.appSpecific
    && s.host.fifo == [] && !s.host.present.cihb && s.host.cmdarg == first
  }

  /** Where the block is: still to be sent, on the line, or with the host. */
  datatype Stage = Asked | OnTheLine | Arrived

  predicate StageHolds(t: Transfer, stage: Stage, first: Word, block: seq<Byte>) {
    var c, h := t.sys.card, t.sys.host;
    && |c.dataLine| == LINE_SIZE && c.blocklen == |block| <= LINE_SIZE && !h.xfer.msbsel
    && match stage
       case Asked =>
         && c.state == Data && c.singleBlock && !c.busy && c.currentBlock == first && first + 1 < WORD_MOD
         && h.state == ReadTransfer && h.fifo == [] && t.delivered == []
       case OnTheLine =>
         && c.state == Tran && c.busy && c.currentBlock == first + 1 && c.dataLine[..|block|] == block
         && h.state == ReadTransfer && h.fifo == [] && t.delivered == []
       case Arrived =>
         && c.state == Tran && !c.busy && c.currentBlock == first + 1
         && (h.state == ReadDone || (h.state == HostIdle && h.fifo == []))
         && t.delivered + h.fifo == block
  }

  /** The card still has the block in its image. */
  predicate Sendable(c: Card, image: seq<Byte>, first: Word, block: seq<Byte>) {
    && c.image == image && ValidBlock(image, first, |block|) && Wanted(image, first, |block|) == block
  }

  ghost predicate InProgress(t: Transfer, image: seq<Byte>, first: Word, block: seq<Byte>) {
    Sendable(t.sys.card, image, first, block) && exists stage :: StageHolds(t, stage, first, block)
  }

  /** The command starts the read from an idle configuration; a block left on the line is dropped. */
  lemma BlockIsAsked(s: System, image: seq<Byte>, first: Word, len: nat)
    requires ReadyForBlock(s, image, first, len) && ValidBlock(image, first, len)
    ensures WriteXferTyp(s, READ_SINGLE).Running?
    ensures InProgress(Asking(s), image, first, Wanted(image, first, len))
  {
    AskedStage(Asking(s), s, image, first, len);
  }

  lemma AskedStage(t: Transfer, s: System, image: seq<Byte>, first: Word, len: nat)
    requires ReadyForBlock(s, image, first, len) && ValidBlock(image, first, len)
    requires WriteXferTyp(s, READ_SINGLE).Running? && t == Asking(s)
    ensures StageHolds(t, Asked, first, Wanted(image, first, len))
    ensures Sendable(t.sys.card, image, first, Wanted(image, first, len))
  {
  }

  lemma OffsetIsSmall(first: Word, len: nat)
    requires Offset(first, len) + len <= WORD_MOD
    ensures Wrap(first * len) == Offset(first, len)
  {
    OffsetIsProduct(first, len);
    EmptyBlocksTakeNoSpace(first);
  }

  lemma CardSends(c: Card, image: seq<Byte>, first: Word, block: seq<Byte>)
    requires |c.dataLine| == LINE_SIZE && c.state == Data && c.singleBlock && !c.busy && c.currentBlock == first
    requires c.blocklen == |block| && Sendable(c, image, first, block)
    ensures
      var line := block + c.dataLine[|block|..];
      Tick(c) == Running(c.(dataLine := line, currentBlock := first + 1, busy := true, state := Tran))
  {
    OffsetIsSmall(first, |block|);
  }

  lemma CardStep(t: Transfer, image: seq<Byte>, first: Word, block: seq<Byte>, stage: Stage)
    requires Sendable(t.sys.card, image, first, block) && StageHolds(t, stage, first, block)
    ensures Step(t, CardClock).Running? && InProgress(Step(t, CardClock).next, image, first, block)
  {
    var c := t.sys.card;
    if stage == Asked {
      CardSends(c, image, first, block);
      assert (block + c.dataLine[|block|..])[..|block|] == block;
      assert StageHolds(Step(t, CardClock).next, OnTheLine, first, block);
    } else {
      assert Step(t, CardClock).next == t;
      assert StageHolds(Step(t, CardClock).next, stage, first, block);
    }
  }

  lemma HostFetches(s: System, block: seq<Byte>)
    requires |s.card.dataLine| == LINE_SIZE && s.card.blocklen == |block| <= LINE_SIZE
    requires s.card.busy && s.card.dataLine[..|block|] == block
    requires s.host.state == ReadTransfer && s.host.fifo == [] && !s.host.xfer.msbsel
    ensures SdProtocol(s)
            == Running(System(s.card.(busy := false), EnterReadDone(s.host.(fifo := block))))
  {
    assert LineBlock(s.card) == block;
    assert [] + block == block;
    assert TakeBlock(s.card, s.host.fifo) == Running((s.card.(busy := false), block));
  }

  lemma HostStep(t: Transfer, image: seq<Byte>, first: Word, block: seq<Byte>, stage: Stage)
    requires Sendable(t.sys.card, image, first, block) && StageHolds(t, stage, first, block)
    ensures Step(t, HostClock).Running? && InProgress(Step(t, HostClock).next, image, first, block)
  {
    match stage
    case Asked =>
      assert StageHolds(Step(t, HostClock).next, Asked, first, block);
    case OnTheLine =>
      HostFetches(t.sys, block);
      assert t.delivered + block == block;
      assert StageHolds(Step(t, HostClock).next, Arrived, first, block);
    case Arrived =>
      assert StageHolds(Step(t, HostClock).next, Arrived, first, block);
  }

  lemma PortStep(t: Transfer, image: seq<Byte>, first: Word, block: seq<Byte>, stage: Stage)
    requires Sendable(t.sys.card, image, first, block) && StageHolds(t, stage, first, block)
    ensures Step(t, PortRead).Running? && InProgress(Step(t, PortRead).next, image, first, block)
  {
    var f := t.sys.host.fifo;
    var k := PortCount(f);
    assert (t.delivered + f[..k]) + f[k..] == t.delivered + f;
    assert StageHolds(Step(t, PortRead).next, stage, first, block);
  }

  /** In every interleaving the run goes on, and nothing but the block is delivered. */
  lemma {:induction false} SingleReadGoesOn(t: Transfer, events: seq<Event>, image: seq<Byte>, first: Word,
                                            block: seq<Byte>)
    requires |t.sys.card.dataLine| == LINE_SIZE && InProgress(t, image, first, block)
    ensures SdTransfers.Run(t, events).Running?
    ensures InProgress(SdTransfers.Run(t, events).next, image, first, block)
    decreases |events|
  {
    if events != [] {
      var stage :| StageHolds(t, stage, first, block);
      match events[0] {
        case CardClock => CardStep(t, image, first, block, stage);
        case HostClock => HostStep(t, image, first, block, stage);
        case PortRead => PortStep(t, image, first, block, stage);
      }
      SingleReadGoesOn(Step(t, events[0]).next, events[1..], image, first, block);
    }
  }

  /** The transfer once the processor wrote CMD17 to the command register. */
  function Asking(s: System): Transfer
    requires |s.card.dataLine| == LINE_SIZE && WriteXferTyp(s, READ_SINGLE).Running?
  {
    Transfer(WriteXferTyp(s, READ_SINGLE).next, [])
  }

  /** What a run delivers: a prefix of the block at any time, and the whole block when the host is done; then the
      card is back in TRAN with an idle line. */
  lemma InProgressDelivers(t: Transfer, image: seq<Byte>, first: Word, block: seq<Byte>)
    requires InProgress(t, image, first, block)
    ensures t.delivered <= block
    ensures t.sys.host.state == HostIdle ==>
              && t.delivered == block && t.sys.card.state == Tran && !t.sys.card.busy
              && t.sys.card.currentBlock == first + 1
  {
    var stage :| StageHolds(t, stage, first, block);
    if stage == Arrived {
      assert t.delivered + [] == t.delivered;
    }
  }

  /** A single-block read, in every interleaving: nothing but the block, bytes first * len up to first * len + len
      of the image, is delivered, and all of it when the host is done. */
  lemma SingleReadDelivers(s: System, events: seq<Event>, image: seq<Byte>, first: Word, len: nat)
    requires ReadyForBlock(s, image, first, len) && ValidBlock(image, first, len)
    ensures WriteXferTyp(s, READ_SINGLE).Running? && SdTransfers.Run(Asking(s), events).Running?
    ensures
      var t := SdTransfers.Run(Asking(s), events).next;
      && t.delivered <= Wanted(image, first, len)
      && (t.sys.host.state == HostIdle ==>
            && t.delivered == Wanted(image, first, len)
            && t.sys.card.state == Tran && !t.sys.card.busy && t.sys.card.currentBlock == first + 1)
  {
    var block := Wanted(image, first, len);
    BlockIsAsked(s, image, first, len);
    SingleReadGoesOn(Asking(s), events, image, first, block);
    InProgressDelivers(SdTransfers.Run(Asking(s), events).next, image, first, block);
  }

  /** The block in bytes of the image. */
  lemma WantedInBytes(image: seq<Byte>, first: Word, len: nat)
    requires ValidBlock(image, first, len)
    ensures 0 <= first * len <= first * len + len <= |image|
    ensures Wanted(image, first, len) == image[first * len..first * len + len]
  {
    OffsetIsProduct(first, len);
  }

  // ---------------------------------------------------------------------------------------------
  // Data that commands put on the line themselves
  // ---------------------------------------------------------------------------------------------

  /** SWITCH (CMD6) in mode 0 answers with 64 zero bytes, and ACMD51 with the eight bytes of the configuration
      register: that is what the host takes off the line. */
  lemma RegistersOnTheLine(c: Card, arg: Word, buffer: seq<Byte>)
    requires |c.dataLine| == LINE_SIZE
    ensures
      !c.appSpecific && arg < 0x8000_0000 ==>
        var d := Command(c, 6, arg);
        && d.Running? && d.next.state == c.state
        && TakeBlock(d.next, buffer) == Running((d.next.(busy := false), buffer + seq(64, _ => 0)))
    ensures
      c.appSpecific ==>
        var d := Command(c, 51, arg);
        && d.Running? && d.next.state == c.state && !d.next.appSpecific
        && TakeBlock(d.next, buffer) == Running((d.next.(busy := false), buffer + [2, 0x35, 0x80, 0, 1, 0, 0, 0]))
  {
    if !c.appSpecific && arg < 0x8000_0000 {
      var d := Command(c, 6, arg).next;
      assert LineBlock(d) == seq(64, _ => 0);
    }
    if c.appSpecific {
      var d := Command(c, 51, arg).next;
      assert LineBlock(d) == [2, 0x35, 0x80, 0, 1, 0, 0, 0];
    }
  }

  /** CMD16 sets the block length in TRAN, up to 4098; more stops the simulator; in other states it is ignored. */
  lemma BlockLengthSet(c: Card, arg: Word)
    requires |c.dataLine| == LINE_SIZE && !c.appSpecific
    ensures
      if c.state != Tran then Command(c, 16, arg) == Running(c)
      else if arg > 4098 then Command(c, 16, arg).Stopped?
      else Command(c, 16, arg).Running? && Command(c, 16, arg).next == c.(blocklen := arg)
  {
  }
}
