/**
 Sequences of multi-block reads: the driver programs the block length (CMD16), the block count and the
 argument, issues CMD18, and drains the data port until the transfer is complete; then it may do so again
 (armv7/src/esdhcv2.cpp:444-480, 559-563, armv7/src/sd.cpp:515-575).
 */
module SdReads {
  import opened Words
  import opened SdCards
  import opened Esdhcs
  import opened SdTransfers

  /** Nothing is going on: any commands may follow. */
  predicate Quiet(s: System, image: seq<Byte>) {
    && |s.card.dataLine| == LINE_SIZE && s.card.image == image
    && s.card.state == Tran && !s.card.busy && !s.card.appSpecific
    && s.host.fifo == [] && !s.host.present.cihb && s.host.state != HostWrite
  }

  // ---------------------------------------------------------------------------------------------
  // Pauses: the threads run on between two register writes
  // ---------------------------------------------------------------------------------------------

  /** The system after any steps of the threads and port reads. */
  function Paused(s: System, events: seq<Event>): (p: Progress<System>)
    requires |s.card.dataLine| == LINE_SIZE
    ensures p.Running? ==> |p.next.card.dataLine| == LINE_SIZE
  {
    match SdTransfers.Run(Transfer(s, []), events)
    case Stopped => Stopped
    case Running(t) => Running(t.sys)
  }

  /** The card and the registers that a driver programs are the same. */
  predicate SameProgram(s: System, u: System) {
    && u.card == s.card
    && u.host.cmdarg == s.host.cmdarg && u.host.blkcnt == s.host.blkcnt && u.host.blkcntBackup == s.host.blkcntBackup
  }

  /** A step in a quiet system changes nothing that matters, and delivers nothing. */
  lemma QuietStep(t: Transfer, e: Event, image: seq<Byte>)
    requires Quiet(t.sys, image)
    ensures Step(t, e).Running?
    ensures
      var u := Step(t, e).next;
      Quiet(u.sys, image) && SameProgram(t.sys, u.sys) && u.delivered == t.delivered
  {
    match e
    case CardClock =>
    case HostClock =>
      if t.sys.host.state != HostIdle {
        QuietHost(t.sys.host);
      }
    case PortRead =>
      assert t.delivered + [] == t.delivered;
  }

  lemma QuietHost(h: Host)
    requires h.fifo == [] && h.state != HostWrite
    ensures
      var g := HostProtocol(h);
      && g.fifo == [] && g.present.cihb == h.present.cihb && g.state != HostWrite
      && g.cmdarg == h.cmdarg && g.blkcnt == h.blkcnt && g.blkcntBackup == h.blkcntBackup
  {
  }

  lemma {:induction false} QuietRun(t: Transfer, events: seq<Event>, image: seq<Byte>)
    requires Quiet(t.sys, image)
    ensures SdTransfers.Run(t, events).Running?
    ensures
      var u := SdTransfers.Run(t, events).next;
      Quiet(u.sys, image) && SameProgram(t.sys, u.sys) && u.delivered == t.delivered
    decreases |events|
  {
    if events != [] {
      QuietStep(t, events[0], image);
      QuietRun(Step(t, events[0]).next, events[1..], image);
    }
  }

  /** A quiet system stays quiet, and one that is ready for a read stays ready. */
  lemma PauseKeeps(s: System, events: seq<Event>, image: seq<Byte>)
    requires Quiet(s, image)
    ensures Paused(s, events).Running?
    ensures Quiet(Paused(s, events).next, image) && SameProgram(s, Paused(s, events).next)
    ensures forall r: Request :: ReadyToRead(s, r) ==> ReadyToRead(Paused(s, events).next, r)
  {
    QuietRun(Transfer(s, []), events, image);
  }

  // ---------------------------------------------------------------------------------------------
  // Register writes
  // ---------------------------------------------------------------------------------------------

  /** A write to CMDARG, which is ignored while a command is being executed. */
  function WriteArgument(h: Host, arg: Word): Host {
    if h.present.cihb then h else h.(cmdarg := arg)
  }

  /** A write of the count to BLKATTR. */
  function WriteCount(h: Host, count: Half): Host {
    h.(blkcnt := count, blkcntBackup := count)
  }

  const SET_BLOCKLEN := XferTyp(16, false, false, false, false)

  /** What happens before each of the register writes. */
  datatype Pauses = Pauses(
    length: seq<Event>, setLength: seq<Event>, count: seq<Event>, argument: seq<Event>, start: seq<Event>)

  /** CMD16 with the block length. */
  function LengthSet(s: System, len: nat, w: Pauses): (p: Progress<System>)
    requires |s.card.dataLine| == LINE_SIZE && len < WORD_MOD
    ensures p.Running? ==> |p.next.card.dataLine| == LINE_SIZE
  {
    match Paused(s, w.length)
    case Stopped => Stopped
    case Running(a) =>
      match Paused(a.(host := WriteArgument(a.host, len)), w.setLength)
      case Stopped => Stopped
      case Running(b) => WriteXferTyp(b, SET_BLOCKLEN)
  }

  /** The block count, and the first block as the argument. */
  function RangeSet(s: System, first: Word, count: Half, w: Pauses): (p: Progress<System>)
    requires |s.card.dataLine| == LINE_SIZE
    ensures p.Running? ==> |p.next.card.dataLine| == LINE_SIZE
  {
    match Paused(s, w.count)
    case Stopped => Stopped
    case Running(a) =>
      match Paused(a.(host := WriteCount(a.host, count)), w.argument)
      case Stopped => Stopped
      case Running(b) => Paused(b.(host := WriteArgument(b.host, first)), w.start)
  }

  /** All that precedes CMD18: a count of 65536 is written as zero. */
  function Programmed(s: System, r: Request, w: Pauses): (p: Progress<System>)
    requires |s.card.dataLine| == LINE_SIZE && ValidRequest(r)
    ensures p.Running? ==> |p.next.card.dataLine| == LINE_SIZE
  {
    match LengthSet(s, r.len, w)
    case Stopped => Stopped
    case Running(t) => RangeSet(t, r.first, r.count % 0x1_0000, w)
  }

  lemma SetBlocklenRuns(s: System, image: seq<Byte>)
    requires Quiet(s, image) && s.host.cmdarg <= LINE_SIZE
    ensures
      var t := WriteXferTyp(s, SET_BLOCKLEN);
      t.Running? && t.next.card == s.card.(blocklen := s.host.cmdarg) && Quiet(t.next, image)
  {
  }

  lemma LengthIsSet(s: System, len: nat, w: Pauses, image: seq<Byte>)
    requires Quiet(s, image) && len <= LINE_SIZE
    ensures
      var t := LengthSet(s, len, w);
      t.Running? && t.next.card == s.card.(blocklen := len) && Quiet(t.next, image)
  {
    PauseKeeps(s, w.length, image);
    var a := Paused(s, w.length).next;
    var written := a.(host := WriteArgument(a.host, len));
    PauseKeeps(written, w.setLength, image);
    SetBlocklenRuns(Paused(written, w.setLength).next, image);
  }

  lemma RangeIsSet(s: System, r: Request, w: Pauses)
    requires Quiet(s, r.image) && ValidRequest(r) && s.card.blocklen == r.len
    ensures
      var p := RangeSet(s, r.first, r.count % 0x1_0000, w);
      p.Running? && ReadyToRead(p.next, r)
  {
    PauseKeeps(s, w.count, r.image);
    var a := Paused(s, w.count).next;
    var counted := a.(host := WriteCount(a.host, r.count % 0x1_0000));
    PauseKeeps(counted, w.argument, r.image);
    var b := Paused(counted, w.argument).next;
    var ready := b.(host := WriteArgument(b.host, r.first));
    PauseKeeps(ready, w.start, r.image);
  }

  /** From a quiet system every valid request can be programmed, whatever the threads do between the register
      writes, and is then ready for CMD18. */
  lemma ProgrammedIsReady(s: System, r: Request, w: Pauses)
    requires Quiet(s, r.image) && ValidRequest(r)
    ensures Programmed(s, r, w).Running? && ReadyToRead(Programmed(s, r, w).next, r)
  {
    LengthIsSet(s, r.len, w, r.image);
    RangeIsSet(LengthSet(s, r.len, w).next, r, w);
  }

  // ---------------------------------------------------------------------------------------------
  // Reads
  // ---------------------------------------------------------------------------------------------

  /** A transfer that the host has finished leaves a quiet system. */
  lemma FinishedIsQuiet(t: Transfer, r: Request)
    requires Invariant(t, r) && t.sys.host.state == HostIdle
    ensures Quiet(t.sys, r.image)
  {
  }

  /** One read: what to read, the pauses while it is programmed, and the schedule of the transfer. */
  datatype Read = Read(request: Request, pauses: Pauses, rounds: seq<seq<Event>>)

  /** A valid request for this card, and rounds enough for it, in each of which every party gets a turn. */
  predicate Serviceable(j: Read, image: seq<Byte>) {
    && ValidRequest(j.request) && j.request.image == image
    && (forall i | 0 <= i < |j.rounds| :: FairRound(j.rounds[i]))
    && |j.rounds| >= j.request.count * (j.request.len + 3) + 2
  }

  /** The transfer of one read, from register writes to the end of its schedule. */
  function ReadOnce(s: System, j: Read): (t: Progress<Transfer>)
    requires |s.card.dataLine| == LINE_SIZE && ValidRequest(j.request)
    ensures t.Running? ==> |t.next.sys.card.dataLine| == LINE_SIZE
  {
    match Programmed(s, j.request, j.pauses)
    case Stopped => Stopped
    case Running(p) =>
      if WriteXferTyp(p, READ_MULTIPLE).Stopped? then Stopped else RunRounds(Started(p), j.rounds)
  }

  /** One read delivers its range and leaves the system quiet. */
  lemma ReadDelivers(s: System, j: Read, image: seq<Byte>)
    requires Quiet(s, image) && Serviceable(j, image)
    ensures ReadOnce(s, j).Running?
    ensures ReadOnce(s, j).next.delivered == Range(j.request)
    ensures Quiet(ReadOnce(s, j).next.sys, image)
  {
    ProgrammedIsReady(s, j.request, j.pauses);
    TransferDelivers(Programmed(s, j.request, j.pauses).next, j);
  }

  lemma TransferDelivers(p: System, j: Read)
    requires ReadyToRead(p, j.request) && Serviceable(j, j.request.image)
    ensures WriteXferTyp(p, READ_MULTIPLE).Running? && RunRounds(Started(p), j.rounds).Running?
    ensures
      var end := RunRounds(Started(p), j.rounds).next;
      end.delivered == Range(j.request) && Quiet(end.sys, j.request.image)
  {
    FairRunsComplete(p, j.rounds, j.request);
    FinishedIsQuiet(RunRounds(Started(p), j.rounds).next, j.request);
  }

  /** What a sequence of reads delivers, as long as nothing stops the simulator. */
  function ReadAll(s: System, jobs: seq<Read>): Progress<seq<seq<Byte>>>
    requires |s.card.dataLine| == LINE_SIZE && forall i | 0 <= i < |jobs| :: ValidRequest(jobs[i].request)
    decreases |jobs|
  {
    if jobs == [] then Running([])
    else
      match ReadOnce(s, jobs[0])
      case Stopped => Stopped
      case Running(t) =>
        match ReadAll(t.sys, jobs[1..])
        case Stopped => Stopped
        case Running(rest) => Running([t.delivered] + rest)
  }

  function Ranges(jobs: seq<Read>): (ranges: seq<seq<Byte>>)
    requires forall i | 0 <= i < |jobs| :: ValidRequest(jobs[i].request)
    ensures |ranges| == |jobs|
  {
    if jobs == [] then [] else [Range(jobs[0].request)] + Ranges(jobs[1..])
  }

  /** Any sequence of reads, of any lengths and places and with any pauses, delivers exactly their ranges, in order. */
  lemma {:induction false} ReadsDeliverRanges(s: System, jobs: seq<Read>, image: seq<Byte>)
    requires Quiet(s, image)
    requires forall i | 0 <= i < |jobs| :: ValidRequest(jobs[i].request) && Serviceable(jobs[i], image)
    ensures ReadAll(s, jobs) == Running(Ranges(jobs))
    decreases |jobs|
  {
    if jobs != [] {
      ReadDelivers(s, jobs[0], image);
      ReadsDeliverRanges(ReadOnce(s, jobs[0]).next.sys, jobs[1..], image);
    }
  }
}
