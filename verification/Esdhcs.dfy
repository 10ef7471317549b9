/**
 The SD host controller of armv7/src/esdhcv2.cpp, as far as reading from the card goes: the two
 protocols its thread runs each clock cycle, the command register, and the data port.

 The command and present-state registers are records of their bits. Of the interrupt status and
 enable registers the three bits that this path raises are kept; the line to the interrupt controller
 and the response registers are not modelled.
 */
module Esdhcs {
  import opened Words
  import opened SdCards

  datatype HostState = HostIdle | HostWrite | ReadTransfer | ReadDone | HostWriteDone

  /** XFERTYP: the bits that a transfer depends on. */
  datatype XferTyp = XferTyp(cmdinx: Byte, dpsel: bool, msbsel: bool, dtdsel: bool, bcen: bool)

  /** PRSSTAT: buffer read enable, data line active, read transfer active, and the two inhibit bits. */
  datatype PresentState = PresentState(bren: bool, dla: bool, rta: bool, cdihb: bool, cihb: bool)

  datatype Irq = CC | TC | BRR

  /** The bits of IRQSTAT, or of IRQSTATEN, for these three signals. */
  datatype IrqBits = IrqBits(cc: bool, tc: bool, brr: bool)

  datatype Host = Host(
    state: HostState,
    xfer: XferTyp, cmdarg: Word,
    blkcnt: Half, blkcntBackup: Half, readWatermark: Byte,
    fifo: seq<Byte>,
    present: PresentState,
    irqstat: IrqBits, irqstaten: IrqBits)

  datatype System = System(card: Card, host: Host)

  function Raise(stat: IrqBits, enabled: IrqBits, irq: Irq): IrqBits {
    match irq
    case CC => if enabled.cc then stat.(cc := true) else stat
    case TC => if enabled.tc then stat.(tc := true) else stat
    case BRR => if enabled.brr then stat.(brr := true) else stat
  }

  function Signal(h: Host, irq: Irq): Host {
    h.(irqstat := Raise(h.irqstat, h.irqstaten, irq))
  }

  function EnterReadTransfer(h: Host): Host {
    h.(state := ReadTransfer, present := h.present.(dla := true, rta := true, cdihb := true))
  }

  function EnterReadDone(h: Host): Host {
    h.(state := ReadDone, present := h.present.(dla := false, rta := false, cdihb := false))
  }

  /** The present-state bits that go with each state that the controller can enter. */
  function EnterState(h: Host, target: HostState): Host {
    match target
    case ReadTransfer => EnterReadTransfer(h)
    case ReadDone => EnterReadDone(h)
    case HostIdle => h.(state := HostIdle)
    case _ => h
  }

  /** After a block was fetched: count it, and stop the card after the last one. */
  function CountBlock(s: System): (r: Progress<System>)
    requires |s.card.dataLine| == LINE_SIZE
    ensures r.Running? ==> |r.next.card.dataLine| == LINE_SIZE
  {
    if !s.host.xfer.msbsel then
      Running(s.(host := EnterReadDone(s.host)))
    else if !s.host.xfer.bcen then
      Running(s)
    else
      var left: Half := (s.host.blkcnt - 1) % 0x1_0000;
      if left != 0 then
        Running(s.(host := s.host.(blkcnt := left)))
      else
        match Command(s.card, 12, s.host.cmdarg)
        case Stopped => Stopped
        case Running(quiet) => Running(System(quiet, EnterReadDone(s.host.(blkcnt := s.host.blkcntBackup))))
  }

  /** Towards the card: fetch a waiting block. */
  function SdProtocol(s: System): (r: Progress<System>)
    requires |s.card.dataLine| == LINE_SIZE
    ensures r.Running? ==> |r.next.card.dataLine| == LINE_SIZE
  {
    if s.host.state == HostWrite then
      Stopped
    else if s.host.state != ReadTransfer || !s.card.busy then
      Running(s)
    else
      match TakeBlock(s.card, s.host.fifo)
      case Stopped => Stopped
      case Running((card, fifo)) => CountBlock(System(card, s.host.(fifo := fifo)))
  }

  function AnnounceData(h: Host): Host {
    if |h.fifo| >= h.readWatermark then Signal(h.(present := h.present.(bren := true)), BRR) else h
  }

  function AnnounceCompletion(h: Host): Host {
    if |h.fifo| == 0 && h.state == ReadDone then Signal(h, TC).(state := HostIdle) else h
  }

  /** Towards the processor: announce readable data, and completion once everything was read. */
  function HostProtocol(h: Host): Host {
    if h.state == ReadTransfer || h.state == ReadDone then AnnounceCompletion(AnnounceData(h)) else h
  }

  /** One clock cycle of the host thread. */
  function HostTick(s: System): (r: Progress<System>)
    requires |s.card.dataLine| == LINE_SIZE
    ensures r.Running? ==> |r.next.card.dataLine| == LINE_SIZE
  {
    if s.host.state == HostIdle then
      Running(s)
    else
      match SdProtocol(s)
      case Stopped => Stopped
      case Running(t) => Running(t.(host := HostProtocol(t.host)))
  }

  /** The command register takes its bits, and holds further commands back. */
  function LatchCommand(h: Host, x: XferTyp): Host {
    h.(xfer := x.(cmdinx := x.cmdinx % 64), present := h.present.(cihb := true))
  }

  /** The data phase of a command: only reads are implemented. */
  function StartTransfer(h: Host): Progress<Host> {
    if !h.xfer.dpsel then Running(h) else if h.xfer.dtdsel then Running(EnterReadTransfer(h)) else Stopped
  }

  function FinishCommand(h: Host): Host {
    Signal(h, CC).(present := h.present.(cihb := false))
  }

  /** A write to the command register: ignored while a command is being executed. */
  function WriteXferTyp(s: System, x: XferTyp): (r: Progress<System>)
    requires |s.card.dataLine| == LINE_SIZE
    ensures r.Running? ==> |r.next.card.dataLine| == LINE_SIZE
  {
    if s.host.present.cihb then
      Running(s)
    else
      match Command(s.card, x.cmdinx % 64, s.host.cmdarg)
      case Stopped => Stopped
      case Running(card) =>
        match StartTransfer(LatchCommand(s.host, x))
        case Stopped => Stopped
        case Running(host) => Running(System(card, FinishCommand(host)))
  }

  /** How many bytes one data-port read takes. */
  function PortCount(fifo: seq<Byte>): nat {
    if |fifo| < 4 then |fifo| else 4
  }

  /** A read of the data port takes up to four bytes; the word read is `LittleEndian` of them. */
  function DataPortRead(h: Host): Host {
    h.(present := h.present.(bren := false), fifo := h.fifo[PortCount(h.fifo)..])
  }

  /** `b << (8 * i)` */
  function ShiftedByte(b: Byte, i: nat): nat
    requires i < 4
  {
    match i
    case 0 => b
    case 1 => b * 0x100
    case 2 => b * 0x1_0000
    case _ => b * 0x100_0000
  }

  /** OR-ing a byte above the bytes already there appends it, and the word stays in range. */
  lemma {:induction false} LittleEndianAppend(s: seq<Byte>, b: Byte)
    requires |s| < 4
    ensures LittleEndian(s + [b]) == LittleEndian(s) + ShiftedByte(b, |s|)
    ensures LittleEndian(s) < ShiftedByte(1, |s|)
    ensures LittleEndian(s + [b]) < WORD_MOD
  {
    if s == [] {
      assert LittleEndian([b]) == b + 0x100 * LittleEndian([]);
    } else {
      assert (s + [b])[1..] == s[1..] + [b];
      LittleEndianAppend(s[1..], b);
    }
  }

  /** The host controller as an object, connected to its card. */
  class Esdhc {
    const port: SdCard
    var currentState: HostState
    var xferTyp: XferTyp
    var cmdArg: Word
    var blkCnt: Half
    var blkCntBackup: Half
    var rdWml: Byte
    var ibuffer: seq<Byte>
    var prsStat: PresentState
    var irqStat: IrqBits
    var irqStatEn: IrqBits

    ghost predicate Valid()
      reads this, port
    {
      port.Valid()
    }

    ghost function HostView(): Host
      reads this
    {
      Host(currentState, xferTyp, cmdArg, blkCnt, blkCntBackup, rdWml, ibuffer, prsStat, irqStat, irqStatEn)
    }

    ghost function View(): System
      reads this, port, port.dataLine
    {
      System(port.View(), HostView())
    }

    constructor (card: SdCard)
      requires card.Valid()
      ensures Valid() && port == card
      ensures currentState == HostIdle && ibuffer == []
      ensures prsStat == PresentState(false, false, false, false, false)
      ensures irqStat == IrqBits(false, false, false) && irqStatEn == IrqBits(true, true, true)
    {
      port := card;
      xferTyp := XferTyp(0, false, false, false, false);
      rdWml, ibuffer := 0x10, [];
      prsStat := PresentState(false, false, false, false, false);
      irqStat, irqStatEn := IrqBits(false, false, false), IrqBits(true, true, true);
      currentState := HostIdle;
    }

    method GenerateSignal(irq: Irq)
      modifies this`irqStat
      ensures HostView() == Signal(old(HostView()), irq)
    {
      match irq {
        case CC => if irqStatEn.cc { irqStat := irqStat.(cc := true); }
        case TC => if irqStatEn.tc { irqStat := irqStat.(tc := true); }
        case BRR => if irqStatEn.brr { irqStat := irqStat.(brr := true); }
      }
    }

    /** A write state stops the simulator; an unknown one is reported and skipped. */
    method UpdateState(target: HostState) returns (running: bool)
      modifies this`prsStat, this`currentState
      ensures running <==> target != HostWrite
      ensures running ==> HostView() == EnterState(old(HostView()), target)
    {
      if target == ReadTransfer {
        prsStat := prsStat.(dla := true, rta := true, cdihb := true);
        currentState := target;
      } else if target == ReadDone {
        prsStat := prsStat.(dla := false, rta := false, cdihb := false);
        currentState := target;
      } else if target == HostWrite {
        return false;
      } else if target == HostIdle {
        currentState := target;
      }
      return true;
    }

    method CountFetchedBlock() returns (running: bool)
      requires Valid()
      modifies this, port, port.dataLine
      ensures Valid() && running == CountBlock(old(View())).Running?
      ensures running ==> View() == CountBlock(old(View())).next
    {
      running := true;
      if !xferTyp.msbsel {
        running := UpdateState(ReadDone);
      } else if xferTyp.bcen {
        blkCnt := (blkCnt - 1) % 0x1_0000;
        if blkCnt == 0 {
          running := port.ExecCmd(12, cmdArg);
          if running {
            blkCnt := blkCntBackup;
            running := UpdateState(ReadDone);
          }
        }
      }
    }

    method RunSdProtocol() returns (running: bool)
      requires Valid()
      modifies this, port, port.dataLine
      ensures Valid() && running == SdProtocol(old(View())).Running?
      ensures running ==> View() == SdProtocol(old(View())).next
    {
      running := true;
      if currentState == ReadTransfer {
        if port.dataLineBusy {
          running, ibuffer := port.ReadDataline(ibuffer);
          if running {
            running := CountFetchedBlock();
          }
        }
      } else if currentState == HostWrite {
        running := false;
      }
    }

    method RunHostProtocol()
      modifies this
      ensures HostView() == HostProtocol(old(HostView()))
    {
      if currentState == ReadTransfer || currentState == ReadDone {
        if |ibuffer| >= rdWml {
          prsStat := prsStat.(bren := true);
          GenerateSignal(BRR);
        }
        assert HostView() == AnnounceData(old(HostView()));
        if |ibuffer| == 0 && currentState == ReadDone {
          GenerateSignal(TC);
          var _ := UpdateState(HostIdle);
        }
      }
    }

    method PrcEsdhc() returns (running: bool)
      requires Valid()
      modifies this, port, port.dataLine
      ensures Valid() && running == HostTick(old(View())).Running?
      ensures running ==> View() == HostTick(old(View())).next
    {
      if currentState == HostIdle {
        return true;
      }
      running := RunSdProtocol();
      if running {
        RunHostProtocol();
      }
    }

    method WriteCommand(x: XferTyp) returns (running: bool)
      requires Valid()
      modifies this, port, port.dataLine
      ensures Valid() && running == WriteXferTyp(old(View()), x).Running?
      ensures running ==> View() == WriteXferTyp(old(View()), x).next
    {
      if prsStat.cihb {
        return true;
      }
      xferTyp := x.(cmdinx := x.cmdinx % 64);
      prsStat := prsStat.(cihb := true);
      assert HostView() == LatchCommand(old(HostView()), x);
      running := port.ExecCmd(xferTyp.cmdinx, cmdArg);
      if running {
        running := ExecuteDataPhase();
      }
    }

    method ExecuteDataPhase() returns (running: bool)
      modifies this
      ensures running == StartTransfer(old(HostView())).Running?
      ensures running ==> HostView() == FinishCommand(StartTransfer(old(HostView())).next)
    {
      if xferTyp.dpsel {
        prsStat := prsStat.(cdihb := true);
        running := UpdateState(if xferTyp.dtdsel then ReadTransfer else HostWrite);
        if !running {
          return;
        }
      }
      GenerateSignal(CC);
      prsStat := prsStat.(cihb := false);
      return true;
    }

    /** The data port: pops bytes one by one and assembles them low byte first. */
    method ReadDatport() returns (datum: Word)
      modifies this`prsStat, this`ibuffer
      ensures HostView() == DataPortRead(old(HostView()))
      ensures datum == LittleEndian(old(ibuffer)[..PortCount(old(ibuffer))])
    {
      ghost var before := ibuffer;
      prsStat := prsStat.(bren := false);
      datum := 0;
      var i := 0;
      while i < 4 && ibuffer != []
        invariant 0 <= i <= PortCount(before)
        invariant ibuffer == before[i..]
        invariant datum == LittleEndian(before[..i])
        invariant prsStat == old(prsStat).(bren := false)
      {
        assert before[..i + 1] == before[..i] + [ibuffer[0]];
        LittleEndianAppend(before[..i], ibuffer[0]);
        datum := datum + ShiftedByte(ibuffer[0], i);
        ibuffer := ibuffer[1..];
        i := i + 1;
      }
    }
  }
}
