/**
 The ARM core's state and its access paths: banked registers, program status words and exception entry
 (armv7/src/arm_isa.cpp:61-399, armv7/src/arm_interrupts.cpp:20-116).

 A program status word is held by its fields, in the four bytes that the field mask of MSR selects;
 `PsrOf` and `WordOf` are the correspondence with 32-bit words.
 */
module ArmCores {
  import opened Words

  type Mode = m: int | 0 <= m < 0x20

  const USER: Mode := 0x10
  const FIQ: Mode := 0x11
  const IRQ: Mode := 0x12
  const SUPERVISOR: Mode := 0x13
  const ABORT: Mode := 0x17
  const UNDEFINED: Mode := 0x1B
  const SYSTEM: Mode := 0x1F

  const LR := 14
  const PC := 15

  type Register = k: int | 0 <= k < 16

  // ---------------------------------------------------------------------------------------------
  // Program status words
  // ---------------------------------------------------------------------------------------------

  type Octal = x: int | 0 <= x < 8

  /** Bits 31 to 27 and the three bits below them. */
  datatype FlagByte = FlagByte(n: bool, z: bool, c: bool, v: bool, q: bool, low: Octal)

  /** Bits 7 to 5 and the mode. */
  datatype ControlByte = ControlByte(i: bool, f: bool, t: bool, mode: Mode)

  datatype Psr = Psr(flags: FlagByte, status: Byte, extension: Byte, control: ControlByte)

  const ZERO_PSR := Psr(FlagByte(false, false, false, false, false, 0), 0, 0, ControlByte(false, false, false, 0))

  function Weighted(on: bool, weight: int): int {
    if on then weight else 0
  }

  function FlagByteOf(b: Byte): FlagByte {
    var n := b >= 128;
    var b1 := b - Weighted(n, 128);
    var z := b1 >= 64;
    var b2 := b1 - Weighted(z, 64);
    var c := b2 >= 32;
    var b3 := b2 - Weighted(c, 32);
    var v := b3 >= 16;
    var b4 := b3 - Weighted(v, 16);
    var q := b4 >= 8;
    FlagByte(n, z, c, v, q, b4 - Weighted(q, 8))
  }

  function ByteOfFlags(f: FlagByte): Byte {
    Weighted(f.n, 128) + Weighted(f.z, 64) + Weighted(f.c, 32) + Weighted(f.v, 16) + Weighted(f.q, 8) + f.low
  }

  function ControlByteOf(b: Byte): ControlByte {
    var i := b >= 128;
    var b1 := b - Weighted(i, 128);
    var f := b1 >= 64;
    var b2 := b1 - Weighted(f, 64);
    var t := b2 >= 32;
    ControlByte(i, f, t, b2 - Weighted(t, 32))
  }

  function ByteOfControl(c: ControlByte): Byte {
    Weighted(c.i, 128) + Weighted(c.f, 64) + Weighted(c.t, 32) + c.mode
  }

  function PsrOfBytes(b: Bytes): Psr {
    Psr(FlagByteOf(b.b3), b.b2, b.b1, ControlByteOf(b.b0))
  }

  function BytesOfPsr(p: Psr): Bytes {
    Bytes(ByteOfFlags(p.flags), p.status, p.extension, ByteOfControl(p.control))
  }

  function PsrOf(w: Word): Psr {
    PsrOfBytes(BytesOf(w))
  }

  function WordOf(p: Psr): Word {
    Joined(BytesOfPsr(p))
  }

  lemma FlagBytes(b: Byte, f: FlagByte)
    ensures ByteOfFlags(FlagByteOf(b)) == b && FlagByteOf(ByteOfFlags(f)) == f
  {
  }

  lemma ControlBytes(b: Byte, c: ControlByte)
    ensures ByteOfControl(ControlByteOf(b)) == b && ControlByteOf(ByteOfControl(c)) == c
  {
  }

  lemma PsrsAreBytes(b: Bytes, p: Psr)
    ensures BytesOfPsr(PsrOfBytes(b)) == b && PsrOfBytes(BytesOfPsr(p)) == p
  {
    FlagBytes(b.b3, p.flags);
    ControlBytes(b.b0, p.control);
  }

  /** Words and status words correspond one to one. */
  lemma PsrsAreWords(w: Word, p: Psr)
    ensures WordOf(PsrOf(w)) == w
    ensures PsrOf(WordOf(p)) == p
  {
    BytesAreWords(w, BytesOfPsr(p));
    PsrsAreBytes(BytesOf(w), p);
  }

  // ---------------------------------------------------------------------------------------------
  // State
  // ---------------------------------------------------------------------------------------------

  datatype Flags = Flags(n: bool, z: bool, c: bool, v: bool, q: bool, t: bool)

  /** `fiq` and `irq` are the disable bits. */
  datatype Processor = Processor(mode: Mode, fiq: bool, irq: bool, thumb: bool)

  datatype Bank = Bank(r13: Word, r14: Word, spsr: Psr)

  datatype Banks = Banks(fiq: Bank, irq: Bank, svc: Bank, abt: Bank, und: Bank)

  /** r0 to r15 of the common register bank. */
  type Registers = s: seq<Word> | |s| == 16 witness [0, 0, 0, 0, 0, 0, 0, 0, 0, 0, 0, 0, 0, 0, 0, 0]

  /** r8 to r12 of FIQ mode. */
  type HighRegisters = s: seq<Word> | |s| == 5 witness [0, 0, 0, 0, 0]

  datatype Core = Core(rb: Registers, high: HighRegisters, banks: Banks, pc: Word, flags: Flags, proc: Processor)

  // ---------------------------------------------------------------------------------------------
  // Register access
  // ---------------------------------------------------------------------------------------------

  predicate HasBank(m: Mode) {
    m == FIQ || m == IRQ || m == SUPERVISOR || m == ABORT || m == UNDEFINED
  }

  predicate UserBank(m: Mode) {
    m == USER || m == SYSTEM
  }

  predicate KnownMode(m: Mode) {
    HasBank(m) || UserBank(m)
  }

  function BankOf(b: Banks, m: Mode): Bank
    requires HasBank(m)
  {
    if m == FIQ then b.fiq else if m == IRQ then b.irq else if m == SUPERVISOR then b.svc
    else if m == ABORT then b.abt else b.und
  }

  function WithBank(b: Banks, m: Mode, bank: Bank): Banks
    requires HasBank(m)
  {
    if m == FIQ then b.(fiq := bank) else if m == IRQ then b.(irq := bank) else if m == SUPERVISOR then b.(svc := bank)
    else if m == ABORT then b.(abt := bank) else b.(und := bank)
  }

  /** `bypass_read`; in an unknown mode, where the original returns nothing, 0. */
  function ReadRegister(c: Core, k: Register): Word {
    var m := c.proc.mode;
    if UserBank(m) then c.rb[k]
    else if !HasBank(m) then 0
    else if k == LR then BankOf(c.banks, m).r14
    else if k == 13 then BankOf(c.banks, m).r13
    else if m == FIQ && 8 <= k <= 12 then c.high[k - 8]
    else c.rb[k]
  }

  /** `bypass_write` */
  function WriteRegister(c: Core, k: Register, value: Word): Core {
    var m := c.proc.mode;
    if UserBank(m) then c.(rb := c.rb[k := value])
    else if !HasBank(m) then c
    else if k == LR then c.(banks := WithBank(c.banks, m, BankOf(c.banks, m).(r14 := value)))
    else if k == 13 then c.(banks := WithBank(c.banks, m, BankOf(c.banks, m).(r13 := value)))
    else if m == FIQ && 8 <= k <= 12 then c.(high := c.high[k - 8 := value])
    else c.(rb := c.rb[k := value])
  }

  /** In every known mode the sixteen register numbers name sixteen registers of their own. */
  lemma RegistersAreVariables(c: Core, k: Register, value: Word, j: Register)
    requires KnownMode(c.proc.mode)
    ensures ReadRegister(WriteRegister(c, k, value), j) == if j == k then value else ReadRegister(c, j)
  {
  }

  /** Two known modes see the same register under a number unless it is banked in one of them. */
  predicate SharedRegister(m: Mode, l: Mode, k: Register) {
    m == l || (UserBank(m) && UserBank(l))
    || (k != LR && k != 13 && ((m != FIQ && l != FIQ) || !(8 <= k <= 12)))
  }

  /** A write is seen from another mode exactly when the two modes share the register. */
  lemma WriteSeenFromMode(c: Core, k: Register, value: Word, l: Mode, j: Register)
    requires KnownMode(c.proc.mode) && KnownMode(l)
    ensures
      var after := WriteRegister(c, k, value);
      var other := c.proc.(mode := l);
      ReadRegister(after.(proc := other), j)
      == if j == k && SharedRegister(c.proc.mode, l, k) then value else ReadRegister(c.(proc := other), j)
  {
  }

  /** `ac_pc = RB_read(PC)`, the end of most instructions. */
  function Continue(c: Core): Core {
    c.(pc := ReadRegister(c, PC))
  }

  // ---------------------------------------------------------------------------------------------
  // Status word access
  // ---------------------------------------------------------------------------------------------

  /** `readCPSR` */
  function ReadCpsr(c: Core): Psr {
    var f := c.flags;
    Psr(FlagByte(f.n, f.z, f.c, f.v, f.q, 0), 0, 0,
        ControlByte(c.proc.irq, c.proc.fiq, f.t || c.proc.thumb, c.proc.mode))
  }

  /** `writeCPSR` */
  function WriteCpsr(c: Core, p: Psr): Core {
    var f := p.flags;
    c.(flags := Flags(f.n, f.z, f.c, f.v, f.q, p.control.t),
       proc := c.proc.(mode := p.control.mode, fiq := p.control.f, irq := p.control.i))
  }

  /** `SPSRtoCPSR` */
  function SpsrToCpsr(c: Core): Core {
    if HasBank(c.proc.mode) then WriteCpsr(c, BankOf(c.banks, c.proc.mode).spsr) else c
  }

  /** `readSPSR` */
  function ReadSpsr(c: Core): Psr {
    if HasBank(c.proc.mode) then BankOf(c.banks, c.proc.mode).spsr else ZERO_PSR
  }

  /** `writeSPSR` */
  function WriteSpsr(c: Core, p: Psr): Core {
    var m := c.proc.mode;
    if HasBank(m) then c.(banks := WithBank(c.banks, m, BankOf(c.banks, m).(spsr := p))) else c
  }

  /** `getPrivilegeLevel`: unknown modes are not privileged. */
  predicate Privileged(c: Core) {
    HasBank(c.proc.mode) || c.proc.mode == SYSTEM
  }

  // ---------------------------------------------------------------------------------------------
  // Exceptions
  // ---------------------------------------------------------------------------------------------

  datatype Exception = Reset | UndefinedInstr | Swi | PrefetchAbort | DataAbort | IrqLine | FiqLine

  predicate Masked(c: Core, e: Exception) {
    (e == FiqLine && c.proc.fiq) || (e == IrqLine && c.proc.irq)
  }

  function HandlerMode(e: Exception): (m: Mode)
    ensures HasBank(m)
  {
    match e
    case Reset => SUPERVISOR
    case UndefinedInstr => UNDEFINED
    case Swi => SUPERVISOR
    case PrefetchAbort => ABORT
    case DataAbort => ABORT
    case IrqLine => IRQ
    case FiqLine => FIQ
  }

  /** FIQ shares the vector of the data abort. */
  function Vector(e: Exception): Word {
    match e
    case Reset => 0
    case UndefinedInstr => 0x4
    case Swi => 0x8
    case PrefetchAbort => 0xC
    case DataAbort => 0x10
    case IrqLine => 0x18
    case FiqLine => 0x10
  }

  /** How far the saved return address lies behind `ac_pc`. */
  function LinkOffset(e: Exception): Word {
    if e == DataAbort || e == IrqLine || e == FiqLine then 4 else 0
  }

  /** The vector base register without its low five bits, plus the vector. */
  function VectorAddress(vbar: Word, e: Exception): Word {
    Wrap(vbar / 0x20 * 0x20 + Vector(e))
  }

  /** The vectors of section B1.8.1 of ARM DDI 0406C. */
  function ArchVector(e: Exception): Word {
    match e
    case Reset => 0
    case UndefinedInstr => 0x4
    case Swi => 0x8
    case PrefetchAbort => 0xC
    case DataAbort => 0x10
    case IrqLine => 0x18
    case FiqLine => 0x1C
  }

  function ArchVectorAddress(vbar: Word, e: Exception): int {
    vbar / 0x20 * 0x20 + ArchVector(e)
  }

  /** Every exception but FIQ enters at the architecture's vector, wherever the vectors are. */
  lemma VectorMatchesIff(vbar: Word, e: Exception)
    ensures VectorAddress(vbar, e) == ArchVectorAddress(vbar, e) <==> e != FiqLine
  {
    var base := vbar / 0x20 * 0x20;
    assert base + 0x20 <= WORD_MOD;
    assert base + Vector(e) < WORD_MOD;
  }

  /** LR and SPSR of the handler: reset clears them, every other exception saves `ac_pc` and CPSR. */
  function SavedBank(c: Core, e: Exception): Bank {
    var bank := BankOf(c.banks, HandlerMode(e));
    if e == Reset then bank.(r14 := 0, spsr := ZERO_PSR)
    else bank.(r14 := Wrap(c.pc + LinkOffset(e)), spsr := ReadCpsr(c))
  }

  /** CPSR on entry: the handler's mode, ARM state, IRQs disabled, and FIQs too by reset and FIQ. */
  function EntryCpsr(c: Core, e: Exception): Psr {
    var p := ReadCpsr(c);
    p.(control := ControlByte(true, e == Reset || e == FiqLine || p.control.f, false, HandlerMode(e)))
  }

  /** `service_interrupt` */
  function Service(c: Core, e: Exception, vbar: Word): Core {
    if Masked(c, e) then c
    else
      WriteCpsr(c.(banks := WithBank(c.banks, HandlerMode(e), SavedBank(c, e)), pc := VectorAddress(vbar, e)),
                EntryCpsr(c, e))
  }

  /** Every taken entry disables IRQs and enters the handler's mode in ARM state; a masked one does nothing. */
  lemma EntryMasksIrq(c: Core, e: Exception, vbar: Word)
    ensures Masked(c, e) ==> Service(c, e, vbar) == c
    ensures !Masked(c, e) ==>
              var s := Service(c, e, vbar);
              && s.proc.irq && s.proc.mode == HandlerMode(e) && !s.flags.t
              && (c.proc.fiq || e == FiqLine ==> s.proc.fiq)
              && Masked(s, IrqLine)
              && (forall m: Mode :: HasBank(m) && m != HandlerMode(e) ==> BankOf(s.banks, m) == BankOf(c.banks, m))
              && s.rb == c.rb && s.high == c.high
  {
  }

  // ---------------------------------------------------------------------------------------------
  // The core as an object
  // ---------------------------------------------------------------------------------------------

  class Cpu {
    var rb: Registers
    var high: HighRegisters
    var banks: Banks
    var pc: Word
    var flags: Flags
    var proc: Processor

    function View(): Core
      reads this
    {
      Core(rb, high, banks, pc, flags, proc)
    }

    method BypassRead(address: Register) returns (datum: Word)
      ensures datum == ReadRegister(View(), address)
    {
      if UserBank(proc.mode) {
        return rb[address];
      }
      if !HasBank(proc.mode) {
        return 0;
      }
      if address == LR {
        datum := BankOf(banks, proc.mode).r14;
      } else if address == 13 {
        datum := BankOf(banks, proc.mode).r13;
      } else if proc.mode == FIQ && 8 <= address <= 12 {
        datum := high[address - 8];
      } else {
        datum := rb[address];
      }
    }

    method BypassWrite(address: Register, datum: Word)
      modifies this
      ensures View() == WriteRegister(old(View()), address, datum)
    {
      if UserBank(proc.mode) {
        rb := rb[address := datum];
        return;
      }
      if HasBank(proc.mode) {
        var bank := BankOf(banks, proc.mode);
        if address == LR {
          banks := WithBank(banks, proc.mode, bank.(r14 := datum));
        } else if address == 13 {
          banks := WithBank(banks, proc.mode, bank.(r13 := datum));
        } else if proc.mode == FIQ && 8 <= address <= 12 {
          high := high[address - 8 := datum];
        } else {
          rb := rb[address := datum];
        }
      }
    }

    method EndInstruction()
      modifies this
      ensures View() == Continue(old(View()))
    {
      var next := BypassRead(PC);
      pc := next;
    }

    /** `value` is taken by its fields. */
    method WriteStatus(value: Psr)
      modifies this
      ensures View() == WriteCpsr(old(View()), value)
    {
      var f := value.flags;
      flags := Flags(f.n, f.z, f.c, f.v, f.q, value.control.t);
      proc := proc.(fiq := value.control.f);
      proc := proc.(irq := value.control.i);
      proc := proc.(mode := value.control.mode);
    }

    method SavedToStatus()
      modifies this
      ensures View() == SpsrToCpsr(old(View()))
    {
      if HasBank(proc.mode) {
        WriteStatus(BankOf(banks, proc.mode).spsr);
      }
    }

    method WriteSaved(value: Psr)
      modifies this
      ensures View() == WriteSpsr(old(View()), value)
    {
      if HasBank(proc.mode) {
        banks := WithBank(banks, proc.mode, BankOf(banks, proc.mode).(spsr := value));
      }
    }

    method ServiceInterrupt(e: Exception, vbar: Word)
      modifies this
      ensures View() == Service(old(View()), e, vbar)
    {
      var cpsr := ReadCpsr(View());
      if cpsr.control.f && e == FiqLine {
        return;
      }
      if cpsr.control.i && e == IrqLine {
        return;
      }
      SaveReturnState(e, cpsr);
      var control := cpsr.control.(mode := HandlerMode(e));
      if e == Reset || e == FiqLine {
        control := control.(f := true);
      }
      pc := VectorAddress(vbar, e);
      control := control.(t := false);
      control := control.(i := true);
      WriteStatus(cpsr.(control := control));
    }

    /** LR and SPSR of the handler's mode. */
    method SaveReturnState(e: Exception, cpsr: Psr)
      requires cpsr == ReadCpsr(View())
      modifies this
      ensures View() == old(View()).(banks := WithBank(old(banks), HandlerMode(e), SavedBank(old(View()), e)))
    {
      var bank := BankOf(banks, HandlerMode(e));
      if e == Reset {
        bank := bank.(r14 := 0);
        bank := bank.(spsr := ZERO_PSR);
      } else {
        bank := bank.(r14 := Wrap(pc + LinkOffset(e)));
        bank := bank.(spsr := cpsr);
      }
      banks := WithBank(banks, HandlerMode(e), bank);
    }
  }
}
