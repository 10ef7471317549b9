/**
 What single steps of the core come to, in numbers: where exceptions enter and what they save, the layout of
 status words, and the registers, flags and PC after each instruction. These statements use tables of their
 own, not the functions that describe the steps (armv7/src/arm_isa.cpp:297-451, 1203-2405, 2649-2811,
 3262-3374, armv7/src/arm_interrupts.cpp:20-116).
 */
module ArmEffects {
  import opened Words
  import opened ArmAlu
  import opened ArmCores
  import opened ArmInstructions

  // ---------------------------------------------------------------------------------------------
  // Modes and status words
  // ---------------------------------------------------------------------------------------------

  /** The seven modes by their numbers, the privileged ones among them, and those with a saved status. */
  lemma ModeNumbers(c: Core, m: Mode)
    ensures KnownMode(m) <==> m in {0x10, 0x11, 0x12, 0x13, 0x17, 0x1B, 0x1F}
    ensures HasBank(m) <==> m in {0x11, 0x12, 0x13, 0x17, 0x1B}
    ensures Privileged(c) <==> c.proc.mode in {0x11, 0x12, 0x13, 0x17, 0x1B, 0x1F}
  {
  }

  /** The weight of a bit that is on. */
  function At(on: bool, weight: nat): nat {
    if on then weight else 0
  }

  /** The places of all fields of a status word. */
  lemma StatusWordLayout(p: Psr)
    ensures
      WordOf(p) ==
        At(p.flags.n, 0x8000_0000) + At(p.flags.z, 0x4000_0000) + At(p.flags.c, 0x2000_0000)
        + At(p.flags.v, 0x1000_0000) + At(p.flags.q, 0x800_0000) + p.flags.low * 0x100_0000
        + p.status * 0x1_0000 + p.extension * 0x100
        + At(p.control.i, 0x80) + At(p.control.f, 0x40) + At(p.control.t, 0x20) + p.control.mode
  {
  }

  /** CPSR as it is read: the disable bits of IRQ and FIQ are bits 7 and 6. */
  lemma CpsrLayout(c: Core)
    ensures
      WordOf(ReadCpsr(c)) ==
        At(c.flags.n, 0x8000_0000) + At(c.flags.z, 0x4000_0000) + At(c.flags.c, 0x2000_0000)
        + At(c.flags.v, 0x1000_0000) + At(c.flags.q, 0x800_0000)
        + At(c.proc.irq, 0x80) + At(c.proc.fiq, 0x40) + At(c.flags.t || c.proc.thumb, 0x20) + c.proc.mode
  {
    StatusWordLayout(ReadCpsr(c));
  }

  lemma FlagWeights(b: Byte)
    ensures
      var f := FlagByteOf(b);
      b == At(f.n, 128) + At(f.z, 64) + At(f.c, 32) + At(f.v, 16) + At(f.q, 8) + b % 8
  {
    var f := FlagByteOf(b);
    assert b == 8 * (At(f.n, 16) + At(f.z, 8) + At(f.c, 4) + At(f.v, 2) + At(f.q, 1)) + f.low;
  }

  lemma ControlWeights(b: Byte)
    ensures
      var f := ControlByteOf(b);
      b == At(f.i, 128) + At(f.f, 64) + At(f.t, 32) + f.mode
  {
  }

  /** A word written to CPSR: its top byte gives the flags by their weights, its bottom byte the masks, the
      state and the mode. */
  lemma CpsrWritten(c: Core, w: Word)
    ensures
      var d := WriteCpsr(c, PsrOf(w));
      var f, p := d.flags, d.proc;
      var top, bottom := BytesOf(w).b3, BytesOf(w).b0;
      && top == At(f.n, 128) + At(f.z, 64) + At(f.c, 32) + At(f.v, 16) + At(f.q, 8) + top % 8
      && bottom == At(p.irq, 128) + At(p.fiq, 64) + At(f.t, 32) + p.mode
      && p.thumb == c.proc.thumb && d.rb == c.rb && d.high == c.high && d.banks == c.banks && d.pc == c.pc
  {
    FlagWeights(BytesOf(w).b3);
    ControlWeights(BytesOf(w).b0);
  }

  /** MSR to SPSR: each byte of the word comes from the operand exactly if its mask bit is set. */
  lemma SavedStatusBytes(c: Core, mask: FieldMask, value: Word)
    requires HasBank(c.proc.mode)
    ensures
      var before, v := BytesOf(WordOf(ReadSpsr(c))), BytesOf(value);
      BytesOf(WordOf(ReadSpsr(MoveToStatus(c, true, mask, value)))) ==
        Bytes(if mask.flags then v.b3 else before.b3, if mask.status then v.b2 else before.b2,
              if mask.extension then v.b1 else before.b1, if mask.control then v.b0 else before.b0)
  {
    var p, v := ReadSpsr(c), PsrOf(value);
    var merged := Merge(p, mask, v);
    SpsrIsVariable(c, merged);
    BytesAreWords(value, BytesOfPsr(p));
    BytesAreWords(value, BytesOfPsr(merged));
    PsrsAreBytes(BytesOf(value), p);
  }

  /** MSR to CPSR: the flags come from the top byte of the operand if its mask bit is set, and are kept if not.
      What becomes of the mode and the masks is said by `ArmPrograms.StatusWrite`. */
  lemma CpsrFlagsWritten(c: Core, mask: FieldMask, value: Word)
    ensures
      var f := MoveToStatus(c, false, mask, value).flags;
      var top := BytesOf(value).b3;
      if mask.flags then top == At(f.n, 128) + At(f.z, 64) + At(f.c, 32) + At(f.v, 16) + At(f.q, 8) + top % 8
      else f == c.flags.(t := f.t)
  {
    FlagWeights(BytesOf(value).b3);
  }

  /** MRS reads CPSR in any mode; SPSR only with privilege, and without it does nothing. */
  lemma StatusReadInto(c: Core, rd: Register, saved: bool)
    requires KnownMode(c.proc.mode) && rd != PC
    ensures
      var d := MoveFromStatus(c, rd, saved);
      if saved && c.proc.mode == 0x10 then d == c
      else ReadRegister(d, rd) == WordOf(if saved then ReadSpsr(c) else ReadCpsr(c))
  {
    if !(saved && c.proc.mode == 0x10) {
      var w := WordOf(if saved then ReadSpsr(c) else ReadCpsr(c));
      RegistersAreVariables(c, rd, w, rd);
      ReadIgnoresPc(WriteRegister(c, rd, w), ReadRegister(WriteRegister(c, rd, w), PC), rd);
    }
  }

  // ---------------------------------------------------------------------------------------------
  // Exception entry
  // ---------------------------------------------------------------------------------------------

  /** IRQ and FIQ are not taken while their disable bits are set. */
  predicate Taken(c: Core, e: Exception) {
    !(e == IrqLine && c.proc.irq) && !(e == FiqLine && c.proc.fiq)
  }

  /** Every taken exception jumps to its vector; FIQ to that of the data abort. */
  lemma EntryJumps(c: Core, e: Exception, vbar: Word)
    requires Taken(c, e)
    ensures
      Service(c, e, vbar).pc ==
        vbar / 0x20 * 0x20 + (match e
                              case Reset => 0 case UndefinedInstr => 4 case Swi => 8 case PrefetchAbort => 0xC
                              case DataAbort => 0x10 case IrqLine => 0x18 case FiqLine => 0x10)
    ensures e != FiqLine ==> Service(c, e, vbar).pc == ArchVectorAddress(vbar, e)
  {
    assert vbar / 0x20 * 0x20 + 0x20 <= WORD_MOD;
  }

  /** It saves CPSR and the address of the next instruction, or four more after a data abort, IRQ or FIQ, in
      the bank of its mode; reset clears both. All other registers stay. */
  lemma EntrySaves(c: Core, e: Exception, vbar: Word)
    requires Taken(c, e)
    ensures
      var s := Service(c, e, vbar);
      var saved := ReadCpsr(c);
      var b := c.banks;
      && s.rb == c.rb && s.high == c.high
      && s.banks ==
         match e
         case Reset => b.(svc := Bank(b.svc.r13, 0, ZERO_PSR))
         case UndefinedInstr => b.(und := Bank(b.und.r13, c.pc, saved))
         case Swi => b.(svc := Bank(b.svc.r13, c.pc, saved))
         case PrefetchAbort => b.(abt := Bank(b.abt.r13, c.pc, saved))
         case DataAbort => b.(abt := Bank(b.abt.r13, Wrap(c.pc + 4), saved))
         case IrqLine => b.(irq := Bank(b.irq.r13, Wrap(c.pc + 4), saved))
         case FiqLine => b.(fiq := Bank(b.fiq.r13, Wrap(c.pc + 4), saved))
  {
    LinkSaved(c.pc);
  }

  lemma LinkSaved(pc: Word)
    ensures Wrap(pc + 0) == pc
  {
  }

  /** The status that reset saves is the word 0. */
  lemma ZeroStatusWord()
    ensures WordOf(ZERO_PSR) == 0
  {
  }

  /** It enters its mode in ARM state with IRQs disabled, and FIQs too by reset and FIQ; flags stay. */
  lemma EntrySwitches(c: Core, e: Exception, vbar: Word)
    requires Taken(c, e)
    ensures
      var s := Service(c, e, vbar);
      && s.proc.mode == (match e
                         case Reset => 0x13 case UndefinedInstr => 0x1B case Swi => 0x13 case PrefetchAbort => 0x17
                         case DataAbort => 0x17 case IrqLine => 0x12 case FiqLine => 0x11)
      && s.proc.irq && s.proc.fiq == (c.proc.fiq || e == Reset || e == FiqLine) && s.proc.thumb == c.proc.thumb
      && s.flags == c.flags.(t := false)
  {
  }

  /** An exception that is not taken does nothing. */
  lemma MaskedEntryDoesNothing(c: Core, e: Exception, vbar: Word)
    requires !Taken(c, e)
    ensures Service(c, e, vbar) == c
  {
  }

  // ---------------------------------------------------------------------------------------------
  // Results of data processing
  // ---------------------------------------------------------------------------------------------

  /** What the operation makes of the first operand, the second one and the carry flag. */
  ghost predicate IsResult(op: Operation, x: Word, y: Word, cin: bool, r: Word) {
    var carry := if cin then 1 else 0;
    match op
    case OpAdd => r == Wrap(x + y)
    case OpAdc => r == Wrap(x + y + carry)
    case OpSub => r == Wrap(x - y)
    case OpRsb => r == Wrap(y - x)
    case OpSbc => r == Wrap(x - y - 1 + carry)
    case OpRsc => r == Wrap(y - x - 1 + carry)
    case OpAnd => forall k: nat :: Bit(r, k) == (Bit(x, k) && Bit(y, k))
    case OpEor => forall k: nat :: Bit(r, k) == (Bit(x, k) != Bit(y, k))
    case OpOrr => forall k: nat :: Bit(r, k) == (Bit(x, k) || Bit(y, k))
    case OpBic => forall k: nat :: Bit(r, k) == (Bit(x, k) && !Bit(y, k))
  }

  /** C and V that a subtraction x - y sets: C as the architecture's, V too unless y is 0x80000000. */
  predicate SubtractionFlags(x: Word, y: Word, c: bool, v: bool) {
    var arch := AddWithCarry(x, Complement(y), true);
    c == arch.c && (v == arch.v <==> y != 0x8000_0000)
  }

  /** C and V that a subtraction with borrow sets. */
  predicate BorrowFlags(x: Word, y: Word, cin: bool, c: bool, v: bool) {
    var arch := AddWithCarry(x, Complement(y), cin);
    && (c == arch.c <==> cin || x != y)
    && (v == arch.v <==> !cin || y != 0x8000_0000)
  }

  /** The flags after the operation with result r, from those before and the shifter's carry. */
  predicate AreFlags(op: Operation, x: Word, y: Word, f: Flags, carry: bool, r: Word, g: Flags) {
    && g.n == (r >= 0x8000_0000) && g.z == (r == 0) && g.q == f.q && g.t == f.t
    && match op
       case OpAdd => var arch := AddWithCarry(x, y, false); g.c == arch.c && g.v == arch.v
       case OpAdc => var arch := AddWithCarry(x, y, f.c); g.c == arch.c && g.v == arch.v
       case OpSub => SubtractionFlags(x, y, g.c, g.v)
       case OpRsb => SubtractionFlags(y, x, g.c, g.v)
       case OpSbc => BorrowFlags(x, y, f.c, g.c, g.v)
       case OpRsc => BorrowFlags(y, x, f.c, g.c, g.v)
       case _ => g.c == carry && g.v == f.v
  }

  lemma LogicalResultBits(op: Operation, x: Word, y: Word)
    requires op == OpAnd || op == OpEor || op == OpOrr || op == OpBic
    ensures forall k: nat :: Bit(LogicalResult(op, x, y), k) ==
                               if op == OpAnd then Bit(x, k) && Bit(y, k)
                               else if op == OpEor then Bit(x, k) != Bit(y, k)
                               else if op == OpOrr then Bit(x, k) || Bit(y, k)
                               else Bit(x, k) && !Bit(y, k)
  {
    forall k: nat
      ensures Bit(LogicalResult(op, x, y), k) ==
                if op == OpAnd then Bit(x, k) && Bit(y, k)
                else if op == OpEor then Bit(x, k) != Bit(y, k)
                else if op == OpOrr then Bit(x, k) || Bit(y, k)
                else Bit(x, k) && !Bit(y, k)
    {
      BitwiseIsBitByBit(op, x, y, k);
    }
  }

  lemma SubtractionResult(x: Word, y: Word)
    ensures Sub(x, y).value == Wrap(x - y) && SubtractionFlags(x, y, Sub(x, y).c, Sub(x, y).v)
  {
    Difference(x, y);
    SubMatchesIff(x, y);
  }

  lemma BorrowResult(x: Word, y: Word, cin: bool)
    ensures Sbc(x, y, cin).value == Wrap(x - y - 1 + (if cin then 1 else 0))
    ensures BorrowFlags(x, y, cin, Sbc(x, y, cin).c, Sbc(x, y, cin).v)
  {
    SbcMatchesIff(x, y, cin);
    Negation(y);
  }

  lemma SumsTable(op: Operation, x: Word, y: Word, f: Flags, carry: bool)
    requires op == OpAdd || op == OpAdc
    ensures
      var r := Compute(op, x, y, f, carry);
      IsResult(op, x, y, f.c, r.value) && AreFlags(op, x, y, f, carry, r.value, SetFlags(f, r))
  {
    AdcIsAddWithCarry(x, y, if op == OpAdc then f.c else false);
  }

  lemma DifferencesTable(op: Operation, x: Word, y: Word, f: Flags, carry: bool)
    requires op == OpSub || op == OpRsb
    ensures
      var r := Compute(op, x, y, f, carry);
      IsResult(op, x, y, f.c, r.value) && AreFlags(op, x, y, f, carry, r.value, SetFlags(f, r))
  {
    if op == OpSub {
      SubtractionResult(x, y);
    } else {
      SubtractionResult(y, x);
    }
  }

  lemma BorrowsTable(op: Operation, x: Word, y: Word, f: Flags, carry: bool)
    requires op == OpSbc || op == OpRsc
    ensures
      var r := Compute(op, x, y, f, carry);
      IsResult(op, x, y, f.c, r.value) && AreFlags(op, x, y, f, carry, r.value, SetFlags(f, r))
  {
    if op == OpSbc {
      BorrowResult(x, y, f.c);
    } else {
      BorrowResult(y, x, f.c);
    }
  }

  lemma LogicTable(op: Operation, x: Word, y: Word, f: Flags, carry: bool)
    requires op == OpAnd || op == OpEor || op == OpOrr || op == OpBic
    ensures
      var r := Compute(op, x, y, f, carry);
      IsResult(op, x, y, f.c, r.value) && AreFlags(op, x, y, f, carry, r.value, SetFlags(f, r))
  {
    LogicalResultBits(op, x, y);
    assert Compute(op, x, y, f, carry) == Flagged(LogicalResult(op, x, y), carry, f.v);
  }

  /** The table of results and flags is what the operations compute. */
  lemma ComputesTable(op: Operation, x: Word, y: Word, f: Flags, carry: bool)
    ensures
      var r := Compute(op, x, y, f, carry);
      IsResult(op, x, y, f.c, r.value) && AreFlags(op, x, y, f, carry, r.value, SetFlags(f, r))
  {
    if op == OpAdd || op == OpAdc {
      SumsTable(op, x, y, f, carry);
    } else if op == OpSub || op == OpRsb {
      DifferencesTable(op, x, y, f, carry);
    } else if op == OpSbc || op == OpRsc {
      BorrowsTable(op, x, y, f, carry);
    } else {
      LogicTable(op, x, y, f, carry);
    }
  }

  // ---------------------------------------------------------------------------------------------
  // Whole instructions
  // ---------------------------------------------------------------------------------------------

  /** The next instruction is at `next`; of the registers, all but rd and the PC are kept, and so are the
      processor mode and its masks. */
  ghost predicate OnlyWrites(c: Core, d: Core, rd: Register, next: Word) {
    && d.pc == next && ReadRegister(d, PC) == next && d.proc == c.proc
    && forall j: Register :: j != rd && j != PC ==> ReadRegister(d, j) == ReadRegister(c, j)
  }

  /** The start of an instruction moves the PC on and keeps all else. */
  lemma BeginMovesOn(c: Core)
    requires KnownMode(c.proc.mode)
    ensures OnlyWrites(c, Begin(c), PC, Wrap(c.pc + 4)) && Begin(c).flags == c.flags
  {
    var advanced := c.(pc := Wrap(c.pc + 4));
    forall j: Register
      ensures ReadRegister(Begin(c), j) == if j == PC then Wrap(c.pc + 4) else ReadRegister(c, j)
    {
      RegistersAreVariables(advanced, PC, advanced.pc, j);
      ReadIgnoresPc(c, advanced.pc, j);
    }
  }

  /** An instruction whose condition fails does nothing else. */
  lemma AnnulledStep(c: Core, cond: nat, i: Instruction)
    requires KnownMode(c.proc.mode) && !Passes(c, cond)
    ensures OnlyWrites(c, Step(c, cond, i), PC, Wrap(c.pc + 4)) && Step(c, cond, i).flags == c.flags
  {
    BeginMovesOn(c);
  }

  /** Writing a register other than the PC, setting flags, and going on. */
  lemma WriteAndContinue(b: Core, rd: Register, value: Word, g: Flags)
    requires KnownMode(b.proc.mode) && rd != PC && ReadRegister(b, PC) == b.pc
    ensures
      var d := Continue(WriteRegister(b, rd, value).(flags := g));
      OnlyWrites(b, d, rd, b.pc) && ReadRegister(d, rd) == value && d.flags == g
  {
    var w := WriteRegister(b, rd, value);
    var d := Continue(w.(flags := g));
    forall j: Register
      ensures ReadRegister(d, j) == if j == rd then value else ReadRegister(b, j)
    {
      RegistersAreVariables(b, rd, value, j);
      assert ReadRegister(w.(flags := g), j) == ReadRegister(w, j);
      ReadIgnoresPc(w.(flags := g), d.pc, j);
    }
  }

  /** The first operand of an instruction at c.pc; the PC reads 8 ahead for arithmetic, 4 for logic. */
  function OperandOf(c: Core, op: Operation, rn: Register): Word {
    if rn != PC then ReadRegister(c, rn)
    else if op == OpAnd || op == OpEor || op == OpOrr || op == OpBic then Wrap(c.pc + 4)
    else Wrap(c.pc + 8)
  }

  lemma OperandRead(c: Core, op: Operation, rn: Register)
    requires KnownMode(c.proc.mode)
    ensures FirstOperand(Begin(c), op, rn) == OperandOf(c, op, rn)
  {
    BeginMovesOn(c);
    PcOperandMatchesIff(c, op);
  }

  /** A data-processing instruction that is executed: its result, and with S its flags; everything else stays. */
  lemma DataProcessingEffect(c: Core, cond: nat, op: Operation, rd: Register, rn: Register, s: bool, y: Word,
                             carry: bool)
    requires KnownMode(c.proc.mode) && Passes(c, cond) && rd != PC
    ensures
      var d := Step(c, cond, DataProcessing(op, rd, rn, s, y, carry));
      var x := OperandOf(c, op, rn);
      && OnlyWrites(c, d, rd, Wrap(c.pc + 4))
      && IsResult(op, x, y, c.flags.c, ReadRegister(d, rd))
      && if s then AreFlags(op, x, y, c.flags, carry, ReadRegister(d, rd), d.flags) else d.flags == c.flags
  {
    var b := Begin(c);
    var x := OperandOf(c, op, rn);
    BeginMovesOn(c);
    OperandRead(c, op, rn);
    var r := Compute(op, x, y, b.flags, carry);
    ComputesTable(op, x, y, c.flags, carry);
    var g := if s then SetFlags(b.flags, r) else b.flags;
    WriteAndContinue(b, rd, r.value, g);
    DataProcessingSteps(b, op, rd, rn, s, y, carry, r, g);
  }

  /** The instruction's parts, in the order in which it runs them. */
  lemma DataProcessingSteps(b: Core, op: Operation, rd: Register, rn: Register, s: bool, y: Word, carry: bool, r: Alu,
                            g: Flags)
    requires rd != PC && r == Compute(op, FirstOperand(b, op, rn), y, b.flags, carry)
    requires g == if s then SetFlags(b.flags, r) else b.flags
    ensures DataProcess(b, op, rd, rn, s, y, carry) == Continue(WriteRegister(b, rd, r.value).(flags := g))
  {
    var w := WriteRegister(b, rd, r.value);
    assert w.flags == b.flags;
    assert w.(flags := w.flags) == w;
  }

  /** With the PC as destination. Without S the result is the next address. With S and a saved status, CPSR is
      restored besides; in User and System mode the instruction stops before the jump, with only r15 written.
      ADC with S always stops there. */
  lemma JumpEffect(c: Core, cond: nat, op: Operation, rn: Register, s: bool, y: Word, carry: bool) returns (r: Word)
    requires KnownMode(c.proc.mode) && Passes(c, cond)
    requires s ==> KnownMode(ReadSpsr(c).control.mode) || c.proc.mode == 0x10 || c.proc.mode == 0x1F
    ensures IsResult(op, OperandOf(c, op, rn), y, c.flags.c, r)
    ensures
      var d := Step(c, cond, DataProcessing(op, PC, rn, s, y, carry));
      && d.rb == c.rb[15 := r] && d.high == c.high && d.banks == c.banks
      && if !s then d.pc == r && d.flags == c.flags && d.proc == c.proc
         else if op == OpAdc || c.proc.mode == 0x10 || c.proc.mode == 0x1F then
           d.pc == Wrap(c.pc + 4) && d.flags == c.flags && d.proc == c.proc
         else
           var p := ReadSpsr(c);
           && d.pc == r && d.flags == Flags(p.flags.n, p.flags.z, p.flags.c, p.flags.v, p.flags.q, p.control.t)
           && d.proc == Processor(p.control.mode, p.control.f, p.control.i, c.proc.thumb)
  {
    var b := Begin(c);
    OperandRead(c, op, rn);
    var a := Compute(op, OperandOf(c, op, rn), y, b.flags, carry);
    r := a.value;
    PcWritten(c.(pc := Wrap(c.pc + 4)), Wrap(c.pc + 4));
    ComputesTable(op, OperandOf(c, op, rn), y, c.flags, carry);
    JumpSteps(b, op, rn, s, y, carry, a);
    var w := b.(rb := b.rb[15 := r]);
    assert w.rb == c.rb[15 := r];
    JumpOutcome(c, w, r, s, op == OpAdc);
  }

  /** Where the core stands after r15 was written. */
  lemma JumpOutcome(c: Core, w: Core, r: Word, s: bool, adc: bool)
    requires KnownMode(c.proc.mode) && w == c.(pc := Wrap(c.pc + 4), rb := c.rb[15 := r])
    requires s ==> KnownMode(ReadSpsr(c).control.mode) || c.proc.mode == 0x10 || c.proc.mode == 0x1F
    ensures
      var d := if s && (adc || UserBank(c.proc.mode)) then w else if s then Continue(SpsrToCpsr(w)) else Continue(w);
      && d.rb == c.rb[15 := r] && d.high == c.high && d.banks == c.banks
      && if !s then d.pc == r && d.flags == c.flags && d.proc == c.proc
         else if adc || c.proc.mode == 0x10 || c.proc.mode == 0x1F then
           d.pc == Wrap(c.pc + 4) && d.flags == c.flags && d.proc == c.proc
         else
           var p := ReadSpsr(c);
           && d.pc == r && d.flags == Flags(p.flags.n, p.flags.z, p.flags.c, p.flags.v, p.flags.q, p.control.t)
           && d.proc == Processor(p.control.mode, p.control.f, p.control.i, c.proc.thumb)
  {
    PcWritten(w, r);
    if s && HasBank(c.proc.mode) {
      JumpReturns(w, ReadSpsr(c));
    }
  }

  lemma PcWritten(b: Core, value: Word)
    requires KnownMode(b.proc.mode)
    ensures WriteRegister(b, PC, value) == b.(rb := b.rb[15 := value])
    ensures ReadRegister(b, PC) == b.rb[15]
  {
  }

  lemma JumpSteps(b: Core, op: Operation, rn: Register, s: bool, y: Word, carry: bool, a: Alu)
    requires KnownMode(b.proc.mode) && a == Compute(op, FirstOperand(b, op, rn), y, b.flags, carry)
    ensures
      var w := b.(rb := b.rb[15 := a.value]);
      DataProcess(b, op, PC, rn, s, y, carry) ==
        if s && (op == OpAdc || UserBank(b.proc.mode)) then w
        else if s then Continue(SpsrToCpsr(w)) else Continue(w)
  {
    PcWritten(b, a.value);
  }

  lemma JumpReturns(w: Core, p: Psr)
    requires HasBank(w.proc.mode) && p == BankOf(w.banks, w.proc.mode).spsr && KnownMode(p.control.mode)
    ensures
      var d := Continue(SpsrToCpsr(w));
      && d.pc == w.rb[15] && d.rb == w.rb && d.high == w.high && d.banks == w.banks
      && d.flags == Flags(p.flags.n, p.flags.z, p.flags.c, p.flags.v, p.flags.q, p.control.t)
      && d.proc == Processor(p.control.mode, p.control.f, p.control.i, w.proc.thumb)
  {
    PcWritten(SpsrToCpsr(w), 0);
  }

  /** MOV and MVN to a register: the operand or its complement; with S the flags N, Z and C. */
  lemma MoveEffect(c: Core, cond: nat, inverted: bool, rd: Register, s: bool, y: Word, carry: bool)
    requires KnownMode(c.proc.mode) && Passes(c, cond) && rd != PC
    ensures
      var d := Step(c, cond, if inverted then MoveNot(rd, s, y, carry) else Move(rd, s, y, carry));
      var r := if inverted then 0xFFFF_FFFF - y else y;
      && OnlyWrites(c, d, rd, Wrap(c.pc + 4)) && ReadRegister(d, rd) == r
      && d.flags == if s then c.flags.(n := r >= 0x8000_0000, z := r == 0, c := carry) else c.flags
  {
    var b := Begin(c);
    var r: Word := if inverted then 0xFFFF_FFFF - y else y;
    BeginMovesOn(c);
    var g := if s then b.flags.(n := r >= 0x8000_0000, z := r == 0, c := carry) else b.flags;
    WriteAndContinue(b, rd, r, g);
    MoveSteps(b, inverted, rd, s, y, carry, r, g);
  }

  lemma MoveSteps(b: Core, inverted: bool, rd: Register, s: bool, y: Word, carry: bool, r: Word, g: Flags)
    requires rd != PC && r == if inverted then 0xFFFF_FFFF - y else y
    requires g == if s then b.flags.(n := r >= 0x8000_0000, z := r == 0, c := carry) else b.flags
    ensures Execute(b, if inverted then MoveNot(rd, s, y, carry) else Move(rd, s, y, carry))
            == Continue(WriteRegister(b, rd, r).(flags := g))
  {
    if inverted {
      MoveNotSteps(b, rd, s, y, carry, g);
    } else {
      FlagsBeforeWrite(b, rd, y, g);
      assert b.(flags := b.flags) == b;
    }
  }

  lemma MoveNotSteps(b: Core, rd: Register, s: bool, y: Word, carry: bool, g: Flags)
    requires rd != PC
    requires g == if s then b.flags.(n := 0xFFFF_FFFF - y >= 0x8000_0000, z := 0xFFFF_FFFF - y == 0, c := carry)
                  else b.flags
    ensures MoveNotTo(b, rd, s, y, carry) == Continue(WriteRegister(b, rd, 0xFFFF_FFFF - y).(flags := g))
  {
    var w := WriteRegister(b, rd, Complement(y));
    assert w.flags == b.flags && w.(flags := w.flags) == w;
  }

  lemma FlagsBeforeWrite(b: Core, rd: Register, value: Word, g: Flags)
    ensures WriteRegister(b.(flags := g), rd, value) == WriteRegister(b, rd, value).(flags := g)
  {
  }

  /** MOV to the PC. Without S it jumps. With S it does nothing at all in User and System mode; with a saved
      status it jumps and returns that, but with N, Z and C of the move. */
  lemma MoveToPcEffect(c: Core, cond: nat, s: bool, y: Word, carry: bool)
    requires KnownMode(c.proc.mode) && Passes(c, cond)
    requires s && HasBank(c.proc.mode) ==> KnownMode(ReadSpsr(c).control.mode)
    ensures
      var d := Step(c, cond, Move(PC, s, y, carry));
      if s && (c.proc.mode == 0x10 || c.proc.mode == 0x1F) then d == Begin(c)
      else
        && d.pc == y && d.rb == c.rb[15 := y] && d.high == c.high && d.banks == c.banks
        && if !s then d.flags == c.flags && d.proc == c.proc
           else
             var p := ReadSpsr(c);
             && d.flags == Flags(y >= 0x8000_0000, y == 0, carry, p.flags.v, p.flags.q, p.control.t)
             && d.proc == Processor(p.control.mode, p.control.f, p.control.i, c.proc.thumb)
  {
    var b := Begin(c);
    PcWritten(c.(pc := Wrap(c.pc + 4)), Wrap(c.pc + 4));
    if !s {
      PcWritten(b, y);
      PcWritten(b.(rb := b.rb[15 := y]), y);
      assert b.rb[15 := y] == c.rb[15 := y];
    } else if HasBank(c.proc.mode) {
      var p := ReadSpsr(c);
      var returned := WriteCpsr(b, p);
      var flagged := returned.(flags := returned.flags.(n := Negative(y), z := y == 0, c := carry));
      PcWritten(flagged, y);
      PcWritten(flagged.(rb := flagged.rb[15 := y]), y);
      assert b.rb[15 := y] == c.rb[15 := y];
    }
  }

  /** MVN to the PC without S jumps to the complement; CLZ with the PC does nothing in User and System mode. */
  lemma OtherPcEffects(c: Core, cond: nat, y: Word, carry: bool, rd: Register, rm: Register)
    requires KnownMode(c.proc.mode) && Passes(c, cond)
    ensures
      var d := Step(c, cond, MoveNot(PC, false, y, carry));
      d.pc == 0xFFFF_FFFF - y && d.rb == c.rb[15 := 0xFFFF_FFFF - y] && d.flags == c.flags && d.proc == c.proc
    ensures
      (rd == PC || rm == PC) && (c.proc.mode == 0x10 || c.proc.mode == 0x1F) ==>
        Step(c, cond, CountZeros(rd, rm)) == Begin(c)
  {
    var b := Begin(c);
    PcWritten(c.(pc := Wrap(c.pc + 4)), Wrap(c.pc + 4));
    PcWritten(b, 0xFFFF_FFFF - y);
    PcWritten(b.(rb := b.rb[15 := 0xFFFF_FFFF - y]), 0);
    assert b.rb[15 := 0xFFFF_FFFF - y] == c.rb[15 := 0xFFFF_FFFF - y];
  }

  /** CMP, CMN, TST and TEQ only set flags, as SUB, ADD, AND and EOR with result r would. */
  lemma CompareEffect(c: Core, cond: nat, op: Operation, rn: Register, y: Word, carry: bool, i: Instruction)
    returns (r: Word)
    requires KnownMode(c.proc.mode) && Passes(c, cond)
    requires || (op == OpSub && i == Compare(rn, y)) || (op == OpAdd && i == CompareNegative(rn, y))
             || (op == OpAnd && i == Test(rn, y, carry)) || (op == OpEor && i == TestEqual(rn, y, carry))
    ensures
      var d := Step(c, cond, i);
      var x := if rn == PC then Wrap(c.pc + 4) else ReadRegister(c, rn);
      && OnlyWrites(c, d, PC, Wrap(c.pc + 4))
      && IsResult(op, x, y, c.flags.c, r) && AreFlags(op, x, y, c.flags, carry, r, d.flags)
  {
    var b := Begin(c);
    BeginMovesOn(c);
    var x := ReadRegister(b, rn);
    var a := Compute(op, x, y, c.flags, carry);
    r := a.value;
    ComputesTable(op, x, y, c.flags, carry);
    CompareSteps(b, op, rn, y, carry, i, x, a);
    FlagsOnlyKeeps(b, a);
  }

  lemma CompareSteps(b: Core, op: Operation, rn: Register, y: Word, carry: bool, i: Instruction, x: Word, a: Alu)
    requires x == ReadRegister(b, rn) && a == Compute(op, x, y, b.flags, carry)
    requires || (op == OpSub && i == Compare(rn, y)) || (op == OpAdd && i == CompareNegative(rn, y))
             || (op == OpAnd && i == Test(rn, y, carry)) || (op == OpEor && i == TestEqual(rn, y, carry))
    ensures Execute(b, i) == FlagsOnly(b, a)
  {
  }

  lemma FlagsOnlyKeeps(b: Core, r: Alu)
    ensures FlagsOnly(b, r).flags == SetFlags(b.flags, r) && FlagsOnly(b, r).proc == b.proc
    ensures FlagsOnly(b, r).pc == ReadRegister(b, PC)
    ensures forall j: Register :: ReadRegister(FlagsOnly(b, r), j) == ReadRegister(b, j)
  {
  }

  /** A branch goes to its own address plus 8 plus four times the signed 24-bit offset; BL leaves the address of
      the next instruction in LR. */
  lemma BranchEffect(c: Core, cond: nat, link: bool, offset: Offset)
    requires KnownMode(c.proc.mode) && Passes(c, cond)
    ensures
      var d := Step(c, cond, Branch(link, offset));
      var distance := if offset < 0x80_0000 then 4 * offset else 4 * offset - 0x400_0000;
      && OnlyWrites(c, d, if link then 14 else PC, Wrap(c.pc + 8 + distance)) && d.flags == c.flags
      && (link ==> ReadRegister(d, 14) == Wrap(c.pc + 4))
  {
    var b := Begin(c);
    BeginMovesOn(c);
    var back := Wrap(c.pc + 4);
    var linked := if link then WriteRegister(b, LR, back) else b;
    forall j: Register
      ensures ReadRegister(linked, j) == if link && j == LR then back else ReadRegister(b, j)
    {
      RegistersAreVariables(b, LR, back, j);
    }
    var target := Wrap(back + 4 + Distance(offset));
    var w := WriteRegister(linked, PC, target);
    forall j: Register
      ensures ReadRegister(Continue(w), j) == if j == PC then target else ReadRegister(linked, j)
    {
      RegistersAreVariables(linked, PC, target, j);
      ReadIgnoresPc(w, ReadRegister(w, PC), j);
    }
    TargetSum(c.pc, Distance(offset));
  }

  lemma TargetSum(pc: Word, distance: int)
    ensures Wrap(Wrap(pc + 4) + 4 + distance) == Wrap(pc + 8 + distance)
  {
  }

  /** CLZ into a register: 32 for zero, and otherwise the number of zeros above the highest one. */
  lemma CountZerosEffect(c: Core, cond: nat, rd: Register, rm: Register)
    requires KnownMode(c.proc.mode) && Passes(c, cond) && rd != PC && rm != PC
    ensures
      var d := Step(c, cond, CountZeros(rd, rm));
      var x, r := ReadRegister(c, rm), ReadRegister(d, rd);
      && OnlyWrites(c, d, rd, Wrap(c.pc + 4)) && d.flags == c.flags
      && (if x == 0 then r == 32 else r < 32 && Pow2(31 - r) <= x < 2 * Pow2(31 - r))
  {
    var b := Begin(c);
    BeginMovesOn(c);
    var n := LeadingZeros(ReadRegister(b, rm));
    WriteAndContinue(b, rd, n, b.flags);
    CountZerosSteps(b, rd, rm, n);
  }

  lemma CountZerosSteps(b: Core, rd: Register, rm: Register, n: Word)
    requires rd != PC && rm != PC && n == LeadingZeros(ReadRegister(b, rm))
    ensures Execute(b, CountZeros(rd, rm)) == Continue(WriteRegister(b, rd, n).(flags := b.flags))
  {
    var w := WriteRegister(b, rd, n);
    assert w.(flags := b.flags) == w;
  }

  // ---------------------------------------------------------------------------------------------
  // Conditions on single flags
  // ---------------------------------------------------------------------------------------------

  /** After ADDS: MI and PL tell the sign of the result, CS and CC the unsigned overflow, VS and VC the signed
      one. Condition 14 always holds and 15 never. */
  lemma AddedConditions(x: Word, y: Word)
    ensures ExecutesAfter(4, Add(x, y)) <==> Wrap(x + y) >= 0x8000_0000
    ensures ExecutesAfter(5, Add(x, y)) <==> Wrap(x + y) < 0x8000_0000
    ensures ExecutesAfter(2, Add(x, y)) <==> x + y >= 0x1_0000_0000
    ensures ExecutesAfter(3, Add(x, y)) <==> x + y < 0x1_0000_0000
    ensures ExecutesAfter(6, Add(x, y)) <==> !(-0x8000_0000 <= Signed(x) + Signed(y) < 0x8000_0000)
    ensures ExecutesAfter(7, Add(x, y)) <==> -0x8000_0000 <= Signed(x) + Signed(y) < 0x8000_0000
    ensures ExecutesAfter(14, Add(x, y)) && !ExecutesAfter(15, Add(x, y))
  {
    WrapOnce(x + y);
    AdcIsAddWithCarry(x, y, false);
  }
}
