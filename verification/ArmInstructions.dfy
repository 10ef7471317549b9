/**
 Instruction steps of armv7/src/arm_isa.cpp that compute in registers and status words: the condition
 check and PC increment, data processing, comparisons, moves, CLZ, MRS, MSR and branches.

 `op2` and `carry` are the shifter's result and carry (`dpi_shiftop`, `dpi_shiftopcarry`); they and the
 operand of MSR are parameters of the instruction.
 */
module ArmInstructions {
  import opened Words
  import opened ArmAlu
  import opened ArmCores

  datatype Operation = OpAdc | OpAdd | OpSub | OpSbc | OpRsb | OpRsc | OpAnd | OpEor | OpOrr | OpBic

  /** The four bytes of a status word that MSR writes. */
  datatype FieldMask = FieldMask(control: bool, extension: bool, status: bool, flags: bool)

  type Offset = x: int | 0 <= x < 0x100_0000

  datatype Instruction =
    | DataProcessing(op: Operation, rd: Register, rn: Register, s: bool, op2: Word, carry: bool)
    | Move(rd: Register, s: bool, op2: Word, carry: bool)
    | MoveNot(rd: Register, s: bool, op2: Word, carry: bool)
    | Compare(rn: Register, op2: Word)
    | CompareNegative(rn: Register, op2: Word)
    | Test(rn: Register, op2: Word, carry: bool)
    | TestEqual(rn: Register, op2: Word, carry: bool)
    | CountZeros(rd: Register, rm: Register)
    | StatusToRegister(rd: Register, saved: bool)
    | RegisterToStatus(saved: bool, mask: FieldMask, value: Word)
    | Branch(link: bool, offset: Offset)

  // ---------------------------------------------------------------------------------------------
  // Results
  // ---------------------------------------------------------------------------------------------

  predicate Logical(op: Operation) {
    op == OpAnd || op == OpEor || op == OpOrr || op == OpBic
  }

  predicate LogicalBit(op: Operation, x: bool, y: bool) {
    if op == OpAnd then x && y else if op == OpEor then x != y else if op == OpOrr then x || y else x && !y
  }

  /** The bitwise result. */
  function Bitwise(op: Operation, x: nat, y: nat): nat
    decreases x + y
  {
    if x == 0 && y == 0 then 0
    else Weighted(LogicalBit(op, x % 2 == 1, y % 2 == 1), 1) + 2 * Bitwise(op, x / 2, y / 2)
  }

  /** It is no wider than its operands. */
  lemma {:induction false} BitwiseWidth(op: Operation, x: nat, y: nat, n: nat)
    requires x < Pow2(n) && y < Pow2(n)
    ensures Bitwise(op, x, y) < Pow2(n)
    decreases x + y
  {
    if x + y > 0 {
      BitwiseWidth(op, x / 2, y / 2, n - 1);
    }
  }

  /** Halving the result is halving the operands. */
  lemma BitwiseHalves(op: Operation, x: nat, y: nat)
    ensures Bitwise(op, x, y) / 2 == Bitwise(op, x / 2, y / 2)
    ensures (Bitwise(op, x, y) % 2 == 1) == LogicalBit(op, x % 2 == 1, y % 2 == 1)
  {
    PeelBit(LogicalBit(op, x % 2 == 1, y % 2 == 1), Bitwise(op, x / 2, y / 2));
  }

  lemma PeelBit(on: bool, x: nat)
    ensures (Weighted(on, 1) + 2 * x) / 2 == x && ((Weighted(on, 1) + 2 * x) % 2 == 1) == on
  {
  }

  lemma {:induction false} BitwiseShifts(op: Operation, x: nat, y: nat, k: nat)
    ensures Shr(Bitwise(op, x, y), k) == Bitwise(op, Shr(x, k), Shr(y, k))
  {
    if k > 0 {
      BitwiseShifts(op, x, y, k - 1);
      BitwiseHalves(op, Shr(x, k - 1), Shr(y, k - 1));
    }
  }

  /** Each bit of the result is the operation on the operands' bits. */
  lemma BitwiseIsBitByBit(op: Operation, x: nat, y: nat, k: nat)
    ensures Bit(Bitwise(op, x, y), k) == LogicalBit(op, Bit(x, k), Bit(y, k))
  {
    BitwiseShifts(op, x, y, k);
    BitwiseHalves(op, Shr(x, k), Shr(y, k));
  }

  function LogicalResult(op: Operation, x: Word, y: Word): Word {
    Pow2Of31();
    BitwiseWidth(op, x, y, 32);
    Bitwise(op, x, y)
  }

  /** Result and flags. RSB and RSC exchange the operands of SUB and SBC; the logical operations take C from
      the shifter and keep V. */
  function Compute(op: Operation, x: Word, y: Word, flags: Flags, carry: bool): Alu {
    match op
    case OpAdc => Adc(x, y, flags.c)
    case OpAdd => Add(x, y)
    case OpSub => Sub(x, y)
    case OpSbc => Sbc(x, y, flags.c)
    case OpRsb => Sub(y, x)
    case OpRsc => Sbc(y, x, flags.c)
    case _ => Flagged(LogicalResult(op, x, y), carry, flags.v)
  }

  function SetFlags(f: Flags, r: Alu): Flags {
    f.(n := r.n, z := r.z, c := r.c, v := r.v)
  }

  /** A PC operand of the arithmetic instructions is one word further on. */
  function FirstOperand(c: Core, op: Operation, rn: Register): Word {
    if rn == PC && !Logical(op) then Wrap(ReadRegister(c, rn) + 4) else ReadRegister(c, rn)
  }

  /** What follows the write of the result: with S and Rd = PC the saved status returns, unless the mode has
      none, when the instruction stops short; with S alone the flags are set. */
  function Conclude(c: Core, rd: Register, s: bool, r: Alu): Core {
    if s && rd == PC then
      if UserBank(c.proc.mode) then c else Continue(SpsrToCpsr(c))
    else if s then Continue(c.(flags := SetFlags(c.flags, r)))
    else Continue(c)
  }

  /** ADC alone does not return from exceptions. */
  function DataProcess(c: Core, op: Operation, rd: Register, rn: Register, s: bool, op2: Word, carry: bool): Core {
    var r := Compute(op, FirstOperand(c, op, rn), op2, c.flags, carry);
    var w := WriteRegister(c, rd, r.value);
    if op == OpAdc && s && rd == PC then w else Conclude(w, rd, s, r)
  }

  /** MOV sets N, Z and C even after the saved status has returned. */
  function MoveTo(c: Core, rd: Register, s: bool, op2: Word, carry: bool): Core {
    if s && rd == PC && UserBank(c.proc.mode) then c
    else
      var returned := if s && rd == PC then SpsrToCpsr(c) else c;
      var flagged := if s then returned.(flags := returned.flags.(n := Negative(op2), z := op2 == 0, c := carry))
                     else returned;
      Continue(WriteRegister(flagged, rd, op2))
  }

  function MoveNotTo(c: Core, rd: Register, s: bool, op2: Word, carry: bool): Core {
    var r := Flagged(Complement(op2), carry, c.flags.v);
    Conclude(WriteRegister(c, rd, r.value), rd, s, r)
  }

  function FlagsOnly(c: Core, r: Alu): Core {
    Continue(c.(flags := SetFlags(c.flags, r)))
  }

  /** The number of zero bits above the highest one. */
  function LeadingZeros(x: Word): (r: nat)
    ensures x == 0 <==> r == 32
    ensures x != 0 ==> r < 32 && Pow2(31 - r) <= x < 2 * Pow2(31 - r)
  {
    Pow2Of31();
    if x == 0 then 32 else 31 - HighestBit(x, 31)
  }

  /** The position of the highest one, looked for from bit i down. */
  function HighestBit(x: Word, i: nat): (r: nat)
    requires 0 < x < 2 * Pow2(i)
    ensures r <= i && Pow2(r) <= x < 2 * Pow2(r)
  {
    if x >= Pow2(i) then i else HighestBit(x, i - 1)
  }

  function CountZerosOf(c: Core, rd: Register, rm: Register): Core {
    if (rd == PC || rm == PC) && UserBank(c.proc.mode) then c
    else
      var returned := if rd == PC || rm == PC then SpsrToCpsr(c) else c;
      Continue(WriteRegister(returned, rd, LeadingZeros(ReadRegister(returned, rm))))
  }

  function MoveFromStatus(c: Core, rd: Register, saved: bool): Core {
    if rd == PC || (saved && !Privileged(c)) then c
    else Continue(WriteRegister(c, rd, WordOf(if saved then ReadSpsr(c) else ReadCpsr(c))))
  }

  function Merge(p: Psr, mask: FieldMask, v: Psr): Psr {
    Psr(if mask.flags then v.flags else p.flags, if mask.status then v.status else p.status,
        if mask.extension then v.extension else p.extension, if mask.control then v.control else p.control)
  }

  /** Unprivileged code reaches only the flags byte of CPSR. */
  function MoveToStatus(c: Core, saved: bool, mask: FieldMask, value: Word): Core {
    var v := PsrOf(value);
    if saved then WriteSpsr(c, Merge(ReadSpsr(c), mask, v))
    else WriteCpsr(c, Merge(ReadCpsr(c), if Privileged(c) then mask else FieldMask(false, false, false, mask.flags), v))
  }

  /** The 26-bit signed branch distance. */
  function Distance(offset: Offset): int {
    if offset >= 0x80_0000 then 4 * (offset - 0x100_0000) else 4 * offset
  }

  function BranchTo(c: Core, link: bool, offset: Offset): Core {
    var linked := if link then WriteRegister(c, LR, ReadRegister(c, PC)) else c;
    Continue(WriteRegister(linked, PC, Wrap(ReadRegister(linked, PC) + 4 + Distance(offset))))
  }

  function Execute(c: Core, i: Instruction): Core {
    match i
    case DataProcessing(op, rd, rn, s, op2, carry) => DataProcess(c, op, rd, rn, s, op2, carry)
    case Move(rd, s, op2, carry) => MoveTo(c, rd, s, op2, carry)
    case MoveNot(rd, s, op2, carry) => MoveNotTo(c, rd, s, op2, carry)
    case Compare(rn, op2) => FlagsOnly(c, Sub(ReadRegister(c, rn), op2))
    case CompareNegative(rn, op2) => FlagsOnly(c, Add(ReadRegister(c, rn), op2))
    case Test(rn, op2, carry) =>
      FlagsOnly(c, Flagged(LogicalResult(OpAnd, ReadRegister(c, rn), op2), carry, c.flags.v))
    case TestEqual(rn, op2, carry) =>
      FlagsOnly(c, Flagged(LogicalResult(OpEor, ReadRegister(c, rn), op2), carry, c.flags.v))
    case CountZeros(rd, rm) => CountZerosOf(c, rd, rm)
    case StatusToRegister(rd, saved) => MoveFromStatus(c, rd, saved)
    case RegisterToStatus(saved, mask, value) => MoveToStatus(c, saved, mask, value)
    case Branch(link, offset) => BranchTo(c, link, offset)
  }

  /** The PC increment that starts every instruction. */
  function Begin(c: Core): Core {
    var advanced := c.(pc := Wrap(c.pc + 4));
    WriteRegister(advanced, PC, advanced.pc)
  }

  predicate Passes(c: Core, cond: nat) {
    Executes(cond, c.flags.n, c.flags.z, c.flags.c, c.flags.v)
  }

  /** A whole instruction; one whose condition fails is annulled after the PC increment. */
  function Step(c: Core, cond: nat, i: Instruction): Core {
    if Passes(c, cond) then Execute(Begin(c), i) else Begin(c)
  }

  // ---------------------------------------------------------------------------------------------
  // The instructions as the original runs them
  // ---------------------------------------------------------------------------------------------

  method RunBegin(cpu: Cpu, cond: nat) returns (annulled: bool)
    modifies cpu
    ensures cpu.View() == Begin(old(cpu.View()))
    ensures annulled <==> !Passes(old(cpu.View()), cond)
  {
    var f := cpu.flags;
    var execute := Executes(cond, f.n, f.z, f.c, f.v);
    cpu.pc := Wrap(cpu.pc + 4);
    cpu.BypassWrite(PC, cpu.pc);
    annulled := !execute;
  }

  method RunConclude(cpu: Cpu, rd: Register, s: bool, r: Alu)
    modifies cpu
    ensures cpu.View() == Conclude(old(cpu.View()), rd, s, r)
  {
    if s && rd == PC {
      if UserBank(cpu.proc.mode) {
        return;
      }
      cpu.SavedToStatus();
    } else if s {
      cpu.flags := cpu.flags.(n := r.n, z := r.z);
      cpu.flags := cpu.flags.(c := r.c, v := r.v);
    }
    cpu.EndInstruction();
  }

  method RunDataProcess(cpu: Cpu, op: Operation, rd: Register, rn: Register, s: bool, op2: Word, carry: bool)
    modifies cpu
    ensures cpu.View() == DataProcess(old(cpu.View()), op, rd, rn, s, op2, carry)
  {
    var a := cpu.BypassRead(rn);
    if rn == PC && !Logical(op) {
      a := Wrap(a as int + 4);
    }
    var r := Compute(op, a, op2, cpu.flags, carry);
    cpu.BypassWrite(rd, r.value);
    if op == OpAdc && s && rd == PC {
      return;
    }
    RunConclude(cpu, rd, s, r);
  }

  method RunMove(cpu: Cpu, rd: Register, s: bool, op2: Word, carry: bool)
    modifies cpu
    ensures cpu.View() == MoveTo(old(cpu.View()), rd, s, op2, carry)
  {
    if s && rd == PC {
      if UserBank(cpu.proc.mode) {
        return;
      }
      cpu.SavedToStatus();
    }
    if s {
      cpu.flags := cpu.flags.(n := Negative(op2));
      cpu.flags := cpu.flags.(z := op2 == 0);
      cpu.flags := cpu.flags.(c := carry);
    }
    cpu.BypassWrite(rd, op2);
    cpu.EndInstruction();
  }

  method RunMoveToStatus(cpu: Cpu, saved: bool, mask: FieldMask, value: Word)
    modifies cpu
    ensures cpu.View() == MoveToStatus(old(cpu.View()), saved, mask, value)
  {
    var v := PsrOf(value);
    var before := cpu.View();
    var res := if saved then ReadSpsr(before) else ReadCpsr(before);
    if saved || Privileged(before) {
      if mask.control {
        res := res.(control := v.control);
      }
      if mask.extension {
        res := res.(extension := v.extension);
      }
      if mask.status {
        res := res.(status := v.status);
      }
    }
    if mask.flags {
      res := res.(flags := v.flags);
    }
    if saved {
      cpu.WriteSaved(res);
    } else {
      cpu.WriteStatus(res);
    }
  }

  /** The loop of CLZ, from bit 31 down to the first set bit. */
  method CountLeadingZeros(x: Word) returns (r: nat)
    ensures r == LeadingZeros(x)
  {
    if x == 0 {
      return 32;
    }
    Pow2Of31();
    var i := 31;
    while x < Pow2(i)
      invariant 0 <= i < 32 && x < 2 * Pow2(i) && HighestBit(x, i) == HighestBit(x, 31)
      decreases i
    {
      i := i - 1;
    }
    r := 31 - i;
  }

  // ---------------------------------------------------------------------------------------------
  // Status words
  // ---------------------------------------------------------------------------------------------

  /** A written saved status is read back. */
  lemma SpsrIsVariable(c: Core, p: Psr)
    requires HasBank(c.proc.mode)
    ensures ReadSpsr(WriteSpsr(c, p)) == p && WriteSpsr(c, p).proc == c.proc
  {
  }

  /** In a mode with a saved status, MSR to SPSR replaces exactly the bytes its mask selects, and MRS reads
      the word back. */
  lemma SavedStatusReadBack(c: Core, mask: FieldMask, value: Word, rd: Register)
    requires HasBank(c.proc.mode) && rd != PC
    ensures
      var after := MoveToStatus(c, true, mask, value);
      ReadRegister(MoveFromStatus(after, rd, true), rd) == WordOf(Merge(ReadSpsr(c), mask, PsrOf(value)))
  {
    var merged := Merge(ReadSpsr(c), mask, PsrOf(value));
    SpsrIsVariable(c, merged);
    StatusRead(WriteSpsr(c, merged), rd, WordOf(merged));
  }

  lemma StatusRead(c: Core, rd: Register, w: Word)
    requires HasBank(c.proc.mode) && rd != PC && w == WordOf(ReadSpsr(c))
    ensures ReadRegister(MoveFromStatus(c, rd, true), rd) == w
  {
    RegistersAreVariables(c, rd, w, rd);
    var written := WriteRegister(c, rd, w);
    assert MoveFromStatus(c, rd, true) == Continue(written);
    ReadIgnoresPc(written, Continue(written).pc, rd);
  }

  lemma ReadIgnoresPc(c: Core, pc: Word, k: Register)
    ensures ReadRegister(c.(pc := pc), k) == ReadRegister(c, k)
  {
  }

  /** MRS then MSR of the whole word in a privileged mode leaves CPSR as it was. */
  lemma StatusWrittenBack(c: Core, value: Word)
    requires Privileged(c) && value == WordOf(ReadCpsr(c))
    ensures ReadCpsr(MoveToStatus(c, false, FieldMask(true, true, true, true), value)) == ReadCpsr(c)
  {
    PsrsAreWords(value, ReadCpsr(c));
  }

  // ---------------------------------------------------------------------------------------------
  // The PC as an operand
  // ---------------------------------------------------------------------------------------------

  /** In the architecture the PC reads as the address of the instruction plus 8. The arithmetic operations
      see that; the logical ones and the comparisons see the address plus 4. */
  lemma PcOperandMatchesIff(c: Core, op: Operation)
    requires KnownMode(c.proc.mode)
    ensures FirstOperand(Begin(c), op, PC) == Wrap(c.pc + 8) <==> !Logical(op)
    ensures ReadRegister(Begin(c), PC) == Wrap(c.pc + 4) != Wrap(c.pc + 8)
  {
    var advanced := c.(pc := Wrap(c.pc + 4));
    RegistersAreVariables(advanced, PC, advanced.pc, PC);
    assert Wrap(Wrap(c.pc + 4) + 4) == Wrap(c.pc + 8);
  }

  // ---------------------------------------------------------------------------------------------
  // Comparisons decide
  // ---------------------------------------------------------------------------------------------

  /** An instruction after CMP is annulled or not by the relation of the operands: EQ, NE, HS, LO, HI and LS
      by the unsigned one for all operands, GE, LT, GT and LE by the signed one unless 0x80000000 is compared
      with. A PC operand is one instruction behind the architecture's. */
  lemma ComparisonDecides(c: Core, rn: Register, op2: Word)
    ensures
      var x := ReadRegister(c, rn);
      var d := Execute(c, Compare(rn, op2));
      && (Passes(d, 0) <==> x == op2) && (Passes(d, 1) <==> x != op2)
      && (Passes(d, 2) <==> x >= op2) && (Passes(d, 3) <==> x < op2)
      && (Passes(d, 8) <==> x > op2) && (Passes(d, 9) <==> x <= op2)
      && (op2 != SIGN_BIT ==>
            && (Passes(d, 10) <==> Signed(x) >= Signed(op2)) && (Passes(d, 11) <==> Signed(x) < Signed(op2))
            && (Passes(d, 12) <==> Signed(x) > Signed(op2)) && (Passes(d, 13) <==> Signed(x) <= Signed(op2)))
  {
    var x := ReadRegister(c, rn);
    UnsignedConditions(x, op2);
    SignedConditions(x, op2);
    ConditionsOf(c, Sub(x, op2));
  }

  lemma ConditionsOf(c: Core, r: Alu)
    ensures forall cond: nat :: Passes(FlagsOnly(c, r), cond) <==> ExecutesAfter(cond, r)
  {
  }
}
