/**
 Programs: runs of the modelled instructions, and what they cannot do from User mode
 (armv7/src/arm_isa.cpp:326-399, 1702-1705, 2503-2506, 3262-3374, armv7/src/arm_interrupts.cpp:118-130).
 */
module ArmPrograms {
  import opened Words
  import opened ArmAlu
  import opened ArmCores
  import opened ArmInstructions
  import opened ArmBlocks

  datatype Command =
    | Single(i: Instruction)
    | Store(f: Form, rn: Register, list: RegisterList, user: bool)
    | Load(f: Form, rn: Register, list: RegisterList, user: bool)
    // Every other instruction that is not an exception: some registers through `bypass_write`, the flags,
    // the PC and memory, with any values.
    | Effect(writes: seq<(Register, Word)>, flags: Flags, pc: Word, memory: Memory)

  datatype Machine = Machine(core: Core, memory: Memory)

  datatype Conditional = Conditional(cond: nat, command: Command)

  function WriteAll(c: Core, writes: seq<(Register, Word)>): Core {
    if writes == [] then c
    else
      var n := |writes| - 1;
      WriteRegister(WriteAll(c, writes[..n]), writes[n].0, writes[n].1)
  }

  function Settle(started: Machine, o: BlockResult): Option<Machine> {
    match o
    case Annulled => Some(started)
    case Aborted => None
    case Completed(core, memory) => Some(Machine(core, memory))
  }

  /** One instruction; None when it ends the simulation. */
  function Perform(m: Machine, s: Conditional): Option<Machine> {
    var started := m.(core := Begin(m.core));
    if !Passes(m.core, s.cond) then Some(started)
    else
      match s.command
      case Single(i) => Some(started.(core := Execute(started.core, i)))
      case Store(f, rn, list, user) => Settle(started, StoreMultiple(started.core, m.memory, f, rn, list, user))
      case Load(f, rn, list, user) => Settle(started, LoadMultiple(started.core, m.memory, f, rn, list, user))
      case Effect(writes, flags, pc, memory) =>
        Some(Machine(WriteAll(started.core, writes).(flags := flags, pc := pc), memory))
  }

  function RunProgram(m: Machine, program: seq<Conditional>): Option<Machine>
    decreases |program|
  {
    if program == [] then Some(m)
    else
      match Perform(m, program[0])
      case None => None
      case Some(n) => RunProgram(n, program[1..])
  }

  /** Mode, interrupt masks and all banked registers and saved statuses are the same. */
  predicate SamePrivilegedState(c: Core, d: Core) {
    c.proc == d.proc && c.banks == d.banks && c.high == d.high
  }

  lemma UserWrite(c: Core, k: Register, value: Word)
    requires c.proc.mode == USER
    ensures WriteRegister(c, k, value) == c.(rb := c.rb[k := value])
    ensures SamePrivilegedState(c, WriteRegister(c, k, value))
    ensures SpsrToCpsr(c) == c
  {
  }

  lemma UserConclude(c: Core, rd: Register, s: bool, r: Alu)
    requires c.proc.mode == USER
    ensures SamePrivilegedState(c, Conclude(c, rd, s, r))
  {
  }

  /** MSR to CPSR changes mode and masks exactly in privileged modes with the control byte selected. */
  lemma StatusWrite(c: Core, mask: FieldMask, value: Word)
    ensures
      var d := MoveToStatus(c, false, mask, value);
      var control := PsrOf(value).control;
      && d.proc == (if Privileged(c) && mask.control
                    then Processor(control.mode, control.f, control.i, c.proc.thumb) else c.proc)
      && d.banks == c.banks && d.high == c.high && d.rb == c.rb && d.pc == c.pc
  {
  }

  lemma UserExecutes(c: Core, i: Instruction)
    requires c.proc.mode == USER
    ensures SamePrivilegedState(c, Execute(c, i))
  {
    match i
    case DataProcessing(op, rd, rn, s, op2, carry) => UserComputes(c, op, rd, rn, s, op2, carry);
    case Move(rd, s, op2, carry) => UserMoves(c, rd, s, op2, carry);
    case MoveNot(rd, s, op2, carry) => UserMovesNot(c, rd, s, op2, carry);
    case Compare(rn, op2) => UserCompares(c, Sub(ReadRegister(c, rn), op2));
    case CompareNegative(rn, op2) => UserCompares(c, Add(ReadRegister(c, rn), op2));
    case Test(rn, op2, carry) =>
      UserCompares(c, Flagged(LogicalResult(OpAnd, ReadRegister(c, rn), op2), carry, c.flags.v));
    case TestEqual(rn, op2, carry) =>
      UserCompares(c, Flagged(LogicalResult(OpEor, ReadRegister(c, rn), op2), carry, c.flags.v));
    case CountZeros(rd, rm) => UserCounts(c, rd, rm);
    case StatusToRegister(rd, saved) => UserReadsStatus(c, rd, saved);
    case RegisterToStatus(saved, mask, value) => UserWritesStatus(c, saved, mask, value);
    case Branch(link, offset) => UserBranches(c, link, offset);
  }

  lemma UserCompares(c: Core, r: Alu)
    ensures SamePrivilegedState(c, FlagsOnly(c, r))
  {
  }

  lemma UserComputes(c: Core, op: Operation, rd: Register, rn: Register, s: bool, op2: Word, carry: bool)
    requires c.proc.mode == USER
    ensures SamePrivilegedState(c, DataProcess(c, op, rd, rn, s, op2, carry))
  {
    var r := Compute(op, FirstOperand(c, op, rn), op2, c.flags, carry);
    UserWrite(c, rd, r.value);
    UserConclude(WriteRegister(c, rd, r.value), rd, s, r);
  }

  lemma UserReadsStatus(c: Core, rd: Register, saved: bool)
    requires c.proc.mode == USER
    ensures SamePrivilegedState(c, MoveFromStatus(c, rd, saved))
  {
    UserWrite(c, rd, WordOf(ReadCpsr(c)));
  }

  lemma UserWritesStatus(c: Core, saved: bool, mask: FieldMask, value: Word)
    requires c.proc.mode == USER
    ensures SamePrivilegedState(c, MoveToStatus(c, saved, mask, value))
  {
    StatusWrite(c, mask, value);
  }

  lemma UserMoves(c: Core, rd: Register, s: bool, op2: Word, carry: bool)
    requires c.proc.mode == USER
    ensures SamePrivilegedState(c, MoveTo(c, rd, s, op2, carry))
  {
    var flagged := c.(flags := c.flags.(n := Negative(op2), z := op2 == 0, c := carry));
    UserWrite(c, rd, op2);
    UserWrite(flagged, rd, op2);
  }

  lemma UserMovesNot(c: Core, rd: Register, s: bool, op2: Word, carry: bool)
    requires c.proc.mode == USER
    ensures SamePrivilegedState(c, MoveNotTo(c, rd, s, op2, carry))
  {
    var r := Flagged(Complement(op2), carry, c.flags.v);
    UserWrite(c, rd, r.value);
    UserConclude(WriteRegister(c, rd, r.value), rd, s, r);
  }

  lemma UserCounts(c: Core, rd: Register, rm: Register)
    requires c.proc.mode == USER
    ensures SamePrivilegedState(c, CountZerosOf(c, rd, rm))
  {
    UserWrite(c, rd, LeadingZeros(ReadRegister(c, rm)));
  }

  lemma UserBranches(c: Core, link: bool, offset: Offset)
    requires c.proc.mode == USER
    ensures SamePrivilegedState(c, BranchTo(c, link, offset))
  {
    UserWrite(c, LR, ReadRegister(c, PC));
    var linked := if link then WriteRegister(c, LR, ReadRegister(c, PC)) else c;
    UserWrite(linked, PC, Wrap(ReadRegister(linked, PC) + 4 + Distance(offset)));
  }

  lemma {:induction false} UserLoads(c: Core, v: Registers, list: RegisterList, i: nat)
    requires c.proc.mode == USER && i <= 15
    ensures SamePrivilegedState(c, LoadBelow(c, v, false, list, i))
  {
    if i > 0 {
      UserLoads(c, v, list, i - 1);
      UserWrite(LoadBelow(c, v, false, list, i - 1), i - 1, v[i - 1]);
    }
  }

  /** The LDM and STM forms that transfer the common register bank. */
  predicate UserForm(i: Command) {
    (i.Store? || i.Load?) && i.user
  }

  /** One instruction in User mode; the user forms of LDM and STM end the simulation. */
  lemma UserPerforms(m: Machine, s: Conditional)
    requires m.core.proc.mode == USER
    ensures match Perform(m, s)
            case None => UserForm(s.command)
            case Some(n) => SamePrivilegedState(m.core, n.core)
  {
    var c := Begin(m.core);
    UserWrite(m.core.(pc := Wrap(m.core.pc + 4)), PC, Wrap(m.core.pc + 4));
    match s.command
    case Single(i) => UserExecutes(c, i);
    case Store(f, rn, list, user) => UserPrepares(c, f, rn, list);
    case Load(f, rn, list, user) =>
      UserPrepares(c, f, rn, list);
      if !user {
        UserLoadMultiple(c, m.memory, f, rn, list);
      }
    case Effect(writes, flags, pc, memory) => UserWrites(c, writes);
  }

  lemma {:induction false} UserWrites(c: Core, writes: seq<(Register, Word)>)
    requires c.proc.mode == USER
    ensures SamePrivilegedState(c, WriteAll(c, writes))
  {
    if writes != [] {
      var n := |writes| - 1;
      UserWrites(c, writes[..n]);
      UserWrite(WriteAll(c, writes[..n]), writes[n].0, writes[n].1);
    }
  }

  lemma UserPrepares(c: Core, f: Form, rn: Register, list: RegisterList)
    requires c.proc.mode == USER
    ensures Prepare(c, f, rn, list).Some? ==> SamePrivilegedState(c, Prepare(c, f, rn, list).value.0)
  {
    UserWrite(c, rn, NewBase(f, ReadRegister(c, rn), Rank(list, 16)));
  }

  lemma UserLoadMultiple(c: Core, m: Memory, f: Form, rn: Register, list: RegisterList)
    requires c.proc.mode == USER
    ensures var o := LoadMultiple(c, m, f, rn, list, false);
            o.Completed? ==> SamePrivilegedState(c, o.core)
  {
    UserPrepares(c, f, rn, list);
    match Prepare(c, f, rn, list)
    case None =>
    case Some((based, start)) =>
      var v := Words16(m, list, start);
      UserLoads(based, v, list, 15);
      UserWrite(LoadBelow(based, v, false, list, 15), PC, WithoutBit0(v[PC]));
  }

  /** No program changes its mode, the interrupt masks, or any banked register or saved status from User
      mode; it runs to its end or stops at a user-form LDM or STM. */
  lemma {:induction false} UserProgramsStayUnprivileged(m: Machine, program: seq<Conditional>)
    requires m.core.proc.mode == USER
    ensures match RunProgram(m, program)
            case None => exists k :: 0 <= k < |program| && UserForm(program[k].command)
            case Some(n) => SamePrivilegedState(m.core, n.core)
    decreases |program|
  {
    if program != [] {
      UserPerforms(m, program[0]);
      match Perform(m, program[0])
      case None =>
        assert UserForm(program[0].command);
      case Some(n) =>
        UserProgramsStayUnprivileged(n, program[1..]);
        if RunProgram(n, program[1..]).None? {
          var k :| 0 <= k < |program| - 1 && UserForm(program[1..][k].command);
          assert program[1..][k] == program[k + 1];
        }
    }
  }
}
