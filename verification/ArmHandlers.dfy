/**
 Exception handlers made of instructions: which instructions of armv7/src/arm_isa.cpp write a link (LR or
 SPSR of a handler's mode), and runs of exceptions whose handlers are sequences of instructions with
 further exceptions among them.
 */
module ArmHandlers {
  import opened Words
  import opened ArmAlu
  import opened ArmCores
  import opened ArmInstructions
  import opened ArmBlocks
  import opened ArmPrograms
  import opened ArmExceptions

  // ---------------------------------------------------------------------------------------------
  // Instructions and links
  // ---------------------------------------------------------------------------------------------

  /** Instructions with LR as their destination, BL, and MSR to SPSR. */
  predicate WritesLink(i: Instruction) {
    match i
    case DataProcessing(_, rd, _, _, _, _) => rd == LR
    case Move(rd, _, _, _) => rd == LR
    case MoveNot(rd, _, _, _) => rd == LR
    case Compare(_, _) => false
    case CompareNegative(_, _) => false
    case Test(_, _, _) => false
    case TestEqual(_, _, _) => false
    case CountZeros(rd, _) => rd == LR
    case StatusToRegister(rd, _) => rd == LR
    case RegisterToStatus(saved, _, _) => saved
    case Branch(link, _) => link
  }

  /** CLZ lr, pc first returns the saved status, and then writes LR of the mode it returned to. */
  predicate WritesReturnedLink(i: Instruction) {
    i.CountZeros? && i.rm == PC && i.rd == LR
  }

  /** The instruction cannot reach the link of mode m. */
  predicate Spares(c: Core, i: Instruction, m: Mode) {
    !WritesLink(i) || (m != c.proc.mode && !WritesReturnedLink(i))
  }

  predicate Kept(c: Core, d: Core, m: Mode) {
    SameLink(c, d, m) && d.proc.thumb == c.proc.thumb
  }

  lemma WriteSpares(c: Core, k: Register, value: Word, m: Mode)
    requires k != LR || m != c.proc.mode
    ensures Kept(c, WriteRegister(c, k, value), m) && WriteRegister(c, k, value).proc == c.proc
  {
  }

  lemma StatusSpares(c: Core, m: Mode)
    ensures Kept(c, SpsrToCpsr(c), m) && SpsrToCpsr(c).banks == c.banks
  {
  }

  lemma ConcludeSpares(c: Core, rd: Register, s: bool, r: Alu, m: Mode)
    ensures Kept(c, Conclude(c, rd, s, r), m)
  {
    StatusSpares(c, m);
  }

  lemma DataProcessSpares(c: Core, op: Operation, rd: Register, rn: Register, s: bool, op2: Word, carry: bool, m: Mode)
    requires rd != LR || m != c.proc.mode
    ensures Kept(c, DataProcess(c, op, rd, rn, s, op2, carry), m)
  {
    var r := Compute(op, FirstOperand(c, op, rn), op2, c.flags, carry);
    WriteSpares(c, rd, r.value, m);
    ConcludeSpares(WriteRegister(c, rd, r.value), rd, s, r, m);
  }

  lemma MoveSpares(c: Core, rd: Register, s: bool, op2: Word, carry: bool, m: Mode)
    requires rd != LR || m != c.proc.mode
    ensures Kept(c, MoveTo(c, rd, s, op2, carry), m)
  {
    StatusSpares(c, m);
    var returned := if s && rd == PC then SpsrToCpsr(c) else c;
    var flagged := if s then returned.(flags := returned.flags.(n := Negative(op2), z := op2 == 0, c := carry))
                   else returned;
    WriteSpares(flagged, rd, op2, m);
  }

  lemma MoveNotSpares(c: Core, rd: Register, s: bool, op2: Word, carry: bool, m: Mode)
    requires rd != LR || m != c.proc.mode
    ensures Kept(c, MoveNotTo(c, rd, s, op2, carry), m)
  {
    var r := Flagged(Complement(op2), carry, c.flags.v);
    WriteSpares(c, rd, r.value, m);
    ConcludeSpares(WriteRegister(c, rd, r.value), rd, s, r, m);
  }

  lemma CountZerosSpares(c: Core, rd: Register, rm: Register, m: Mode)
    requires rd != LR || (m != c.proc.mode && rm != PC)
    ensures Kept(c, CountZerosOf(c, rd, rm), m)
  {
    StatusSpares(c, m);
    var returned := if rd == PC || rm == PC then SpsrToCpsr(c) else c;
    WriteSpares(returned, rd, LeadingZeros(ReadRegister(returned, rm)), m);
  }

  lemma MoveFromStatusSpares(c: Core, rd: Register, saved: bool, m: Mode)
    requires rd != LR || m != c.proc.mode
    ensures Kept(c, MoveFromStatus(c, rd, saved), m)
  {
    if !(rd == PC || (saved && !Privileged(c))) {
      WrittenSpares(c, rd, WordOf(if saved then ReadSpsr(c) else ReadCpsr(c)), m);
    }
  }

  lemma WrittenSpares(c: Core, rd: Register, w: Word, m: Mode)
    requires rd != LR || m != c.proc.mode
    ensures Kept(c, Continue(WriteRegister(c, rd, w)), m)
  {
    WriteSpares(c, rd, w, m);
  }

  lemma MoveToStatusSpares(c: Core, saved: bool, mask: FieldMask, value: Word, m: Mode)
    requires !saved || m != c.proc.mode
    ensures Kept(c, MoveToStatus(c, saved, mask, value), m)
  {
  }

  lemma BranchSpares(c: Core, link: bool, offset: Offset, m: Mode)
    requires !link || m != c.proc.mode
    ensures Kept(c, BranchTo(c, link, offset), m)
  {
    var linked := if link then WriteRegister(c, LR, ReadRegister(c, PC)) else c;
    if link {
      WriteSpares(c, LR, ReadRegister(c, PC), m);
    }
    WriteSpares(linked, PC, Wrap(ReadRegister(linked, PC) + 4 + Distance(offset)), m);
  }

  lemma ExecuteSpares(c: Core, i: Instruction, m: Mode)
    requires Spares(c, i, m)
    ensures Kept(c, Execute(c, i), m)
  {
    match i
    case DataProcessing(op, rd, rn, s, op2, carry) => DataProcessSpares(c, op, rd, rn, s, op2, carry, m);
    case Move(rd, s, op2, carry) => MoveSpares(c, rd, s, op2, carry, m);
    case MoveNot(rd, s, op2, carry) => MoveNotSpares(c, rd, s, op2, carry, m);
    case Compare(_, _) =>
    case CompareNegative(_, _) =>
    case Test(_, _, _) =>
    case TestEqual(_, _, _) =>
    case CountZeros(rd, rm) => CountZerosSpares(c, rd, rm, m);
    case StatusToRegister(rd, saved) => MoveFromStatusSpares(c, rd, saved, m);
    case RegisterToStatus(saved, mask, value) => MoveToStatusSpares(c, saved, mask, value, m);
    case Branch(link, offset) => BranchSpares(c, link, offset, m);
  }

  /** A whole instruction keeps LR and SPSR of every mode but the current one, unless it is CLZ lr, pc; and
      the current mode's, too, if it writes neither. */
  lemma StepSpares(c: Core, cond: nat, i: Instruction, m: Mode)
    requires Spares(c, i, m)
    ensures Kept(c, Step(c, cond, i), m)
  {
    var advanced := c.(pc := Wrap(c.pc + 4));
    WriteSpares(advanced, PC, advanced.pc, m);
    ExecuteSpares(Begin(c), i, m);
  }

  /** CLZ lr, pc in a handler that interrupted another one overwrites that one's LR. */
  lemma ReturnedLinkIsWritten(c: Core, cond: nat)
    requires c.proc.mode == ABORT && c.banks.abt.spsr.control.mode == SUPERVISOR && Passes(c, cond)
    requires c.banks.svc.r14 > 32
    ensures !SameLink(c, Step(c, cond, CountZeros(LR, PC)), SUPERVISOR)
  {
    var b := Begin(c);
    var returned := SpsrToCpsr(b);
    assert returned.proc.mode == SUPERVISOR && returned.banks == c.banks;
    var zeros := LeadingZeros(ReadRegister(returned, PC));
    assert zeros <= 32;
    var w := WriteRegister(returned, LR, zeros);
    assert w.banks.svc.r14 == zeros;
    assert Execute(b, CountZeros(LR, PC)) == Continue(w);
  }

  /** A state in which it does: an abort taken in a supervisor call. */
  function AbortInCall(): Core {
    var zero := Bank(0, 0, ZERO_PSR);
    var saved := ZERO_PSR.(control := ControlByte(false, false, false, SUPERVISOR));
    var registers: Registers := [0, 0, 0, 0, 0, 0, 0, 0, 0, 0, 0, 0, 0, 0, 0, 0];
    Core(registers, [0, 0, 0, 0, 0], Banks(zero, zero, Bank(0, 100, ZERO_PSR), Bank(0, 0, saved), zero), 0,
         Flags(false, false, false, false, false, false), Processor(ABORT, true, true, false))
  }

  /** An instruction keeps the links of all other modes, in every state, if and only if it is not
      CLZ lr, pc. */
  lemma OtherLinksKeptIff(i: Instruction)
    ensures (forall c: Core, cond: nat, m: Mode | m != c.proc.mode :: Kept(c, Step(c, cond, i), m))
            <==> !WritesReturnedLink(i)
  {
    if WritesReturnedLink(i) {
      var c := AbortInCall();
      ReturnedLinkIsWritten(c, 14);
      assert i == CountZeros(LR, PC);
      assert !Kept(c, Step(c, 14, i), SUPERVISOR);
    } else {
      forall c: Core, cond: nat, m: Mode | m != c.proc.mode
        ensures Kept(c, Step(c, cond, i), m)
      {
        StepSpares(c, cond, i, m);
      }
    }
  }

  // ---------------------------------------------------------------------------------------------
  // Load and store multiple
  // ---------------------------------------------------------------------------------------------

  lemma RewriteSpares(c: Core, k: Register, m: Mode)
    ensures Kept(c, WriteRegister(c, k, ReadRegister(c, k)), m)
  {
  }

  /** The addressing part writes LR only as a written-back base. */
  lemma PrepareSpares(c: Core, f: Form, rn: Register, list: RegisterList, m: Mode)
    requires rn != LR || !f.writeback || m != c.proc.mode
    ensures
      var p := Prepare(c, f, rn, list);
      p.Some? ==> Kept(c, p.value.0, m) && p.value.0.proc == c.proc
  {
    RewriteSpares(c, rn, m);
    if rn != LR || m != c.proc.mode {
      WriteSpares(c, rn, NewBase(f, ReadRegister(c, rn), Rank(list, 16)), m);
    }
  }

  lemma ViaSpares(c: Core, user: bool, k: Register, value: Word, m: Mode)
    requires user || k != LR || m != c.proc.mode
    ensures Kept(c, WriteVia(c, user, k, value), m) && WriteVia(c, user, k, value).proc == c.proc
  {
    if !user {
      WriteSpares(c, k, value, m);
    }
  }

  lemma {:induction false} LoadBelowSpares(c: Core, v: Registers, user: bool, list: RegisterList, i: nat, m: Mode)
    requires i <= 15 && (user || !list[LR] || m != c.proc.mode)
    ensures Kept(c, LoadBelow(c, v, user, list, i), m) && LoadBelow(c, v, user, list, i).proc == c.proc
  {
    if i > 0 {
      LoadBelowSpares(c, v, user, list, i - 1, m);
      if list[i - 1] {
        ViaSpares(LoadBelow(c, v, user, list, i - 1), user, i - 1, v[i - 1], m);
      }
    }
  }

  lemma LoadedSpares(c: Core, v: Registers, user: bool, list: RegisterList, m: Mode)
    requires user || !list[LR] || m != c.proc.mode
    ensures Kept(c, Continue(Loaded(c, v, user, list)), m)
  {
    LoadBelowSpares(c, v, user, list, 15, m);
    var low := LoadBelow(c, v, user, list, 15);
    ViaSpares(low, user, PC, WithoutBit0(v[PC]), m);
    StatusSpares(WriteVia(low, user, PC, WithoutBit0(v[PC])), m);
  }

  lemma {:induction false} WriteAllSpares(c: Core, writes: seq<(Register, Word)>, m: Mode)
    requires m != c.proc.mode || forall w | w in writes :: w.0 != LR
    ensures Kept(c, WriteAll(c, writes), m) && WriteAll(c, writes).proc == c.proc
  {
    if writes != [] {
      var n := |writes| - 1;
      assert writes[n] in writes;
      WriteAllSpares(c, writes[..n], m);
      WriteSpares(WriteAll(c, writes[..n]), writes[n].0, writes[n].1, m);
    }
  }

  // ---------------------------------------------------------------------------------------------
  // Commands
  // ---------------------------------------------------------------------------------------------

  /** The command may write LR of the current mode, or SPSR. */
  predicate MayWriteLink(s: Command) {
    match s
    case Single(i) => WritesLink(i)
    case Store(f, rn, _, _) => rn == LR && f.writeback
    case Load(f, rn, list, user) => (rn == LR && f.writeback) || (list[LR] && !user)
    case Effect(writes, _, _, _) => exists w | w in writes :: w.0 == LR
  }

  predicate SparesMode(c: Core, s: Command, m: Mode) {
    !MayWriteLink(s) || (m != c.proc.mode && !(s.Single? && WritesReturnedLink(s.i)))
  }

  lemma StoreSpares(c: Core, mem: Memory, f: Form, rn: Register, list: RegisterList, user: bool, m: Mode)
    requires rn != LR || !f.writeback || m != c.proc.mode
    ensures
      var o := StoreMultiple(c, mem, f, rn, list, user);
      o.Completed? ==> Kept(c, o.core, m)
  {
    PrepareSpares(c, f, rn, list, m);
  }

  lemma LoadSpares(c: Core, mem: Memory, f: Form, rn: Register, list: RegisterList, user: bool, m: Mode)
    requires m != c.proc.mode || ((rn != LR || !f.writeback) && (user || !list[LR]))
    ensures
      var o := LoadMultiple(c, mem, f, rn, list, user);
      o.Completed? ==> Kept(c, o.core, m)
  {
    PrepareSpares(c, f, rn, list, m);
    match Prepare(c, f, rn, list)
    case None =>
    case Some((based, start)) => LoadedSpares(based, Words16(mem, list, start), user, list, m);
  }

  /** Any command, load and store multiple included, keeps LR and SPSR of every mode but the current one,
      unless it is CLZ lr, pc; and the current mode's, too, if it writes neither. */
  lemma PerformSpares(x: Machine, s: Conditional, m: Mode)
    requires SparesMode(x.core, s.command, m) && Perform(x, s).Some?
    ensures Kept(x.core, Perform(x, s).value.core, m)
  {
    var advanced := x.core.(pc := Wrap(x.core.pc + 4));
    WriteSpares(advanced, PC, advanced.pc, m);
    var c := Begin(x.core);
    match s.command
    case Single(i) => StepSpares(x.core, s.cond, i, m);
    case Store(f, rn, list, user) => StoreSpares(c, x.memory, f, rn, list, user, m);
    case Load(f, rn, list, user) => LoadSpares(c, x.memory, f, rn, list, user, m);
    case Effect(writes, _, _, _) => WriteAllSpares(c, writes, m);
  }

  // ---------------------------------------------------------------------------------------------
  // Saving and restoring LR
  // ---------------------------------------------------------------------------------------------

  /** Nothing but the links' LR halves is at stake here: SPSR of the mode is the same. */
  predicate SameSaved(c: Core, d: Core, m: Mode) {
    HasBank(m) ==> BankOf(c.banks, m).spsr == BankOf(d.banks, m).spsr
  }

  lemma WriteKeepsSaved(c: Core, k: Register, value: Word, m: Mode)
    ensures SameSaved(c, WriteRegister(c, k, value), m) && WriteRegister(c, k, value).proc == c.proc
  {
  }

  lemma {:induction false} LoadKeepsSaved(c: Core, v: Registers, list: RegisterList, i: nat, m: Mode)
    requires i <= 15
    ensures SameSaved(c, LoadBelow(c, v, false, list, i), m) && LoadBelow(c, v, false, list, i).proc == c.proc
  {
    if i > 0 {
      LoadKeepsSaved(c, v, list, i - 1, m);
      WriteKeepsSaved(LoadBelow(c, v, false, list, i - 1), i - 1, v[i - 1], m);
    }
  }

  lemma LoadMultipleKeepsSaved(c: Core, mem: Memory, f: Form, rn: Register, list: RegisterList, m: Mode)
    ensures
      var o := LoadMultiple(c, mem, f, rn, list, false);
      o.Completed? ==> SameSaved(c, o.core, m) && o.core.proc == c.proc
  {
    WriteKeepsSaved(c, rn, NewBase(f, ReadRegister(c, rn), Rank(list, 16)), m);
    match Prepare(c, f, rn, list)
    case None =>
    case Some((based, start)) =>
      var v := Words16(mem, list, start);
      LoadKeepsSaved(based, v, list, 15, m);
      WriteKeepsSaved(LoadBelow(based, v, false, list, 15), PC, WithoutBit0(v[PC]), m);
  }

  /** A handler that stores LR among other registers, and loads them back in the opposite way at the end, has
      its link back, whatever it used LR for between, if it kept its base register, the stored block and SPSR. */
  lemma StoredLinkComesBack(c: Core, mem: Memory, f: Form, rn: Register, list: RegisterList, d: Core, n: Memory)
    requires HasBank(c.proc.mode) && f.writeback && !list[rn] && list[LR]
    requires StoreMultiple(c, mem, f, rn, list, false).Completed?
    requires
      var s := StoreMultiple(c, mem, f, rn, list, false);
      && d.proc.mode == c.proc.mode && SameSaved(c, d, c.proc.mode)
      && ReadRegister(d, rn) == ReadRegister(s.core, rn)
      && SameBlock(s.memory, n, StartAddress(f, ReadRegister(c, rn), Rank(list, 16)), Rank(list, 16))
    ensures
      var l := LoadMultiple(d, n, Opposite(f), rn, list, false);
      l.Completed? && SameLink(c, l.core, c.proc.mode) && l.core.proc.mode == c.proc.mode
  {
    var m := c.proc.mode;
    WriteKeepsSaved(c, rn, NewBase(f, ReadRegister(c, rn), Rank(list, 16)), m);
    StoreThenLoad(c, mem, f, rn, list, false, d, n);
    LoadMultipleKeepsSaved(d, n, Opposite(f), rn, list, m);
    var l := LoadMultiple(d, n, Opposite(f), rn, list, false);
    ReadLink(c);
    ReadLink(l.core);
    assert ReadVia(l.core, false, LR) == ReadVia(c, false, LR);
  }

  lemma BeginSpares(c: Core, m: Mode, k: Register)
    requires KnownMode(c.proc.mode) && k != PC
    ensures SameLink(c, Begin(c), m) && Begin(c).proc == c.proc && ReadRegister(Begin(c), k) == ReadRegister(c, k)
  {
    var advanced := c.(pc := Wrap(c.pc + 4));
    WriteSpares(advanced, PC, advanced.pc, m);
    RegistersAreVariables(advanced, PC, advanced.pc, k);
    assert ReadRegister(advanced, k) == ReadRegister(c, k);
  }

  /** The same for the two whole instructions, from the machine x before the store and the machine y before
      the load. */
  lemma SavedLinkComesBack(x: Machine, push: nat, f: Form, rn: Register, list: RegisterList, y: Machine, pop: nat)
    requires HasBank(x.core.proc.mode) && f.writeback && !list[rn] && list[LR] && rn != PC
    requires Passes(x.core, push) && Passes(y.core, pop)
    requires
      var s := Perform(x, Conditional(push, Store(f, rn, list, false)));
      && s.Some? && y.core.proc.mode == x.core.proc.mode && SameSaved(x.core, y.core, x.core.proc.mode)
      && ReadRegister(y.core, rn) == ReadRegister(s.value.core, rn)
      && SameBlock(s.value.memory, y.memory, StartAddress(f, ReadRegister(x.core, rn), Rank(list, 16)), Rank(list, 16))
    ensures
      var z := Perform(y, Conditional(pop, Load(Opposite(f), rn, list, false)));
      && z.Some? && SameLink(x.core, z.value.core, x.core.proc.mode)
      && z.value.core.proc.mode == x.core.proc.mode
  {
    var m := x.core.proc.mode;
    var c, d := Begin(x.core), Begin(y.core);
    BeginSpares(x.core, m, rn);
    BeginSpares(y.core, m, rn);
    RankGrows(list, LR, 16);
    StoredLinkComesBack(c, x.memory, f, rn, list, d, y.memory);
  }

  // ---------------------------------------------------------------------------------------------
  // Handlers
  // ---------------------------------------------------------------------------------------------

  /** Commands, and exceptions with the scripts that handle them. */
  datatype Script =
    | End
    | Do(step: Conditional, rest: Script)
    | Take(e: Exception, vbar: Word, body: Script, rest: Script)

  datatype Played = Played(run: Run, memory: Memory)

  /** The run of a script, and the memory after it. */
  function Play(s: Script, x: Machine): Played {
    match s
    case End => Played(Done, x.memory)
    case Do(step, rest) =>
      (match Perform(x, step)
       case None => Played(Done, x.memory)
       case Some(y) => Played(Other(y.core, Play(rest, y).run), Play(rest, y).memory))
    case Take(e, vbar, body, rest) =>
      var entered := Service(x.core, e, vbar);
      var p := Play(body, Machine(entered, x.memory));
      var q := Play(rest, Machine(Return(Final(p.run, entered), e), p.memory));
      Played(Handle(e, vbar, p.run, q.run), q.memory)
  }

  /** Commands do not end the simulation, and spare the links of live frames; a handler may use its own link,
      as long as it has it back in the end. */
  ghost predicate WellBehaved(s: Script, x: Machine, live: set<Mode>, own: set<Mode>) {
    match s
    case End => true
    case Do(step, rest) =>
      && Perform(x, step).Some?
      && (forall m :: m in live ==> SparesMode(x.core, step.command, m))
      && WellBehaved(rest, Perform(x, step).value, live, own)
    case Take(e, vbar, body, rest) =>
      var entered := Service(x.core, e, vbar);
      var p := Play(body, Machine(entered, x.memory));
      var left := Final(p.run, entered);
      && Enters(x.core, e, live + own) && Handled(left, x.core, e, vbar)
      && WellBehaved(body, Machine(entered, x.memory), live + own, {HandlerMode(e)})
      && WellBehaved(rest, Machine(Return(left, e), p.memory), live, own)
  }

  lemma CommandSparesLive(x: Machine, step: Conditional, live: set<Mode>)
    requires Perform(x, step).Some? && forall m :: m in live ==> SparesMode(x.core, step.command, m)
    ensures
      var y := Perform(x, step).value;
      SameLinks(x.core, y.core, live) && y.core.proc.thumb == x.core.proc.thumb
  {
    forall m | m in live
      ensures SameLink(x.core, Perform(x, step).value.core, m)
    {
      PerformSpares(x, step, m);
    }
    ThumbUnwritten(x, step);
  }

  lemma ThumbUnwritten(x: Machine, step: Conditional)
    requires Perform(x, step).Some?
    ensures Perform(x, step).value.core.proc.thumb == x.core.proc.thumb
  {
    if SparesMode(x.core, step.command, if x.core.proc.mode == USER then SYSTEM else USER) {
      PerformSpares(x, step, if x.core.proc.mode == USER then SYSTEM else USER);
    }
  }

  /** Such scripts run well bracketed. */
  lemma {:induction false} ScriptsAreBracketed(s: Script, x: Machine, live: set<Mode>, own: set<Mode>)
    requires WellBehaved(s, x, live, own)
    ensures Bracketed(Play(s, x).run, x.core, live, own)
    decreases s
  {
    match s
    case End =>
    case Do(step, rest) =>
      CommandSparesLive(x, step, live);
      ScriptsAreBracketed(rest, Perform(x, step).value, live, own);
    case Take(e, vbar, body, rest) =>
      var entered := Service(x.core, e, vbar);
      var p := Play(body, Machine(entered, x.memory));
      ScriptsAreBracketed(body, Machine(entered, x.memory), live + own, {HandlerMode(e)});
      ScriptsAreBracketed(rest, Machine(Return(Final(p.run, entered), e), p.memory), live, own);
  }

  /** A handler made of commands that spare the frames below, with any exceptions handled so among them, and
      that ends in its mode with its link: it returns to the interrupted PC, mode and CPSR, and the links of the
      frames below are what they were. */
  lemma InstructionHandlerReturns(e: Exception, vbar: Word, body: Script, x: Machine, frames: set<Mode>)
    requires Enters(x.core, e, frames)
    requires WellBehaved(body, Machine(Service(x.core, e, vbar), x.memory), frames, {HandlerMode(e)})
    requires
      var entered := Service(x.core, e, vbar);
      Handled(Final(Play(body, Machine(entered, x.memory)).run, entered), x.core, e, vbar)
    ensures
      var entered := Service(x.core, e, vbar);
      var back := Return(Final(Play(body, Machine(entered, x.memory)).run, entered), e);
      && back.pc == x.core.pc && ReadCpsr(back) == ReadCpsr(x.core) && back.proc == x.core.proc
      && SameLinks(x.core, back, frames)
  {
    var entered := Service(x.core, e, vbar);
    ScriptsAreBracketed(body, Machine(entered, x.memory), frames, {HandlerMode(e)});
    BracketedHandlerReturns(e, vbar, Play(body, Machine(entered, x.memory)).run, x.core, frames);
  }

  // ---------------------------------------------------------------------------------------------
  // Handlers whose commands spare all open frames
  // ---------------------------------------------------------------------------------------------

  /** Command by command: none ends the simulation or writes the link of an open frame, its own handler's
      included; and every handler, at any depth, ends in its mode. */
  ghost predicate Sparing(s: Script, x: Machine, frames: set<Mode>) {
    match s
    case End => true
    case Do(step, rest) =>
      && Perform(x, step).Some?
      && (forall m :: m in frames ==> SparesMode(x.core, step.command, m))
      && Sparing(rest, Perform(x, step).value, frames)
    case Take(e, vbar, body, rest) =>
      var entered := Service(x.core, e, vbar);
      var p := Play(body, Machine(entered, x.memory));
      && Enters(x.core, e, frames) && Final(p.run, entered).proc.mode == HandlerMode(e)
      && Sparing(body, Machine(entered, x.memory), frames + {HandlerMode(e)})
      && Sparing(rest, Machine(Return(Final(p.run, entered), e), p.memory), frames)
  }

  /** Such scripts are nested runs. */
  lemma {:induction false} SparingIsNested(s: Script, x: Machine, frames: set<Mode>)
    requires Sparing(s, x, frames)
    ensures Nested(Play(s, x).run, x.core, frames)
    decreases s
  {
    match s
    case End =>
    case Do(step, rest) =>
      CommandSparesLive(x, step, frames);
      SparingIsNested(rest, Perform(x, step).value, frames);
    case Take(e, vbar, body, rest) =>
      var entered := Service(x.core, e, vbar);
      var p := Play(body, Machine(entered, x.memory));
      SparingIsNested(body, Machine(entered, x.memory), frames + {HandlerMode(e)});
      SparingIsNested(rest, Machine(Return(Final(p.run, entered), e), p.memory), frames);
  }

  /** They are well behaved, too: their handlers' links are there in the end. */
  lemma {:induction false} SparingIsWellBehaved(s: Script, x: Machine, frames: set<Mode>,
                                                live: set<Mode>, own: set<Mode>)
    requires Sparing(s, x, frames) && frames == live + own
    ensures WellBehaved(s, x, live, own)
    decreases s
  {
    match s
    case End =>
    case Do(step, rest) =>
      SparingIsWellBehaved(rest, Perform(x, step).value, frames, live, own);
    case Take(e, vbar, body, rest) =>
      var h := HandlerMode(e);
      var entered := Machine(Service(x.core, e, vbar), x.memory);
      var p := Play(body, entered);
      SparingIsNested(body, entered, frames + {h});
      NestedIsBracketed(p.run, entered.core, frames + {h}, frames + {h}, {});
      LinkRemains(e, vbar, p.run, x.core, frames);
      SparingIsWellBehaved(body, entered, frames + {h}, frames, {h});
      SparingIsWellBehaved(rest, Machine(Return(Final(p.run, entered.core), e), p.memory), frames, live, own);
  }

  /** A handler whose commands, and those of all handlers nested in it, write no link of an open frame returns
      to the interrupted PC, mode and CPSR if each of them ends in its mode. */
  lemma SparingHandlerReturns(e: Exception, vbar: Word, body: Script, x: Machine, frames: set<Mode>)
    requires Enters(x.core, e, frames)
    requires Sparing(body, Machine(Service(x.core, e, vbar), x.memory), frames + {HandlerMode(e)})
    requires
      var entered := Service(x.core, e, vbar);
      Final(Play(body, Machine(entered, x.memory)).run, entered).proc.mode == HandlerMode(e)
    ensures
      var entered := Service(x.core, e, vbar);
      var back := Return(Final(Play(body, Machine(entered, x.memory)).run, entered), e);
      && back.pc == x.core.pc && ReadCpsr(back) == ReadCpsr(x.core) && back.proc == x.core.proc
      && SameLinks(x.core, back, frames)
  {
    var entered := Machine(Service(x.core, e, vbar), x.memory);
    SparingIsNested(body, entered, frames + {HandlerMode(e)});
    HandledExceptionReturns(e, vbar, Play(body, entered).run, x.core, frames);
  }

  // ---------------------------------------------------------------------------------------------
  // Handlers that save LR
  // ---------------------------------------------------------------------------------------------

  lemma ReturnKeepsThumb(c: Core, e: Exception)
    ensures Return(c, e).proc.thumb == c.proc.thumb
  {
    StepSpares(c, 14, DataProcessing(OpSub, PC, LR, true, LinkOffset(e), c.flags.c), c.proc.mode);
  }

  /** No script writes `thumb`. */
  lemma {:induction false} PlayKeepsThumb(s: Script, x: Machine)
    ensures Final(Play(s, x).run, x.core).proc.thumb == x.core.proc.thumb
    decreases s
  {
    match s
    case End =>
    case Do(step, rest) =>
      if Perform(x, step).Some? {
        ThumbUnwritten(x, step);
        PlayKeepsThumb(rest, Perform(x, step).value);
      }
    case Take(e, vbar, body, rest) =>
      var entered := Service(x.core, e, vbar);
      var p := Play(body, Machine(entered, x.memory));
      PlayKeepsThumb(body, Machine(entered, x.memory));
      ReturnKeepsThumb(Final(p.run, entered), e);
      PlayKeepsThumb(rest, Machine(Return(Final(p.run, entered), e), p.memory));
  }

  /** The machine after a script. */
  function After(s: Script, x: Machine): Machine {
    Machine(Final(Play(s, x).run, x.core), Play(s, x).memory)
  }

  /** What the middle of a saving handler, from s to y, must leave as it was: mode, SPSR, base register and the
      stored block. LR and everything else are free. */
  ghost predicate KeepsSavedLink(s: Machine, y: Machine, rn: Register, start: Word, count: Count) {
    && y.core.proc.mode == s.core.proc.mode && SameSaved(s.core, y.core, s.core.proc.mode)
    && ReadRegister(y.core, rn) == ReadRegister(s.core, rn)
    && SameBlock(s.memory, y.memory, start, count)
  }

  /** The store at the start of a handler. */
  lemma StoreKeepsState(x: Machine, push: nat, f: Form, rn: Register, list: RegisterList)
    requires Passes(x.core, push) && list[LR] && !list[rn]
    ensures
      var s := Perform(x, Conditional(push, Store(f, rn, list, false)));
      && s.Some? && s.value.core.proc == x.core.proc
      && SameSaved(x.core, s.value.core, x.core.proc.mode)
  {
    var advanced := x.core.(pc := Wrap(x.core.pc + 4));
    WriteKeepsSaved(advanced, PC, advanced.pc, x.core.proc.mode);
    var c := Begin(x.core);
    RankGrows(list, LR, 16);
    WriteKeepsSaved(c, rn, NewBase(f, ReadRegister(c, rn), Rank(list, 16)), x.core.proc.mode);
  }

  /** A handler that stores LR on entry, runs any script, and loads LR back: it returns to the interrupted PC,
      mode and CPSR, whatever the script used LR for. */
  lemma SavingHandlerReturns(e: Exception, vbar: Word, x: Machine, push: nat, f: Form, rn: Register,
                             list: RegisterList, middle: Script, pop: nat)
    requires Enters(x.core, e, {}) && f.writeback && !list[rn] && list[LR] && rn != PC
    requires Passes(Service(x.core, e, vbar), push)
    requires
      var entered := Machine(Service(x.core, e, vbar), x.memory);
      var s := Perform(entered, Conditional(push, Store(f, rn, list, false)));
      var start := StartAddress(f, ReadRegister(entered.core, rn), Rank(list, 16));
      s.Some? ==> KeepsSavedLink(s.value, After(middle, s.value), rn, start, Rank(list, 16))
                  && Passes(After(middle, s.value).core, pop)
    ensures
      var entered := Machine(Service(x.core, e, vbar), x.memory);
      var s := Perform(entered, Conditional(push, Store(f, rn, list, false)));
      && s.Some?
      && var z := Perform(After(middle, s.value), Conditional(pop, Load(Opposite(f), rn, list, false)));
         && z.Some?
         && var back := Return(z.value.core, e);
            back.pc == x.core.pc && ReadCpsr(back) == ReadCpsr(x.core) && back.proc == x.core.proc
  {
    var entered := Machine(Service(x.core, e, vbar), x.memory);
    EntryMasksIrq(x.core, e, vbar);
    EntryLeavesFrame(x.core, e, vbar);
    StoreKeepsState(entered, push, f, rn, list);
    var s := Perform(entered, Conditional(push, Store(f, rn, list, false))).value;
    var y := After(middle, s);
    SavedLinkComesBack(entered, push, f, rn, list, y, pop);
    var load := Conditional(pop, Load(Opposite(f), rn, list, false));
    PlayKeepsThumb(middle, s);
    ThumbUnwritten(y, load);
    ReturnUndoesEntry(x.core, Perform(y, load).value.core, e);
  }
}
