/**
 Runs with nested exceptions: entry by `service_interrupt` (armv7/src/arm_interrupts.cpp:20-116), return by
 `SUBS pc, lr, #k` (armv7/src/arm_isa.cpp:2649-2688), and why `MOVS pc, lr` does not return as well
 (armv7/src/arm_isa.cpp:2018-2043).
 */
module ArmExceptions {
  import opened Words
  import opened ArmAlu
  import opened ArmCores
  import opened ArmInstructions

  /** The instruction that returns from an exception: the immediate is how far its entry put LR ahead. */
  function Return(c: Core, e: Exception): Core {
    Step(c, 14, DataProcessing(OpSub, PC, LR, true, LinkOffset(e), c.flags.c))
  }

  /** A run: other steps may lead anywhere; an exception is handled by a run that ends with its return. */
  datatype Run =
    | Done
    | Other(next: Core, rest: Run)
    | Handle(e: Exception, vbar: Word, body: Run, rest: Run)

  /** The state after a run from c. */
  function Final(run: Run, c: Core): Core {
    match run
    case Done => c
    case Other(next, rest) => Final(rest, next)
    case Handle(e, vbar, body, rest) => Final(rest, Return(Final(body, Service(c, e, vbar)), e))
  }

  /** LR and SPSR of the mode are the same in both states. */
  predicate SameLink(c: Core, d: Core, m: Mode) {
    HasBank(m) ==>
      BankOf(c.banks, m).r14 == BankOf(d.banks, m).r14 && BankOf(c.banks, m).spsr == BankOf(d.banks, m).spsr
  }

  ghost predicate SameLinks(c: Core, d: Core, live: set<Mode>) {
    forall m :: m in live ==> SameLink(c, d, m)
  }

  /** The run is well bracketed. `live` holds the handler modes with an open frame below the current one, and
      `own` the current handler's mode, if there is one. Other steps leave the links of live frames alone; with
      its own link a handler may do what it likes, as long as it has it back in the end. No exception enters a
      mode with an open frame again; exceptions other than reset are taken, in a known mode, and a handler ends
      in its mode. Nothing writes `thumb`. */
  ghost predicate Bracketed(run: Run, c: Core, live: set<Mode>, own: set<Mode>) {
    match run
    case Done => true
    case Other(next, rest) =>
      && SameLinks(c, next, live)
      && next.proc.thumb == c.proc.thumb
      && Bracketed(rest, next, live, own)
    case Handle(e, vbar, body, rest) =>
      && Enters(c, e, live + own)
      && Handled(Final(body, Service(c, e, vbar)), c, e, vbar)
      && Bracketed(body, Service(c, e, vbar), live + own, {HandlerMode(e)})
      && Bracketed(rest, Return(Final(body, Service(c, e, vbar)), e), live, own)
  }

  predicate Enters(c: Core, e: Exception, frames: set<Mode>) {
    e != Reset && !Masked(c, e) && KnownMode(c.proc.mode) && HandlerMode(e) !in frames
  }

  /** The handler of the exception ends in its mode, with the link it was given. */
  predicate Handled(left: Core, c: Core, e: Exception, vbar: Word) {
    left.proc.mode == HandlerMode(e) && SameLink(Service(c, e, vbar), left, HandlerMode(e))
  }

  /** At its outer level the run only handles exceptions. */
  predicate OnlyExceptions(run: Run) {
    match run
    case Done => true
    case Other(_, _) => false
    case Handle(_, _, _, rest) => OnlyExceptions(rest)
  }

  // ---------------------------------------------------------------------------------------------
  // One entry, one return
  // ---------------------------------------------------------------------------------------------

  /** The frame that an entry leaves behind. */
  predicate Frame(d: Core, c: Core, e: Exception) {
    var bank := BankOf(d.banks, HandlerMode(e));
    bank.r14 == Wrap(c.pc + LinkOffset(e)) && bank.spsr == ReadCpsr(c) && d.proc.thumb == c.proc.thumb
  }

  lemma EntryLeavesFrame(c: Core, e: Exception, vbar: Word)
    requires e != Reset && !Masked(c, e)
    ensures Frame(Service(c, e, vbar), c, e)
    ensures forall m: Mode :: HasBank(m) && m != HandlerMode(e) ==> SameLink(c, Service(c, e, vbar), m)
  {
  }

  /** The start of the return instruction only writes the PC. */
  lemma BeginKeeps(d: Core)
    requires HasBank(d.proc.mode)
    ensures var b := Begin(d);
            b.banks == d.banks && b.proc == d.proc && b.flags == d.flags && b.high == d.high
  {
  }

  /** SUBS pc, lr, #k in its own words. */
  lemma ReturnEffect(d: Core, e: Exception, bank: Bank, target: Word)
    requires HasBank(d.proc.mode) && bank == BankOf(d.banks, d.proc.mode)
    requires target == Wrap(bank.r14 - LinkOffset(e))
    ensures Return(d, e) == Continue(WriteCpsr(Begin(d).(rb := Begin(d).rb[PC := target]), bank.spsr))
  {
    BeginKeeps(d);
    SubtractFromLink(Begin(d), LinkOffset(e), d.flags.c, bank, target);
    assert Return(d, e) == DataProcess(Begin(d), OpSub, PC, LR, true, LinkOffset(e), d.flags.c);
  }

  lemma SubtractFromLink(b: Core, k: Word, carry: bool, bank: Bank, target: Word)
    requires HasBank(b.proc.mode) && bank == BankOf(b.banks, b.proc.mode)
    requires target == Wrap(bank.r14 - k)
    ensures DataProcess(b, OpSub, PC, LR, true, k, carry)
            == Continue(WriteCpsr(b.(rb := b.rb[PC := target]), bank.spsr))
  {
    var r := Compute(OpSub, bank.r14, k, b.flags, carry);
    SubtractsModulo(bank.r14, k);
    ReadLink(b);
    WritePc(b, target);
    ReturnTail(b.(rb := b.rb[PC := target]), r);
  }

  lemma SubtractsModulo(x: Word, y: Word)
    ensures Sub(x, y).value == Wrap(x - y)
  {
  }

  lemma ReadLink(b: Core)
    requires HasBank(b.proc.mode)
    ensures ReadRegister(b, LR) == BankOf(b.banks, b.proc.mode).r14
  {
  }

  lemma WritePc(b: Core, target: Word)
    requires KnownMode(b.proc.mode)
    ensures WriteRegister(b, PC, target) == b.(rb := b.rb[PC := target])
  {
  }

  lemma ReturnTail(w: Core, r: Alu)
    requires HasBank(w.proc.mode)
    ensures Conclude(w, PC, true, r) == Continue(WriteCpsr(w, BankOf(w.banks, w.proc.mode).spsr))
  {
  }

  /** Writing back a status that was read. */
  lemma StatusRestored(w: Core, c: Core)
    requires KnownMode(c.proc.mode) && w.proc.thumb == c.proc.thumb
    ensures
      var r := Continue(WriteCpsr(w, ReadCpsr(c)));
      && r.pc == w.rb[PC] && ReadCpsr(r) == ReadCpsr(c) && r.proc == c.proc && r.banks == w.banks
  {
    var r := WriteCpsr(w, ReadCpsr(c));
    assert r.proc == c.proc;
    assert ReadRegister(r, PC) == w.rb[PC];
  }

  /** With its frame in place, the handler's return restores PC, mode and CPSR; links stay. */
  lemma ReturnUndoesEntry(c: Core, d: Core, e: Exception)
    requires KnownMode(c.proc.mode) && d.proc.mode == HandlerMode(e) && Frame(d, c, e)
    ensures
      var r := Return(d, e);
      r.pc == c.pc && ReadCpsr(r) == ReadCpsr(c) && r.proc == c.proc && r.banks == d.banks
  {
    var bank := BankOf(d.banks, d.proc.mode);
    assert Wrap(bank.r14 - LinkOffset(e)) == c.pc;
    ReturnEffect(d, e, bank, c.pc);
    BeginKeeps(d);
    StatusRestored(Begin(d).(rb := Begin(d).rb[PC := c.pc]), c);
  }

  // ---------------------------------------------------------------------------------------------
  // Whole runs
  // ---------------------------------------------------------------------------------------------

  /** A well bracketed run keeps the links of every live frame. */
  lemma {:induction false} RunKeepsLinks(run: Run, c: Core, live: set<Mode>, own: set<Mode>)
    requires Bracketed(run, c, live, own)
    ensures SameLinks(c, Final(run, c), live) && Final(run, c).proc.thumb == c.proc.thumb
    decreases run, 0
  {
    match run
    case Done =>
    case Other(next, rest) =>
      RunKeepsLinks(rest, next, live, own);
    case Handle(e, vbar, body, rest) =>
      BracketedHandlerReturns(e, vbar, body, c, live + own);
      RunKeepsLinks(rest, Return(Final(body, Service(c, e, vbar)), e), live, own);
  }

  /** A handler that has its link back in the end returns to the interrupted state, and the links of the frames
      below are what they were. */
  lemma {:induction false} BracketedHandlerReturns(e: Exception, vbar: Word, body: Run, c: Core, frames: set<Mode>)
    requires Enters(c, e, frames) && Handled(Final(body, Service(c, e, vbar)), c, e, vbar)
    requires Bracketed(body, Service(c, e, vbar), frames, {HandlerMode(e)})
    ensures
      var back := Return(Final(body, Service(c, e, vbar)), e);
      && back.pc == c.pc && ReadCpsr(back) == ReadCpsr(c) && back.proc == c.proc
      && SameLinks(c, back, frames)
    decreases body, 1
  {
    var entered := Service(c, e, vbar);
    var left := Final(body, entered);
    EntryLeavesFrame(c, e, vbar);
    RunKeepsLinks(body, entered, frames, {HandlerMode(e)});
    ReturnUndoesEntry(c, left, e);
    forall m | m in frames
      ensures SameLink(c, Return(left, e), m)
    {
      assert SameLink(entered, left, m);
    }
  }

  /** A well bracketed run of exceptions from any known mode ends with the original PC, mode, N, Z, C, V, Q,
      T, I and F. */
  lemma {:induction false} BracketedExceptionsRestore(run: Run, c: Core, live: set<Mode>, own: set<Mode>)
    requires Bracketed(run, c, live, own) && OnlyExceptions(run)
    ensures
      var d := Final(run, c);
      d.pc == c.pc && ReadCpsr(d) == ReadCpsr(c)
  {
    match run
    case Done =>
    case Handle(e, vbar, body, rest) =>
      BracketedHandlerReturns(e, vbar, body, c, live + own);
      BracketedExceptionsRestore(rest, Return(Final(body, Service(c, e, vbar)), e), live, own);
  }

  // ---------------------------------------------------------------------------------------------
  // Runs whose steps leave all links alone
  // ---------------------------------------------------------------------------------------------

  /** Step by step: other steps leave the links of all open frames alone, the current handler's included; no
      exception enters a mode with an open frame; and a handler ends in its mode. That it ends with its link is
      not asked for, but proved. */
  ghost predicate Nested(run: Run, c: Core, frames: set<Mode>) {
    match run
    case Done => true
    case Other(next, rest) =>
      SameLinks(c, next, frames) && next.proc.thumb == c.proc.thumb && Nested(rest, next, frames)
    case Handle(e, vbar, body, rest) =>
      && Enters(c, e, frames)
      && Final(body, Service(c, e, vbar)).proc.mode == HandlerMode(e)
      && Nested(body, Service(c, e, vbar), frames + {HandlerMode(e)})
      && Nested(rest, Return(Final(body, Service(c, e, vbar)), e), frames)
  }

  /** Such runs are well bracketed, whichever of the open frames is the current handler's. */
  lemma {:induction false} NestedIsBracketed(run: Run, c: Core, frames: set<Mode>, live: set<Mode>, own: set<Mode>)
    requires Nested(run, c, frames) && frames == live + own
    ensures Bracketed(run, c, live, own)
    decreases run
  {
    match run
    case Done =>
    case Other(next, rest) =>
      NestedIsBracketed(rest, next, frames, live, own);
    case Handle(e, vbar, body, rest) =>
      var h := HandlerMode(e);
      NestedIsBracketed(body, Service(c, e, vbar), frames + {h}, frames + {h}, {});
      LinkRemains(e, vbar, body, c, frames);
      NestedIsBracketed(body, Service(c, e, vbar), frames + {h}, frames, {h});
      NestedIsBracketed(rest, Return(Final(body, Service(c, e, vbar)), e), frames, live, own);
  }

  /** A handler whose steps keep its link, with any exceptions among them, has it in the end. */
  lemma LinkRemains(e: Exception, vbar: Word, body: Run, c: Core, frames: set<Mode>)
    requires Bracketed(body, Service(c, e, vbar), frames + {HandlerMode(e)}, {})
    requires Final(body, Service(c, e, vbar)).proc.mode == HandlerMode(e)
    ensures Handled(Final(body, Service(c, e, vbar)), c, e, vbar)
  {
    RunKeepsLinks(body, Service(c, e, vbar), frames + {HandlerMode(e)}, {});
    assert HandlerMode(e) in frames + {HandlerMode(e)};
  }

  /** A handled exception comes back to the interrupted state, whatever its handler did apart from the links,
      and whatever further exceptions interrupted it, at any depth. */
  lemma HandledExceptionReturns(e: Exception, vbar: Word, body: Run, c: Core, frames: set<Mode>)
    requires Enters(c, e, frames) && Final(body, Service(c, e, vbar)).proc.mode == HandlerMode(e)
    requires Nested(body, Service(c, e, vbar), frames + {HandlerMode(e)})
    ensures
      var back := Return(Final(body, Service(c, e, vbar)), e);
      && back.pc == c.pc && ReadCpsr(back) == ReadCpsr(c) && back.proc == c.proc
      && SameLinks(c, back, frames)
  {
    var h := HandlerMode(e);
    NestedIsBracketed(body, Service(c, e, vbar), frames + {h}, frames + {h}, {});
    LinkRemains(e, vbar, body, c, frames);
    NestedIsBracketed(body, Service(c, e, vbar), frames + {h}, frames, {h});
    BracketedHandlerReturns(e, vbar, body, c, frames);
  }

  /** A run of nested exceptions from any known mode, whose other steps leave the links of open frames alone,
      ends with the original PC, mode, N, Z, C, V, Q, T, I and F. */
  lemma ExceptionsRestoreState(run: Run, c: Core, frames: set<Mode>)
    requires Nested(run, c, frames) && OnlyExceptions(run)
    ensures
      var d := Final(run, c);
      d.pc == c.pc && ReadCpsr(d) == ReadCpsr(c)
  {
    NestedIsBracketed(run, c, frames, frames, {});
    BracketedExceptionsRestore(run, c, frames, {});
  }

  /** An exception whose handler returns at once. */
  lemma EmptyHandlerIsNested(c: Core, e: Exception, vbar: Word, frames: set<Mode>)
    requires Enters(c, e, frames)
    ensures Nested(Handle(e, vbar, Done, Done), c, frames)
    ensures Final(Handle(e, vbar, Done, Done), c).proc == c.proc
  {
    EntryMasksIrq(c, e, vbar);
    assert Final(Done, Service(c, e, vbar)) == Service(c, e, vbar);
    HandledExceptionReturns(e, vbar, Done, c, frames);
  }

  /** Nested runs exist from every known mode: a supervisor call whose handler suffers a data abort. */
  lemma NestedRunExists(c: Core, vbar: Word)
    requires KnownMode(c.proc.mode)
    ensures Nested(Handle(Swi, vbar, Handle(DataAbort, vbar, Done, Done), Done), c, {})
    ensures Bracketed(Handle(Swi, vbar, Handle(DataAbort, vbar, Done, Done), Done), c, {}, {})
  {
    var entered := Service(c, Swi, vbar);
    EntryMasksIrq(c, Swi, vbar);
    EmptyHandlerIsNested(entered, DataAbort, vbar, {} + {SUPERVISOR});
    HandlingIsNested(Swi, vbar, Handle(DataAbort, vbar, Done, Done), c, {});
    NestedIsBracketed(Handle(Swi, vbar, Handle(DataAbort, vbar, Done, Done), Done), c, {}, {}, {});
  }

  lemma HandlingIsNested(e: Exception, vbar: Word, body: Run, c: Core, frames: set<Mode>)
    requires Enters(c, e, frames) && Final(body, Service(c, e, vbar)).proc.mode == HandlerMode(e)
    requires Nested(body, Service(c, e, vbar), frames + {HandlerMode(e)})
    ensures Nested(Handle(e, vbar, body, Done), c, frames)
  {
  }

  /** Other steps that start with IRQs disabled leave them disabled. */
  predicate KeepsIrqMask(run: Run, c: Core) {
    match run
    case Done => true
    case Other(next, rest) => (c.proc.irq ==> next.proc.irq) && KeepsIrqMask(rest, next)
    case Handle(e, vbar, body, rest) =>
      var entered := Service(c, e, vbar);
      KeepsIrqMask(body, entered) && KeepsIrqMask(rest, Return(Final(body, entered), e))
  }

  /** The run takes an IRQ at some level. */
  predicate TakesIrq(run: Run) {
    match run
    case Done => false
    case Other(_, rest) => TakesIrq(rest)
    case Handle(e, _, body, rest) => e == IrqLine || TakesIrq(body) || TakesIrq(rest)
  }

  /** Unless some step enables IRQs, none is taken once they are disabled, at any depth: handlers start with
      IRQs disabled and their returns do not enable what was disabled before them. */
  lemma {:induction false} BracketedWithoutIrq(run: Run, c: Core, live: set<Mode>, own: set<Mode>)
    requires Bracketed(run, c, live, own) && KeepsIrqMask(run, c) && c.proc.irq
    ensures !TakesIrq(run) && Final(run, c).proc.irq
    decreases run
  {
    match run
    case Done =>
    case Other(next, rest) =>
      BracketedWithoutIrq(rest, next, live, own);
    case Handle(e, vbar, body, rest) =>
      EntryMasksIrq(c, e, vbar);
      BracketedWithoutIrq(body, Service(c, e, vbar), live + own, {HandlerMode(e)});
      BracketedHandlerReturns(e, vbar, body, c, live + own);
      BracketedWithoutIrq(rest, Return(Final(body, Service(c, e, vbar)), e), live, own);
  }

  /** The same for runs whose steps leave all links alone. */
  lemma NoIrqWhileDisabled(run: Run, c: Core, frames: set<Mode>)
    requires Nested(run, c, frames) && KeepsIrqMask(run, c) && c.proc.irq
    ensures !TakesIrq(run) && Final(run, c).proc.irq
  {
    NestedIsBracketed(run, c, frames, frames, {});
    BracketedWithoutIrq(run, c, frames, {});
  }

  /** So an exception handler that does not enable IRQs itself is not interrupted by one. */
  lemma HandlersRunWithoutIrq(e: Exception, vbar: Word, body: Run, c: Core, frames: set<Mode>)
    requires !Masked(c, e)
    requires Nested(body, Service(c, e, vbar), frames) && KeepsIrqMask(body, Service(c, e, vbar))
    ensures !TakesIrq(body)
  {
    EntryMasksIrq(c, e, vbar);
    NoIrqWhileDisabled(body, Service(c, e, vbar), frames);
  }

  // ---------------------------------------------------------------------------------------------
  // Returning by MOVS
  // ---------------------------------------------------------------------------------------------

  /** MOVS pc, lr, for the exceptions whose LR is the return address. */
  function MovReturn(c: Core): Core {
    Step(c, 14, Move(PC, true, ReadRegister(c, LR), c.flags.c))
  }

  lemma MovReturnFlags(c: Core, d: Core, e: Exception)
    requires LinkOffset(e) == 0
    requires KnownMode(c.proc.mode) && d.proc.mode == HandlerMode(e) && Frame(d, c, e)
    ensures
      var f := c.flags;
      var r := MovReturn(d);
      && r.pc == c.pc && r.proc == c.proc
      && r.flags == Flags(Negative(c.pc), c.pc == 0, d.flags.c, f.v, f.q, f.t || c.proc.thumb)
  {
    var b := Begin(d);
    BeginKeeps(d);
    assert ReadRegister(d, LR) == c.pc;
    var returned := WriteCpsr(b, ReadCpsr(c));
    assert SpsrToCpsr(b) == returned && returned.proc == c.proc;
    var flagged := returned.(flags := returned.flags.(n := Negative(c.pc), z := c.pc == 0, c := d.flags.c));
    var w := WriteRegister(flagged, PC, c.pc);
    RegistersAreVariables(flagged, PC, c.pc, PC);
    assert w.proc == c.proc && w.flags == flagged.flags;
    assert MovReturn(d) == Continue(w);
  }

  /** MOVS pc, lr restores the PC and the mode, and all of CPSR exactly when the interrupted N and Z describe
      the return address and the interrupted C is the handler's. */
  lemma MovReturnExactIff(c: Core, d: Core, e: Exception)
    requires LinkOffset(e) == 0
    requires KnownMode(c.proc.mode) && d.proc.mode == HandlerMode(e) && Frame(d, c, e)
    ensures MovReturn(d).pc == c.pc && MovReturn(d).proc == c.proc
    ensures ReadCpsr(MovReturn(d)) == ReadCpsr(c)
            <==> c.flags.n == Negative(c.pc) && c.flags.z == (c.pc == 0) && c.flags.c == d.flags.c
  {
    MovReturnFlags(c, d, e);
  }

  /** Returning so to an instruction that follows a comparison with an equal outcome loses Z. */
  lemma MovReturnLosesZero(c: Core, d: Core)
    requires KnownMode(c.proc.mode) && d.proc.mode == SUPERVISOR && Frame(d, c, Swi)
    requires c.pc == 0x7000_8004 && c.flags.z
    ensures !ReadCpsr(MovReturn(d)).flags.z
  {
    MovReturnFlags(c, d, Swi);
  }
}
