/**
 The general purpose timer of armv7/src/gpt.cpp: each clock cycle runs a prescaler counter, and each
 prescaler tick compares and advances the 32-bit counter.

 `Timer` is the value of the fields a cycle depends on; `Gpt` is the object, updated in place. The
 theorems say where a run of any number of cycles ends.
 */
module Gpts {
  import opened Words

  datatype ClockSource = Off | Peripheral | HighFrequency | External | LowFrequency | Undocumented
  datatype CounterMode = Restart | FreeRun
  datatype PinMode = Disconnected | Toggle | Clear | Set | LowPulse | Reserved

  /** The status register, and the enable bits of the interrupt register for the same events. */
  datatype Flags = Flags(of1: bool, of2: bool, of3: bool, if1: bool, if2: bool, rov: bool)

  /** What only register writes change. */
  datatype Control = Control(
    enabled: bool, source: ClockSource, mode: CounterMode, prescaler: Word,
    ocr1: Word, ocr2: Word, ocr3: Word, om1: PinMode, om2: PinMode, om3: PinMode,
    interruptEnable: Flags)

  /** What compare events change. */
  datatype Outputs = Outputs(pin1: bool, pin2: bool, pin3: bool, status: Flags, irqDeasserted: bool)

  datatype Timer = Timer(control: Control, prescalerCounter: Word, counter: Word, out: Outputs)

  function DrivePin(pin: bool, mode: PinMode): bool {
    match mode
    case Toggle => !pin
    case Clear => false
    case Set => true
    case LowPulse => false
    case _ => pin
  }

  predicate AnyEnabled(status: Flags, enable: Flags) {
    || (status.of1 && enable.of1) || (status.of2 && enable.of2) || (status.of3 && enable.of3)
    || (status.if1 && enable.if1) || (status.if2 && enable.if2) || (status.rov && enable.rov)
  }

  /** Compare events: only the first channel that matches is served. */
  function Compare(c: Control, counter: Word, out: Outputs): Outputs {
    Serve(c, counter, if counter == 0xFFFF_FFFF then out.(status := out.status.(rov := true)) else out)
  }

  function Serve(c: Control, counter: Word, o: Outputs): Outputs {
    if counter == c.ocr1 then o.(status := o.status.(of1 := true), pin1 := DrivePin(o.pin1, c.om1))
    else if counter == c.ocr2 then o.(status := o.status.(of2 := true), pin2 := DrivePin(o.pin2, c.om2))
    else if counter == c.ocr3 then o.(status := o.status.(of3 := true), pin3 := DrivePin(o.pin3, c.om3))
    else o
  }

  function Advance(c: Control, counter: Word): Word {
    if (c.mode == Restart && counter == c.ocr1) || counter == 0xFFFF_FFFF then 0 else counter + 1
  }

  function DriveInterrupt(c: Control, out: Outputs): Outputs {
    out.(irqDeasserted := !AnyEnabled(out.status, c.interruptEnable))
  }

  predicate Counting(t: Timer) {
    t.control.enabled && t.control.source != Off && t.control.source != External
  }

  /** The prescaler ticks when its counter reaches the programmed value; past 4096 it just starts over. */
  function Prescale(t: Timer): Word {
    if t.prescalerCounter == t.control.prescaler || t.prescalerCounter >= 4096 then 0 else t.prescalerCounter + 1
  }

  /** One clock cycle. */
  function Cycle(t: Timer): Timer {
    if !Counting(t) then
      t
    else if t.prescalerCounter == t.control.prescaler then
      Timer(t.control, Prescale(t), Advance(t.control, t.counter),
            DriveInterrupt(t.control, Compare(t.control, t.counter, t.out)))
    else
      t.(prescalerCounter := Prescale(t))
  }

  class Gpt {
    var enabled: bool
    var clockSource: ClockSource
    var counterMode: CounterMode
    var prescaler: Word
    var prescalerCounter: Word
    var counter: Word
    var ocr1: Word
    var ocr2: Word
    var ocr3: Word
    var om1: PinMode
    var om2: PinMode
    var om3: PinMode
    var cmpOut1: bool
    var cmpOut2: bool
    var cmpOut3: bool
    var sr: Flags
    var ir: Flags
    var irqDeasserted: bool

    ghost function ControlView(): Control
      reads this
    {
      Control(enabled, clockSource, counterMode, prescaler, ocr1, ocr2, ocr3, om1, om2, om3, ir)
    }

    ghost function OutputsView(): Outputs
      reads this
    {
      Outputs(cmpOut1, cmpOut2, cmpOut3, sr, irqDeasserted)
    }

    ghost function View(): Timer
      reads this
    {
      Timer(ControlView(), prescalerCounter, counter, OutputsView())
    }

    /** The state after a hard reset. */
    constructor ()
      ensures !Counting(View()) && counter == 0 && prescaler == 0 && prescalerCounter == 0
      ensures counterMode == Restart && om1 == om2 == om3 == Disconnected
      ensures ocr1 == ocr2 == ocr3 == 0xFFFF_FFFF && !cmpOut1 && !cmpOut2 && !cmpOut3
      ensures sr == ir == Flags(false, false, false, false, false, false)
    {
      enabled, clockSource, counterMode := false, Off, Restart;
      prescaler, prescalerCounter, counter := 0, 0, 0;
      om1, om2, om3 := Disconnected, Disconnected, Disconnected;
      cmpOut1, cmpOut2, cmpOut3 := false, false, false;
      ocr1, ocr2, ocr3 := 0xFFFF_FFFF, 0xFFFF_FFFF, 0xFFFF_FFFF;
      sr := Flags(false, false, false, false, false, false);
      ir := Flags(false, false, false, false, false, false);
    }

    method CompareCounter()
      modifies this`sr, this`cmpOut1, this`cmpOut2, this`cmpOut3
      ensures OutputsView() == Compare(ControlView(), counter, old(OutputsView()))
    {
      if counter == 0xFFFF_FFFF {
        sr := sr.(rov := true);
      }
      if counter == ocr1 {
        sr := sr.(of1 := true);
        cmpOut1 := DrivePin(cmpOut1, om1);
      } else if counter == ocr2 {
        sr := sr.(of2 := true);
        cmpOut2 := DrivePin(cmpOut2, om2);
      } else if counter == ocr3 {
        sr := sr.(of3 := true);
        cmpOut3 := DrivePin(cmpOut3, om3);
      }
    }

    method UpdateCounter()
      modifies this`counter
      ensures counter == Advance(ControlView(), old(counter))
    {
      if counterMode == Restart && counter == ocr1 {
        counter := 0;
      } else if counter == 0xFFFF_FFFF {
        counter := 0;
      } else {
        counter := counter + 1;
      }
    }

    /** Compare, count, and drive the interrupt line. */
    method ServeTick()
      modifies this`sr, this`cmpOut1, this`cmpOut2, this`cmpOut3, this`counter, this`irqDeasserted
      ensures counter == Advance(ControlView(), old(counter))
      ensures OutputsView() == DriveInterrupt(ControlView(), Compare(ControlView(), old(counter), old(OutputsView())))
    {
      CompareCounter();
      UpdateCounter();
      irqDeasserted := !AnyEnabled(sr, ir);
    }

    method AdvancePrescaler() returns (tick: bool)
      modifies this`prescalerCounter
      ensures tick <==> old(prescalerCounter) == prescaler
      ensures prescalerCounter == Prescale(old(View()))
    {
      tick := false;
      if prescalerCounter == prescaler {
        tick := true;
        prescalerCounter := 0;
      } else if prescalerCounter >= 4096 {
        prescalerCounter := 0;
      } else {
        prescalerCounter := prescalerCounter + 1;
      }
    }

    /** One turn of the timer thread's loop. */
    method PrcGpt()
      modifies this
      ensures View() == Cycle(old(View()))
    {
      if !enabled || clockSource == Off || clockSource == External {
        return;
      }
      var prescalerTick := AdvancePrescaler();
      if prescalerTick {
        ServeTick();
      }
    }
  }

  // ---------------------------------------------------------------------------------------------
  // Runs without register writes
  // ---------------------------------------------------------------------------------------------

  /** The timer after n cycles. */
  function After(t: Timer, n: nat): Timer {
    if n == 0 then t else Cycle(After(t, n - 1))
  }

  datatype Channel = One | Two | Three

  /** The compare value, pin mode, pin and status bit of a channel. */
  function Ocr(c: Control, ch: Channel): Word {
    match ch case One => c.ocr1 case Two => c.ocr2 case Three => c.ocr3
  }

  function Mode(c: Control, ch: Channel): PinMode {
    match ch case One => c.om1 case Two => c.om2 case Three => c.om3
  }

  function Pin(o: Outputs, ch: Channel): bool {
    match ch case One => o.pin1 case Two => o.pin2 case Three => o.pin3
  }

  function StatusBit(o: Outputs, ch: Channel): bool {
    match ch case One => o.status.of1 case Two => o.status.of2 case Three => o.status.of3
  }

  /** The count matches the channel, and no channel before it. */
  predicate Served(c: Control, counter: Word, ch: Channel) {
    && counter == Ocr(c, ch)
    && (ch != One ==> counter != c.ocr1)
    && (ch == Three ==> counter != c.ocr2)
  }

  /** A cycle raises the channel's compare event. */
  predicate Fires(t: Timer, ch: Channel) {
    Counting(t) && t.prescalerCounter == t.control.prescaler && Served(t.control, t.counter, ch)
  }

  function Events(t: Timer, ch: Channel, n: nat): nat {
    if n == 0 then 0 else Events(t, ch, n - 1) + (if Fires(After(t, n - 1), ch) then 1 else 0)
  }

  /** A run from zeroed counters. */
  predicate Fresh(t: Timer) {
    Counting(t) && t.prescalerCounter == 0 && t.counter == 0
  }

  lemma {:induction false} ConfigurationKept(t: Timer, n: nat)
    ensures After(t, n).control == t.control
  {
    if n > 0 {
      ConfigurationKept(t, n - 1);
    }
  }

  /** The prescaler divides the clock by P + 1, provided P does not exceed 4096. */
  lemma {:induction false} PrescalerDivides(t: Timer, n: nat)
    requires Fresh(t) && t.control.prescaler <= 4096
    ensures After(t, n).prescalerCounter == n % (t.control.prescaler + 1)
  {
    if n > 0 {
      PrescalerDivides(t, n - 1);
      ConfigurationKept(t, n - 1);
      NextModulo(n - 1, t.control.prescaler + 1);
    }
  }

  /** The counter after k prescaler ticks, and the ticks among them that raised the channel's event. */
  function Counted(c: Control, k: nat): Word {
    if k == 0 then 0 else Advance(c, Counted(c, k - 1))
  }

  function Matches(c: Control, ch: Channel, k: nat): nat {
    if k == 0 then 0 else Matches(c, ch, k - 1) + (if Served(c, Counted(c, k - 1), ch) then 1 else 0)
  }

  lemma CycleCounts(t: Timer)
    requires Counting(t)
    ensures
      if t.prescalerCounter == t.control.prescaler
      then Cycle(t).counter == Advance(t.control, t.counter) else Cycle(t).counter == t.counter
  {
  }

  /** Prescaler ticks in n cycles. */
  function Ticks(c: Control, n: nat): nat {
    n / (c.prescaler + 1)
  }

  /** A prescaler period ends with the cycle that finds its counter at P. */
  lemma NextTick(c: Control, n: nat)
    ensures Ticks(c, n + 1) == Ticks(c, n) + (if n % (c.prescaler + 1) == c.prescaler then 1 else 0)
  {
    NextModulo(n, c.prescaler + 1);
  }

  /** One cycle, with or without a prescaler tick. */
  lemma CycleTicks(u: Timer, c: Control, ch: Channel, k: nat, tick: bool)
    requires Counting(u) && u.control == c && u.counter == Counted(c, k)
    requires tick == (u.prescalerCounter == c.prescaler)
    ensures Cycle(u).counter == Counted(c, if tick then k + 1 else k)
    ensures Matches(c, ch, if tick then k + 1 else k) == Matches(c, ch, k) + (if Fires(u, ch) then 1 else 0)
  {
    CycleCounts(u);
  }

  /** The prescaler ticks that a run has seen. */
  function TicksSeen(t: Timer, n: nat): nat {
    if n == 0 then 0
    else TicksSeen(t, n - 1) + (if After(t, n - 1).prescalerCounter == t.control.prescaler then 1 else 0)
  }

  lemma {:induction false} TicksSeenAreQuotient(t: Timer, n: nat)
    requires Fresh(t) && t.control.prescaler <= 4096
    ensures TicksSeen(t, n) == Ticks(t.control, n)
  {
    if n > 0 {
      TicksSeenAreQuotient(t, n - 1);
      PrescalerDivides(t, n - 1);
      NextTick(t.control, n - 1);
    }
  }

  /** The counter counts, and events are raised, with the prescaler's ticks only. */
  lemma {:induction false} CountsOncePerTick(t: Timer, ch: Channel, n: nat)
    requires Counting(t) && t.counter == 0
    ensures After(t, n).counter == Counted(t.control, TicksSeen(t, n))
    ensures Events(t, ch, n) == Matches(t.control, ch, TicksSeen(t, n))
  {
    if n > 0 {
      CountsOncePerTick(t, ch, n - 1);
      ConfigurationKept(t, n - 1);
      var u := After(t, n - 1);
      CycleTicks(u, t.control, ch, TicksSeen(t, n - 1), u.prescalerCounter == t.control.prescaler);
    }
  }

  /** Only every (P + 1)-th cycle counts. */
  lemma CountsOncePerPeriod(t: Timer, ch: Channel, n: nat)
    requires Fresh(t) && t.control.prescaler <= 4096
    ensures After(t, n).counter == Counted(t.control, Ticks(t.control, n))
    ensures Events(t, ch, n) == Matches(t.control, ch, Ticks(t.control, n))
  {
    CountsOncePerTick(t, ch, n);
    TicksSeenAreQuotient(t, n);
  }

  /** The length of the counter's round, in ticks. */
  function Round(c: Control): nat {
    if c.mode == Restart then c.ocr1 + 1 else WORD_MOD
  }

  lemma {:induction false} CounterGoesRound(c: Control, k: nat)
    ensures Counted(c, k) == k % Round(c)
  {
    if k > 0 {
      CounterGoesRound(c, k - 1);
      NextModulo(k - 1, Round(c));
    }
  }

  /** The count v is the last one of a round shifted by what follows v. */
  lemma LastOfShiftedRound(k: nat, round: nat, v: nat)
    requires v < round
    ensures (k + (round - 1 - v)) % round == round - 1 <==> k % round == v
  {
    var d, m := k / round, k % round;
    assert k == d * round + m;
    if m <= v {
      DivModUnique(k + (round - 1 - v), round, d, m + (round - 1 - v));
    } else {
      assert (d + 1) * round == d * round + round;
      DivModUnique(k + (round - 1 - v), round, d + 1, m - 1 - v);
    }
  }

  /** The counter reaches the channel's value, and no channel before it has the same one. */
  predicate Reached(c: Control, ch: Channel) {
    Ocr(c, ch) < Round(c) && Served(c, Ocr(c, ch), ch)
  }

  /** The events of a channel among k ticks. */
  function EventCount(c: Control, ch: Channel, k: nat): nat {
    if Reached(c, ch) then (k + (Round(c) - 1 - Ocr(c, ch))) / Round(c) else 0
  }

  lemma {:induction false} ChannelMatches(c: Control, ch: Channel, k: nat)
    ensures Matches(c, ch, k) == EventCount(c, ch, k)
  {
    if k > 0 {
      ChannelMatches(c, ch, k - 1);
      CounterGoesRound(c, k - 1);
      if Reached(c, ch) {
        NextModulo(k - 1 + (Round(c) - 1 - Ocr(c, ch)), Round(c));
        LastOfShiftedRound(k - 1, Round(c), Ocr(c, ch));
      }
    } else if Reached(c, ch) {
      DivModUnique(Round(c) - 1 - Ocr(c, ch), Round(c), 0, Round(c) - 1 - Ocr(c, ch));
    }
  }

  /** After n cycles, in either mode: where the counter stands in its round, and how often each channel has
      fired. A channel fires once per round if its value is reached and no earlier channel has it, and
      otherwise never. */
  lemma ChannelEvents(t: Timer, ch: Channel, n: nat)
    requires Fresh(t) && t.control.prescaler <= 4096
    ensures After(t, n).counter == Ticks(t.control, n) % Round(t.control)
    ensures Events(t, ch, n) == EventCount(t.control, ch, Ticks(t.control, n))
  {
    CountsOncePerPeriod(t, ch, n);
    CounterGoesRound(t.control, Ticks(t.control, n));
    ChannelMatches(t.control, ch, Ticks(t.control, n));
  }

  lemma SameQuotient(a: nat, b: nat, p: nat)
    requires a == b && p > 0
    ensures a / p == b / p
  {
  }

  lemma RestartEventCount(c: Control, ch: Channel, k: nat)
    requires c.mode == Restart
    ensures
      EventCount(c, ch, k) ==
      if ch == One then k / (c.ocr1 + 1)
      else if Ocr(c, ch) < c.ocr1 && (ch == Three ==> c.ocr3 != c.ocr2)
        then (k + (c.ocr1 - Ocr(c, ch))) / (c.ocr1 + 1)
      else 0
  {
    var v := Ocr(c, ch);
    if v <= c.ocr1 {
      SameQuotient(k + (Round(c) - 1 - v), if ch == One then k else k + (c.ocr1 - v), c.ocr1 + 1);
    }
  }

  /** In restart mode the counter runs modulo OCR1 + 1, once every P + 1 cycles. Channel 1 has
      fired once for every full round; channels 2 and 3 fire once a round if their values lie below OCR1, except
      that 3 does not fire in place of 2. */
  lemma RestartCounts(t: Timer, ch: Channel, n: nat)
    requires Fresh(t) && t.control.prescaler <= 4096 && t.control.mode == Restart
    ensures
      var c := t.control;
      var k := Ticks(c, n);
      && After(t, n).counter == k % (c.ocr1 + 1)
      && Events(t, ch, n) ==
         if ch == One then k / (c.ocr1 + 1)
         else if Ocr(c, ch) < c.ocr1 && (ch == Three ==> c.ocr3 != c.ocr2)
           then (k + (c.ocr1 - Ocr(c, ch))) / (c.ocr1 + 1)
         else 0
  {
    ChannelEvents(t, ch, n);
    RestartEventCount(t.control, ch, Ticks(t.control, n));
  }

  /** The same number of events as one division: the timer's period is (P + 1) * (OCR1 + 1) cycles. */
  lemma RestartPeriod(t: Timer, n: nat)
    requires Fresh(t) && t.control.prescaler <= 4096 && t.control.mode == Restart
    ensures (t.control.prescaler + 1) * (t.control.ocr1 + 1) > 0
    ensures Events(t, One, n) == n / ((t.control.prescaler + 1) * (t.control.ocr1 + 1))
  {
    RestartCounts(t, One, n);
    DivDiv(n, t.control.prescaler + 1, t.control.ocr1 + 1);
  }

  /** In free-run mode the counter runs modulo 2^32, and compare event 1 fires once per 2^32 ticks. */
  lemma FreeRunCounts(t: Timer, n: nat)
    requires Fresh(t) && t.control.prescaler <= 4096 && t.control.mode == FreeRun
    ensures After(t, n).counter == Ticks(t.control, n) % WORD_MOD
    ensures Events(t, One, n) == (Ticks(t.control, n) + (WORD_MOD - 1 - t.control.ocr1)) / WORD_MOD
  {
    ChannelEvents(t, One, n);
  }

  /** A prescaler above 4096 is never reached: the counter stands still and nothing fires. */
  lemma {:induction false} LargePrescalerNeverTicks(t: Timer, ch: Channel, n: nat)
    requires Fresh(t) && t.control.prescaler > 4096
    ensures After(t, n) == t.(prescalerCounter := After(t, n).prescalerCounter)
    ensures After(t, n).prescalerCounter <= 4096 && Events(t, ch, n) == 0
  {
    if n > 0 {
      LargePrescalerNeverTicks(t, ch, n - 1);
    }
  }

  lemma CompareDrivesPin(c: Control, counter: Word, o: Outputs, ch: Channel)
    requires Mode(c, ch) == Toggle
    ensures Pin(Compare(c, counter, o), ch) == (Pin(o, ch) != Served(c, counter, ch))
    ensures StatusBit(Compare(c, counter, o), ch) == (StatusBit(o, ch) || Served(c, counter, ch))
  {
  }

  lemma CycleDrivesPin(t: Timer, ch: Channel)
    requires Mode(t.control, ch) == Toggle
    ensures Pin(Cycle(t).out, ch) == (Pin(t.out, ch) != Fires(t, ch))
    ensures StatusBit(Cycle(t).out, ch) == (StatusBit(t.out, ch) || Fires(t, ch))
  {
    CompareDrivesPin(t.control, t.counter, t.out, ch);
  }

  /** With a channel's pin set to toggle, its level is the parity of the channel's compare events: a square
      wave. The status bit tells whether there was one. */
  lemma {:induction false} ToggledPin(t: Timer, ch: Channel, n: nat)
    requires Mode(t.control, ch) == Toggle
    ensures Pin(After(t, n).out, ch) == (Pin(t.out, ch) == (Events(t, ch, n) % 2 == 0))
    ensures StatusBit(After(t, n).out, ch) == (StatusBit(t.out, ch) || Events(t, ch, n) > 0)
  {
    if n > 0 {
      ToggledPin(t, ch, n - 1);
      ConfigurationKept(t, n - 1);
      CycleDrivesPin(After(t, n - 1), ch);
    }
  }

  // ---------------------------------------------------------------------------------------------
  // Outputs
  // ---------------------------------------------------------------------------------------------

  /** The timer stands still while it is disabled, without a clock, or on the external one; on all others its
      prescaler moves. */
  lemma StandsStillIff(t: Timer)
    requires t.control.prescaler > 0
    ensures Cycle(t) == t <==> !t.control.enabled || t.control.source == Off || t.control.source == External
  {
  }

  /** A prescaler tick sets the rollover bit at the largest count; it leaves the capture bits alone. */
  lemma TickRollsOver(c: Control, counter: Word, o: Outputs)
    ensures
      var p := Compare(c, counter, o);
      && p.status.rov == (o.status.rov || counter == 0xFFFF_FFFF)
      && p.status.if1 == o.status.if1 && p.status.if2 == o.status.if2
  {
    ServingKeeps(c, counter, if counter == 0xFFFF_FFFF then o.(status := o.status.(rov := true)) else o);
  }

  lemma ServingKeeps(c: Control, counter: Word, o: Outputs)
    ensures
      var p := Serve(c, counter, o);
      p.status.rov == o.status.rov && p.status.if1 == o.status.if1 && p.status.if2 == o.status.if2
  {
    if counter == c.ocr1 {
      ServingOneKeeps(o, DrivePin(o.pin1, c.om1));
    } else if counter == c.ocr2 {
      ServingTwoKeeps(o, DrivePin(o.pin2, c.om2));
    } else if counter == c.ocr3 {
      ServingThreeKeeps(o, DrivePin(o.pin3, c.om3));
    }
  }

  predicate SameOthers(f: Flags, g: Flags) {
    g.rov == f.rov && g.if1 == f.if1 && g.if2 == f.if2
  }

  lemma ServingOneKeeps(o: Outputs, pin: bool)
    ensures SameOthers(o.status, o.(status := o.status.(of1 := true), pin1 := pin).status)
  {
  }

  lemma ServingTwoKeeps(o: Outputs, pin: bool)
    ensures SameOthers(o.status, o.(status := o.status.(of2 := true), pin2 := pin).status)
  {
  }

  lemma ServingThreeKeeps(o: Outputs, pin: bool)
    ensures SameOthers(o.status, o.(status := o.status.(of3 := true), pin3 := pin).status)
  {
  }

  /** It sets the status bit of the served channel, and drives its pin as the pin's mode says. */
  lemma TickStatus(c: Control, counter: Word, o: Outputs, ch: Channel)
    ensures StatusBit(Compare(c, counter, o), ch) == (StatusBit(o, ch) || Served(c, counter, ch))
  {
    match ch
    case One =>
      assert Compare(c, counter, o).status.of1 == (o.status.of1 || counter == c.ocr1);
    case Two =>
      assert Compare(c, counter, o).status.of2 == (o.status.of2 || (counter != c.ocr1 && counter == c.ocr2));
    case Three =>
      assert Compare(c, counter, o).status.of3
             == (o.status.of3 || (counter != c.ocr1 && counter != c.ocr2 && counter == c.ocr3));
  }

  lemma TickPins(c: Control, counter: Word, o: Outputs, ch: Channel)
    ensures
      var p := Pin(Compare(c, counter, o), ch);
      && (!Served(c, counter, ch) || Mode(c, ch) == Disconnected || Mode(c, ch) == Reserved ==> p == Pin(o, ch))
      && (Served(c, counter, ch) && Mode(c, ch) == Toggle ==> p == !Pin(o, ch))
      && (Served(c, counter, ch) && Mode(c, ch) == Set ==> p)
      && (Served(c, counter, ch) && (Mode(c, ch) == Clear || Mode(c, ch) == LowPulse) ==> !p)
  {
    var q := if counter == 0xFFFF_FFFF then o.(status := o.status.(rov := true)) else o;
    assert Pin(q, ch) == Pin(o, ch);
    DrivenPin(Pin(o, ch));
    match ch
    case One =>
      assert Pin(Compare(c, counter, o), One) == if counter == c.ocr1 then DrivePin(q.pin1, c.om1) else q.pin1;
    case Two =>
      assert Pin(Compare(c, counter, o), Two)
             == if counter != c.ocr1 && counter == c.ocr2 then DrivePin(q.pin2, c.om2) else q.pin2;
    case Three =>
      assert Pin(Compare(c, counter, o), Three)
             == if counter != c.ocr1 && counter != c.ocr2 && counter == c.ocr3 then DrivePin(q.pin3, c.om3) else q.pin3;
  }

  lemma DrivenPin(pin: bool)
    ensures DrivePin(pin, Disconnected) == DrivePin(pin, Reserved) == pin && DrivePin(pin, Toggle) == !pin
    ensures DrivePin(pin, Set) && !DrivePin(pin, Clear) && !DrivePin(pin, LowPulse)
  {
  }

  /** The events by their bit numbers in the status and the interrupt register. */
  function EventBits(f: Flags): set<nat> {
    (if f.of1 then {0} else {}) + (if f.of2 then {1} else {}) + (if f.of3 then {2} else {})
    + (if f.if1 then {3} else {}) + (if f.if2 then {4} else {}) + (if f.rov then {5} else {})
  }

  lemma AnyEnabledIff(status: Flags, enable: Flags)
    ensures AnyEnabled(status, enable) <==> EventBits(status) * EventBits(enable) != {}
  {
    var both := EventBits(status) * EventBits(enable);
    if AnyEnabled(status, enable) {
      var k := if status.of1 && enable.of1 then 0 else if status.of2 && enable.of2 then 1
               else if status.of3 && enable.of3 then 2 else if status.if1 && enable.if1 then 3
               else if status.if2 && enable.if2 then 4 else 5;
      assert k in both;
    } else {
      assert both == {};
    }
  }

  lemma CycleDrivesLine(t: Timer)
    ensures
      if Counting(t) && t.prescalerCounter == t.control.prescaler
      then Cycle(t).out.irqDeasserted == !AnyEnabled(Cycle(t).out.status, t.control.interruptEnable)
      else Cycle(t).out == t.out
  {
  }

  /** From the first prescaler tick on, the interrupt line is asserted exactly while some event is both in the
      status register and enabled. */
  lemma {:induction false} InterruptLine(t: Timer, n: nat)
    requires Counting(t) && TicksSeen(t, n) > 0
    ensures
      var o := After(t, n).out;
      !o.irqDeasserted <==> EventBits(o.status) * EventBits(t.control.interruptEnable) != {}
  {
    var u := After(t, n - 1);
    ConfigurationKept(t, n - 1);
    CycleDrivesLine(u);
    if u.prescalerCounter == t.control.prescaler {
      AnyEnabledIff(After(t, n).out.status, t.control.interruptEnable);
    } else {
      InterruptLine(t, n - 1);
    }
  }
}
