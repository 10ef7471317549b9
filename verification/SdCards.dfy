/**
 The SD card model of armv7/src/sd.cpp: the state machine that a SystemC thread ticks, and the
 commands the host controller sends to it.

 `Card` is the value of all the card's fields, and each operation is first described on that
 value. `SdCard` is the object itself, whose methods update the fields in place and are proved to
 compute exactly those descriptions. `Stopped` stands for the runs the source does not continue:
 `exit(1)`, and accesses outside the mapped image or the 4096-byte data line.
 */
module SdCards {
  import opened Words

  datatype CardState = Idle | Ready | Ident | Stby | Tran | Data | Rcv | Prg | Dis | Ina

  const LINE_SIZE := 4096
  const SCR: seq<Byte> := [0x02, 0x35, 0x80, 0x00, 0x01, 0x00, 0x00, 0x00]

  datatype Card = Card(
    state: CardState,
    singleBlock: bool,
    appSpecific: bool,
    image: seq<Byte>,
    blocklen: int,
    currentBlock: Word,
    dataLine: seq<Byte>,
    busy: bool,
    rca: Half,
    selected: bool,
    busWidth: Byte)

  datatype Progress<+S> = Running(next: S) | Stopped

  /** The bytes of the data line that hold the current block. */
  function LineBlock(c: Card): seq<Byte>
    requires c.blocklen <= |c.dataLine|
  {
    if c.blocklen <= 0 then [] else c.dataLine[..c.blocklen]
  }

  /** DATA state: put the next block on an idle line; `current_block * blocklen` is a 32-bit product. */
  function SendBlock(c: Card): (r: Progress<Card>)
    requires |c.dataLine| == LINE_SIZE
    ensures r.Running? ==> |r.next.dataLine| == LINE_SIZE
  {
    if c.busy then
      Running(c)
    else if !(0 <= c.blocklen <= LINE_SIZE) then
      Stopped
    else
      var offset := Wrap(c.currentBlock * c.blocklen);
      if offset + c.blocklen > |c.image| then
        Stopped
      else
        Running(c.(dataLine := c.image[offset..offset + c.blocklen] + c.dataLine[c.blocklen..],
                currentBlock := Wrap(c.currentBlock + 1),
                busy := true,
                state := if c.singleBlock then Tran else c.state))
  }

  /** One clock cycle of the card thread. */
  function Tick(c: Card): (r: Progress<Card>)
    requires |c.dataLine| == LINE_SIZE
    ensures r.Running? ==> |r.next.dataLine| == LINE_SIZE
  {
    match c.state
    case Data => SendBlock(c)
    case Rcv => Stopped
    case Prg => Stopped
    case _ => Running(c)
  }

  /** Take the block off a busy line and append it to the host's buffer. */
  function TakeBlock(c: Card, buffer: seq<Byte>): Progress<(Card, seq<Byte>)>
    requires |c.dataLine| == LINE_SIZE
  {
    if !c.busy then
      Running((c, buffer))
    else if c.blocklen > LINE_SIZE then
      Stopped
    else
      Running((c.(busy := false), buffer + LineBlock(c)))
  }

  function Select(c: Card, arg: Word): Card {
    if arg / 0x1_0000 == c.rca && c.rca != 0 then
      c.(selected := true,
         state := if c.state == Stby then Tran else if c.state == Dis then Prg else c.state)
    else
      c.(selected := false,
         state := if c.state == Stby || c.state == Tran || c.state == Data then Stby else c.state)
  }

  /** Commands accepted when the previous one was not CMD55. */
  function StandardCommand(c: Card, index: int, arg: Word): (r: Progress<Card>)
    requires |c.dataLine| == LINE_SIZE
    ensures r.Running? ==> |r.next.dataLine| == LINE_SIZE
  {
    match index
    case 0 => Running(c.(state := Idle, busy := false))
    case 2 => Running(if c.state == Ready then c.(state := Ident) else c)
    case 3 => Running(if c.state == Ident || c.state == Stby then c.(state := Stby, rca := 1) else c)
    case 6 =>
      if Negative(arg) then
        Stopped
      else
        Running(c.(blocklen := 64, dataLine := seq(64, _ => 0) + c.dataLine[64..], busy := true))
    case 7 => Running(Select(c, arg))
    case 8 => Running(c)
    case 9 => Running(c)
    case 12 =>
      Running(if c.state == Data then c.(state := Tran) else if c.state == Rcv then c.(state := Prg) else c)
    case 16 =>
      if c.state != Tran then Running(c) else if arg > 4098 then Stopped else Running(c.(blocklen := arg))
    case 17 =>
      Running(if c.state == Tran
              then c.(busy := false, currentBlock := arg, singleBlock := true, state := Data) else c)
    case 18 =>
      Running(if c.state == Tran then c.(currentBlock := arg, singleBlock := false, state := Data) else c)
    case 43 => Running(c)
    case 55 =>
      Running(if c.state != Ready && c.state != Ina && c.state != Ident then c.(appSpecific := true) else c)
    case _ => Stopped
  }

  /** Commands accepted right after CMD55; the flag is consumed even by an unknown command. */
  function ApplicationCommand(c: Card, index: int, arg: Word): (r: Progress<Card>)
    requires |c.dataLine| == LINE_SIZE
    ensures r.Running? ==> |r.next.dataLine| == LINE_SIZE
  {
    var c := c.(appSpecific := false);
    match index
    case 6 => Running(c.(busWidth := arg % 4))
    case 41 => Running(if c.state == Idle then c.(state := Ready) else c)
    case 51 => Running(c.(blocklen := |SCR|, dataLine := SCR + c.dataLine[|SCR|..], busy := true))
    case _ => Stopped
  }

  function Command(c: Card, index: int, arg: Word): (r: Progress<Card>)
    requires |c.dataLine| == LINE_SIZE
    ensures r.Running? ==> |r.next.dataLine| == LINE_SIZE
  {
    if c.appSpecific then ApplicationCommand(c, index, arg) else StandardCommand(c, index, arg)
  }

  /** The card as an object, updated in place. */
  class SdCard {
    var currentState: CardState
    var singleBlock: bool
    var applicationSpecific: bool
    const image: seq<Byte>
    var blocklen: int
    var currentBlock: Word
    const dataLine: array<Byte>
    var dataLineBusy: bool
    var rca: Half
    var cardSelected: bool
    var busWidth: Byte

    ghost predicate Valid()
      reads this
    {
      dataLine.Length == LINE_SIZE
    }

    ghost function View(): Card
      reads this, dataLine
    {
      Card(currentState, singleBlock, applicationSpecific, image, blocklen, currentBlock,
           dataLine[..], dataLineBusy, rca, cardSelected, busWidth)
    }

    /** The block length, current block and transfer kind are left as the memory happened to be. */
    constructor (image: seq<Byte>)
      ensures Valid() && fresh(dataLine)
      ensures PowerOn(View()) && View().image == image
    {
      this.image := image;
      dataLine := new Byte[LINE_SIZE];
      currentState := Idle;
      dataLineBusy := false;
      applicationSpecific := false;
      rca := 0;
      cardSelected := false;
    }

    method ExecStateData() returns (running: bool)
      requires Valid()
      modifies this, dataLine
      ensures Valid() && running == SendBlock(old(View())).Running?
      ensures running ==> View() == SendBlock(old(View())).next
    {
      if dataLineBusy {
        return true;
      }
      var offset := Wrap(currentBlock * blocklen);
      if !(0 <= blocklen <= LINE_SIZE) || offset + blocklen > |image| {
        return false;
      }
      PutBlock(offset);
      return true;
    }

    /** The block at an offset goes on the line. */
    method PutBlock(offset: Word)
      requires Valid() && 0 <= blocklen <= LINE_SIZE && offset + blocklen <= |image|
      modifies this, dataLine
      ensures Valid() && blocklen == old(blocklen)
      ensures dataLine[..] == image[offset..offset + blocklen] + old(dataLine[..])[blocklen..]
      ensures currentBlock == Wrap(old(currentBlock) + 1) && dataLineBusy
      ensures currentState == if singleBlock then Tran else old(currentState)
      ensures singleBlock == old(singleBlock) && applicationSpecific == old(applicationSpecific)
      ensures rca == old(rca) && cardSelected == old(cardSelected) && busWidth == old(busWidth)
    {
      FillLine(image[offset..offset + blocklen]);
      currentBlock := Wrap(currentBlock + 1);
      dataLineBusy := true;
      if singleBlock {
        currentState := Tran;
      }
    }

    method PrcSdcard() returns (running: bool)
      requires Valid()
      modifies this, dataLine
      ensures Valid() && running == Tick(old(View())).Running?
      ensures running ==> View() == Tick(old(View())).next
    {
      running := true;
      match currentState {
        case Data => running := ExecStateData();
        case Rcv => running := false;
        case Prg => running := false;
        case _ =>
      }
    }

    method ReadDataline(buffer: seq<Byte>) returns (running: bool, filled: seq<Byte>)
      requires Valid()
      modifies this`dataLineBusy
      ensures running == TakeBlock(old(View()), buffer).Running?
      ensures running ==> (View(), filled) == TakeBlock(old(View()), buffer).next
    {
      filled := buffer;
      if !dataLineBusy {
        return true, filled;
      }
      if blocklen > LINE_SIZE {
        return false, filled;
      }
      var i := 0;
      while i < blocklen
        invariant 0 <= i && (i <= blocklen || i == 0)
        invariant filled == buffer + dataLine[..i]
      {
        filled := filled + [dataLine[i]];
        i := i + 1;
      }
      dataLineBusy := false;
      return true, filled;
    }

    method ExecCmd(index: int, arg: Word) returns (running: bool)
      requires Valid()
      modifies this, dataLine
      ensures Valid() && running == Command(old(View()), index, arg).Running?
      ensures running ==> View() == Command(old(View()), index, arg).next
    {
      running := true;
      if applicationSpecific {
        applicationSpecific := false;
        match index {
          case 6 => busWidth := arg % 4;
          case 41 => if currentState == Idle { currentState := Ready; }
          case 51 =>
            blocklen := |SCR|;
            FillLine(SCR);
            dataLineBusy := true;
          case _ => running := false;
        }
        return;
      }
      match index {
        case 0 =>
          currentState := Idle;
          dataLineBusy := false;
        case 2 => if currentState == Ready { currentState := Ident; }
        case 3 => if currentState == Ident || currentState == Stby { currentState := Stby; rca := 1; }
        case 6 =>
          if Negative(arg) {
            return false;
          }
          blocklen := 64;
          FillLine(seq(64, _ => 0));
          dataLineBusy := true;
        case 7 => SelectCard(arg);
        case 8 =>
        case 9 =>
        case 12 =>
          if currentState == Data {
            currentState := Tran;
          } else if currentState == Rcv {
            currentState := Prg;
          }
        case 16 =>
          if currentState == Tran {
            if arg > 4098 {
              return false;
            }
            blocklen := arg;
          }
        case 17 =>
          if currentState == Tran {
            dataLineBusy := false;
            currentBlock := arg;
            singleBlock := true;
            currentState := Data;
          }
        case 18 =>
          if currentState == Tran {
            currentBlock := arg;
            singleBlock := false;
            currentState := Data;
          }
        case 43 =>
        case 55 =>
          if currentState != Ready && currentState != Ina && currentState != Ident {
            applicationSpecific := true;
          }
        case _ => running := false;
      }
    }

    method SelectCard(arg: Word)
      modifies this`cardSelected, this`currentState
      ensures View() == Select(old(View()), arg)
    {
      if arg / 0x1_0000 == rca && arg / 0x1_0000 != 0 {
        cardSelected := true;
        if currentState == Stby {
          currentState := Tran;
        } else if currentState == Dis {
          currentState := Prg;
        }
      } else {
        cardSelected := false;
        if currentState == Stby || currentState == Tran || currentState == Data {
          currentState := Stby;
        }
      }
    }

    method FillLine(bytes: seq<Byte>)
      requires Valid() && |bytes| <= LINE_SIZE
      modifies dataLine
      ensures dataLine[..] == bytes + old(dataLine[..])[|bytes|..]
    {
      forall i | 0 <= i < |bytes| {
        dataLine[i] := bytes[i];
      }
    }
  }

  // ---------------------------------------------------------------------------------------------
  // Runs from power-on
  // ---------------------------------------------------------------------------------------------

  datatype Action = Clock | Cmd(index: int, arg: Word) | Take

  predicate PowerOn(c: Card) {
    && c.state == Idle && !c.busy && !c.appSpecific && c.rca == 0 && !c.selected
    && |c.dataLine| == LINE_SIZE
  }

  function Act(c: Card, a: Action): (r: Progress<Card>)
    requires |c.dataLine| == LINE_SIZE
    ensures r.Running? ==> |r.next.dataLine| == LINE_SIZE
  {
    match a
    case Clock => Tick(c)
    case Cmd(index, arg) => Command(c, index, arg)
    case Take =>
      match TakeBlock(c, [])
      case Running(p) => Running(p.0)
      case Stopped => Stopped
  }

  /** The state that a command leads to, among the states that occur. `addressed` says that the upper half of
      the argument is the card's non-zero address. */
  function NextState(state: CardState, application: bool, index: int, addressed: bool): CardState {
    if application then (if index == 41 && state == Idle then Ready else state)
    else if index == 0 then Idle
    else if index == 2 && state == Ready then Ident
    else if index == 3 && state == Ident then Stby
    else if index == 7 && state == Stby then (if addressed then Tran else Stby)
    else if index == 7 && (state == Tran || state == Data) then (if addressed then state else Stby)
    else if (index == 17 || index == 18) && state == Tran then Data
    else if index == 12 && state == Data then Tran
    else state
  }

  /** The state diagram, with what a read command notes and what CMD3, CMD7 and CMD55 do besides. */
  lemma CommandDiagram(c: Card, index: int, arg: Word)
    requires CardInvariant(c) && Command(c, index, arg).Running?
    ensures
      var d := Command(c, index, arg).next;
      var addressed := arg / 0x1_0000 == c.rca && c.rca != 0;
      && d.state == NextState(c.state, c.appSpecific, index, addressed)
      && d.image == c.image
      && (!c.appSpecific && c.state == Tran && (index == 17 || index == 18) ==>
            d.currentBlock == arg && d.singleBlock == (index == 17))
      && d.rca == (if !c.appSpecific && index == 3 && (c.state == Ident || c.state == Stby) then 1 else c.rca)
      && d.selected == (if !c.appSpecific && index == 7 then addressed else c.selected)
      && d.appSpecific == (!c.appSpecific && index == 55 && c.state != Ready && c.state != Ident)
  {
    if c.appSpecific {
      ApplicationDiagram(c, index, arg);
    } else {
      StandardDiagram(c, index, arg);
      StandardNotes(c, index, arg);
    }
  }

  lemma ApplicationDiagram(c: Card, index: int, arg: Word)
    requires CardInvariant(c) && ApplicationCommand(c, index, arg).Running?
    ensures
      var d := ApplicationCommand(c, index, arg).next;
      && d.state == NextState(c.state, true, index, false)
      && d.image == c.image && d.rca == c.rca && d.selected == c.selected && !d.appSpecific
  {
  }

  lemma StandardDiagram(c: Card, index: int, arg: Word)
    requires CardInvariant(c) && !c.appSpecific && StandardCommand(c, index, arg).Running?
    ensures
      var d := StandardCommand(c, index, arg).next;
      var addressed := arg / 0x1_0000 == c.rca && c.rca != 0;
      d.state == NextState(c.state, false, index, addressed)
  {
  }

  lemma StandardNotes(c: Card, index: int, arg: Word)
    requires CardInvariant(c) && !c.appSpecific && StandardCommand(c, index, arg).Running?
    ensures
      var d := StandardCommand(c, index, arg).next;
      var addressed := arg / 0x1_0000 == c.rca && c.rca != 0;
      && d.image == c.image
      && (c.state == Tran && (index == 17 || index == 18) ==> d.currentBlock == arg && d.singleBlock == (index == 17))
      && d.rca == (if index == 3 && (c.state == Ident || c.state == Stby) then 1 else c.rca)
      && d.selected == (if index == 7 then addressed else c.selected)
      && d.appSpecific == (index == 55 && c.state != Ready && c.state != Ident)
  {
  }

  /** What the standard commands do to the data line and the block length. */
  lemma StandardLine(c: Card, index: int, arg: Word)
    requires CardInvariant(c) && !c.appSpecific && StandardCommand(c, index, arg).Running?
    ensures
      var d := StandardCommand(c, index, arg).next;
      && d.busy == (if index == 0 || (index == 17 && c.state == Tran) then false else index == 6 || c.busy)
      && d.blocklen == (if index == 6 then 64 else if index == 16 && c.state == Tran then arg else c.blocklen)
      && (index != 6 ==> d.dataLine == c.dataLine)
      && (!(c.state == Tran && (index == 17 || index == 18)) ==>
            d.currentBlock == c.currentBlock && d.singleBlock == c.singleBlock)
  {
  }

  /** What section 4.8 of the SD Physical Layer Simplified Specification asks of the states. */
  predicate CardInvariant(c: Card) {
    && |c.dataLine| == LINE_SIZE
    && (c.state.Idle? || c.state.Ready? || c.state.Ident? || c.state.Stby? || c.state.Tran? || c.state.Data?)
    && (c.rca == 0 || c.rca == 1)
    && (c.state.Stby? || c.state.Tran? || c.state.Data? ==> c.rca == 1)
    && (c.state.Tran? || c.state.Data? ==> c.selected)
  }

  lemma ApplicationKeepsInvariant(c: Card, index: int, arg: Word)
    requires CardInvariant(c) && ApplicationCommand(c, index, arg).Running?
    ensures CardInvariant(ApplicationCommand(c, index, arg).next)
  {
  }

  lemma StandardKeepsInvariant(c: Card, index: int, arg: Word)
    requires CardInvariant(c) && StandardCommand(c, index, arg).Running?
    ensures CardInvariant(StandardCommand(c, index, arg).next)
  {
  }

  lemma ActKeepsInvariant(c: Card, a: Action)
    requires CardInvariant(c) && Act(c, a).Running?
    ensures CardInvariant(Act(c, a).next)
  {
    if a.Cmd? {
      if c.appSpecific {
        ApplicationKeepsInvariant(c, a.index, a.arg);
      } else {
        StandardKeepsInvariant(c, a.index, a.arg);
      }
    }
  }

  /** The card after a run of clock cycles, commands and line reads, as long as none stops it. */
  function Run(c: Card, actions: seq<Action>): (r: Progress<Card>)
    requires |c.dataLine| == LINE_SIZE
    ensures r.Running? ==> |r.next.dataLine| == LINE_SIZE
  {
    if actions == [] then
      Running(c)
    else
      match Run(c, actions[..|actions| - 1])
      case Stopped => Stopped
      case Running(d) => Act(d, actions[|actions| - 1])
  }

  /** Every run from power-on keeps the states of the specification, and the dispatcher's `exit` arm is
      dead: a clock cycle can only be stopped by a block that does not fit the image or the line. */
  lemma {:induction false} StatesOverRuns(c: Card, actions: seq<Action>)
    requires PowerOn(c) && Run(c, actions).Running?
    ensures CardInvariant(Run(c, actions).next)
    ensures
      var d := Run(c, actions).next;
      Tick(d).Stopped? <==>
        && d.state == Data && !d.busy
        && (!(0 <= d.blocklen <= LINE_SIZE)
            || Wrap(d.currentBlock * d.blocklen) + d.blocklen > |d.image|)
  {
    if actions != [] {
      StatesOverRuns(c, actions[..|actions| - 1]);
      ActKeepsInvariant(Run(c, actions[..|actions| - 1]).next, actions[|actions| - 1]);
    }
  }

  // The identification sequence: how far a state lies along it, and the command that goes one further.

  function Level(s: CardState): nat {
    match s
    case Idle => 0
    case Ready => 1
    case Ident => 2
    case Stby => 3
    case _ => 4
  }

  /** The k-th step of identification: ACMD41, CMD2, CMD3, then CMD7 with the published address. */
  predicate Milestone(k: nat, a: Action) {
    a.Cmd? && match k
              case 0 => a.index == 41
              case 1 => a.index == 2
              case 2 => a.index == 3
              case _ => a.index == 7 && a.arg / 0x1_0000 == 1
  }

  /** The first k milestones occur in the run, in order. */
  predicate Passed(actions: seq<Action>, k: nat) {
    k == 0 || exists j | 0 <= j < |actions| :: Milestone(k - 1, actions[j]) && Passed(actions[..j], k - 1)
  }

  lemma {:induction false} PassedFewer(actions: seq<Action>, k: nat)
    requires k > 0 && Passed(actions, k)
    ensures Passed(actions, k - 1)
  {
    var j :| 0 <= j < |actions| && Milestone(k - 1, actions[j]) && Passed(actions[..j], k - 1);
    PassedLonger(actions[..j], actions[j..], k - 1);
    assert actions[..j] + actions[j..] == actions;
  }

  lemma {:induction false} PassedLonger(actions: seq<Action>, more: seq<Action>, k: nat)
    requires Passed(actions, k)
    ensures Passed(actions + more, k)
  {
    if k > 0 {
      var j :| 0 <= j < |actions| && Milestone(k - 1, actions[j]) && Passed(actions[..j], k - 1);
      assert (actions + more)[j] == actions[j] && (actions + more)[..j] == actions[..j];
    }
  }

  /** A card climbs one level at a time, and only by the command of that level. */
  lemma ClimbsByMilestone(c: Card, a: Action)
    requires CardInvariant(c) && Act(c, a).Running?
    ensures Level(Act(c, a).next.state) <= Level(c.state) + 1
    ensures Level(Act(c, a).next.state) == Level(c.state) + 1 ==> Milestone(Level(c.state), a)
  {
    if a.Cmd? {
      if c.appSpecific {
        assert Act(c, a) == ApplicationCommand(c, a.index, a.arg);
      } else {
        assert Act(c, a) == StandardCommand(c, a.index, a.arg);
      }
    }
  }

  /** A card that reached TRAN or DATA was taken through ACMD41, CMD2, CMD3 and CMD7, in that order,
      whatever else was sent in between. */
  lemma {:induction false} IdentificationOrder(c: Card, actions: seq<Action>)
    requires PowerOn(c) && Run(c, actions).Running?
    ensures Passed(actions, Level(Run(c, actions).next.state))
  {
    if actions != [] {
      var before := actions[..|actions| - 1];
      var last := actions[|actions| - 1];
      var d := Run(c, before).next;
      var e := Run(c, actions).next;
      IdentificationOrder(c, before);
      StatesOverRuns(c, before);
      ClimbsByMilestone(d, last);
      assert before + [last] == actions;
      if Level(e.state) == Level(d.state) + 1 {
        assert actions[|actions| - 1] == last && actions[..|actions| - 1] == before;
      } else {
        PassedLonger(before, [last], Level(d.state));
        PassedDown(actions, Level(d.state), Level(e.state));
      }
    }
  }

  lemma {:induction false} PassedDown(actions: seq<Action>, k: nat, m: nat)
    requires Passed(actions, k) && m <= k
    ensures Passed(actions, m)
  {
    if m < k {
      PassedFewer(actions, k);
      PassedDown(actions, k - 1, m);
    }
  }
}
