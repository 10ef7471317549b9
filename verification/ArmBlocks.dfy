/**
 Load and store multiple (armv7/src/arm_isa.cpp:1087-1135, 1672-1725, 2484-2519) over a byte memory whose
 words are little-endian, as armv7/src/ram.cpp:47-75 has them. Addresses wrap at 2^32.
 */
module ArmBlocks {
  import opened Words
  import opened ArmCores

  // ---------------------------------------------------------------------------------------------
  // Memory
  // ---------------------------------------------------------------------------------------------

  /** Bytes that were never written are zero. */
  datatype Memory = Memory(bytes: map<Word, Byte>)

  function ByteAt(m: Memory, a: Word): Byte {
    if a in m.bytes then m.bytes[a] else 0
  }

  /** Addition and subtraction of words, with the wrap written out. */
  function Plus(a: Word, b: Word): Word {
    if a + b < WORD_MOD then a + b else a + b - WORD_MOD
  }

  function Minus(a: Word, b: Word): Word {
    if a >= b then a - b else a - b + WORD_MOD
  }

  /** They are addition and subtraction modulo 2^32. */
  lemma PlusAndMinusWrap(a: Word, b: Word)
    ensures Plus(a, b) == Wrap(a + b) && Minus(a, b) == Wrap(a - b)
  {
  }

  function ReadWord(m: Memory, a: Word): Word {
    ByteAt(m, a) + 0x100 * (ByteAt(m, Plus(a, 1)) + 0x100 * (ByteAt(m, Plus(a, 2)) + 0x100 * ByteAt(m, Plus(a, 3))))
  }

  function WriteWord(m: Memory, a: Word, w: Word): Memory {
    var b := BytesOf(w);
    Memory(m.bytes[a := b.b0][Plus(a, 1) := b.b1][Plus(a, 2) := b.b2][Plus(a, 3) := b.b3])
  }

  lemma WrittenWordReadBack(m: Memory, a: Word, w: Word)
    ensures ReadWord(WriteWord(m, a, w), a) == w
  {
    var b := BytesOf(w);
    var n := WriteWord(m, a, w);
    assert ByteAt(n, a) == b.b0 && ByteAt(n, Plus(a, 1)) == b.b1;
    assert ByteAt(n, Plus(a, 2)) == b.b2 && ByteAt(n, Plus(a, 3)) == b.b3;
    BytesAreWords(w, b);
  }

  lemma NextByte(start: Word, off: nat, k: nat)
    requires off + k < WORD_MOD
    ensures Plus(Plus(start, off), k) == Plus(start, off + k)
  {
  }

  lemma PlusInjective(start: Word, o: Word, p: Word)
    requires o != p
    ensures Plus(start, o) != Plus(start, p)
  {
  }

  /** Words lie in memory low byte first. */
  lemma WordsAreLittleEndian(m: Memory, a: Word, w: Word)
    ensures
      var n := WriteWord(m, a, w);
      && ByteAt(n, a) == w % 0x100 && ByteAt(n, Wrap(a + 1)) == w / 0x100 % 0x100
      && ByteAt(n, Wrap(a + 2)) == w / 0x100 / 0x100 % 0x100 && ByteAt(n, Wrap(a + 3)) == w / 0x100 / 0x100 / 0x100
  {
    PlusAndMinusWrap(a, 1);
    PlusAndMinusWrap(a, 2);
    PlusAndMinusWrap(a, 3);
  }

  /** A word written at one offset from `start` leaves the bytes at other offsets alone. */
  lemma WriteIsLocal(m: Memory, start: Word, off: nat, w: Word, other: nat)
    requires off + 4 <= WORD_MOD && other < WORD_MOD && !(off <= other < off + 4)
    ensures ByteAt(WriteWord(m, Plus(start, off), w), Plus(start, other)) == ByteAt(m, Plus(start, other))
  {
    var a := Plus(start, off);
    NextByte(start, off, 1);
    NextByte(start, off, 2);
    NextByte(start, off, 3);
    PlusInjective(start, off, other);
    PlusInjective(start, off + 1, other);
    PlusInjective(start, off + 2, other);
    PlusInjective(start, off + 3, other);
    OtherByteKept(m, a, w, Plus(start, other));
  }

  lemma OtherByteKept(m: Memory, a: Word, w: Word, x: Word)
    requires x != a && x != Plus(a, 1) && x != Plus(a, 2) && x != Plus(a, 3)
    ensures ByteAt(WriteWord(m, a, w), x) == ByteAt(m, x)
  {
  }

  /** A word is read from the four bytes at its offset. */
  lemma ReadIsLocal(m: Memory, n: Memory, start: Word, off: nat)
    requires off + 4 <= WORD_MOD
    requires forall o: nat :: off <= o < off + 4 ==> ByteAt(m, Plus(start, o)) == ByteAt(n, Plus(start, o))
    ensures ReadWord(m, Plus(start, off)) == ReadWord(n, Plus(start, off))
  {
    NextByte(start, off, 1);
    NextByte(start, off, 2);
    NextByte(start, off, 3);
  }

  // ---------------------------------------------------------------------------------------------
  // Addresses
  // ---------------------------------------------------------------------------------------------

  /** Bit k of the list asks for register k. */
  type RegisterList = s: seq<bool> | |s| == 16
    witness [false, false, false, false, false, false, false, false,
             false, false, false, false, false, false, false, false]

  type Count = n: int | 0 <= n <= 16

  /** How many registers below k are listed. */
  function Rank(list: RegisterList, k: nat): (r: Count)
    requires k <= 16
    ensures r <= k
  {
    if k == 0 then 0 else Rank(list, k - 1) + (if list[k - 1] then 1 else 0)
  }

  lemma {:induction false} RankGrows(list: RegisterList, j: nat, k: nat)
    requires j < k <= 16
    ensures Rank(list, j) + (if list[j] then 1 else 0) <= Rank(list, k)
  {
    if j + 1 < k {
      RankGrows(list, j, k - 1);
    }
  }

  /** P, U and W of the instruction: before or after, up or down, write-back. */
  datatype Form = Form(before: bool, up: bool, writeback: bool)

  function Opposite(f: Form): Form {
    f.(before := !f.before, up := !f.up)
  }

  function StartAddress(f: Form, base: Word, count: Count): Word {
    if !f.before && f.up then base
    else if f.before && f.up then Plus(base, 4)
    else if !f.before then Plus(Minus(base, 4 * count), 4)
    else Minus(base, 4 * count)
  }

  function EndAddress(f: Form, base: Word, count: Count): Word {
    if !f.before && f.up then Minus(Plus(base, 4 * count), 4)
    else if f.before && f.up then Plus(base, 4 * count)
    else if !f.before then base
    else Minus(base, 4)
  }

  function NewBase(f: Form, base: Word, count: Count): Word {
    if !f.writeback then base
    else if f.up then Plus(base, 4 * count)
    else Minus(base, 4 * count)
  }

  /** In all four modes the block spans `count` words from its start to its end address. */
  lemma BlockSpansCount(f: Form, base: Word, count: Count)
    requires 0 < count
    ensures EndAddress(f, base, count) == Plus(StartAddress(f, base, count), 4 * (count - 1))
  {
  }

  /** With write-back, the opposite mode finds the same block again and moves the base back. */
  lemma OppositeFindsBlock(f: Form, base: Word, count: Count)
    requires f.writeback && 0 < count
    ensures
      var moved := NewBase(f, base, count);
      && StartAddress(Opposite(f), moved, count) == StartAddress(f, base, count)
      && NewBase(Opposite(f), moved, count) == base
  {
  }

  /** The four modes in numbers: where the block starts, where its last word is, and the new base. */
  lemma BlockAddresses(base: Word, count: Count, w: bool)
    requires count > 0
    ensures
      var ia, ib, da, db := Form(false, true, w), Form(true, true, w), Form(false, false, w), Form(true, false, w);
      && StartAddress(ia, base, count) == base
      && EndAddress(ia, base, count) == Wrap(base + 4 * count - 4)
      && StartAddress(ib, base, count) == Wrap(base + 4)
      && EndAddress(ib, base, count) == Wrap(base + 4 * count)
      && StartAddress(da, base, count) == Wrap(base - 4 * count + 4)
      && EndAddress(da, base, count) == base
      && StartAddress(db, base, count) == Wrap(base - 4 * count)
      && EndAddress(db, base, count) == Wrap(base - 4)
      && NewBase(ia, base, count) == NewBase(ib, base, count) == (if w then Wrap(base + 4 * count) else base)
      && NewBase(da, base, count) == NewBase(db, base, count) == (if w then Wrap(base - 4 * count) else base)
  {
    var n: Word := 4 * count;
    PlusAndMinusWrap(base, n);
    PlusAndMinusWrap(base, 4);
    PlusAndMinusWrap(Plus(base, n), 4);
    PlusAndMinusWrap(Minus(base, n), 4);
    WrapTwice(base + n, -4);
    WrapTwice(base - n, 4);
  }

  lemma WrapTwice(x: int, k: int)
    ensures Wrap(Wrap(x) + k) == Wrap(x + k)
  {
  }

  /** The addressing part, `Type_LSM`: the block's start, and the base written back. An empty list and a
      written-back base that is listed annul the instruction. */
  function Prepare(c: Core, f: Form, rn: Register, list: RegisterList): Option<(Core, Word)> {
    var count := Rank(list, 16);
    var base := ReadRegister(c, rn);
    if count == 0 || (f.writeback && list[rn]) then None
    else Some((WriteRegister(c, rn, NewBase(f, base, count)), StartAddress(f, base, count)))
  }

  // ---------------------------------------------------------------------------------------------
  // Transfers
  // ---------------------------------------------------------------------------------------------

  /** The user forms reach the common register bank, the others the registers of the mode. */
  function ReadVia(c: Core, user: bool, k: Register): Word {
    if user then c.rb[k] else ReadRegister(c, k)
  }

  function WriteVia(c: Core, user: bool, k: Register, value: Word): Core {
    if user then c.(rb := c.rb[k := value]) else WriteRegister(c, k, value)
  }

  lemma ViaIsVariable(c: Core, user: bool, k: Register, value: Word, j: Register)
    requires KnownMode(c.proc.mode)
    ensures ReadVia(WriteVia(c, user, k, value), user, j) == if j == k then value else ReadVia(c, user, j)
    ensures j != k ==> ReadRegister(WriteVia(c, user, k, value), j) == ReadRegister(c, j)
    ensures j != k ==> ReadVia(WriteRegister(c, k, value), user, j) == ReadVia(c, user, j)
    ensures WriteVia(c, user, k, value).proc == c.proc && WriteRegister(c, k, value).proc == c.proc
  {
    RegistersAreVariables(c, k, value, j);
  }

  /** The registers a store reads. */
  function Values(c: Core, user: bool): (v: Registers)
    ensures forall k: Register :: v[k] == ReadVia(c, user, k)
  {
    seq(16, k requires 0 <= k < 16 => ReadVia(c, user, k))
  }

  /** Where the block keeps register k. */
  function Slot(list: RegisterList, start: Word, k: Register): Word {
    Plus(start, 4 * Rank(list, k))
  }

  /** The words a load reads for the registers. */
  function Words16(m: Memory, list: RegisterList, start: Word): (v: Registers)
    ensures forall k: Register :: v[k] == ReadWord(m, Slot(list, start, k))
  {
    seq(16, k requires 0 <= k < 16 => ReadWord(m, Slot(list, start, k)))
  }

  /** Register i's turn. */
  function StoreTurn(m: Memory, v: Registers, list: RegisterList, start: Word, i: Register): Memory {
    if list[i] then WriteWord(m, Slot(list, start, i), v[i]) else m
  }

  /** Memory after the listed registers below i are stored. */
  function StoreBelow(m: Memory, v: Registers, list: RegisterList, start: Word, i: nat): Memory
    requires i <= 16
  {
    if i == 0 then m else StoreTurn(StoreBelow(m, v, list, start, i - 1), v, list, start, i - 1)
  }

  /** The core after the listed registers below i are loaded. */
  function LoadBelow(c: Core, v: Registers, user: bool, list: RegisterList, i: nat): Core
    requires i <= 15
  {
    if i == 0 then c
    else
      var before := LoadBelow(c, v, user, list, i - 1);
      if list[i - 1] then WriteVia(before, user, i - 1, v[i - 1]) else before
  }

  function WithoutBit0(w: Word): Word {
    w - w % 2
  }

  /** A PC in the list is loaded last, without bit 0; the user form then returns the saved status. */
  function LoadPc(c: Core, value: Word, user: bool, list: RegisterList): Core {
    if !list[PC] then c
    else if user then SpsrToCpsr(WriteVia(c, user, PC, WithoutBit0(value)))
    else WriteVia(c, user, PC, WithoutBit0(value))
  }

  /** A core and memory, unless the instruction was annulled or ended the simulation. */
  datatype BlockResult = Annulled | Aborted | Completed(core: Core, memory: Memory)

  /** STM; the user form aborts the simulation in unprivileged modes. */
  function StoreMultiple(c: Core, m: Memory, f: Form, rn: Register, list: RegisterList, user: bool): BlockResult {
    match Prepare(c, f, rn, list)
    case None => Annulled
    case Some((based, start)) =>
      if user && !Privileged(based) then Aborted
      else Completed(Continue(based), StoreBelow(m, Values(based, user), list, start, 16))
  }

  /** All the loads of a load multiple. */
  function Loaded(c: Core, v: Registers, user: bool, list: RegisterList): Core {
    LoadPc(LoadBelow(c, v, user, list, 15), v[PC], user, list)
  }

  /** LDM, likewise. */
  function LoadMultiple(c: Core, m: Memory, f: Form, rn: Register, list: RegisterList, user: bool): BlockResult {
    match Prepare(c, f, rn, list)
    case None => Annulled
    case Some((based, start)) =>
      if user && !Privileged(based) then Aborted
      else Completed(Continue(Loaded(based, Words16(m, list, start), user, list)), m)
  }

  /** An empty list, or a written-back base in the list, annuls both instructions; the user form without
      privilege ends the simulation; otherwise they complete. */
  lemma BlockOutcomes(c: Core, m: Memory, f: Form, rn: Register, list: RegisterList, user: bool)
    ensures
      var s, l := StoreMultiple(c, m, f, rn, list, user), LoadMultiple(c, m, f, rn, list, user);
      var annulled := Rank(list, 16) == 0 || (f.writeback && list[rn]);
      var unprivileged := c.proc.mode !in {0x11, 0x12, 0x13, 0x17, 0x1B, 0x1F};
      && (s.Annulled? <==> annulled) && (l.Annulled? <==> annulled)
      && (s.Aborted? <==> !annulled && user && unprivileged) && (l.Aborted? <==> !annulled && user && unprivileged)
  {
    BaseKeepsMode(c, rn, NewBase(f, ReadRegister(c, rn), Rank(list, 16)));
  }

  lemma BaseKeepsMode(c: Core, rn: Register, value: Word)
    ensures WriteRegister(c, rn, value).proc == c.proc
    ensures Privileged(c) <==> c.proc.mode in {0x11, 0x12, 0x13, 0x17, 0x1B, 0x1F}
  {
  }

  // ---------------------------------------------------------------------------------------------
  // What is stored and loaded
  // ---------------------------------------------------------------------------------------------

  /** Nothing beyond the block is written. */
  lemma {:induction false} StoreKeepsRest(m: Memory, v: Registers, list: RegisterList, start: Word, i: nat, off: nat)
    requires i <= 16 && 4 * Rank(list, i) <= off < WORD_MOD
    ensures ByteAt(StoreBelow(m, v, list, start, i), Plus(start, off)) == ByteAt(m, Plus(start, off))
  {
    if i > 0 {
      StoreKeepsRest(m, v, list, start, i - 1, off);
      if list[i - 1] {
        WriteIsLocal(StoreBelow(m, v, list, start, i - 1), start, 4 * Rank(list, i - 1), v[i - 1], off);
      }
    }
  }

  /** A word written at a later offset leaves a word at an earlier one. */
  lemma WordIsLocal(m: Memory, start: Word, off: nat, w: Word, slot: nat)
    requires slot + 4 <= off <= 64
    ensures ReadWord(WriteWord(m, Plus(start, off), w), Plus(start, slot)) == ReadWord(m, Plus(start, slot))
  {
    var written := WriteWord(m, Plus(start, off), w);
    forall o: nat | slot <= o < slot + 4
      ensures ByteAt(written, Plus(start, o)) == ByteAt(m, Plus(start, o))
    {
      WriteIsLocal(m, start, off, w, o);
    }
    ReadIsLocal(written, m, start, slot);
  }

  /** One more register stored. */
  lemma StoredStep(before: Memory, after: Memory, v: Registers, list: RegisterList, start: Word, i: Register, j: nat)
    requires after == StoreTurn(before, v, list, start, i)
    requires j <= i && list[j]
    requires j < i ==> ReadWord(before, Slot(list, start, j)) == v[j]
    ensures ReadWord(after, Slot(list, start, j)) == v[j]
  {
    if j == i {
      WrittenWordReadBack(before, Slot(list, start, j), v[j]);
    } else if list[i] {
      RankGrows(list, j, i);
      WordIsLocal(before, start, 4 * Rank(list, i), v[i], 4 * Rank(list, j));
    }
  }

  /** The listed registers below i stand where their ranks put them. */
  ghost predicate HoldsBelow(m: Memory, v: Registers, list: RegisterList, start: Word, i: nat)
    requires i <= 16
  {
    forall j: Register | j < i && list[j] :: ReadWord(m, Slot(list, start, j)) == v[j]
  }

  /** Storing one more register leaves the ones before in place. */
  lemma TurnHolds(before: Memory, v: Registers, list: RegisterList, start: Word, i: Register)
    requires HoldsBelow(before, v, list, start, i)
    ensures HoldsBelow(StoreTurn(before, v, list, start, i), v, list, start, i + 1)
  {
    var after := StoreTurn(before, v, list, start, i);
    forall j: Register | j < i + 1 && list[j]
      ensures ReadWord(after, Slot(list, start, j)) == v[j]
    {
      StoredStep(before, after, v, list, start, i, j);
    }
  }

  lemma {:induction false} StoreHolds(m: Memory, v: Registers, list: RegisterList, start: Word, i: nat)
    requires i <= 16
    ensures HoldsBelow(StoreBelow(m, v, list, start, i), v, list, start, i)
  {
    if i > 0 {
      StoreHolds(m, v, list, start, i - 1);
      TurnHolds(StoreBelow(m, v, list, start, i - 1), v, list, start, i - 1);
    }
  }

  /** Register j is the word that its rank gives it. */
  lemma StoredWord(m: Memory, v: Registers, list: RegisterList, start: Word, i: nat, j: nat)
    requires j < i <= 16 && list[j]
    ensures ReadWord(StoreBelow(m, v, list, start, i), Slot(list, start, j)) == v[j]
  {
    StoreHolds(m, v, list, start, i);
  }

  /** Listed registers get the words of their ranks; the others stay. */
  lemma {:induction false} LoadedRegister(c: Core, v: Registers, user: bool, list: RegisterList, i: nat, j: Register)
    requires i <= 15 && KnownMode(c.proc.mode)
    ensures
      var d := LoadBelow(c, v, user, list, i);
      && d.proc == c.proc
      && ReadVia(d, user, j) == (if j < i && list[j] then v[j] else ReadVia(c, user, j))
      && (!list[j] ==> ReadRegister(d, j) == ReadRegister(c, j))
  {
    if i > 0 {
      LoadedRegister(c, v, user, list, i - 1, j);
      ViaIsVariable(LoadBelow(c, v, user, list, i - 1), user, i - 1, v[i - 1], j);
    }
  }

  /** With the PC: every listed register but the PC, which loses bit 0. */
  lemma LoadedRegisters(c: Core, v: Registers, user: bool, list: RegisterList, j: Register)
    requires KnownMode(c.proc.mode) && (user ==> !list[PC])
    ensures
      var d := Continue(Loaded(c, v, user, list));
      && (list[j] ==> ReadVia(d, user, j) == if j == PC then WithoutBit0(v[j]) else v[j])
      && (!list[j] ==> ReadRegister(d, j) == ReadRegister(c, j))
  {
    LoadedRegister(c, v, user, list, 15, j);
    var low := LoadBelow(c, v, user, list, 15);
    ViaIsVariable(low, user, PC, WithoutBit0(v[PC]), j);
    ContinueKeepsRegisters(Loaded(c, v, user, list), user, j);
  }

  lemma ContinueKeepsRegisters(c: Core, user: bool, j: Register)
    ensures ReadVia(Continue(c), user, j) == ReadVia(c, user, j)
    ensures ReadRegister(Continue(c), j) == ReadRegister(c, j)
    ensures Continue(c).proc == c.proc
  {
  }

  /** A store writes the listed registers in order into the words from the start to the end address, and
      changes no other byte of memory. */
  lemma StoreWritesBlock(c: Core, m: Memory, f: Form, rn: Register, list: RegisterList, user: bool)
    requires StoreMultiple(c, m, f, rn, list, user).Completed?
    ensures
      var s := StoreMultiple(c, m, f, rn, list, user);
      var count: int := Rank(list, 16);
      var base := ReadRegister(c, rn);
      var start := StartAddress(f, base, count);
      && count > 0
      && (forall j: Register :: list[j] ==>
            && Rank(list, j) < count
            && ReadWord(s.memory, Slot(list, start, j)) == ReadVia(s.core, user, j)
            && (Rank(list, j) == count - 1 ==> Slot(list, start, j) == EndAddress(f, base, count)))
      && (forall a: Word :: Minus(a, start) >= 4 * count ==> ByteAt(s.memory, a) == ByteAt(m, a))
  {
    var count: int := Rank(list, 16);
    var base := ReadRegister(c, rn);
    var start := StartAddress(f, base, count);
    var based := WriteRegister(c, rn, NewBase(f, base, count));
    var v := Values(based, user);
    BlockSpansCount(f, base, count);
    forall j: Register | list[j]
      ensures Rank(list, j) < count
      ensures ReadWord(StoreBelow(m, v, list, start, 16), Slot(list, start, j)) == ReadVia(Continue(based), user, j)
    {
      RankGrows(list, j, 16);
      StoredWord(m, v, list, start, 16, j);
      ContinueKeepsRegisters(based, user, j);
    }
    forall a: Word | Minus(a, start) >= 4 * count
      ensures ByteAt(StoreBelow(m, v, list, start, 16), a) == ByteAt(m, a)
    {
      StoreKeepsRest(m, v, list, start, 16, Minus(a, start));
      assert Plus(start, Minus(a, start)) == a;
    }
  }

  /** A load that does not return a status gives each listed register its word of the block, the PC without
      bit 0, and leaves the other registers but the base as they are. The PC goes on at r15. */
  lemma LoadReadsBlock(c: Core, m: Memory, f: Form, rn: Register, list: RegisterList, user: bool)
    requires KnownMode(c.proc.mode) && (user ==> !list[PC])
    requires LoadMultiple(c, m, f, rn, list, user).Completed?
    ensures
      var d := LoadMultiple(c, m, f, rn, list, user).core;
      var start := StartAddress(f, ReadRegister(c, rn), Rank(list, 16));
      && d.pc == ReadRegister(d, PC) && LoadMultiple(c, m, f, rn, list, user).memory == m
      && (forall j: Register :: list[j] ==>
            ReadVia(d, user, j) ==
              (var w := ReadWord(m, Plus(start, 4 * Rank(list, j))); if j == PC then w - w % 2 else w))
      && (forall j: Register :: !list[j] && j != rn ==> ReadRegister(d, j) == ReadRegister(c, j))
      && (!list[rn] ==> ReadRegister(d, rn) == NewBase(f, ReadRegister(c, rn), Rank(list, 16)))
  {
    var base := ReadRegister(c, rn);
    var start := StartAddress(f, base, Rank(list, 16));
    var moved := NewBase(f, base, Rank(list, 16));
    var based := WriteRegister(c, rn, moved);
    var v := Words16(m, list, start);
    RegistersAreVariables(c, rn, moved, rn);
    ViaIsVariable(c, user, rn, moved, rn);
    var d := Continue(Loaded(based, v, user, list));
    assert LoadMultiple(c, m, f, rn, list, user) == Completed(d, m);
    ContinueKeepsRegisters(Loaded(based, v, user, list), user, PC);
    forall j: Register
      ensures list[j] ==> ReadVia(d, user, j) == if j == PC then WithoutBit0(v[j]) else v[j]
      ensures !list[j] ==> ReadRegister(d, j) == if j == rn then moved else ReadRegister(c, j)
    {
      LoadedRegisters(based, v, user, list, j);
      RegistersAreVariables(c, rn, moved, j);
    }
  }

  /** The user forms transfer the common register bank in every mode, the others the registers of the mode. */
  lemma UserFormsUseCommonBank(c: Core, m: Memory, f: Form, rn: Register, list: RegisterList, j: Register)
    requires KnownMode(c.proc.mode) && list[j] && j != PC && !list[PC]
    requires StoreMultiple(c, m, f, rn, list, true).Completed?
    ensures
      var slot := Plus(StartAddress(f, ReadRegister(c, rn), Rank(list, 16)), 4 * Rank(list, j));
      var s, l := StoreMultiple(c, m, f, rn, list, true), LoadMultiple(c, m, f, rn, list, true);
      && ReadWord(s.memory, slot) == s.core.rb[j]
      && l.Completed? && l.core.rb[j] == ReadWord(m, slot)
  {
    StoreWritesBlock(c, m, f, rn, list, true);
    BlockOutcomes(c, m, f, rn, list, true);
    LoadReadsBlock(c, m, f, rn, list, true);
  }

  /** LDM with the PC in its user form returns from the exception: the mode's saved status becomes CPSR, and
      the PC is the block's last word without bit 0. */
  lemma UserLoadOfPcReturns(c: Core, m: Memory, f: Form, rn: Register, list: RegisterList)
    requires HasBank(c.proc.mode) && list[PC] && LoadMultiple(c, m, f, rn, list, true).Completed?
    requires KnownMode(BankOf(c.banks, c.proc.mode).spsr.control.mode)
    ensures
      var d := LoadMultiple(c, m, f, rn, list, true).core;
      var p := BankOf(c.banks, c.proc.mode).spsr;
      var w := ReadWord(m, Plus(StartAddress(f, ReadRegister(c, rn), Rank(list, 16)), 4 * Rank(list, PC)));
      && d.pc == w - w % 2
      && d.flags == Flags(p.flags.n, p.flags.z, p.flags.c, p.flags.v, p.flags.q, p.control.t)
      && d.proc == Processor(p.control.mode, p.control.f, p.control.i, c.proc.thumb)
  {
    var base := ReadRegister(c, rn);
    var start := StartAddress(f, base, Rank(list, 16));
    var based := WriteRegister(c, rn, NewBase(f, base, Rank(list, 16)));
    var v := Words16(m, list, start);
    BaseKeepsSaved(c, rn, NewBase(f, base, Rank(list, 16)));
    UserLoadKeepsBanks(based, v, list, 15);
    var low := LoadBelow(based, v, true, list, 15);
    var w := WriteVia(low, true, PC, WithoutBit0(v[PC]));
    var returned := SpsrToCpsr(w);
    assert Loaded(based, v, true, list) == returned;
    StatusReturned(w, BankOf(c.banks, c.proc.mode).spsr);
  }

  lemma BaseKeepsSaved(c: Core, rn: Register, value: Word)
    requires HasBank(c.proc.mode)
    ensures
      var b := WriteRegister(c, rn, value);
      b.proc == c.proc && BankOf(b.banks, b.proc.mode).spsr == BankOf(c.banks, c.proc.mode).spsr
  {
  }

  lemma {:induction false} UserLoadKeepsBanks(c: Core, v: Registers, list: RegisterList, i: nat)
    requires i <= 15
    ensures
      var d := LoadBelow(c, v, true, list, i);
      d.proc == c.proc && d.banks == c.banks
  {
    if i > 0 {
      UserLoadKeepsBanks(c, v, list, i - 1);
    }
  }

  lemma StatusReturned(w: Core, p: Psr)
    requires HasBank(w.proc.mode) && BankOf(w.banks, w.proc.mode).spsr == p && KnownMode(p.control.mode)
    ensures
      var d := Continue(SpsrToCpsr(w));
      && d.pc == w.rb[PC]
      && d.flags == Flags(p.flags.n, p.flags.z, p.flags.c, p.flags.v, p.flags.q, p.control.t)
      && d.proc == Processor(p.control.mode, p.control.f, p.control.i, w.proc.thumb)
  {
  }

  /** The block of a store is the same in both memories. */
  ghost predicate SameBlock(m: Memory, n: Memory, start: Word, count: Count) {
    forall o: nat :: o < 4 * count ==> ByteAt(m, Plus(start, o)) == ByteAt(n, Plus(start, o))
  }

  /** Storing with write-back and loading in the opposite way, in one processor mode, restores the listed
      registers and the base, whatever happened to the other parts of the core and of memory between. A
      listed PC comes back without bit 0. */
  lemma StoreThenLoad(c: Core, m: Memory, f: Form, rn: Register, list: RegisterList, user: bool, d: Core, n: Memory)
    requires KnownMode(c.proc.mode) && f.writeback && !list[rn]
    requires user ==> !list[PC]
    requires StoreMultiple(c, m, f, rn, list, user).Completed?
    requires
      var s := StoreMultiple(c, m, f, rn, list, user);
      && d.proc.mode == s.core.proc.mode
      && ReadRegister(d, rn) == ReadRegister(s.core, rn)
      && SameBlock(s.memory, n, StartAddress(f, ReadRegister(c, rn), Rank(list, 16)), Rank(list, 16))
    ensures
      var l := LoadMultiple(d, n, Opposite(f), rn, list, user);
      && l.Completed? && l.memory == n
      && ReadRegister(l.core, rn) == ReadRegister(c, rn)
      && (forall j: Register :: list[j] ==>
            ReadVia(l.core, user, j) == if j == PC then WithoutBit0(ReadVia(c, user, j)) else ReadVia(c, user, j))
  {
    var count := Rank(list, 16);
    var base := ReadRegister(c, rn);
    var start := StartAddress(f, base, count);
    var moved := NewBase(f, base, count);
    var based := WriteRegister(c, rn, moved);
    OppositeFindsBlock(f, base, count);
    RegistersAreVariables(c, rn, moved, rn);
    ViaIsVariable(c, user, rn, moved, rn);
    ContinueKeepsRegisters(based, user, rn);
    LoadOfBlock(d, n, Opposite(f), rn, list, user, base, start);
    RegistersAreVariables(d, rn, base, rn);
    ViaIsVariable(d, user, rn, base, rn);
    var v := Words16(n, list, start);
    LoadedRegisters(WriteRegister(d, rn, base), v, user, list, rn);
    forall j: Register | list[j]
      ensures v[j] == ReadVia(c, user, j)
    {
      RestoredWord(c, m, moved, rn, list, user, start, n, j);
    }
    forall j: Register | list[j]
      ensures ReadVia(Continue(Loaded(WriteRegister(d, rn, base), v, user, list)), user, j)
              == if j == PC then WithoutBit0(v[j]) else v[j]
    {
      LoadedRegisters(WriteRegister(d, rn, base), v, user, list, j);
    }
  }

  /** The load, once its base and block are known. */
  lemma LoadOfBlock(d: Core, n: Memory, f: Form, rn: Register, list: RegisterList, user: bool, base: Word, start: Word)
    requires Rank(list, 16) > 0 && !list[rn] && (user ==> Privileged(d))
    requires NewBase(f, ReadRegister(d, rn), Rank(list, 16)) == base
    requires StartAddress(f, ReadRegister(d, rn), Rank(list, 16)) == start
    ensures LoadMultiple(d, n, f, rn, list, user)
            == Completed(Continue(Loaded(WriteRegister(d, rn, base), Words16(n, list, start), user, list)), n)
  {
    var based := WriteRegister(d, rn, base);
    assert based.proc == d.proc;
    assert Prepare(d, f, rn, list) == Some((based, start));
  }

  /** The block still holds what register j held before the store. */
  lemma RestoredWord(c: Core, m: Memory, moved: Word, rn: Register, list: RegisterList, user: bool, start: Word,
                     n: Memory, j: Register)
    requires KnownMode(c.proc.mode) && !list[rn] && list[j]
    requires
      var v := Values(WriteRegister(c, rn, moved), user);
      SameBlock(StoreBelow(m, v, list, start, 16), n, start, Rank(list, 16))
    ensures ReadWord(n, Slot(list, start, j)) == ReadVia(c, user, j)
  {
    var v := Values(WriteRegister(c, rn, moved), user);
    RankGrows(list, j, 16);
    StoredWord(m, v, list, start, 16, j);
    ReadIsLocal(StoreBelow(m, v, list, start, 16), n, start, 4 * Rank(list, j));
    ViaIsVariable(c, user, rn, moved, j);
  }

  // ---------------------------------------------------------------------------------------------
  // The instructions as the original runs them
  // ---------------------------------------------------------------------------------------------

  class Ram {
    var content: Memory

    method Read(a: Word) returns (w: Word)
      ensures w == ReadWord(content, a)
    {
      w := ReadWord(content, a);
    }

    method Write(a: Word, w: Word)
      modifies this
      ensures content == WriteWord(old(content), a, w)
    {
      content := WriteWord(content, a, w);
    }
  }

  /** `LSM_CountSetBits` */
  method CountSetBits(list: RegisterList) returns (count: nat)
    ensures count == Rank(list, 16)
  {
    count := 0;
    for i := 0 to 16
      invariant count == Rank(list, i)
    {
      if list[i] {
        count := count + 1;
      }
    }
  }

  method RunPrepare(cpu: Cpu, f: Form, rn: Register, list: RegisterList) returns (start: Option<Word>)
    modifies cpu
    ensures
      match Prepare(old(cpu.View()), f, rn, list)
      case None => start == None && cpu.View() == old(cpu.View())
      case Some((based, a)) => start == Some(a) && cpu.View() == based
  {
    var count := CountSetBits(list);
    if count == 0 {
      return None;
    }
    var base := cpu.BypassRead(rn);
    if f.writeback && list[rn] {
      return None;
    }
    start := Some(StartAddress(f, base, count));
    cpu.BypassWrite(rn, NewBase(f, base, count));
  }

  method RunStoreMultiple(cpu: Cpu, ram: Ram, f: Form, rn: Register, list: RegisterList, user: bool)
    returns (outcome: BlockResult)
    modifies cpu, ram
    ensures outcome == StoreMultiple(old(cpu.View()), old(ram.content), f, rn, list, user)
    ensures outcome.Completed? ==> cpu.View() == outcome.core && ram.content == outcome.memory
  {
    var prepared := RunPrepare(cpu, f, rn, list);
    if prepared == None {
      return Annulled;
    }
    if user && !Privileged(cpu.View()) {
      return Aborted;
    }
    StoreRegisters(cpu, ram, list, prepared.value, user);
    cpu.EndInstruction();
    outcome := Completed(cpu.View(), ram.content);
  }

  /** The store loop. */
  method StoreRegisters(cpu: Cpu, ram: Ram, list: RegisterList, start: Word, user: bool)
    modifies ram
    ensures ram.content == StoreBelow(old(ram.content), Values(cpu.View(), user), list, start, 16)
  {
    var address := start;
    ghost var v := Values(cpu.View(), user);
    for i := 0 to 16
      invariant address == Plus(start, 4 * Rank(list, i))
      invariant ram.content == StoreBelow(old(ram.content), v, list, start, i)
    {
      if list[i] {
        var value := PickRegister(cpu, i, user);
        ram.Write(address, value);
        NextByte(start, 4 * Rank(list, i), 4);
        address := Plus(address, 4);
      }
    }
  }

  method PickRegister(cpu: Cpu, k: Register, user: bool) returns (value: Word)
    ensures value == ReadVia(cpu.View(), user, k)
  {
    if user {
      value := cpu.rb[k];
    } else {
      value := cpu.BypassRead(k);
    }
  }

  method RunLoadMultiple(cpu: Cpu, ram: Ram, f: Form, rn: Register, list: RegisterList, user: bool)
    returns (outcome: BlockResult)
    modifies cpu
    ensures outcome == LoadMultiple(old(cpu.View()), ram.content, f, rn, list, user)
    ensures outcome.Completed? ==> cpu.View() == outcome.core
  {
    var prepared := RunPrepare(cpu, f, rn, list);
    if prepared == None {
      return Annulled;
    }
    if user && !Privileged(cpu.View()) {
      return Aborted;
    }
    LoadRegisters(cpu, ram, list, prepared.value, user);
    cpu.EndInstruction();
    outcome := Completed(cpu.View(), ram.content);
  }

  /** The load loop and the PC's turn. */
  method LoadRegisters(cpu: Cpu, ram: Ram, list: RegisterList, start: Word, user: bool)
    modifies cpu
    ensures cpu.View() == Loaded(old(cpu.View()), Words16(ram.content, list, start), user, list)
  {
    ghost var v := Words16(ram.content, list, start);
    var address := LoadLowRegisters(cpu, ram, list, start, user, v);
    if list[PC] {
      var value := ram.Read(address);
      LoadLast(cpu, value, user, list);
    }
  }

  method LoadLowRegisters(cpu: Cpu, ram: Ram, list: RegisterList, start: Word, user: bool, ghost v: Registers)
    returns (address: Word)
    requires v == Words16(ram.content, list, start)
    modifies cpu
    ensures cpu.View() == LoadBelow(old(cpu.View()), v, user, list, 15)
    ensures address == Slot(list, start, PC)
  {
    address := start;
    ghost var based := cpu.View();
    for i := 0 to 15
      invariant address == Slot(list, start, i)
      invariant cpu.View() == LoadBelow(based, v, user, list, i)
    {
      address := LoadNext(cpu, ram, list, start, user, v, i, address, based);
    }
  }

  /** One turn of the load loop. */
  method LoadNext(cpu: Cpu, ram: Ram, list: RegisterList, start: Word, user: bool, ghost v: Registers, i: nat,
                  address: Word, ghost based: Core)
    returns (next: Word)
    requires i < 15 && v == Words16(ram.content, list, start) && address == Slot(list, start, i)
    requires cpu.View() == LoadBelow(based, v, user, list, i)
    modifies cpu
    ensures cpu.View() == LoadBelow(based, v, user, list, i + 1) && next == Slot(list, start, i + 1)
  {
    next := address;
    if list[i] {
      var value := ram.Read(address);
      assert value == v[i];
      LoadRegister(cpu, i, value, user);
      NextByte(start, 4 * Rank(list, i), 4);
      next := Plus(address, 4);
    }
  }

  method LoadRegister(cpu: Cpu, k: Register, value: Word, user: bool)
    modifies cpu
    ensures cpu.View() == WriteVia(old(cpu.View()), user, k, value)
  {
    if user {
      cpu.rb := cpu.rb[k := value];
    } else {
      cpu.BypassWrite(k, value);
    }
  }

  method LoadLast(cpu: Cpu, value: Word, user: bool, list: RegisterList)
    requires list[PC]
    modifies cpu
    ensures cpu.View() == LoadPc(old(cpu.View()), value, user, list)
  {
    LoadRegister(cpu, PC, WithoutBit0(value), user);
    if user {
      cpu.SavedToStatus();
    }
  }
}
