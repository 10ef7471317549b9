/**
 The address translation of armv7/src/mmu.cpp: choosing a translation table, the first-level and the
 second-level walk, as the source computes them with masks built bit by bit; and the short-descriptor
 translation of section B3.5 of ARM DDI 0406C in closed form, with which they are compared.

 Of a descriptor only the type and the base address matter to the address that is computed; the
 permission and memory-type bits are not modelled.
 */
module Mmus {
  import opened Words
  import opened BitWords

  /** The system control registers that translation depends on. */
  datatype Cp15 = Cp15(ttbcr: Bits, ttbr0: Bits, ttbr1: Bits)

  /** Words read from the bus during a walk, by address. */
  type TableMemory = Bits -> Bits

  /** An address to send to the bus; or the simulator exits. A first-level fault yields address zero. */
  datatype Walk = Physical(pa: Bits) | Exits

  function SizeN(r: Cp15): (n: nat)
    ensures n <= 7
  {
    ValueBound(r.ttbcr, 3);
    assert Pow2(3) == 8;
    Value(r.ttbcr, 3)
  }

  // ---------------------------------------------------------------------------------------------
  // The walk as the source has it
  // ---------------------------------------------------------------------------------------------

  /** One of the bits from the top down to `32 - N` is set. */
  predicate TopBitSet(va: Bits, n: nat)
    requires n <= 32
  {
    exists i | 32 - n <= i < 32 :: va[i]
  }

  function TableUsed(r: Cp15, va: Bits): nat {
    if SizeN(r) != 0 && TopBitSet(va, SizeN(r)) then 1 else 0
  }

  /** Whichever register is used, the bits below `14 - N` are masked off. */
  function TableBase(r: Cp15, va: Bits): Bits {
    And(if TableUsed(r, va) == 1 then r.ttbr1 else r.ttbr0, Mask(14 - SizeN(r), 32))
  }

  function FirstLevelAddress(r: Cp15, va: Bits): Bits {
    var n := if TableUsed(r, va) == 0 then SizeN(r) else 0;
    var index := ShiftRight(And(va, Mask(20, 32 - n)), 20);
    Or(TableBase(r, va), ShiftLeft(index, 2))
  }

  datatype FirstLevel = Fault | PageTable(base: Bits) | Section(base: Bits) | Supersection

  function FirstLevelEntry(data: Bits): FirstLevel {
    if !data[0] && !data[1] then Fault
    else if data[0] && !data[1] then PageTable(ShiftRight(And(data, Mask(10, 32)), 10))
    else if data[18] then Supersection
    else Section(ShiftRight(And(data, Mask(20, 32)), 20))
  }

  datatype SecondLevel = PageFault | Small(base: Bits) | Large(base: Bits)

  function SecondLevelEntry(data: Bits): SecondLevel {
    if !data[0] && !data[1] then PageFault
    else if data[0] && !data[1] then Large(ShiftRight(And(data, Mask(16, 32)), 16))
    else Small(ShiftRight(And(data, Mask(12, 32)), 12))
  }

  function SecondLevelAddress(base: Bits, va: Bits): Bits {
    ShiftLeft(Or(ShiftLeft(base, 8), ShiftRight(And(va, Mask(12, 20)), 12)), 2)
  }

  function SecondTranslate(mem: TableMemory, base: Bits, va: Bits): Walk {
    match SecondLevelEntry(mem(SecondLevelAddress(base, va)))
    case Small(b) => Physical(Or(ShiftLeft(b, 12), And(va, Mask(0, 12))))
    case Large(b) => Physical(Or(ShiftLeft(b, 16), And(va, Mask(0, 16))))
    case PageFault => Exits
  }

  function Translate(r: Cp15, mem: TableMemory, va: Bits): Walk {
    match FirstLevelEntry(mem(FirstLevelAddress(r, va)))
    case PageTable(base) => SecondTranslate(mem, base, va)
    case Section(base) => Physical(Or(ShiftLeft(base, 20), And(va, Mask(0, 20))))
    case Supersection => Exits
    case Fault => Physical(Zeros())
  }

  predicate Faults(r: Cp15, mem: TableMemory, va: Bits) {
    FirstLevelEntry(mem(FirstLevelAddress(r, va))) == Fault
  }

  // ---------------------------------------------------------------------------------------------
  // The loops
  // ---------------------------------------------------------------------------------------------

  method SetMaskBits(from: int, upto: int) returns (mask: Bits)
    requires 0 <= from <= upto <= 32
    ensures mask == Mask(from, upto)
  {
    mask := Zeros();
    var i := upto - 1;
    while i >= from
      invariant from - 1 <= i < upto
      invariant mask == Mask(i + 1, upto)
    {
      mask := Or(mask, ShiftLeft(One(), i));
      i := i - 1;
    }
  }

  method TtbAddress(r: Cp15, va: Bits) returns (ttbAdd: Bits, used: nat)
    ensures ttbAdd == TableBase(r, va) && used == TableUsed(r, va)
  {
    var n := SizeN(r);
    var ttb := r.ttbr0;
    used := 0;
    if n != 0 {
      var i := 31;
      while i >= 32 - n
        invariant 31 - n <= i <= 31
        invariant forall j | i < j < 32 :: !va[j]
      {
        if va[i] {
          ttb := r.ttbr1;
          used := 1;
          break;
        }
        i := i - 1;
      }
    }
    var mask := SetMaskBits(14 - n, 32);
    ttbAdd := And(ttb, mask);
  }

  method L1Translate(r: Cp15, mem: TableMemory, va: Bits) returns (walk: Walk)
    ensures walk == Translate(r, mem, va)
  {
    var ttbAddress, used := TtbAddress(r, va);
    var n := if used == 0 then SizeN(r) else 0;
    var mask := SetMaskBits(20, 32 - n);
    var tableEntryIndex := ShiftRight(And(va, mask), 20);
    var entryAddress := Or(ttbAddress, ShiftLeft(tableEntryIndex, 2));
    match FirstLevelEntry(mem(entryAddress)) {
      case PageTable(base) => walk := L2Translate(mem, base, va);
      case Section(base) => walk := Physical(Or(ShiftLeft(base, 20), And(va, Mask(0, 20))));
      case Supersection => walk := Exits;
      case Fault => walk := Physical(Zeros());
    }
  }

  method L2Translate(mem: TableMemory, base: Bits, va: Bits) returns (walk: Walk)
    ensures walk == SecondTranslate(mem, base, va)
  {
    var tableIndex := ShiftRight(And(va, Mask(12, 20)), 12);
    var pageEntryAddress := ShiftLeft(Or(ShiftLeft(base, 8), tableIndex), 2);
    match SecondLevelEntry(mem(pageEntryAddress)) {
      case Small(b) => walk := Physical(Or(ShiftLeft(b, 12), And(va, Mask(0, 12))));
      case Large(b) => walk := Physical(Or(ShiftLeft(b, 16), And(va, Mask(0, 16))));
      case PageFault => walk := Exits;
    }
  }

  // ---------------------------------------------------------------------------------------------
  // The architecture's translation
  // ---------------------------------------------------------------------------------------------

  /** `high[31:k]` followed by `low[k-1:0]`. */
  function Join(high: Bits, low: Bits, k: int): Bits {
    seq(32, i requires 0 <= i < 32 => if i >= k then high[i] else low[i])
  }

  /** TTBCR.N, bits 2 to 0. */
  function ArchN(r: Cp15): nat {
    (if r.ttbcr[0] then 1 else 0) + (if r.ttbcr[1] then 2 else 0) + (if r.ttbcr[2] then 4 else 0)
  }

  /** `TTBR0[31:14-N] : VA[31-N:20] : 00`, or with TTBR1 `TTBR1[31:14] : VA[31:20] : 00`. */
  function ArchFirstLevelAddress(r: Cp15, va: Bits): Bits {
    var n := ArchN(r);
    var index := seq(32, i requires 0 <= i < 32 => 2 <= i < 14 && va[i + 18]);
    if n == 0 || forall i | 32 - n <= i < 32 :: !va[i] then Join(r.ttbr0, index, 14 - n) else Join(r.ttbr1, index, 14)
  }

  /** `descriptor[31:10] : VA[19:12] : 00` */
  function ArchSecondLevelAddress(descriptor: Bits, va: Bits): Bits {
    Join(descriptor, seq(32, i requires 0 <= i < 32 => 2 <= i < 10 && va[i + 10]), 10)
  }

  /** Section, small page and large page mappings of the short-descriptor format; None for a fault, or a
      supersection. */
  function ArchTranslate(r: Cp15, mem: TableMemory, va: Bits): Option<Bits> {
    var first := mem(ArchFirstLevelAddress(r, va));
    if !first[0] && !first[1] then None
    else if !first[1] then
      var second := mem(ArchSecondLevelAddress(first, va));
      if !second[0] && !second[1] then None
      else if second[1] then Some(Join(second, va, 12))
      else Some(Join(second, va, 16))
    else if first[18] then None
    else Some(Join(first, va, 20))
  }

  /** The source reads the same N. */
  lemma SizeNIsThreeBits(r: Cp15)
    ensures SizeN(r) == ArchN(r)
  {
    assert Pow2(1) == 2 && Pow2(2) == 4;
    assert Value(r.ttbcr, 0) == 0;
    assert Value(r.ttbcr, 1) == if r.ttbcr[0] then 1 else 0;
    assert Value(r.ttbcr, 2) == Value(r.ttbcr, 1) + (if r.ttbcr[1] then 2 else 0);
    assert Value(r.ttbcr, 3) == Value(r.ttbcr, 2) + (if r.ttbcr[2] then 4 else 0);
  }

  /** The architecture uses TTBR1 for addresses with one of their top N bits set. */
  predicate ArchUsesTtbr1(r: Cp15, va: Bits) {
    exists i | 32 - ArchN(r) <= i < 32 :: va[i]
  }

  /** TTBR1 is masked as if it were TTBR0: its bits 13 down to `14 - N`, which the architecture ignores,
      are OR-ed into the index. That does no harm exactly where the index has those bits set anyway. */
  predicate Ttbr1Harmless(r: Cp15, va: Bits) {
    ArchUsesTtbr1(r, va) ==> forall i | 14 - ArchN(r) <= i < 14 && r.ttbr1[i] :: va[i + 18]
  }

  lemma TableChoice(r: Cp15, va: Bits)
    ensures TableUsed(r, va) == (if ArchUsesTtbr1(r, va) then 1 else 0)
  {
    SizeNIsThreeBits(r);
  }

  lemma FirstLevelAddressMatches(r: Cp15, va: Bits)
    ensures FirstLevelAddress(r, va) == ArchFirstLevelAddress(r, va) <==> Ttbr1Harmless(r, va)
  {
    SizeNIsThreeBits(r);
    TableChoice(r, va);
    var n := SizeN(r);
    var a, b := FirstLevelAddress(r, va), ArchFirstLevelAddress(r, va);
    if TableUsed(r, va) == 0 {
      FirstLevelAddress0(r, va);
    } else {
      FirstLevelAddress1(r, va);
      if a == b {
        forall i | 14 - n <= i < 14 && r.ttbr1[i]
          ensures va[i + 18]
        {
          assert a[i] == b[i];
        }
      } else {
        assert exists i | 0 <= i < 32 :: a[i] != b[i];
      }
    }
  }

  lemma FirstLevelAddress0(r: Cp15, va: Bits)
    requires TableUsed(r, va) == 0
    ensures FirstLevelAddress(r, va) == ArchFirstLevelAddress(r, va)
  {
    SizeNIsThreeBits(r);
    var n := SizeN(r);
    assert n == 0 || forall i | 32 - n <= i < 32 :: !va[i];
  }

  lemma FirstLevelAddress1(r: Cp15, va: Bits)
    requires TableUsed(r, va) == 1
    ensures forall i | 0 <= i < 32 ::
              && ArchFirstLevelAddress(r, va)[i] == (if i >= 14 then r.ttbr1[i] else 2 <= i && va[i + 18])
              && FirstLevelAddress(r, va)[i]
                 == ((i >= 14 - SizeN(r) && r.ttbr1[i]) || (2 <= i < 14 && va[i + 18]))
  {
    SizeNIsThreeBits(r);
    var n := SizeN(r);
    assert !(n == 0 || forall i | 32 - n <= i < 32 :: !va[i]);
  }

  lemma SecondLevelAddressMatches(descriptor: Bits, va: Bits)
    ensures SecondLevelAddress(ShiftRight(And(descriptor, Mask(10, 32)), 10), va)
            == ArchSecondLevelAddress(descriptor, va)
  {
  }

  /** A base address shifted down and up again, joined with the offset. */
  lemma OutputMatches(descriptor: Bits, va: Bits, k: nat)
    requires k <= 32
    ensures Or(ShiftLeft(ShiftRight(And(descriptor, Mask(k, 32)), k), k), And(va, Mask(0, k)))
            == Join(descriptor, va, k)
  {
  }

  /** For all registers, tables and addresses: unless TTBR1 is used with stray low bits, the walk reads the
      architecture's descriptors, and yields the architecture's address wherever there is a mapping. */
  lemma TranslationMatchesArchitecture(r: Cp15, mem: TableMemory, va: Bits)
    requires Ttbr1Harmless(r, va)
    ensures
      match ArchTranslate(r, mem, va)
      case Some(pa) => Translate(r, mem, va) == Physical(pa)
      case None => Translate(r, mem, va) == if Faults(r, mem, va) then Physical(Zeros()) else Exits
  {
    FirstLevelAddressMatches(r, va);
    var first := mem(ArchFirstLevelAddress(r, va));
    OutputMatches(first, va, 20);
    SecondLevelAddressMatches(first, va);
    var second := mem(ArchSecondLevelAddress(first, va));
    OutputMatches(second, va, 12);
    OutputMatches(second, va, 16);
  }

  /** Whatever the tables hold, an address that the architecture maps is sent where it maps it. */
  ghost predicate TranslatesRight(r: Cp15, va: Bits) {
    forall mem: TableMemory | ArchTranslate(r, mem, va).Some? ::
      Translate(r, mem, va) == Physical(ArchTranslate(r, mem, va).value)
  }

  /** Translation is right for all tables if and only if TTBR1's stray bits do no harm. */
  lemma TranslationMatchesIff(r: Cp15, va: Bits)
    ensures TranslatesRight(r, va) <==> Ttbr1Harmless(r, va)
  {
    if Ttbr1Harmless(r, va) {
      forall mem: TableMemory | ArchTranslate(r, mem, va).Some?
        ensures Translate(r, mem, va) == Physical(ArchTranslate(r, mem, va).value)
      {
        TranslationMatchesArchitecture(r, mem, va);
      }
    } else {
      WrongDescriptorRead(r, va);
    }
  }

  /** Tables with one section, mapped at 0x80000000, where the architecture looks for its descriptor. */
  function SectionAt(a: Bits): TableMemory {
    (x: Bits) => if x == a then SectionDescriptor() else Zeros()
  }

  function SectionDescriptor(): Bits {
    seq(32, i => i == 1 || i == 31)
  }

  /** With stray bits that do harm, these tables are misread: the walk finds a fault. */
  lemma WrongDescriptorRead(r: Cp15, va: Bits)
    requires !Ttbr1Harmless(r, va)
    ensures
      var mem := SectionAt(ArchFirstLevelAddress(r, va));
      && ArchTranslate(r, mem, va).Some? && Translate(r, mem, va) == Physical(Zeros())
      && ArchTranslate(r, mem, va).value != Zeros()
    ensures !TranslatesRight(r, va)
  {
    FirstLevelAddressMatches(r, va);
    var mem := SectionAt(ArchFirstLevelAddress(r, va));
    assert mem(FirstLevelAddress(r, va)) == Zeros();
    var pa := ArchTranslate(r, mem, va).value;
    assert pa == Join(SectionDescriptor(), va, 20);
    assert pa[31] != Zeros()[31];
  }

  /** With N = 1 the only stray bit is the index bit VA[31], which is set whenever TTBR1 is used. */
  lemma OneStrayBitIsHarmless(r: Cp15, va: Bits)
    requires ArchN(r) <= 1
    ensures Ttbr1Harmless(r, va)
  {
  }

  /** With N = 2, bit 12 of TTBR1 set, and address 0x80000000, translation goes wrong. */
  lemma StrayBitMistranslates(r: Cp15, va: Bits)
    requires r.ttbcr == seq(32, i => i == 1) && r.ttbr1 == seq(32, i => i == 12) && va == seq(32, i => i == 31)
    ensures !TranslatesRight(r, va)
  {
    assert ArchN(r) == 2;
    assert va[31] && ArchUsesTtbr1(r, va);
    assert r.ttbr1[12] && !va[12 + 18];
    WrongDescriptorRead(r, va);
  }

  // ---------------------------------------------------------------------------------------------
  // Pages
  // ---------------------------------------------------------------------------------------------

  predicate SamePage(va: Bits, vb: Bits) {
    forall i | 12 <= i < 32 :: va[i] == vb[i]
  }

  lemma SamePageSameDescriptors(r: Cp15, va: Bits, vb: Bits, base: Bits)
    requires SamePage(va, vb)
    ensures FirstLevelAddress(r, va) == FirstLevelAddress(r, vb)
    ensures SecondLevelAddress(base, va) == SecondLevelAddress(base, vb)
  {
    var n := SizeN(r);
    assert TopBitSet(va, n) == TopBitSet(vb, n);
    assert And(va, Mask(20, 32 - n)) == And(vb, Mask(20, 32 - n));
    assert And(va, Mask(20, 32)) == And(vb, Mask(20, 32));
    assert And(va, Mask(12, 20)) == And(vb, Mask(12, 20));
  }

  /** The bits an output address takes from its two sources. */
  lemma OutputBits(b: Bits, va: Bits, k: nat)
    requires k <= 32
    ensures forall i | 0 <= i < 32 ::
              Or(ShiftLeft(b, k), And(va, Mask(0, k)))[i] == if i < k then va[i] else b[i - k]
  {
  }

  /** Two addresses of one 4 KB page translate alike: to one physical page, with their own offsets, or both
      to a fault, or both to an exit. */
  lemma PageTranslatesTogether(r: Cp15, mem: TableMemory, va: Bits, vb: Bits)
    requires SamePage(va, vb)
    ensures Faults(r, mem, va) == Faults(r, mem, vb)
    ensures Translate(r, mem, va).Exits? == Translate(r, mem, vb).Exits?
    ensures Translate(r, mem, va).Physical? ==> SamePage(Translate(r, mem, va).pa, Translate(r, mem, vb).pa)
    ensures Translate(r, mem, va).Physical? && !Faults(r, mem, va) ==>
              forall i | 0 <= i < 12 :: Translate(r, mem, va).pa[i] == va[i]
  {
    SamePageSameDescriptors(r, va, vb, Zeros());
    match FirstLevelEntry(mem(FirstLevelAddress(r, va))) {
      case PageTable(base) =>
        SamePageSameDescriptors(r, va, vb, base);
        match SecondLevelEntry(mem(SecondLevelAddress(base, va))) {
          case Small(b) => OutputBits(b, va, 12); OutputBits(b, vb, 12);
          case Large(b) => OutputBits(b, va, 16); OutputBits(b, vb, 16);
          case PageFault =>
        }
      case Section(base) => OutputBits(base, va, 20); OutputBits(base, vb, 20);
      case Supersection =>
      case Fault =>
    }
  }
}
