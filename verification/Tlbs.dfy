/**
 The translation look-aside buffer of armv7/src/tlb.h, a direct-mapped cache of 32 cells, and the
 translation path of armv7/src/mmu.cpp that uses it when it is compiled in.

 The buffer is transparent: in every run of accesses over unchanged tables, the address sent to the bus
 is the one the plain walk gives, except inside a page that the first-level table faults, where the
 plain walk gives zero and the buffered path zero plus the offset.
 */
module Tlbs {
  import opened Words
  import opened BitWords
  import opened Mmus

  const MAGNITUDE := 5
  const CELLS := 32

  /** `va` is a page number, `pa` the address of a physical page. */
  datatype Cell = Cell(valid: bool, va: Bits, pa: Bits)

  /** The cell of a page number: its low five bits. */
  function Hash(page: Bits): (h: nat)
    ensures h < CELLS
  {
    ValueBound(page, MAGNITUDE);
    assert Pow2(5) == 32;
    Value(page, MAGNITUDE)
  }

  function Fetch(cells: seq<Cell>, page: Bits): Option<Bits>
    requires |cells| == CELLS
  {
    var cell := cells[Hash(page)];
    if cell.valid && cell.va == page then Some(cell.pa) else None
  }

  function Insert(cells: seq<Cell>, page: Bits, pa: Bits): (r: seq<Cell>)
    requires |cells| == CELLS
    ensures |r| == CELLS
  {
    cells[Hash(page) := Cell(true, page, pa)]
  }

  /** Clears the one cell that the page would occupy. */
  function Flush(cells: seq<Cell>, page: Bits): (r: seq<Cell>)
    requires |cells| == CELLS
    ensures |r| == CELLS
  {
    cells[Hash(page) := cells[Hash(page)].(valid := false)]
  }

  class Tlb {
    const vector: array<Cell>

    ghost predicate Valid() {
      vector.Length == CELLS
    }

    /** The cells are whatever the memory holds: the source does not clear the valid bits. */
    constructor ()
      ensures Valid() && fresh(vector)
    {
      vector := new Cell[CELLS];
    }

    method FetchItem(va: Bits) returns (pa: Option<Bits>)
      requires Valid()
      ensures pa == Fetch(vector[..], va)
    {
      var h := Hash(va);
      if !vector[h].valid || vector[h].va != va {
        return None;
      }
      return Some(vector[h].pa);
    }

    method InsertItem(va: Bits, pa: Bits)
      requires Valid()
      modifies vector
      ensures vector[..] == Insert(old(vector[..]), va, pa)
    {
      vector[Hash(va)] := Cell(true, va, pa);
    }

    method FlushItem(va: Bits)
      requires Valid()
      modifies vector
      ensures vector[..] == Flush(old(vector[..]), va)
    {
      var h := Hash(va);
      vector[h] := vector[h].(valid := false);
    }

    /** The same body as `FlushItem`: one cell is cleared, not all. */
    method FlushAll(va: Bits)
      requires Valid()
      modifies vector
      ensures vector[..] == Flush(old(vector[..]), va)
    {
      var h := Hash(va);
      vector[h] := vector[h].(valid := false);
    }
  }

  /** `flush_all` leaves an empty buffer exactly when every other cell was empty before. */
  lemma FlushAllEmptiesIff(cells: seq<Cell>, va: Bits)
    requires |cells| == CELLS
    ensures (forall h | 0 <= h < CELLS :: !Flush(cells, va)[h].valid)
            <==> (forall h | 0 <= h < CELLS && h != Hash(va) :: !cells[h].valid)
  {
    forall h | 0 <= h < CELLS && h != Hash(va)
      ensures Flush(cells, va)[h] == cells[h]
    {
    }
  }

  // ---------------------------------------------------------------------------------------------
  // Translation through the buffer
  // ---------------------------------------------------------------------------------------------

  function PageOf(va: Bits): Bits {
    ShiftRight(va, 12)
  }

  function OffsetOf(va: Bits): Bits {
    And(va, Mask(0, 12))
  }

  function FrameOf(pa: Bits): Bits {
    And(pa, Mask(12, 32))
  }

  /** The address sent to the bus and the cells afterwards. */
  function Buffered(cells: seq<Cell>, r: Cp15, mem: TableMemory, va: Bits): (s: (Walk, seq<Cell>))
    requires |cells| == CELLS
    ensures |s.1| == CELLS
  {
    match Fetch(cells, PageOf(va))
    case Some(pa) => (Physical(Or(pa, OffsetOf(va))), cells)
    case None =>
      match Translate(r, mem, va)
      case Exits => (Exits, cells)
      case Physical(pa) => (Physical(Or(pa, OffsetOf(va))), Insert(cells, PageOf(va), FrameOf(pa)))
  }

  /** A bus access: `DATA_READ` requests use the data buffer, all others the instruction buffer. */
  datatype Access = Access(dataRead: bool, va: Bits)

  datatype Buffers = Buffers(instruction: seq<Cell>, data: seq<Cell>)

  predicate WellSized(b: Buffers) {
    |b.instruction| == CELLS && |b.data| == CELLS
  }

  function Transported(b: Buffers, r: Cp15, mem: TableMemory, a: Access): (s: (Walk, Buffers))
    requires WellSized(b)
    ensures WellSized(s.1)
  {
    if a.dataRead then
      var s := Buffered(b.data, r, mem, a.va);
      (s.0, b.(data := s.1))
    else
      var s := Buffered(b.instruction, r, mem, a.va);
      (s.0, b.(instruction := s.1))
  }

  class Mmu {
    const tlbI: Tlb
    const tlbD: Tlb
    var cop: Cp15
    var control: Bits

    ghost predicate Valid() {
      tlbI.Valid() && tlbD.Valid() && tlbI.vector != tlbD.vector
    }

    ghost function View(): Buffers
      reads tlbI.vector, tlbD.vector
    {
      Buffers(tlbI.vector[..], tlbD.vector[..])
    }

    constructor (cop: Cp15, control: Bits)
      ensures Valid() && this.cop == cop && this.control == control
    {
      tlbI := new Tlb();
      tlbD := new Tlb();
      this.cop := cop;
      this.control := control;
    }

    /** Where a request goes; with translation off it keeps its address. */
    method Transport(mem: TableMemory, a: Access) returns (sent: Walk)
      requires Valid()
      modifies tlbI.vector, tlbD.vector
      ensures !control[0] ==> sent == Physical(a.va) && View() == old(View())
      ensures control[0] ==> WellSized(old(View())) && (sent, View()) == Transported(old(View()), cop, mem, a)
    {
      if !control[0] {
        return Physical(a.va);
      }
      var tlb := if a.dataRead then tlbD else tlbI;
      var phyAddress := tlb.FetchItem(ShiftRight(a.va, 12));
      if phyAddress == None {
        sent := L1Translate(cop, mem, a.va);
        if sent.Exits? {
          return;
        }
        phyAddress := Some(sent.pa);
        tlb.InsertItem(ShiftRight(a.va, 12), And(sent.pa, Mask(12, 32)));
      }
      sent := Physical(Or(phyAddress.value, And(a.va, Mask(0, 12))));
    }
  }

  // ---------------------------------------------------------------------------------------------
  // Cells and pages
  // ---------------------------------------------------------------------------------------------

  function BitWeight(on: bool, weight: nat): nat {
    if on then weight else 0
  }

  /** A page number is what is above the low twelve bits of an address, and its cell the number of its own low
      five bits. */
  lemma PageAndCell(va: Bits)
    ensures forall i | 0 <= i < 20 :: PageOf(va)[i] == va[i + 12]
    ensures forall i | 20 <= i < 32 :: !PageOf(va)[i]
    ensures
      Hash(PageOf(va)) ==
        BitWeight(va[12], 1) + BitWeight(va[13], 2) + BitWeight(va[14], 4) + BitWeight(va[15], 8)
        + BitWeight(va[16], 16)
  {
    var p := PageOf(va);
    assert Pow2(1) == 2 && Pow2(2) == 4 && Pow2(3) == 8 && Pow2(4) == 16;
    assert Value(p, 0) == 0;
    assert Value(p, 1) == BitWeight(p[0], 1);
    assert Value(p, 2) == Value(p, 1) + BitWeight(p[1], 2);
    assert Value(p, 3) == Value(p, 2) + BitWeight(p[2], 4);
    assert Value(p, 4) == Value(p, 3) + BitWeight(p[3], 8);
    assert Value(p, 5) == Value(p, 4) + BitWeight(p[4], 16);
  }

  /** A translated access leaves its page in the buffer of its kind, data reads in one and all others in the
      other, and does not touch the buffer of the other kind. */
  lemma AccessIsCached(b: Buffers, r: Cp15, mem: TableMemory, a: Access)
    requires WellSized(b)
    ensures
      var s := Transported(b, r, mem, a);
      var after := s.1;
      && (a.dataRead ==> after.instruction == b.instruction) && (!a.dataRead ==> after.data == b.data)
      && (s.0.Physical? ==> Fetch(if a.dataRead then after.data else after.instruction, PageOf(a.va)).Some?)
  {
  }

  /** After a flush the page is not found; pages of other cells are found as before. */
  lemma FlushedPage(cells: seq<Cell>, page: Bits, other: Bits)
    requires |cells| == CELLS
    ensures Fetch(Flush(cells, page), page) == None
    ensures Hash(other) != Hash(page) ==> Fetch(Flush(cells, page), other) == Fetch(cells, other)
  {
  }

  // ---------------------------------------------------------------------------------------------
  // Transparency
  // ---------------------------------------------------------------------------------------------

  /** Every address of the page translates into the physical page. */
  ghost predicate MapsTo(r: Cp15, mem: TableMemory, page: Bits, frame: Bits) {
    forall va: Bits | PageOf(va) == page ::
      Translate(r, mem, va).Physical? && FrameOf(Translate(r, mem, va).pa) == frame
  }

  /** Each valid cell holds the walk of its own page, in the place where that page is looked up. */
  ghost predicate Consistent(cells: seq<Cell>, r: Cp15, mem: TableMemory) {
    && |cells| == CELLS
    && forall h | 0 <= h < CELLS && cells[h].valid :: Hash(cells[h].va) == h && MapsTo(r, mem, cells[h].va, cells[h].pa)
  }

  /** What the plain path sends, with the offset OR-ed in. */
  function WithOffset(w: Walk, va: Bits): Walk {
    match w
    case Exits => Exits
    case Physical(pa) => Physical(Or(pa, OffsetOf(va)))
  }

  /** OR-ing the offset in changes the plain address exactly at a non-zero offset of a faulting page. */
  lemma OffsetHarmlessIff(r: Cp15, mem: TableMemory, va: Bits)
    ensures WithOffset(Translate(r, mem, va), va) == Translate(r, mem, va)
            <==> !Faults(r, mem, va) || OffsetOf(va) == Zeros()
  {
    PageTranslatesTogether(r, mem, va, va);
    var w := Translate(r, mem, va);
    if Faults(r, mem, va) {
      assert Or(Zeros(), OffsetOf(va)) == OffsetOf(va);
    } else if w.Physical? {
      assert Or(w.pa, OffsetOf(va)) == w.pa;
    }
  }

  lemma SamePageNumber(va: Bits, vb: Bits)
    requires PageOf(va) == PageOf(vb)
    ensures SamePage(va, vb)
  {
    forall i | 12 <= i < 32
      ensures va[i] == vb[i]
    {
      assert PageOf(va)[i - 12] == va[i] && PageOf(vb)[i - 12] == vb[i];
    }
  }

  lemma WalkMapsPage(r: Cp15, mem: TableMemory, va: Bits)
    requires Translate(r, mem, va).Physical?
    ensures MapsTo(r, mem, PageOf(va), FrameOf(Translate(r, mem, va).pa))
  {
    forall vb: Bits | PageOf(vb) == PageOf(va)
      ensures Translate(r, mem, vb).Physical?
      ensures FrameOf(Translate(r, mem, vb).pa) == FrameOf(Translate(r, mem, va).pa)
    {
      SamePageNumber(va, vb);
      PageTranslatesTogether(r, mem, va, vb);
    }
  }

  /** A frame with the offset OR-ed in is the address with the offset OR-ed in. */
  lemma FrameWithOffset(r: Cp15, mem: TableMemory, va: Bits)
    requires Translate(r, mem, va).Physical?
    ensures Physical(Or(FrameOf(Translate(r, mem, va).pa), OffsetOf(va))) == WithOffset(Translate(r, mem, va), va)
  {
    PageTranslatesTogether(r, mem, va, va);
    var pa := Translate(r, mem, va).pa;
    assert Or(FrameOf(pa), OffsetOf(va)) == Or(pa, OffsetOf(va));
  }

  lemma BufferedIsTransparent(cells: seq<Cell>, r: Cp15, mem: TableMemory, va: Bits)
    requires Consistent(cells, r, mem)
    ensures Buffered(cells, r, mem, va).0 == WithOffset(Translate(r, mem, va), va)
    ensures Consistent(Buffered(cells, r, mem, va).1, r, mem)
  {
    var page := PageOf(va);
    var cell := cells[Hash(page)];
    if cell.valid && cell.va == page {
      assert MapsTo(r, mem, page, cell.pa);
      FrameWithOffset(r, mem, va);
    } else if Translate(r, mem, va).Physical? {
      WalkMapsPage(r, mem, va);
    }
  }

  ghost predicate BothConsistent(b: Buffers, r: Cp15, mem: TableMemory) {
    Consistent(b.instruction, r, mem) && Consistent(b.data, r, mem)
  }

  /** The addresses sent by a run of accesses, up to and including one at which the simulator exits. */
  function Sent(b: Buffers, r: Cp15, mem: TableMemory, accesses: seq<Access>): seq<Walk>
    requires WellSized(b)
    decreases |accesses|
  {
    if accesses == [] then []
    else
      var s := Transported(b, r, mem, accesses[0]);
      [s.0] + (if s.0.Exits? then [] else Sent(s.1, r, mem, accesses[1..]))
  }

  /** The addresses the plain walk sends, with the offsets OR-ed in. */
  function SentPlainly(r: Cp15, mem: TableMemory, accesses: seq<Access>): seq<Walk> {
    if accesses == [] then []
    else
      var w := WithOffset(Translate(r, mem, accesses[0].va), accesses[0].va);
      [w] + (if w.Exits? then [] else SentPlainly(r, mem, accesses[1..]))
  }

  /** In every run over unchanged tables, every access is sent where the plain walk sends it, and the run
      stops where the plain one does. At which addresses OR-ing the offset in is harmless, and the two are
      therefore equal, is said by `OffsetHarmlessIff`. */
  lemma {:induction false} BufferIsTransparent(b: Buffers, r: Cp15, mem: TableMemory, accesses: seq<Access>)
    requires BothConsistent(b, r, mem)
    ensures Sent(b, r, mem, accesses) == SentPlainly(r, mem, accesses)
    decreases |accesses|
  {
    if accesses != [] {
      var a := accesses[0];
      BufferedIsTransparent(if a.dataRead then b.data else b.instruction, r, mem, a.va);
      var s := Transported(b, r, mem, a);
      if !s.0.Exits? {
        BufferIsTransparent(s.1, r, mem, accesses[1..]);
      }
    }
  }

  /** Buffers whose cells are all invalid are consistent with any tables. */
  lemma EmptyIsConsistent(b: Buffers, r: Cp15, mem: TableMemory)
    requires WellSized(b)
    requires forall h | 0 <= h < CELLS :: !b.instruction[h].valid && !b.data[h].valid
    ensures BothConsistent(b, r, mem)
  {
  }

  /** The tables changed for one page only. */
  ghost predicate OnlyPageChanged(r: Cp15, mem: TableMemory, changed: TableMemory, page: Bits) {
    forall va: Bits | PageOf(va) != page :: Translate(r, changed, va) == Translate(r, mem, va)
  }

  lemma FlushRestores(cells: seq<Cell>, r: Cp15, mem: TableMemory, changed: TableMemory, page: Bits)
    requires Consistent(cells, r, mem) && OnlyPageChanged(r, mem, changed, page)
    ensures Consistent(Flush(cells, page), r, changed)
  {
    forall h | 0 <= h < CELLS && Flush(cells, page)[h].valid
      ensures Hash(Flush(cells, page)[h].va) == h
      ensures MapsTo(r, changed, Flush(cells, page)[h].va, Flush(cells, page)[h].pa)
    {
      assert h != Hash(page) && Flush(cells, page)[h] == cells[h];
      assert MapsTo(r, mem, cells[h].va, cells[h].pa);
    }
  }

  /** After a table change confined to one 4 KB page, flushing that page in both buffers makes them
      consistent with the new tables, so that they are transparent again. */
  lemma FlushRestoresTransparency(b: Buffers, r: Cp15, mem: TableMemory, changed: TableMemory, page: Bits)
    requires BothConsistent(b, r, mem) && OnlyPageChanged(r, mem, changed, page)
    ensures BothConsistent(Buffers(Flush(b.instruction, page), Flush(b.data, page)), r, changed)
  {
    FlushRestores(b.instruction, r, mem, changed, page);
    FlushRestores(b.data, r, mem, changed, page);
  }
}
