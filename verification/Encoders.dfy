/**
 Instruction fields: what the code generated by archc/src/acbinutils/gas.c (insert a field into an
 instruction word) and by archc/src/acbinutils/bfd.c (extract it again) does.

 Words are bit strings (`BitWords`), so masks and shifts are those of the generated code.
 */
module Encoders {
  import opened Words
  import opened BitWords

  // ---------------------------------------------------------------------------------------------
  // Formats
  // ---------------------------------------------------------------------------------------------

  /** `firstBit` counts from the top of the format to the lowest bit of the field. */
  datatype Field = Field(firstBit: int, size: int)
  datatype Format = Format(size: int, fields: seq<Field>)

  /** The position of the field's lowest bit. */
  function Position(m: Format, f: Field): int {
    m.size - (f.firstBit + 1)
  }

  predicate InFormat(m: Format, f: Field) {
    0 < f.size && 0 <= Position(m, f) && Position(m, f) + f.size <= m.size <= 32
  }

  predicate Disjoint(m: Format, f: Field, g: Field) {
    Position(m, f) + f.size <= Position(m, g) || Position(m, g) + g.size <= Position(m, f)
  }

  predicate Occupies(m: Format, f: Field, i: int) {
    Position(m, f) <= i < Position(m, f) + f.size
  }

  /** The generator's mask: ones shifted in from both sides. */
  function EncodingMask(m: Format, f: Field): Bits
    requires InFormat(m, f)
  {
    And(ShiftRight(Ones(), 32 - m.size + f.firstBit + 1 - f.size), ShiftLeft(Ones(), m.size - (f.firstBit + 1)))
  }

  /** The generated insertion: clear the field, then set it to the shifted value. */
  function Insert(image: Bits, m: Format, f: Field, value: Bits): Bits
    requires InFormat(m, f)
  {
    Or(And(image, Not(EncodingMask(m, f))), And(ShiftLeft(value, Position(m, f)), EncodingMask(m, f)))
  }

  /** The generated extraction: shift down, then mask. */
  function Extract(image: Bits, m: Format, f: Field): Bits
    requires InFormat(m, f)
  {
    And(ShiftRight(image, Position(m, f)), LowBits(Ones(), f.size))
  }

  // ---------------------------------------------------------------------------------------------
  // The generated functions
  // ---------------------------------------------------------------------------------------------

  predicate ValidFormats(formats: seq<Format>) {
    forall m | m in formats :: forall f | f in m.fields :: InFormat(m, f)
  }

  /** The generator's loop for the extraction mask sets one bit at a time. */
  method FieldMask(size: int) returns (mask: Bits)
    requires 0 <= size <= 32
    ensures mask == LowBits(Ones(), size)
  {
    mask := Zeros();
    var k := 0;
    while k < size
      invariant 0 <= k <= size
      invariant mask == LowBits(Ones(), k)
    {
      mask := Or(mask, ShiftLeft(One(), k));
      k := k + 1;
    }
  }

  /** The instruction word that the assembler fills in. */
  class Insn {
    var image: Bits

    /** The generated encoder; a format or field it does not know leaves the word alone. */
    method Encode(formats: seq<Format>, insnType: nat, fieldId: nat, value: Bits)
      requires ValidFormats(formats)
      modifies this
      ensures
        if insnType < |formats| && fieldId < |formats[insnType].fields|
        then image == Insert(old(image), formats[insnType], formats[insnType].fields[fieldId], value)
        else image == old(image)
    {
      if insnType < |formats| && fieldId < |formats[insnType].fields| {
        var m := formats[insnType];
        var f := m.fields[fieldId];
        assert m in formats && f in m.fields;
        var mask := EncodingMask(m, f);
        image := And(image, Not(mask));
        image := Or(image, And(ShiftLeft(value, m.size - (f.firstBit + 1)), mask));
      }
    }
  }

  /** The generated extractor; zero for a format or field it does not know. */
  method GetFieldValue(formats: seq<Format>, insnType: nat, fieldId: nat, value: Bits) returns (r: Bits)
    requires ValidFormats(formats)
    ensures
      if insnType < |formats| && fieldId < |formats[insnType].fields|
      then formats[insnType].fields[fieldId] in formats[insnType].fields
           && InFormat(formats[insnType], formats[insnType].fields[fieldId])
           && r == Extract(value, formats[insnType], formats[insnType].fields[fieldId])
      else r == Zeros()
  {
    r := Zeros();
    if insnType < |formats| && fieldId < |formats[insnType].fields| {
      var m := formats[insnType];
      var f := m.fields[fieldId];
      assert m in formats && f in m.fields;
      var mask := FieldMask(f.size);
      r := And(ShiftRight(value, m.size - (f.firstBit + 1)), mask);
    }
  }

  // ---------------------------------------------------------------------------------------------
  // Insertion and extraction
  // ---------------------------------------------------------------------------------------------

  /** The two shifted runs of ones meet in exactly the bits of the field. */
  lemma MaskIsField(m: Format, f: Field)
    requires InFormat(m, f)
    ensures forall i | 0 <= i < 32 :: EncodingMask(m, f)[i] <==> Occupies(m, f, i)
  {
  }

  /** Insertion writes the value's bits into the field and keeps all others. */
  lemma InsertBits(image: Bits, m: Format, f: Field, value: Bits)
    requires InFormat(m, f)
    ensures forall i | 0 <= i < 32 ::
              Insert(image, m, f, value)[i] == if Occupies(m, f, i) then value[i - Position(m, f)] else image[i]
  {
    MaskIsField(m, f);
  }

  /** Where a field lies, counted from bit 0 of the word, for insertion and for extraction. */
  lemma FieldPlace(image: Bits, m: Format, f: Field, value: Bits)
    requires InFormat(m, f)
    ensures forall i | 0 <= i < 32 ::
              Insert(image, m, f, value)[i] ==
                var low := m.size - f.firstBit - 1;
                if low <= i < low + f.size then value[i - low] else image[i]
    ensures forall i | 0 <= i < 32 ::
              Extract(image, m, f)[i] == (i < f.size && image[i + m.size - f.firstBit - 1])
  {
    InsertBits(image, m, f, value);
  }

  lemma ExtractInserted(image: Bits, m: Format, f: Field, value: Bits)
    requires InFormat(m, f)
    ensures Extract(Insert(image, m, f, value), m, f) == LowBits(value, f.size)
  {
    InsertBits(image, m, f, value);
  }

  lemma InsertKeepsOthers(image: Bits, m: Format, f: Field, g: Field, value: Bits)
    requires InFormat(m, f) && InFormat(m, g) && Disjoint(m, f, g)
    ensures Extract(Insert(image, m, f, value), m, g) == Extract(image, m, g)
  {
    InsertBits(image, m, f, value);
  }

  /** What is extracted is the inserted number modulo 2^size. */
  lemma ExtractedNumber(image: Bits, m: Format, f: Field, value: Bits)
    requires InFormat(m, f)
    ensures Value(Extract(Insert(image, m, f, value), m, f), 32) == Value(value, 32) % Pow2(f.size)
  {
    ExtractInserted(image, m, f, value);
    ValueOfLowBits(value, f.size, 32);
    ValueModulo(value, f.size, 32);
  }

  // ---------------------------------------------------------------------------------------------
  // Whole instructions
  // ---------------------------------------------------------------------------------------------

  /** A write of a value to the field with an index. */
  datatype Write = Write(field: nat, value: Bits)

  predicate ValidFormat(m: Format) {
    forall f | f in m.fields :: InFormat(m, f)
  }

  predicate PairwiseDisjoint(m: Format) {
    forall i, j | 0 <= i < j < |m.fields| :: Disjoint(m, m.fields[i], m.fields[j])
  }

  predicate ValidWrites(m: Format, writes: seq<Write>) {
    forall w | w in writes :: w.field < |m.fields|
  }

  function InsertAll(image: Bits, m: Format, writes: seq<Write>): Bits
    requires ValidFormat(m) && ValidWrites(m, writes)
  {
    if writes == [] then image
    else
      var n := |writes| - 1;
      assert writes[n] in writes;
      Insert(InsertAll(image, m, writes[..n]), m, m.fields[writes[n].field], writes[n].value)
  }

  /** What the last write to a field leaves to be extracted; without one, what was there before. */
  function LastWritten(image: Bits, m: Format, writes: seq<Write>, j: nat): Bits
    requires ValidFormat(m) && j < |m.fields|
  {
    if writes == [] then Extract(image, m, m.fields[j])
    else if writes[|writes| - 1].field == j then LowBits(writes[|writes| - 1].value, m.fields[j].size)
    else LastWritten(image, m, writes[..|writes| - 1], j)
  }

  /** Fields that do not overlap can be written in any order and any number of times: extracting a field
      gives the value written to it last, cut to the field. */
  lemma {:induction false} ExtractAfterWrites(image: Bits, m: Format, writes: seq<Write>, j: nat)
    requires ValidFormat(m) && PairwiseDisjoint(m) && ValidWrites(m, writes) && j < |m.fields|
    ensures Extract(InsertAll(image, m, writes), m, m.fields[j]) == LastWritten(image, m, writes, j)
  {
    if writes != [] {
      var n := |writes| - 1;
      var k := writes[n].field;
      var before := InsertAll(image, m, writes[..n]);
      assert writes[n] in writes;
      if k == j {
        ExtractInserted(before, m, m.fields[j], writes[n].value);
      } else {
        ExtractAfterWrites(image, m, writes[..n], j);
        assert Disjoint(m, m.fields[if k < j then k else j], m.fields[if k < j then j else k]);
        InsertKeepsOthers(before, m, m.fields[k], m.fields[j], writes[n].value);
      }
    }
  }

  /** An order in which to encode fields, by their indices; repetitions are allowed. */
  predicate ValidOrder(m: Format, order: seq<nat>) {
    forall k | 0 <= k < |order| :: order[k] < |m.fields|
  }

  /** The writes that copy these fields from a word. */
  function CopyWrites(word: Bits, m: Format, order: seq<nat>): (w: seq<Write>)
    requires ValidFormat(m) && ValidOrder(m, order)
    ensures ValidWrites(m, w) && |w| == |order|
  {
    if order == [] then []
    else
      var n := |order| - 1;
      CopyWrites(word, m, order[..n]) + [Write(order[n], Extract(word, m, m.fields[order[n]]))]
  }

  /** One of these fields holds the bit. */
  predicate Covered(m: Format, order: seq<nat>, i: int)
    requires ValidOrder(m, order)
  {
    exists k | 0 <= k < |order| :: Occupies(m, FieldAt(m, order, k), i)
  }

  function FieldAt(m: Format, order: seq<nat>, k: nat): Field
    requires ValidOrder(m, order) && k < |order|
  {
    m.fields[order[k]]
  }

  /** One field more covers its own bits. */
  lemma CoveredByOneMore(m: Format, order: seq<nat>, i: int)
    requires ValidOrder(m, order) && order != []
    ensures ValidOrder(m, order[..|order| - 1])
    ensures Covered(m, order, i) <==>
              Covered(m, order[..|order| - 1], i) || Occupies(m, FieldAt(m, order, |order| - 1), i)
  {
    var n := |order| - 1;
    if Covered(m, order[..n], i) {
      var k :| 0 <= k < n && Occupies(m, FieldAt(m, order[..n], k), i);
      assert Occupies(m, FieldAt(m, order, k), i);
    }
    if Covered(m, order, i) && !Occupies(m, FieldAt(m, order, n), i) {
      var k :| 0 <= k < |order| && Occupies(m, FieldAt(m, order, k), i);
      assert Occupies(m, FieldAt(m, order[..n], k), i);
    }
  }

  lemma CopiedField(word: Bits, image: Bits, m: Format, f: Field, i: int)
    requires InFormat(m, f) && 0 <= i < 32
    ensures Insert(image, m, f, Extract(word, m, f))[i] == if Occupies(m, f, i) then word[i] else image[i]
  {
    InsertBits(image, m, f, Extract(word, m, f));
  }

  /** Copying fields of one word into another copies exactly the covered bits, in whatever order. */
  lemma {:induction false} CopyCoversBits(word: Bits, image: Bits, m: Format, order: seq<nat>, i: int)
    requires ValidFormat(m) && ValidOrder(m, order) && 0 <= i < 32
    ensures InsertAll(image, m, CopyWrites(word, m, order))[i] == if Covered(m, order, i) then word[i] else image[i]
  {
    if order != [] {
      var n := |order| - 1;
      var f := FieldAt(m, order, n);
      CoveredByOneMore(m, order, i);
      CopyCoversBits(word, image, m, order[..n], i);
      CopyOneMore(word, image, m, order);
      CopiedField(word, InsertAll(image, m, CopyWrites(word, m, order[..n])), m, f, i);
    }
  }

  lemma CopyOneMore(word: Bits, image: Bits, m: Format, order: seq<nat>)
    requires ValidFormat(m) && ValidOrder(m, order) && order != []
    ensures ValidOrder(m, order[..|order| - 1])
    ensures
      var f := FieldAt(m, order, |order| - 1);
      InsertAll(image, m, CopyWrites(word, m, order))
      == Insert(InsertAll(image, m, CopyWrites(word, m, order[..|order| - 1])), m, f, Extract(word, m, f))
  {
    var n := |order| - 1;
    var writes := CopyWrites(word, m, order);
    assert writes[..n] == CopyWrites(word, m, order[..n]);
  }

  /** Fields laid out one after the other from the top of the format to bit 0. */
  predicate Tiles(m: Format) {
    && |m.fields| > 0
    && Position(m, m.fields[0]) + m.fields[0].size == m.size
    && (forall j | 0 <= j < |m.fields| - 1 ::
          Position(m, m.fields[j]) == Position(m, m.fields[j + 1]) + m.fields[j + 1].size)
    && Position(m, m.fields[|m.fields| - 1]) == 0
  }

  function InSequence(n: nat): (order: seq<nat>)
    ensures |order| == n && forall k | 0 <= k < n :: order[k] == k
  {
    seq(n, k => k)
  }

  /** Fields laid out so cover the format. */
  lemma TilesCover(m: Format, i: int)
    requires Tiles(m) && 0 <= i < m.size
    ensures ValidOrder(m, InSequence(|m.fields|)) && Covered(m, InSequence(|m.fields|), i)
  {
    var j := TileOf(m, |m.fields|, i);
    assert Occupies(m, FieldAt(m, InSequence(|m.fields|), j), i);
  }

  lemma {:induction false} TileOf(m: Format, n: nat, i: int) returns (j: nat)
    requires Tiles(m) && 0 < n <= |m.fields|
    requires Position(m, m.fields[n - 1]) <= i < m.size
    ensures j < n && Occupies(m, m.fields[j], i)
  {
    if n > 1 && i >= Position(m, m.fields[n - 2]) {
      j := TileOf(m, n - 1, i);
    } else {
      j := n - 1;
      if n > 1 {
        assert Position(m, m.fields[n - 2]) == Position(m, m.fields[n - 2 + 1]) + m.fields[n - 2 + 1].size;
      }
    }
  }

  /** When the fields cover the format, extracting all of them and encoding them, in any order, into any word
      that is right above the format rebuilds the instruction. */
  lemma ExtractAllThenEncodeAll(word: Bits, image: Bits, m: Format, order: seq<nat>)
    requires ValidFormat(m) && ValidOrder(m, order)
    requires forall i | 0 <= i < 32 :: word[i] == image[i] || Covered(m, order, i)
    ensures InsertAll(image, m, CopyWrites(word, m, order)) == word
  {
    forall i | 0 <= i < 32
      ensures InsertAll(image, m, CopyWrites(word, m, order))[i] == word[i]
    {
      CopyCoversBits(word, image, m, order, i);
    }
  }
}
