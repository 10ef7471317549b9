/**
 Whole runs of the relocation converter on one section, archc/src/acbinutils/acrelconvert.c:43-75: read the
 map file into an empty table, forward or in reverse mode, and patch the section in place.
 */
module Conversions {
  import opened Words
  import opened HashTables
  import opened MapFiles
  import opened Relocations

  /** The table that a map file gives. */
  function MapOf(text: string, reverse: bool): Table {
    AddAll(map[], Oriented(ParseText(text).1, reverse))
  }

  /** Forward, a line `a = b` maps a to b; in reverse, b to a. Of the lines with one left-hand side the last
      counts, and nothing else is mapped. */
  lemma MapOfLines(text: string, reverse: bool, a: Word)
    ensures
      var pairs := ParseText(text).1;
      && (forall k | LastLine(pairs, reverse, a, k) ::
            Lookup(MapOf(text, reverse), a) == Some(if reverse then pairs[k].0 else pairs[k].1))
      && (a in MapOf(text, reverse) ==> HasLine(pairs, reverse, a))
  {
    MapOfPairs(ParseText(text).1, reverse, a);
  }

  ghost predicate HasLine(pairs: seq<(Word, Word)>, reverse: bool, a: Word) {
    exists k :: LastLine(pairs, reverse, a, k)
  }

  lemma MapOfPairs(pairs: seq<(Word, Word)>, reverse: bool, a: Word)
    ensures
      var t := AddAll(map[], Oriented(pairs, reverse));
      && (forall k | LastLine(pairs, reverse, a, k) ::
            Lookup(t, a) == Some(if reverse then pairs[k].0 else pairs[k].1))
      && (a in t ==> HasLine(pairs, reverse, a))
  {
    var oriented := Oriented(pairs, reverse);
    forall k | LastLine(pairs, reverse, a, k)
      ensures Lookup(AddAll(map[], oriented), a) == Some(if reverse then pairs[k].0 else pairs[k].1)
    {
      LastOriented(pairs, oriented, reverse, a, k);
      LastAdditionWins(oriented, a, k);
    }
    if a in AddAll(map[], oriented) {
      var k := FoundWasAdded(oriented, a);
      LastOriented(pairs, oriented, reverse, a, k);
    }
  }

  lemma LastOriented(pairs: seq<(Word, Word)>, oriented: seq<(Word, Word)>, reverse: bool, a: Word, k: int)
    requires oriented == Oriented(pairs, reverse)
    ensures |oriented| == |pairs|
    ensures LastLine(pairs, reverse, a, k) <==> LastAt(oriented, a, k)
    ensures 0 <= k < |pairs| ==> oriented[k].1 == if reverse then pairs[k].0 else pairs[k].1
  {
    assert forall j | 0 <= j < |pairs| :: oriented[j].0 == LeftSide(pairs[j], reverse);
  }

  /** The side of a line that is mapped from. */
  function LeftSide(pair: (Word, Word), reverse: bool): Word {
    if reverse then pair.1 else pair.0
  }

  /** Line k is the last of the pairs whose left-hand side, or right-hand side in reverse, is a. */
  predicate LastLine(pairs: seq<(Word, Word)>, reverse: bool, a: Word, k: int) {
    && 0 <= k < |pairs| && LeftSide(pairs[k], reverse) == a
    && forall j | k < j < |pairs| :: LeftSide(pairs[j], reverse) != a
  }

  /** Where a section lies, and how it is to be read. */
  datatype Section = Section(offset: nat, size: Word, rela: bool, matchEndian: bool)

  function SizeOfEntry(s: Section): (n: nat)
    ensures EntrySize(n)
  {
    if s.rela then RELA_SIZE else REL_SIZE
  }

  /** Success, and the file afterwards; a bad map file leaves the file alone. */
  function Converted(file: seq<Byte>, text: string, reverse: bool, s: Section): (bool, seq<Byte>)
    requires s.offset <= |file|
  {
    if !ParseText(text).0 then (false, file)
    else Patched(file, s.offset, EntryCount(s.size, s.rela), SizeOfEntry(s), MapOf(text, reverse), s.matchEndian)
  }

  method ConvertSection(file: array<Byte>, text: string, reverse: bool, s: Section) returns (ok: bool)
    requires s.offset <= file.Length
    modifies file
    ensures (ok, file[..]) == Converted(old(file[..]), text, reverse, s)
    ensures ok ==>
              TypesReplaced(old(file[..]), file[..], s.offset, s.size, s.rela, s.matchEndian, MapOf(text, reverse))
  {
    var hashtable := new HashTable();
    ok := ProcessMapFile(text, hashtable, reverse);
    if ok {
      ok := PatchRelocationSection(file, s.offset, s.size, s.rela, hashtable, s.matchEndian);
    }
  }

  /** A successful run replaces every type code of the section through the table, and no other byte. */
  lemma ConvertedTypes(file: seq<Byte>, text: string, reverse: bool, s: Section)
    requires s.offset <= |file| && Converted(file, text, reverse, s).0
    ensures
      TypesReplaced(file, Converted(file, text, reverse, s).1, s.offset, s.size, s.rela, s.matchEndian,
                    MapOf(text, reverse))
  {
    SectionTypesReplaced(file, s.offset, s.size, s.rela, MapOf(text, reverse), s.matchEndian);
  }

  // ---------------------------------------------------------------------------------------------
  // There and back
  // ---------------------------------------------------------------------------------------------

  /** A successful conversion is undone by the same map file in reverse mode whenever the two tables are
      reversible. */
  lemma ReverseRunRestores(file: seq<Byte>, text: string, s: Section)
    requires s.offset <= |file| && Converted(file, text, false, s).0
    requires Reversible(MapOf(text, false), MapOf(text, true))
    ensures |Converted(file, text, false, s).1| == |file|
    ensures Converted(Converted(file, text, false, s).1, text, true, s) == (true, file)
  {
    var count := EntryCount(s.size, s.rela);
    var there := Patch(file[s.offset..], count, SizeOfEntry(s), MapOf(text, false), s.matchEndian);
    ReverseRestoresSection(file[s.offset..], count, SizeOfEntry(s), MapOf(text, false), MapOf(text, true),
                           s.matchEndian);
    PatchedBehind(file, s.offset, there.1);
  }

  lemma PatchedBehind(file: seq<Byte>, offset: nat, patched: seq<Byte>)
    requires offset <= |file|
    ensures
      var converted := file[..offset] + patched;
      converted[offset..] == patched && converted[..offset] + file[offset..] == file
  {
  }

  /** That is so when no two lines have the same right-hand number, and each of these is below 256. */
  lemma InvertibleMapIsReversible(text: string)
    requires Invertible(ParseText(text).1)
    ensures Reversible(MapOf(text, false), MapOf(text, true))
  {
    var pairs := ParseText(text).1;
    InvertibleIsReversible(pairs);
    assert Oriented(pairs, false) == pairs && Oriented(pairs, true) == Swapped(pairs);
  }

  /** Both runs, one after the other: if the first succeeds, so does the second, and every byte of the file is
      as it was. */
  method ConvertAndBack(file: array<Byte>, text: string, s: Section) returns (there: bool, back: bool)
    requires s.offset <= file.Length && Invertible(ParseText(text).1)
    modifies file
    ensures there == Converted(old(file[..]), text, false, s).0
    ensures there ==> back && file[..] == old(file[..])
  {
    ghost var before := file[..];
    there := ConvertSection(file, text, false, s);
    InvertibleMapIsReversible(text);
    if there {
      ReverseRunRestores(before, text, s);
    }
    back := ConvertSection(file, text, true, s);
  }

  // ---------------------------------------------------------------------------------------------
  // Written map files
  // ---------------------------------------------------------------------------------------------

  /** `a = b` in decimal. */
  function WrittenLine(pair: (Word, Word)): string {
    AssignmentText(Assignment("", Written(pair.0), " ", " ", Written(pair.1)))
  }

  function WrittenLines(pairs: seq<(Word, Word)>): (lines: seq<string>)
    ensures |lines| == |pairs|
  {
    if pairs == [] then [] else [WrittenLine(pairs[0])] + WrittenLines(pairs[1..])
  }

  lemma OneLineConcat(l: string, r: string)
    requires OneLine(l) && OneLine(r)
    ensures OneLine(l + r)
  {
  }

  lemma NumberIsOneLine(d: string)
    requires AllDigits(d)
    ensures OneLine(d)
  {
  }

  lemma WrittenLineIsOneLine(left: string, right: string)
    requires AllDigits(left) && AllDigits(right)
    ensures OneLine(AssignmentText(Assignment("", left, " ", " ", right)))
  {
    NumberIsOneLine(left);
    NumberIsOneLine(right);
    OneLineConcat(" ", right);
    OneLineConcat("=", " " + right);
    OneLineConcat(" ", "=" + (" " + right));
    OneLineConcat(left, " " + ("=" + (" " + right)));
    OneLineConcat("", left + (" " + ("=" + (" " + right))));
  }

  lemma WrittenLineIsRead(pair: (Word, Word), line: string)
    requires line == WrittenLine(pair)
    ensures OneLine(line) && Accepted(line) && LinePairs(line) == [pair]
  {
    WrittenAssignment("", pair.0, " ", " ", pair.1);
    WrittenLineIsOneLine(Written(pair.0), Written(pair.1));
  }

  lemma OneMoreLine(all: seq<string>, line: string, lines: seq<string>, pair: (Word, Word))
    requires all == [line] + lines && Accepted(line) && LinePairs(line) == [pair] && AllAccepted(lines)
    ensures AllAccepted(all) && PairsOf(all) == [pair] + PairsOf(lines)
  {
    assert all[1..] == lines;
    FirstAndRest(all);
  }

  lemma EmptyLineIsRead()
    ensures AllAccepted([""]) && PairsOf([""]) == []
  {
    assert ParseLine("") == Blank("");
    assert [""][1..] == [];
  }

  lemma {:induction false} WrittenLinesAreOneLine(pairs: seq<(Word, Word)>)
    ensures forall i | 0 <= i < |pairs| :: OneLine(WrittenLines(pairs)[i])
  {
    if pairs != [] {
      WrittenLineIsRead(pairs[0], WrittenLine(pairs[0]));
      WrittenLinesAreOneLine(pairs[1..]);
    }
  }

  lemma {:induction false} WrittenLinesAreRead(pairs: seq<(Word, Word)>)
    ensures AllAccepted(WrittenLines(pairs) + [""]) && PairsOf(WrittenLines(pairs) + [""]) == pairs
  {
    var all := WrittenLines(pairs) + [""];
    if pairs == [] {
      EmptyLineIsRead();
      assert all == [""];
    } else {
      var line, rest := WrittenLine(pairs[0]), WrittenLines(pairs[1..]) + [""];
      WrittenLineIsRead(pairs[0], line);
      WrittenLinesAreRead(pairs[1..]);
      assert all == [line] + rest;
      OneMoreLine(all, line, rest, pairs[0]);
    }
  }

  /** A list of pairs written as a map file is read back exactly, in order. */
  lemma WrittenMapIsRead(pairs: seq<(Word, Word)>)
    ensures ParseText(Text(WrittenLines(pairs), "")) == (true, pairs)
  {
    WrittenLinesAreOneLine(pairs);
    WrittenLinesAreRead(pairs);
    TextMeaning(WrittenLines(pairs), "");
  }
}
