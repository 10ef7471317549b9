/**
 Patching of relocation sections, from archc/src/acbinutils/acrelconvert.c: the type code of every
 REL (8-byte) or RELA (12-byte) entry is replaced through a table, in place, in the byte order of the
 file. A table built from a map file and the table built from the same file in reverse mode undo each
 other. The host is little-endian.
 */
module Relocations {
  import opened Words
  import opened HashTables

  // ---------------------------------------------------------------------------------------------
  // Byte order
  // ---------------------------------------------------------------------------------------------

  /** Four bytes in the order in which the host keeps those of a word. */
  function InMemory(b: Bytes): (s: seq<Byte>)
    ensures |s| == 4
  {
    [b.b0, b.b1, b.b2, b.b3]
  }

  function FromMemory(s: seq<Byte>): (b: Bytes)
    requires |s| == 4
    ensures InMemory(b) == s
  {
    Bytes(s[3], s[2], s[1], s[0])
  }

  function WordBytes(w: Word): (s: seq<Byte>)
    ensures |s| == 4
  {
    InMemory(BytesOf(w))
  }

  function BytesWord(s: seq<Byte>): Word
    requires |s| == 4
  {
    Joined(FromMemory(s))
  }

  function Reversed(b: Bytes): Bytes {
    Bytes(b.b0, b.b1, b.b2, b.b3)
  }

  /** The word with its four bytes in opposite order. */
  function Swap(w: Word): Word {
    Joined(Reversed(BytesOf(w)))
  }

  lemma SwapJoined(b: Bytes)
    ensures Swap(Joined(b)) == Joined(Reversed(b))
  {
    BytesAreWords(0, b);
  }

  lemma SwapTwice(w: Word)
    ensures Swap(Swap(w)) == w
  {
    SwapJoined(Reversed(BytesOf(w)));
    BytesAreWords(w, BytesOf(w));
  }

  function Convert(w: Word, matchEndian: bool): Word {
    if matchEndian then w else Swap(w)
  }

  /** The first `size` bytes of a number, read as a big-endian number. */
  function BigEndian(b: seq<Byte>): nat {
    if b == [] then 0 else BigEndian(b[..|b| - 1]) * 0x100 + b[|b| - 1]
  }

  /** The converter's byte loop, over the bytes of the number as the host keeps them. */
  method ShiftBytes(bytes: seq<Byte>, size: nat) returns (out: Word)
    requires size <= |bytes| == 4
    ensures out == BigEndian(bytes[..size])
  {
    out := 0;
    var i := 0;
    var left := size;
    while left > 0
      invariant 0 <= left <= size && i == size - left
      invariant out == BigEndian(bytes[..i])
    {
      BigEndianGrows(bytes, i);
      out := Wrap(out * 0x100);
      out := out + bytes[i];
      i := i + 1;
      left := left - 1;
    }
  }

  /** Conversion of a 2-byte or 4-byte number between the file's byte order and the host's. */
  method ConvertEndian(size: nat, num: Word, matchEndian: bool) returns (out: Word)
    requires size <= 4
    ensures matchEndian ==> out == num
    ensures !matchEndian ==> out == BigEndian(WordBytes(num)[..size])
    ensures size == 4 ==> out == Convert(num, matchEndian)
  {
    if matchEndian {
      return num;
    }
    out := ShiftBytes(WordBytes(num), size);
    if size == 4 {
      BigEndianIsSwap(num);
      assert WordBytes(num)[..4] == WordBytes(num);
    }
  }

  /** One more byte shifts the others up; up to four bytes fit a word. */
  lemma {:induction false} BigEndianGrows(b: seq<Byte>, i: nat)
    requires i < |b| == 4
    ensures BigEndian(b[..i + 1]) == BigEndian(b[..i]) * 0x100 + b[i]
    ensures BigEndian(b[..i]) < if i == 0 then 1 else if i == 1 then 0x100 else if i == 2 then 0x1_0000 else 0x100_0000
  {
    assert b[..i + 1][..i] == b[..i];
    if i > 0 {
      BigEndianGrows(b, i - 1);
    }
  }

  lemma BigEndianIsSwap(w: Word)
    ensures BigEndian(WordBytes(w)) == Swap(w)
  {
    var s := WordBytes(w);
    BigEndianGrows(s, 0);
    BigEndianGrows(s, 1);
    BigEndianGrows(s, 2);
    BigEndianGrows(s, 3);
    assert s[..4] == s;
  }

  // ---------------------------------------------------------------------------------------------
  // Entries
  // ---------------------------------------------------------------------------------------------

  const REL_SIZE := 8
  const RELA_SIZE := 12

  /** How many whole entries a section of `size` bytes holds. */
  function EntryCount(size: Word, rela: bool): nat {
    if rela then size / RELA_SIZE else size / REL_SIZE
  }

  predicate EntrySize(n: nat) {
    n == REL_SIZE || n == RELA_SIZE
  }

  /** `r_info` of an entry, in the file's byte order: symbol number above an 8-bit type code. */
  function Info(entry: seq<Byte>, matchEndian: bool): Word
    requires |entry| >= 8
  {
    Convert(BytesWord(entry[4..8]), matchEndian)
  }

  /** Where the low byte of `r_info`, the type code, lies in an entry. */
  function TypeAt(matchEndian: bool): nat {
    if matchEndian then 4 else 7
  }

  function TypeOf(entry: seq<Byte>, matchEndian: bool): Byte
    requires |entry| >= 8
  {
    entry[TypeAt(matchEndian)]
  }

  /** An entry with another type code, of which only the low eight bits are kept. */
  function Retype(entry: seq<Byte>, code: Word, matchEndian: bool): (r: seq<Byte>)
    requires |entry| >= 8
    ensures |r| == |entry|
  {
    entry[TypeAt(matchEndian) := code % 0x100]
  }

  /** The code the source extracts with ELF32_R_TYPE is that one byte of the entry. */
  lemma TypeIsLowByte(entry: seq<Byte>, matchEndian: bool)
    requires |entry| >= 8
    ensures Info(entry, matchEndian) % 0x100 == TypeOf(entry, matchEndian)
  {
    var b := FromMemory(entry[4..8]);
    ConvertedInfo(entry[4..8], matchEndian);
    LowByteExchanged(InOrder(b, matchEndian), 0);
  }

  /** The bytes of the converted number. */
  function InOrder(b: Bytes, matchEndian: bool): Bytes {
    if matchEndian then b else Reversed(b)
  }

  lemma ConvertedInfo(s: seq<Byte>, matchEndian: bool)
    requires |s| == 4
    ensures Convert(BytesWord(s), matchEndian) == Joined(InOrder(FromMemory(s), matchEndian))
  {
    SwapJoined(FromMemory(s));
  }

  lemma ConvertedBack(b: Bytes, matchEndian: bool)
    ensures WordBytes(Convert(Joined(b), matchEndian)) == InMemory(InOrder(b, matchEndian))
  {
    SwapJoined(b);
    JoinedInMemory(InOrder(b, matchEndian), Convert(Joined(b), matchEndian));
  }

  lemma JoinedInMemory(b: Bytes, w: Word)
    requires w == Joined(b)
    ensures WordBytes(w) == InMemory(b)
  {
    BytesAreWords(0, b);
  }

  /** Packing the old symbol with a new code, as ELF32_R_INFO does, changes that one byte only. */
  lemma PackedInfo(s: seq<Byte>, code: Word, matchEndian: bool, info: Word, packed: Word)
    requires |s| == 4 && info == Convert(BytesWord(s), matchEndian)
    requires packed == info / 0x100 * 0x100 + code % 0x100
    ensures WordBytes(Convert(packed, matchEndian)) == s[TypeAt(matchEndian) - 4 := code % 0x100]
  {
    var low: Byte := code % 0x100;
    var b := InOrder(FromMemory(s), matchEndian);
    ConvertedInfo(s, matchEndian);
    LowByteExchanged(b, low);
    ConvertedBack(b.(b0 := low), matchEndian);
    LowBytePlace(s, low, matchEndian);
  }

  lemma LowBytePlace(s: seq<Byte>, low: Byte, matchEndian: bool)
    requires |s| == 4
    ensures
      var b := InOrder(FromMemory(s), matchEndian);
      InMemory(InOrder(b.(b0 := low), matchEndian)) == s[TypeAt(matchEndian) - 4 := low]
  {
  }

  /** Patching keeps the offset, the symbol and the addend, and sets the type. */
  lemma RetypeKeepsRest(entry: seq<Byte>, code: Word, matchEndian: bool)
    requires |entry| >= 8
    ensures
      var r := Retype(entry, code, matchEndian);
      && r[..4] == entry[..4] && r[8..] == entry[8..]
      && TypeOf(r, matchEndian) == code % 0x100
      && Info(r, matchEndian) == Info(entry, matchEndian) / 0x100 * 0x100 + code % 0x100
  {
    var r := Retype(entry, code, matchEndian);
    var s := entry[4..8];
    var low: Byte := code % 0x100;
    assert r[4..8] == s[TypeAt(matchEndian) - 4 := low];
    ConvertedInfo(s, matchEndian);
    ConvertedInfo(r[4..8], matchEndian);
    var b := InOrder(FromMemory(s), matchEndian);
    assert InOrder(FromMemory(r[4..8]), matchEndian) == b.(b0 := low);
    LowByteExchanged(b, low);
  }

  /** Setting the old type again gives the old entry back, byte for byte. */
  lemma RetypeBack(entry: seq<Byte>, code: Word, matchEndian: bool)
    requires |entry| >= 8
    ensures Retype(Retype(entry, code, matchEndian), TypeOf(entry, matchEndian), matchEndian) == entry
  {
  }

  // ---------------------------------------------------------------------------------------------
  // Sections
  // ---------------------------------------------------------------------------------------------

  /** The bytes from the start of a section, after patching `count` entries of `size` bytes; false if an
      entry could not be read or has an unknown type. */
  function Patch(s: seq<Byte>, count: nat, size: nat, t: Table, matchEndian: bool): (r: (bool, seq<Byte>))
    requires EntrySize(size)
    ensures |r.1| == |s|
    decreases count
  {
    if count == 0 then
      (true, s)
    else if |s| < size then
      (false, s)
    else
      match Lookup(t, TypeOf(s[..size], matchEndian))
      case None => (false, s)
      case Some(code) =>
        var rest := Patch(s[size..], count - 1, size, t, matchEndian);
        (rest.0, Retype(s[..size], code, matchEndian) + rest.1)
  }

  /** Reads the information word of the entry at `pos`. */
  method ReadInfo(file: array<Byte>, pos: nat, size: nat, matchEndian: bool) returns (info: Word)
    requires EntrySize(size) && pos + size <= file.Length
    ensures info == Info(file[..][pos..pos + size], matchEndian)
    ensures info % 0x100 == TypeOf(file[..][pos..pos + size], matchEndian)
  {
    ghost var entry := file[..][pos..pos + size];
    var bytes := [file[pos + 4], file[pos + 5], file[pos + 6], file[pos + 7]];
    assert entry[4..8] == bytes;
    info := ConvertEndian(4, BytesWord(bytes), matchEndian);
    TypeIsLowByte(entry, matchEndian);
  }

  /** The file with the entry at `pos` given a new type code. */
  function Retyped(s: seq<Byte>, pos: nat, size: nat, code: Word, matchEndian: bool): seq<Byte>
    requires EntrySize(size) && pos + size <= |s|
  {
    s[..pos] + Retype(s[pos..pos + size], code, matchEndian) + s[pos + size..]
  }

  /** The four bytes of the information word with a new type code. */
  method PackInfo(info: Word, code: Word, matchEndian: bool, ghost b: seq<Byte>) returns (bytes: seq<Byte>)
    requires |b| == 4 && info == Convert(BytesWord(b), matchEndian)
    ensures bytes == b[TypeAt(matchEndian) - 4 := code % 0x100]
  {
    var sym := info / 0x100;
    var word := ConvertEndian(4, sym * 0x100 + code % 0x100, matchEndian);
    bytes := WordBytes(word);
    PackedInfo(b, code, matchEndian, info, sym * 0x100 + code % 0x100);
  }

  /** Writes the entry at `pos` back with a new type code. */
  method WriteEntry(file: array<Byte>, pos: nat, size: nat, info: Word, code: Word, matchEndian: bool)
    requires EntrySize(size) && pos + size <= file.Length
    requires info == Info(file[..][pos..pos + size], matchEndian)
    modifies file
    ensures file[..] == Retyped(old(file[..]), pos, size, code, matchEndian)
  {
    ghost var before := file[..];
    var bytes := PackInfo(info, code, matchEndian, before[pos..pos + size][4..8]);
    file[pos + 4], file[pos + 5], file[pos + 6], file[pos + 7] := bytes[0], bytes[1], bytes[2], bytes[3];
    OneByteChanged(before, file[..], pos, size, code, matchEndian, bytes);
  }

  lemma OneByteChanged(s: seq<Byte>, r: seq<Byte>, pos: nat, size: nat, code: Word, matchEndian: bool, bytes: seq<Byte>)
    requires EntrySize(size) && pos + size <= |s| == |r|
    requires |bytes| == 4
    requires forall k | 0 <= k < |s| :: r[k] == if pos + 4 <= k < pos + 8 then bytes[k - pos - 4] else s[k]
    requires forall k | 0 <= k < 4 ::
               bytes[k] == if k == TypeAt(matchEndian) - 4 then code % 0x100 else s[pos + 4 + k]
    ensures r == Retyped(s, pos, size, code, matchEndian)
  {
  }

  /** Reads an entry, looks its type up, writes it back. */
  method PatchEntry(file: array<Byte>, pos: nat, size: nat, hashtable: HashTable, matchEndian: bool)
    returns (known: bool)
    requires EntrySize(size) && pos + size <= file.Length
    requires hashtable.Valid() && hashtable.buckets as object != file
    modifies file
    ensures
      var code := TypeOf(old(file[..])[pos..pos + size], matchEndian);
      && known == (code in hashtable.contents)
      && file[..] == if known then Retyped(old(file[..]), pos, size, hashtable.contents[code], matchEndian)
                     else old(file[..])
    ensures hashtable.Valid() && hashtable.contents == old(hashtable.contents)
  {
    var info := ReadInfo(file, pos, size, matchEndian);
    var newCode := hashtable.HashGetValue(info % 0x100);
    known := newCode != None;
    if known {
      WriteEntry(file, pos, size, info, newCode.value, matchEndian);
    }
  }

  /** The result and the whole file after patching `left` entries from `pos` on. */
  function Patched(file: seq<Byte>, pos: nat, left: nat, size: nat, t: Table, matchEndian: bool): (bool, seq<Byte>)
    requires EntrySize(size) && pos <= |file|
  {
    var r := Patch(file[pos..], left, size, t, matchEndian);
    (r.0, file[..pos] + r.1)
  }

  /** The loop over the entries of a section, which starts at `offset`. */
  method PatchEntries(file: array<Byte>, offset: nat, total: nat, size: nat, hashtable: HashTable, matchEndian: bool)
    returns (ok: bool)
    requires EntrySize(size) && offset <= file.Length
    requires hashtable.Valid() && hashtable.buckets as object != file
    modifies file
    ensures hashtable.Valid() && hashtable.contents == old(hashtable.contents)
    ensures (ok, file[..]) == Patched(old(file[..]), offset, total, size, hashtable.contents, matchEndian)
  {
    var pos := offset;
    var i := 0;
    ghost var t := hashtable.contents;
    ghost var left := total;
    ghost var now := file[..];
    ghost var goal := Patched(now, pos, left, size, t, matchEndian);
    while i < total
      invariant 0 <= i <= total && left == total - i && 0 <= pos <= |now|
      invariant hashtable.Valid() && hashtable.contents == t
      invariant now == file[..] && goal == Patched(now, pos, left, size, t, matchEndian)
    {
      var known := PatchNext(file, pos, left, size, hashtable, matchEndian);
      if !known {
        return false;
      }
      now := file[..];
      left := left - 1;
      pos := pos + size;
      i := i + 1;
    }
    NothingLeft(now, pos, size, t, matchEndian);
    return true;
  }

  /** One turn of the loop, by what it leaves to do. */
  method PatchNext(file: array<Byte>, pos: nat, ghost left: nat, size: nat, hashtable: HashTable, matchEndian: bool)
    returns (known: bool)
    requires EntrySize(size) && pos <= file.Length && left > 0
    requires hashtable.Valid() && hashtable.buckets as object != file
    modifies file
    ensures hashtable.Valid() && hashtable.contents == old(hashtable.contents)
    ensures known ==> pos + size <= file.Length
    ensures
      Patched(old(file[..]), pos, left, size, hashtable.contents, matchEndian)
      == if known then Patched(file[..], pos + size, left - 1, size, hashtable.contents, matchEndian)
         else (false, file[..])
  {
    ghost var now := file[..];
    ghost var t := hashtable.contents;
    if pos + size > file.Length {
      PatchStops(now, pos, left, size, t, matchEndian);
      return false;
    }
    known := PatchEntry(file, pos, size, hashtable, matchEndian);
    if known {
      PatchContinues(now, pos, left, size, t, matchEndian);
    } else {
      PatchStops(now, pos, left, size, t, matchEndian);
    }
  }

  lemma NothingLeft(now: seq<Byte>, pos: nat, size: nat, t: Table, matchEndian: bool)
    requires EntrySize(size) && pos <= |now|
    ensures Patched(now, pos, 0, size, t, matchEndian) == (true, now)
  {
    assert now[..pos] + now[pos..] == now;
  }

  method PatchRelocationSection(file: array<Byte>, offset: nat, size: Word, rela: bool, hashtable: HashTable,
                                matchEndian: bool)
    returns (ok: bool)
    requires offset <= file.Length && hashtable.Valid() && hashtable.buckets as object != file
    modifies file
    ensures hashtable.Valid() && hashtable.contents == old(hashtable.contents)
    ensures
      (ok, file[..]) == Patched(old(file[..]), offset, EntryCount(size, rela), if rela then RELA_SIZE else REL_SIZE,
                                hashtable.contents, matchEndian)
    ensures ok ==> TypesReplaced(old(file[..]), file[..], offset, size, rela, matchEndian, hashtable.contents)
  {
    ghost var before := file[..];
    if rela {
      ok := PatchEntries(file, offset, size / RELA_SIZE, RELA_SIZE, hashtable, matchEndian);
    } else {
      ok := PatchEntries(file, offset, size / REL_SIZE, REL_SIZE, hashtable, matchEndian);
    }
    if ok {
      SectionTypesReplaced(before, offset, size, rela, hashtable.contents, matchEndian);
    }
  }

  /** An entry cut short, or of an unknown type, ends the loop with the file as it is. */
  lemma PatchStops(now: seq<Byte>, pos: nat, left: nat, size: nat, t: Table, matchEndian: bool)
    requires EntrySize(size) && pos <= |now| && left > 0
    requires pos + size > |now| || TypeOf(now[pos..pos + size], matchEndian) !in t
    ensures Patched(now, pos, left, size, t, matchEndian) == (false, now)
  {
    if pos + size <= |now| {
      assert now[pos..][..size] == now[pos..pos + size];
    }
    assert now[..pos] + now[pos..] == now;
  }

  /** Patching one entry in place leaves the rest to do. */
  lemma PatchContinues(now: seq<Byte>, pos: nat, left: nat, size: nat, t: Table, matchEndian: bool)
    requires EntrySize(size) && left > 0 && pos + size <= |now|
    requires TypeOf(now[pos..pos + size], matchEndian) in t
    ensures
      var next := Retyped(now, pos, size, t[TypeOf(now[pos..pos + size], matchEndian)], matchEndian);
      Patched(now, pos, left, size, t, matchEndian) == Patched(next, pos + size, left - 1, size, t, matchEndian)
  {
    assert now[pos..][..size] == now[pos..pos + size];
    var code := t[TypeOf(now[pos..pos + size], matchEndian)];
    var next := Retyped(now, pos, size, code, matchEndian);
    var patched := Retype(now[pos..pos + size], code, matchEndian);
    assert next[pos + size..] == now[pos..][size..];
    assert next[..pos + size] == now[..pos] + patched;
    var rest := Patch(now[pos..][size..], left - 1, size, t, matchEndian);
    assert now[..pos] + patched + rest.1 == now[..pos] + (patched + rest.1);
  }

  // ---------------------------------------------------------------------------------------------
  // What patching does to the bytes
  // ---------------------------------------------------------------------------------------------

  /** A section of `size` bytes holds as many entries of 8 or 12 bytes as fit. */
  lemma EntryCountFits(size: Word, rela: bool)
    ensures
      var k := EntryCount(size, rela);
      if rela then 12 * k <= size < 12 * (k + 1) else 8 * k <= size < 8 * (k + 1)
  {
  }

  /** Byte i of a section is the type code of one of its first `count` entries. */
  predicate TypeByteAt(i: nat, count: nat, size: nat, matchEndian: bool)
    requires EntrySize(size)
  {
    count > 0 && if i < size then i == TypeAt(matchEndian) else TypeByteAt(i - size, count - 1, size, matchEndian)
  }

  lemma {:induction false} PatchedByte(s: seq<Byte>, count: nat, size: nat, t: Table, matchEndian: bool, i: nat)
    requires EntrySize(size) && Patch(s, count, size, t, matchEndian).0 && i < |s|
    ensures
      var r := Patch(s, count, size, t, matchEndian).1;
      if TypeByteAt(i, count, size, matchEndian) then s[i] in t && r[i] == t[s[i]] % 0x100 else r[i] == s[i]
    decreases count
  {
    if count > 0 {
      var code := t[TypeOf(s[..size], matchEndian)];
      var rest := Patch(s[size..], count - 1, size, t, matchEndian);
      assert Patch(s, count, size, t, matchEndian).1 == Retype(s[..size], code, matchEndian) + rest.1;
      if i >= size {
        PatchedByte(s[size..], count - 1, size, t, matchEndian, i - size);
      }
    }
  }

  lemma {:induction false} PatchedFits(s: seq<Byte>, count: nat, size: nat, t: Table, matchEndian: bool)
    requires EntrySize(size) && Patch(s, count, size, t, matchEndian).0
    ensures EntryBytes(count, size) <= |s|
    decreases count
  {
    if count > 0 {
      PatchedFits(s[size..], count - 1, size, t, matchEndian);
    }
  }

  lemma {:induction false} TypeByteAt8(i: nat, count: nat, matchEndian: bool)
    ensures TypeByteAt(i, count, 8, matchEndian)
            <==> i % 8 == (if matchEndian then 4 else 7) && i - (if matchEndian then 4 else 7) + 8 <= 8 * count
    ensures EntryBytes(count, 8) == 8 * count
    decreases count
  {
    if count > 0 {
      TypeByteAt8(if i >= 8 then i - 8 else 0, count - 1, matchEndian);
      assert i >= 8 ==> (i - 8) % 8 == i % 8;
    }
  }

  lemma {:induction false} TypeByteAt12(i: nat, count: nat, matchEndian: bool)
    ensures TypeByteAt(i, count, 12, matchEndian)
            <==> i % 12 == (if matchEndian then 4 else 7) && i - (if matchEndian then 4 else 7) + 12 <= 12 * count
    ensures EntryBytes(count, 12) == 12 * count
    decreases count
  {
    if count > 0 {
      TypeByteAt12(if i >= 12 then i - 12 else 0, count - 1, matchEndian);
      assert i >= 12 ==> (i - 12) % 12 == i % 12;
    }
  }

  /** Byte i of the file is the type code of an entry of the section, 8 bytes each for REL and 12 for RELA. The
      code is the low byte of the entry's second word: byte 4 of a little-endian entry, byte 7 of a big-endian
      one. */
  predicate IsTypeByte(i: nat, offset: nat, size: nat, rela: bool, matchEndian: bool) {
    var at := if matchEndian then 4 else 7;
    && offset <= i
    && if rela then (i - offset) % 12 == at && i - offset - at + 12 <= size
       else (i - offset) % 8 == at && i - offset - at + 8 <= size
  }

  /** Every type code of the section is replaced through the table, and no other byte of the file changes. */
  ghost predicate TypesReplaced(before: seq<Byte>, after: seq<Byte>, offset: nat, size: nat, rela: bool,
                                matchEndian: bool, t: Table)
  {
    && |after| == |before|
    && forall i: nat | i < |before| ::
         if IsTypeByte(i, offset, size, rela, matchEndian) then before[i] in t && after[i] == t[before[i]] % 0x100
         else after[i] == before[i]
  }

  lemma SectionByte(i: nat, offset: nat, size: Word, rela: bool, matchEndian: bool)
    requires offset <= i
    ensures IsTypeByte(i, offset, size, rela, matchEndian)
            <==> TypeByteAt(i - offset, EntryCount(size, rela), if rela then RELA_SIZE else REL_SIZE, matchEndian)
  {
    var at := if matchEndian then 4 else 7;
    var k := EntryCount(size, rela);
    EntryCountFits(size, rela);
    if rela {
      TypeByteAt12(i - offset, k, matchEndian);
      WholeEntries12(i - offset, at, k, size);
    } else {
      TypeByteAt8(i - offset, k, matchEndian);
      WholeEntries8(i - offset, at, k, size);
    }
  }

  lemma WholeEntries8(i: nat, at: nat, k: nat, size: nat)
    requires at < 8 && 8 * k <= size < 8 * (k + 1)
    ensures i % 8 == at ==> (i - at + 8 <= 8 * k <==> i - at + 8 <= size)
  {
    var q := i / 8;
    assert i == 8 * q + i % 8;
  }

  lemma WholeEntries12(i: nat, at: nat, k: nat, size: nat)
    requires at < 12 && 12 * k <= size < 12 * (k + 1)
    ensures i % 12 == at ==> (i - at + 12 <= 12 * k <==> i - at + 12 <= size)
  {
    var q := i / 12;
    assert i == 12 * q + i % 12;
  }

  /** A section that is patched without error: the effect on the bytes of the file, which holds all its whole
      entries. */
  lemma SectionTypesReplaced(file: seq<Byte>, offset: nat, size: Word, rela: bool, t: Table, matchEndian: bool)
    requires offset <= |file|
    requires Patched(file, offset, EntryCount(size, rela), if rela then RELA_SIZE else REL_SIZE, t, matchEndian).0
    ensures
      var r := Patched(file, offset, EntryCount(size, rela), if rela then RELA_SIZE else REL_SIZE, t, matchEndian);
      TypesReplaced(file, r.1, offset, size, rela, matchEndian, t)
    ensures offset + (if rela then size / 12 * 12 else size / 8 * 8) <= |file|
  {
    var n := if rela then RELA_SIZE else REL_SIZE;
    var k := EntryCount(size, rela);
    var s := file[offset..];
    var p := Patch(s, k, n, t, matchEndian);
    var after := file[..offset] + p.1;
    PatchedFits(s, k, n, t, matchEndian);
    TypeByteAt8(0, k, matchEndian);
    TypeByteAt12(0, k, matchEndian);
    forall i: nat | i < |file|
      ensures if IsTypeByte(i, offset, size, rela, matchEndian) then file[i] in t && after[i] == t[file[i]] % 0x100
              else after[i] == file[i]
    {
      if i >= offset {
        PatchedByte(s, k, n, t, matchEndian, i - offset);
        SectionByte(i, offset, size, rela, matchEndian);
      }
    }
  }

  /** The same by entries: the type code of every entry that lies within the section is the table's value. */
  lemma EveryEntryIsPatched(file: seq<Byte>, after: seq<Byte>, offset: nat, size: Word, rela: bool, t: Table,
                            matchEndian: bool, k: nat)
    requires TypesReplaced(file, after, offset, size, rela, matchEndian, t)
    requires offset + (if rela then size / 12 * 12 else size / 8 * 8) <= |file|
    requires (if rela then 12 * (k + 1) else 8 * (k + 1)) <= size
    ensures
      var i := offset + (if rela then 12 * k else 8 * k) + (if matchEndian then 4 else 7);
      i < |file| && file[i] in t && after[i] == t[file[i]] % 0x100
  {
    var at := if matchEndian then 4 else 7;
    var i := offset + (if rela then 12 * k else 8 * k) + at;
    EntryTypeByte(i, offset, size, rela, matchEndian, k, at);
    WholeEntriesFit(k, size, rela);
  }

  lemma EntryTypeByte(i: nat, offset: nat, size: nat, rela: bool, matchEndian: bool, k: nat, at: nat)
    requires at == if matchEndian then 4 else 7
    requires i == offset + (if rela then 12 * k else 8 * k) + at
    requires (if rela then 12 * (k + 1) else 8 * (k + 1)) <= size
    ensures IsTypeByte(i, offset, size, rela, matchEndian)
  {
    Remainders(k, at);
  }

  lemma Remainders(k: nat, at: nat)
    requires at < 8
    ensures (8 * k + at) % 8 == at && (12 * k + at) % 12 == at
  {
  }

  lemma WholeEntriesFit(k: nat, size: nat, rela: bool)
    requires (if rela then 12 * (k + 1) else 8 * (k + 1)) <= size
    ensures if rela then 12 * (k + 1) <= size / 12 * 12 else 8 * (k + 1) <= size / 8 * 8
  {
  }

  // ---------------------------------------------------------------------------------------------
  // Forward and reverse
  // ---------------------------------------------------------------------------------------------

  function Forward(pairs: seq<(Word, Word)>): Table {
    AddAll(map[], pairs)
  }

  /** The table that reverse mode builds from the same lines. */
  function Reverse(pairs: seq<(Word, Word)>): Table {
    AddAll(map[], Swapped(pairs))
  }

  /** No two lines have the same right-hand number, and each fits a type code. */
  predicate Invertible(pairs: seq<(Word, Word)>) {
    && (forall i | 0 <= i < |pairs| :: pairs[i].1 < 0x100)
    && (forall i, j | 0 <= i < j < |pairs| :: pairs[i].1 != pairs[j].1)
  }

  lemma ReverseFindsBack(pairs: seq<(Word, Word)>, code: Word)
    requires Invertible(pairs) && code in Forward(pairs)
    ensures Forward(pairs)[code] < 0x100
    ensures Lookup(Reverse(pairs), Forward(pairs)[code]) == Some(code)
  {
    var k := FoundWasAdded(pairs, code);
    LastAdditionWins(pairs, code, k);
    assert Swapped(pairs)[k] == (pairs[k].1, pairs[k].0);
    assert LastAt(Swapped(pairs), pairs[k].1, k);
    LastAdditionWins(Swapped(pairs), pairs[k].1, k);
  }

  /** Every mapped type code leads back to itself, with both lookups cut to the eight bits an entry keeps. */
  predicate Reversible(t: Table, u: Table) {
    forall c: Byte :: c in t ==> t[c] % 0x100 in u && u[t[c] % 0x100] % 0x100 == c
  }

  /** Maps without repeated right-hand numbers, all of them type codes, are reversible. */
  lemma InvertibleIsReversible(pairs: seq<(Word, Word)>)
    requires Invertible(pairs)
    ensures Reversible(Forward(pairs), Reverse(pairs))
  {
    var t, u := Forward(pairs), Reverse(pairs);
    forall c: Byte | c in t
      ensures t[c] % 0x100 in u && u[t[c] % 0x100] % 0x100 == c
    {
      ReverseFindsBack(pairs, c);
    }
  }

  /** Whenever patching a section succeeds, patching the result with the reversed map succeeds as well and
      restores every byte, in either byte order. */
  lemma {:induction false} ReverseRestoresSection(s: seq<Byte>, count: nat, size: nat, t: Table, u: Table,
                                                  matchEndian: bool)
    requires EntrySize(size) && Reversible(t, u)
    requires Patch(s, count, size, t, matchEndian).0
    ensures Patch(Patch(s, count, size, t, matchEndian).1, count, size, u, matchEndian) == (true, s)
    decreases count
  {
    if count > 0 {
      var code := t[TypeOf(s[..size], matchEndian)];
      var head := Retype(s[..size], code, matchEndian);
      var rest := Patch(s[size..], count - 1, size, t, matchEndian).1;
      ReverseRestoresSection(s[size..], count - 1, size, t, u, matchEndian);
      var patched := Patch(s, count, size, t, matchEndian).1;
      assert patched[..size] == head && patched[size..] == rest;
      EntryReturns(s[..size], code, u, matchEndian);
      assert s[..size] + s[size..] == s;
    }
  }

  /** One entry, there and back, when the way back leads to its type. */
  lemma EntryReturns(entry: seq<Byte>, code: Word, u: Table, matchEndian: bool)
    requires |entry| >= 8 && code % 0x100 in u && u[code % 0x100] % 0x100 == TypeOf(entry, matchEndian)
    ensures
      var head := Retype(entry, code, matchEndian);
      && TypeOf(head, matchEndian) in u
      && Retype(head, u[TypeOf(head, matchEndian)], matchEndian) == entry
  {
    RetypeBack(entry, code, matchEndian);
  }

  /** Both passes over any section that the first one accepts give the section back. */
  ghost predicate RestoresAll(t: Table, u: Table, size: nat, matchEndian: bool)
    requires EntrySize(size)
  {
    forall s: seq<Byte>, count: nat | Patch(s, count, size, t, matchEndian).0 ::
      Patch(Patch(s, count, size, t, matchEndian).1, count, size, u, matchEndian) == (true, s)
  }

  /** Reverse mode undoes forward mode on all sections if and only if the two maps are reversible. */
  lemma RestoresAllIff(t: Table, u: Table, size: nat, matchEndian: bool)
    requires EntrySize(size)
    ensures RestoresAll(t, u, size, matchEndian) <==> Reversible(t, u)
  {
    if Reversible(t, u) {
      forall s: seq<Byte>, count: nat | Patch(s, count, size, t, matchEndian).0
        ensures Patch(Patch(s, count, size, t, matchEndian).1, count, size, u, matchEndian) == (true, s)
      {
        ReverseRestoresSection(s, count, size, t, u, matchEndian);
      }
    }
    if RestoresAll(t, u, size, matchEndian) {
      forall c: Byte | c in t
        ensures t[c] % 0x100 in u && u[t[c] % 0x100] % 0x100 == c
      {
        RestoredCode(c, t, u, size, matchEndian);
      }
    }
  }

  /** A section of one entry tells whether its code leads back. */
  lemma RestoredCode(c: Byte, t: Table, u: Table, size: nat, matchEndian: bool)
    requires EntrySize(size) && c in t && RestoresAll(t, u, size, matchEndian)
    ensures t[c] % 0x100 in u && u[t[c] % 0x100] % 0x100 == c
  {
    var s: seq<Byte> := seq(size, i => 0)[TypeAt(matchEndian) := c];
    SingleEntry(s, t, size, matchEndian);
    var there := Retype(s, t[c], matchEndian);
    SingleEntry(there, u, size, matchEndian);
    assert Patch(there, 1, size, u, matchEndian) == (true, s);
  }

  lemma SingleEntry(s: seq<Byte>, t: Table, size: nat, matchEndian: bool)
    requires EntrySize(size) && |s| == size
    ensures
      Patch(s, 1, size, t, matchEndian) ==
      match Lookup(t, TypeOf(s, matchEndian))
      case None => (false, s)
      case Some(code) => (true, Retype(s, code, matchEndian))
  {
    assert s[..size] == s && s[size..] == [];
    if TypeOf(s, matchEndian) in t {
      var r := Retype(s, t[TypeOf(s, matchEndian)], matchEndian);
      assert r + [] == r;
      assert Patch([], 0, size, t, matchEndian) == (true, []);
    }
  }

  // ---------------------------------------------------------------------------------------------
  // Failures
  // ---------------------------------------------------------------------------------------------

  /** How many entries are patched before the loop ends. */
  function PatchedEntries(s: seq<Byte>, count: nat, size: nat, t: Table, matchEndian: bool): nat
    requires EntrySize(size)
    decreases count
  {
    if count == 0 || |s| < size || TypeOf(s[..size], matchEndian) !in t then 0
    else 1 + PatchedEntries(s[size..], count - 1, size, t, matchEndian)
  }

  /** The number of bytes in k entries. */
  function EntryBytes(k: nat, size: nat): nat {
    if k == 0 then 0 else size + EntryBytes(k - 1, size)
  }

  /** An error leaves exactly the entries before the offending one patched: that entry is cut short or has
      an unknown type, and from it on the file is as it was. */
  lemma {:induction false} StopsAtOffender(s: seq<Byte>, count: nat, size: nat, t: Table, matchEndian: bool)
    requires EntrySize(size)
    ensures
      var k := PatchedEntries(s, count, size, t, matchEndian);
      var result := Patch(s, count, size, t, matchEndian);
      && k <= count && (result.0 <==> k == count)
      && EntryBytes(k, size) <= |s|
      && Patch(s, k, size, t, matchEndian) == (true, result.1)
      && result.1[EntryBytes(k, size)..] == s[EntryBytes(k, size)..]
      && (k < count ==>
            || |s| - EntryBytes(k, size) < size
            || TypeOf(s[EntryBytes(k, size)..][..size], matchEndian) !in t)
    decreases count
  {
    var k := PatchedEntries(s, count, size, t, matchEndian);
    if k > 0 {
      StopsAtOffender(s[size..], count - 1, size, t, matchEndian);
      OffenderLater(s, count, k, size, t, matchEndian);
    }
  }

  lemma OffenderLater(s: seq<Byte>, count: nat, k: nat, size: nat, t: Table, matchEndian: bool)
    requires EntrySize(size) && count > 0 && k > 0 && |s| >= size && TypeOf(s[..size], matchEndian) in t
    requires EntryBytes(k - 1, size) <= |s| - size
    ensures
      var rest := Patch(s[size..], count - 1, size, t, matchEndian).1;
      var result := Patch(s, count, size, t, matchEndian).1;
      && s[size..][EntryBytes(k - 1, size)..] == s[EntryBytes(k, size)..]
      && rest[EntryBytes(k - 1, size)..] == result[EntryBytes(k, size)..]
  {
    var rest := Patch(s[size..], count - 1, size, t, matchEndian).1;
    assert Patch(s, count, size, t, matchEndian).1[size..] == rest;
  }

  /** Without distinct right-hand numbers the reverse map cannot tell two old codes apart: both passes
      succeed, and the entry comes back with another type. */
  lemma SharedCodeIsNotRestored(pairs: seq<(Word, Word)>, entry: seq<Byte>)
    requires pairs == [(1, 7), (2, 7)] && entry == [0, 0, 0, 0, 1, 0, 0, 0]
    ensures
      var there := Patch(entry, 1, REL_SIZE, Forward(pairs), true);
      var back := Patch(there.1, 1, REL_SIZE, Reverse(pairs), true);
      there.0 && back.0 && TypeOf(back.1, true) == 2
  {
    assert LastAt(pairs, 1, 0) && LastAt(Swapped(pairs), 7, 1);
    LastAdditionWins(pairs, 1, 0);
    LastAdditionWins(Swapped(pairs), 7, 1);
    assert entry[..8] == entry && entry[8..] == [];
    var there := Patch(entry, 1, REL_SIZE, Forward(pairs), true).1;
    assert there[..8] == Retype(entry, 7, true) && there[8..] == [];
  }
}
