/**
 The map-file parser of archc/src/acbinutils/acrelconvert.c. It reads the file one character at a time
 into a small buffer, and adds one pair to the hash table for each `number = number` line.

 `ParseText` describes the parser on what is left of the file. The theorems compare it with a
 declarative description of lines: a text is accepted if and only if each of its lines is blank, a
 comment, or an assignment, and then exactly the pairs of the assignments are added, in order.
 */
module MapFiles {
  import opened Words
  import opened HashTables

  /** At the end of the file the read fails and the buffer gets a NUL character. */
  function Peek(s: string): char {
    if s == "" then '\0' else s[0]
  }

  function Tail(s: string): string {
    if s == "" then "" else s[1..]
  }

  predicate IsSpace(c: char) {
    c == ' ' || c == '\t'
  }

  predicate IsDigit(c: char) {
    '0' <= c <= '9'
  }

  predicate EndsLine(c: char) {
    c == '\n' || c == '\0'
  }

  function SkipSpace(s: string): (r: string)
    ensures |r| <= |s| && !IsSpace(Peek(r))
  {
    if IsSpace(Peek(s)) then SkipSpace(Tail(s)) else s
  }

  function SkipComment(s: string): (r: string)
    ensures |r| <= |s| && EndsLine(Peek(r))
  {
    if EndsLine(Peek(s)) then s else SkipComment(Tail(s))
  }

  /** The digits at the front, and what follows them. */
  function Digits(s: string): (d: string)
    ensures AllDigits(d)
  {
    if IsDigit(Peek(s)) then [s[0]] + Digits(Tail(s)) else ""
  }

  function AfterDigits(s: string): (r: string)
    ensures |r| <= |s| && !IsDigit(Peek(r))
  {
    if IsDigit(Peek(s)) then AfterDigits(Tail(s)) else s
  }

  predicate AllDigits(d: string) {
    forall i | 0 <= i < |d| :: IsDigit(d[i])
  }

  predicate AllSpace(w: string) {
    forall i | 0 <= i < |w| :: IsSpace(w[i])
  }

  // ---------------------------------------------------------------------------------------------
  // Numbers
  // ---------------------------------------------------------------------------------------------

  const LONG_MAX := 0x7FFF_FFFF_FFFF_FFFF
  /** A number with this many digits no longer fits the buffer. */
  const BUFFER_SIZE := 20

  function Decimal(d: string): nat
    requires AllDigits(d)
  {
    if d == "" then 0 else 10 * Decimal(d[..|d| - 1]) + (d[|d| - 1] as int - '0' as int)
  }

  /** `strtol` saturates at the largest long, and the result is cut to 32 bits. */
  function Number(d: string): Word
    requires AllDigits(d)
  {
    Wrap(if Decimal(d) > LONG_MAX then LONG_MAX else Decimal(d))
  }

  predicate IsNumber(d: string) {
    AllDigits(d) && 0 < |d| < BUFFER_SIZE
  }

  // ---------------------------------------------------------------------------------------------
  // The parser, as a function of the rest of the file
  // ---------------------------------------------------------------------------------------------

  /** What one turn of the main loop makes of the text: `rest` starts at the character that ended the line. */
  datatype Line = Blank(rest: string) | Pair(first: Word, second: Word, rest: string) | Bad

  function ParseSecond(first: Word, s: string): Line {
    var d := Digits(s);
    if !IsNumber(d) || !EndsLine(Peek(AfterDigits(s))) then Bad else Pair(first, Number(d), AfterDigits(s))
  }

  function ParseAssignment(s: string): Line {
    var d := Digits(s);
    if !IsNumber(d) then
      Bad
    else
      var equals := SkipSpace(AfterDigits(s));
      if Peek(equals) != '=' then Bad else ParseSecond(Number(d), SkipSpace(Tail(equals)))
  }

  function ParseLine(s: string): (l: Line)
    ensures !l.Bad? ==> EndsLine(Peek(l.rest)) && |l.rest| <= |s|
  {
    if Peek(s) == '#' then
      Blank(SkipComment(s))
    else
      var t := SkipSpace(s);
      if EndsLine(Peek(t)) then Blank(t) else ParseAssignment(t)
  }

  /** Whether the text is accepted, and the pairs read from it before the end or the first error. */
  function ParseText(s: string): (r: (bool, seq<(Word, Word)>))
    decreases |s|
  {
    match ParseLine(s)
    case Bad => (false, [])
    case Blank(rest) =>
      if Peek(rest) == '\0' then (true, []) else ParseText(Tail(rest))
    case Pair(a, b, rest) =>
      if Peek(rest) == '\0' then (true, [(a, b)])
      else
        var more := ParseText(Tail(rest));
        (more.0, [(a, b)] + more.1)
  }

  // ---------------------------------------------------------------------------------------------
  // What a line is
  // ---------------------------------------------------------------------------------------------

  /** A line holds no newline, and no NUL, which the parser takes for the end of the file. */
  predicate OneLine(l: string) {
    forall i | 0 <= i < |l| :: !EndsLine(l[i])
  }

  predicate BlankLine(l: string) {
    AllSpace(l) || Peek(l) == '#'
  }

  /** The parts of `number = number` with optional white space. */
  datatype Assignment = Assignment(indent: string, left: string, before: string, after: string, right: string)

  predicate ValidAssignment(a: Assignment) {
    AllSpace(a.indent) && IsNumber(a.left) && AllSpace(a.before) && AllSpace(a.after) && IsNumber(a.right)
  }

  function AssignmentText(a: Assignment): string {
    a.indent + (a.left + (a.before + ("=" + (a.after + a.right))))
  }

  ghost predicate AssignmentLine(l: string) {
    exists a :: ValidAssignment(a) && AssignmentText(a) == l
  }

  // ---------------------------------------------------------------------------------------------
  // Scanning
  // ---------------------------------------------------------------------------------------------

  /** The white space that `SkipSpace` skips. */
  function Spaces(s: string): (w: string)
    ensures AllSpace(w)
  {
    if IsSpace(Peek(s)) then [s[0]] + Spaces(Tail(s)) else ""
  }

  lemma {:induction false} SpaceSplit(s: string)
    ensures s == Spaces(s) + SkipSpace(s)
  {
    if IsSpace(Peek(s)) {
      SpaceSplit(Tail(s));
    }
  }

  lemma {:induction false} SkipSpaceOver(w: string, r: string)
    requires AllSpace(w) && !IsSpace(Peek(r))
    ensures SkipSpace(w + r) == r
  {
    if w == "" {
      assert w + r == r;
    } else {
      assert Tail(w + r) == w[1..] + r;
      SkipSpaceOver(w[1..], r);
    }
  }

  lemma {:induction false} DigitsOver(d: string, r: string)
    requires AllDigits(d) && !IsDigit(Peek(r))
    ensures Digits(d + r) == d && AfterDigits(d + r) == r
  {
    if d == "" {
      assert d + r == r;
    } else {
      assert Tail(d + r) == d[1..] + r;
      DigitsOver(d[1..], r);
      assert d == [d[0]] + d[1..];
    }
  }

  lemma {:induction false} DigitsSplit(s: string)
    ensures s == Digits(s) + AfterDigits(s)
  {
    if IsDigit(Peek(s)) {
      DigitsSplit(Tail(s));
    }
  }

  // The end of a line stops every scan, so a line is parsed the same with or without what follows it.

  lemma SkipSpaceWithin(l: string, e: string)
    requires EndsLine(Peek(e))
    ensures SkipSpace(l + e) == SkipSpace(l) + e
  {
    var w, m := Spaces(l), SkipSpace(l);
    SpaceSplit(l);
    assert l + e == w + (m + e);
    SkipSpaceOver(w, m + e);
  }

  lemma DigitsWithin(l: string, e: string)
    requires EndsLine(Peek(e))
    ensures Digits(l + e) == Digits(l) && AfterDigits(l + e) == AfterDigits(l) + e
  {
    var d, r := Digits(l), AfterDigits(l);
    DigitsSplit(l);
    assert l + e == d + (r + e);
    DigitsOver(d, r + e);
  }

  lemma {:induction false} SkipCommentWithin(l: string, e: string)
    requires OneLine(l) && EndsLine(Peek(e))
    ensures SkipComment(l + e) == e
  {
    if l == "" {
      assert l + e == e;
    } else {
      assert Tail(l + e) == l[1..] + e;
      SkipCommentWithin(l[1..], e);
    }
  }

  /** The same result, with `e` left over. */
  function Followed(line: Line, e: string): Line {
    match line
    case Bad => Bad
    case Blank(rest) => Blank(rest + e)
    case Pair(a, b, rest) => Pair(a, b, rest + e)
  }

  lemma OneLineAfter(l: string, front: string, back: string)
    requires OneLine(l) && l == front + back
    ensures OneLine(back)
  {
    assert forall i | 0 <= i < |back| :: back[i] == l[|front| + i];
  }

  lemma SpacesSplit(s: string)
    requires OneLine(s)
    ensures s == Spaces(s) + SkipSpace(s) && OneLine(SkipSpace(s))
  {
    SpaceSplit(s);
    OneLineAfter(s, Spaces(s), SkipSpace(s));
  }

  lemma AfterDigitsOneLine(s: string)
    requires OneLine(s)
    ensures s == Digits(s) + AfterDigits(s) && OneLine(AfterDigits(s))
  {
    DigitsSplit(s);
    OneLineAfter(s, Digits(s), AfterDigits(s));
  }

  lemma SecondWithin(first: Word, l: string, e: string)
    requires OneLine(l) && EndsLine(Peek(e))
    ensures ParseSecond(first, l + e) == Followed(ParseSecond(first, l), e)
    ensures ParseSecond(first, l).Pair? ==> ParseSecond(first, l).rest == ""
  {
    DigitsWithin(l, e);
    AfterDigitsOneLine(l);
  }

  lemma AfterEqualsWithin(first: Word, equals: string, e: string)
    requires OneLine(equals) && equals != "" && EndsLine(Peek(e))
    ensures
      var second := ParseSecond(first, SkipSpace(Tail(equals)));
      && ParseSecond(first, SkipSpace(Tail(equals + e))) == Followed(second, e)
      && (second.Pair? ==> second.rest == "")
  {
    var after := Tail(equals);
    assert Tail(equals + e) == after + e;
    SkipSpaceWithin(after, e);
    SpacesSplit(after);
    SecondWithin(first, SkipSpace(after), e);
  }

  lemma AssignmentWithin(l: string, e: string)
    requires OneLine(l) && EndsLine(Peek(e))
    ensures ParseAssignment(l + e) == Followed(ParseAssignment(l), e)
    ensures ParseAssignment(l).Pair? ==> ParseAssignment(l).rest == ""
  {
    var m := AfterDigits(l);
    var equals := SkipSpace(m);
    DigitsWithin(l, e);
    AfterDigitsOneLine(l);
    SkipSpaceWithin(m, e);
    SpacesSplit(m);
    if equals != "" {
      AfterEqualsWithin(Number(Digits(l)), equals, e);
    }
  }

  lemma LineWithin(l: string, e: string)
    requires OneLine(l) && EndsLine(Peek(e))
    ensures ParseLine(l + e) == Followed(ParseLine(l), e)
    ensures !ParseLine(l).Bad? ==> ParseLine(l).rest == ""
  {
    if Peek(l) == '#' {
      SkipCommentWithin(l, e);
      SkipCommentWithin(l, "");
      assert l + "" == l;
    } else {
      SkipSpaceWithin(l, e);
      SpacesSplit(l);
      if SkipSpace(l) != "" {
        AssignmentWithin(SkipSpace(l), e);
      }
    }
  }

  // ---------------------------------------------------------------------------------------------
  // The parser and the description of lines agree
  // ---------------------------------------------------------------------------------------------

  lemma BlankIff(l: string)
    requires OneLine(l)
    ensures ParseLine(l).Blank? <==> BlankLine(l)
  {
    if AllSpace(l) {
      SkipSpaceOver(l, "");
      assert l + "" == l;
    } else if Peek(l) != '#' {
      var t := SkipSpace(l);
      SpaceSplit(l);
      assert t != "";
      assert t[0] == l[|Spaces(l)|];
    }
  }

  lemma SecondAccepted(first: Word, after: string, right: string)
    requires AllSpace(after) && IsNumber(right)
    ensures ParseSecond(first, SkipSpace(after + right)) == Pair(first, Number(right), "")
  {
    SkipSpaceOver(after, right);
    assert right + "" == right;
    DigitsOver(right, "");
  }

  lemma EqualsFound(left: string, before: string, rest: string)
    requires IsNumber(left) && AllSpace(before)
    ensures
      var t := left + (before + ("=" + rest));
      Digits(t) == left && SkipSpace(AfterDigits(t)) == "=" + rest
  {
    var m := before + ("=" + rest);
    assert Peek(m) == if before == "" then '=' else before[0];
    DigitsOver(left, m);
    SkipSpaceOver(before, "=" + rest);
  }

  /** A line whose text starts with a number is parsed as an assignment. */
  lemma IndentSkipped(indent: string, t: string)
    requires AllSpace(indent) && IsDigit(Peek(t))
    ensures ParseLine(indent + t) == ParseAssignment(t)
  {
    SkipSpaceOver(indent, t);
    assert Peek(indent + t) == if indent == "" then Peek(t) else indent[0];
  }

  lemma EqualsPassed(t: string, left: string, rest: string)
    requires IsNumber(left) && Digits(t) == left && SkipSpace(AfterDigits(t)) == "=" + rest
    ensures ParseAssignment(t) == ParseSecond(Number(left), SkipSpace(rest))
  {
    var equals := "=" + rest;
    assert Peek(equals) == '=' && Tail(equals) == rest;
  }

  lemma AssignmentAccepted(a: Assignment)
    requires ValidAssignment(a)
    ensures ParseLine(AssignmentText(a)) == Pair(Number(a.left), Number(a.right), "")
  {
    var t := a.left + (a.before + ("=" + (a.after + a.right)));
    assert Peek(t) == a.left[0];
    IndentSkipped(a.indent, t);
    EqualsFound(a.left, a.before, a.after + a.right);
    EqualsPassed(t, a.left, a.after + a.right);
    SecondAccepted(Number(a.left), a.after, a.right);
  }

  /** The parts of a line that the parser takes for an assignment. */
  function PartsOf(l: string): Assignment {
    var t := SkipSpace(l);
    var m := AfterDigits(t);
    var after := Tail(SkipSpace(m));
    Assignment(Spaces(l), Digits(t), Spaces(m), Spaces(after), Digits(SkipSpace(after)))
  }

  lemma AcceptedIsAssignment(l: string)
    requires OneLine(l) && ParseLine(l).Pair?
    ensures ValidAssignment(PartsOf(l)) && AssignmentText(PartsOf(l)) == l
  {
    LineWithin(l, "");
    var t := SkipSpace(l);
    var m := AfterDigits(t);
    var equals := SkipSpace(m);
    var after := Tail(equals);
    var second := SkipSpace(after);
    SpacesSplit(l);
    AfterDigitsOneLine(t);
    SpacesSplit(m);
    assert equals == "=" + after;
    SpacesSplit(after);
    AfterDigitsOneLine(second);
    assert second == Digits(second);
  }

  /** What a line adds. */
  function LinePairs(l: string): seq<(Word, Word)> {
    match ParseLine(l)
    case Pair(a, b, _) => [(a, b)]
    case _ => []
  }

  predicate Accepted(l: string) {
    !ParseLine(l).Bad?
  }

  /** A line is accepted exactly when it is blank, a comment or an assignment, and an assignment adds the
      pair of its two numbers. */
  lemma LineMeaning(l: string)
    requires OneLine(l)
    ensures Accepted(l) <==> BlankLine(l) || AssignmentLine(l)
    ensures BlankLine(l) ==> LinePairs(l) == []
    ensures forall a | ValidAssignment(a) && AssignmentText(a) == l ::
              LinePairs(l) == [(Number(a.left), Number(a.right))]
  {
    BlankIff(l);
    if ParseLine(l).Pair? {
      AcceptedIsAssignment(l);
    }
    forall a | ValidAssignment(a) && AssignmentText(a) == l
      ensures ParseLine(l) == Pair(Number(a.left), Number(a.right), "")
    {
      AssignmentAccepted(a);
    }
  }

  // ---------------------------------------------------------------------------------------------
  // Whole files
  // ---------------------------------------------------------------------------------------------

  /** Lines, each ended by a newline, and a last one that the end of the file ends. */
  function Text(lines: seq<string>, last: string): string {
    if lines == [] then last else lines[0] + ("\n" + Text(lines[1..], last))
  }

  /** The pairs of the lines before the first one that is not accepted. */
  function PairsOf(lines: seq<string>): seq<(Word, Word)> {
    if lines == [] || !Accepted(lines[0]) then [] else LinePairs(lines[0]) + PairsOf(lines[1..])
  }

  predicate AllAccepted(lines: seq<string>) {
    forall i | 0 <= i < |lines| :: Accepted(lines[i])
  }

  /** A file is accepted if and only if every line is blank, a comment or an assignment (`LineMeaning`),
      and the pairs are those of the lines up to the first one that is none of these. */
  lemma {:induction false} TextMeaning(lines: seq<string>, last: string)
    requires OneLine(last) && forall i | 0 <= i < |lines| :: OneLine(lines[i])
    ensures ParseText(Text(lines, last)).0 <==> AllAccepted(lines + [last])
    ensures ParseText(Text(lines, last)).1 == PairsOf(lines + [last])
  {
    if lines == [] {
      LineWithin(last, "");
      assert last + "" == last && lines + [last] == [last] && [last][1..] == [];
      FirstAndRest([last]);
    } else {
      var all := lines + [last];
      LineThenRest(lines[0], Text(lines[1..], last));
      TextMeaning(lines[1..], last);
      assert all[1..] == lines[1..] + [last];
      FirstAndRest(all);
    }
  }

  /** A newline hands over to the rest of the text. */
  lemma LineThenRest(l: string, rest: string)
    requires OneLine(l)
    ensures
      ParseText(l + ("\n" + rest)) ==
      if Accepted(l) then (ParseText(rest).0, LinePairs(l) + ParseText(rest).1) else (false, [])
  {
    LineWithin(l, "\n" + rest);
    assert Tail("\n" + rest) == rest;
    assert "" + ("\n" + rest) == "\n" + rest;
    assert [] + ParseText(rest).1 == ParseText(rest).1;
  }

  lemma FirstAndRest(lines: seq<string>)
    requires lines != []
    ensures AllAccepted(lines) <==> Accepted(lines[0]) && AllAccepted(lines[1..])
  {
    assert forall i | 1 <= i < |lines| :: lines[i] == lines[1..][i - 1];
  }

  // ---------------------------------------------------------------------------------------------
  // Numbers written in decimal
  // ---------------------------------------------------------------------------------------------

  function Written(n: nat): (d: string)
    ensures |d| > 0
  {
    if n < 10 then ['0' + n as char] else Written(n / 10) + ['0' + (n % 10) as char]
  }

  function Pow10(k: nat): nat {
    if k == 0 then 1 else 10 * Pow10(k - 1)
  }

  lemma {:induction false} WrittenIsDecimal(n: nat, k: nat)
    requires n < Pow10(k + 1)
    ensures AllDigits(Written(n)) && |Written(n)| <= k + 1 && Decimal(Written(n)) == n
  {
    if n < 10 {
      assert Written(n)[..0] == "";
    } else {
      WrittenIsDecimal(n / 10, k - 1);
      assert Written(n)[..|Written(n)| - 1] == Written(n / 10);
    }
  }

  /** Which digit strings are numbers, and what they mean: up to nineteen digits, modulo 2^32 below 2^63, and all
      ones from there on. */
  lemma NumberMeaning(d: string)
    ensures IsNumber(d) <==> 1 <= |d| <= 19 && forall i | 0 <= i < |d| :: '0' <= d[i] <= '9'
    ensures AllDigits(d) ==>
              Number(d) == if Decimal(d) < 0x8000_0000_0000_0000 then Decimal(d) % 0x1_0000_0000 else 0xFFFF_FFFF
  {
  }

  /** Every 32-bit number written without leading zeros is read back exactly. */
  lemma WrittenNumberReadBack(n: Word)
    ensures IsNumber(Written(n)) && Number(Written(n)) == n
  {
    assert Pow10(4) == 10000;
    assert Pow10(10) == 10000000000;
    WrittenIsDecimal(n, 9);
  }

  /** So a written assignment is accepted with any white space, and adds exactly its two numbers. */
  lemma WrittenAssignment(indent: string, a: Word, before: string, after: string, b: Word)
    requires AllSpace(indent) && AllSpace(before) && AllSpace(after)
    ensures AllDigits(Written(a)) && AllDigits(Written(b))
    ensures ParseLine(AssignmentText(Assignment(indent, Written(a), before, after, Written(b)))) == Pair(a, b, "")
  {
    WrittenNumberReadBack(a);
    WrittenNumberReadBack(b);
    AssignmentAccepted(Assignment(indent, Written(a), before, after, Written(b)));
  }

  // ---------------------------------------------------------------------------------------------
  // The parser as the program has it: one character at a time
  // ---------------------------------------------------------------------------------------------

  /** The character in the buffer and the unread file, at a place in the text. */
  predicate At(c: char, unread: string, s: string) {
    c == Peek(s) && unread == Tail(s)
  }

  method RequestRead(unread: string) returns (c: char, left: string)
    ensures At(c, left, unread)
  {
    if unread == "" {
      return '\0', unread;
    }
    return unread[0], unread[1..];
  }

  method SkipWhitespace(c: char, unread: string, ghost s: string) returns (d: char, left: string)
    requires At(c, unread, s)
    ensures At(d, left, SkipSpace(s))
  {
    d, left := c, unread;
    ghost var t := s;
    while d == ' ' || d == '\t'
      invariant At(d, left, t) && SkipSpace(t) == SkipSpace(s)
      decreases |t|
    {
      t := Tail(t);
      d, left := RequestRead(left);
    }
  }

  method IgnoreComment(c: char, unread: string, ghost s: string) returns (d: char, left: string)
    requires At(c, unread, s)
    ensures At(d, left, SkipComment(s))
  {
    d, left := c, unread;
    ghost var t := s;
    while d != '\n' && d != '\0'
      invariant At(d, left, t) && SkipComment(t) == SkipComment(s)
      decreases |t|
    {
      t := Tail(t);
      d, left := RequestRead(left);
    }
  }

  /** Collects digits in the 20-character buffer, which must keep room for the character after them. */
  method ReadNumber(c: char, unread: string, ghost s: string) returns (ok: bool, num: Word, d: char, left: string)
    requires At(c, unread, s)
    ensures ok == IsNumber(Digits(s))
    ensures ok ==> num == Number(Digits(s)) && At(d, left, AfterDigits(s))
  {
    num, d, left := 0, c, unread;
    if c < '0' || c > '9' {
      return false, num, d, left;
    }
    var buffer := new char[BUFFER_SIZE];
    buffer[0] := c;
    var i := 0;
    ghost var t := s;
    ghost var collected := "";
    while '0' <= buffer[i] <= '9'
      invariant 0 <= i < BUFFER_SIZE && d == buffer[i]
      invariant At(d, left, t)
      invariant collected == buffer[..i] && AllDigits(collected)
      invariant i == 0 ==> IsDigit(d)
      invariant Digits(s) == collected + Digits(t) && AfterDigits(s) == AfterDigits(t)
      decreases |t|
    {
      DigitCollected(collected, t);
      collected := collected + [d];
      t := Tail(t);
      d, left := RequestRead(left);
      i := i + 1;
      if i >= BUFFER_SIZE {
        return false, num, d, left;
      }
      buffer[i] := d;
    }
    assert collected + "" == collected;
    num := Number(buffer[..i]);
    return true, num, d, left;
  }

  lemma DigitCollected(collected: string, t: string)
    requires IsDigit(Peek(t))
    ensures collected + Digits(t) == (collected + [Peek(t)]) + Digits(Tail(t))
    ensures AfterDigits(t) == AfterDigits(Tail(t)) && |Tail(t)| < |t|
  {
    assert Digits(t) == [t[0]] + Digits(Tail(t));
    assert collected + ([t[0]] + Digits(Tail(t))) == (collected + [t[0]]) + Digits(Tail(t));
  }

  /** The second half of a line: white space, the number after `=`, and nothing else. */
  method ReadSecond(ghost first: Word, c: char, unread: string, ghost s: string)
    returns (ok: bool, num2: Word, d: char, left: string)
    requires At(c, unread, s)
    ensures
      var line := ParseSecond(first, SkipSpace(s));
      && ok == line.Pair?
      && (ok ==> line.second == num2 && At(d, left, line.rest))
  {
    d, left := SkipWhitespace(c, unread, s);
    ok, num2, d, left := ReadNumber(d, left, SkipSpace(s));
    if ok && d != '\n' && d != '\0' {
      ok := false;
    }
  }

  /** A `number = number` statement. */
  method ReadAssignment(c: char, unread: string, ghost s: string)
    returns (ok: bool, num1: Word, num2: Word, d: char, left: string)
    requires At(c, unread, s)
    ensures
      var line := ParseAssignment(s);
      && ok == line.Pair?
      && (ok ==> line.first == num1 && line.second == num2 && At(d, left, line.rest))
  {
    num2 := 0;
    ok, num1, d, left := ReadNumber(c, unread, s);
    if !ok || d == '\n' || d == '\0' {
      return false, num1, num2, d, left;
    }
    d, left := SkipWhitespace(d, left, AfterDigits(s));
    if d != '=' {
      return false, num1, num2, d, left;
    }
    ghost var after := Tail(SkipSpace(AfterDigits(s)));
    d, left := RequestRead(left);
    ok, num2, d, left := ReadSecond(num1, d, left, after);
  }

  /** One turn of the main loop, from the first character of a line to the one that ended it. */
  method ReadLine(text: string) returns (ok: bool, pair: Option<(Word, Word)>, d: char, left: string)
    ensures
      match ParseLine(text)
      case Bad => !ok
      case Blank(rest) => ok && pair == None && At(d, left, rest)
      case Pair(a, b, rest) => ok && pair == Some((a, b)) && At(d, left, rest)
  {
    ok, pair := true, None;
    d, left := RequestRead(text);
    if d == '#' {
      d, left := IgnoreComment(d, left, text);
      return;
    }
    d, left := SkipWhitespace(d, left, text);
    if d != '\n' && d != '\0' {
      var num1, num2;
      ok, num1, num2, d, left := ReadAssignment(d, left, SkipSpace(text));
      pair := Some((num1, num2));
    }
  }

  /** The pairs as they are added. */
  function Oriented(pairs: seq<(Word, Word)>, reverse: bool): seq<(Word, Word)> {
    if reverse then Swapped(pairs) else pairs
  }

  /** The table after the lines read so far, and what is still to come. */
  predicate ReadSoFar(input: string, done: seq<(Word, Word)>, finished: bool, text: string) {
    var whole := ParseText(input);
    if finished then whole == (true, done)
    else whole.0 == ParseText(text).0 && whole.1 == done + ParseText(text).1
  }

  method ProcessMapFile(input: string, hashtable: HashTable, reverse: bool) returns (ok: bool)
    requires hashtable.Valid()
    modifies hashtable, hashtable.buckets
    ensures hashtable.Valid() && fresh(hashtable.nodes - old(hashtable.nodes))
    ensures ok == ParseText(input).0
    ensures hashtable.contents == AddAll(old(hashtable.contents), Oriented(ParseText(input).1, reverse))
  {
    var c := 'a';
    var text := input;
    ghost var done: seq<(Word, Word)> := [];
    assert done + ParseText(input).1 == ParseText(input).1;
    while c != '\0'
      invariant hashtable.Valid() && fresh(hashtable.nodes - old(hashtable.nodes))
      invariant hashtable.contents == AddAll(old(hashtable.contents), Oriented(done, reverse))
      invariant ReadSoFar(input, done, c == '\0', text)
      decreases |text|, if c == '\0' then 0 else 1
    {
      var pair;
      ghost var before := text;
      ok, pair, c, text := ReadLine(text);
      if !ok {
        assert done + [] == done;
        return false;
      }
      LineRead(input, done, before);
      if pair != None {
        AddedNext(old(hashtable.contents), done, pair.value, reverse);
        done := done + [pair.value];
        if !reverse {
          hashtable.HashAddValue(pair.value.0, pair.value.1);
        } else {
          hashtable.HashAddValue(pair.value.1, pair.value.0);
        }
      }
    }
    return true;
  }

  lemma LineRead(input: string, done: seq<(Word, Word)>, text: string)
    requires ReadSoFar(input, done, false, text) && !ParseLine(text).Bad?
    ensures
      var line := ParseLine(text);
      var next := if line.Pair? then done + [(line.first, line.second)] else done;
      ReadSoFar(input, next, Peek(line.rest) == '\0', Tail(line.rest))
    ensures Peek(ParseLine(text).rest) != '\0' ==> |Tail(ParseLine(text).rest)| < |text|
  {
    var line := ParseLine(text);
    if Peek(line.rest) == '\0' {
      assert done + [] == done;
    } else if line.Pair? {
      var more := ParseText(Tail(line.rest)).1;
      assert done + ([(line.first, line.second)] + more) == (done + [(line.first, line.second)]) + more;
    }
  }

  lemma AddedNext(t: Table, done: seq<(Word, Word)>, pair: (Word, Word), reverse: bool)
    ensures
      var oriented := if reverse then (pair.1, pair.0) else pair;
      AddAll(t, Oriented(done + [pair], reverse)) == AddAll(t, Oriented(done, reverse))[oriented.0 := oriented.1]
  {
    var oriented := if reverse then (pair.1, pair.0) else pair;
    assert Oriented(done + [pair], reverse) == Oriented(done, reverse) + [oriented];
    assert (Oriented(done, reverse) + [oriented])[..|done|] == Oriented(done, reverse);
  }
}
