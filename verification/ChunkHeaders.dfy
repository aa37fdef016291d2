/**
 * Chunk headers of test scripts: reading a chunk's id and group, and rewriting its group.
 */
module ChunkHeaders {
  import opened Options
  import opened Text
  import opened ChunkIds

  // ---------------------------------------------------------------------------
  // The group suffix
  // ---------------------------------------------------------------------------

  /** Spaces, a closing parenthesis, and spaces. */
  predicate IsClosing(s: string) {
    var rest := s[SpaceRun(s)..];
    rest != "" && rest[0] == ')' && SpaceRun(rest[1..]) == |rest| - 1
  }

  function WithoutSpaces(s: string): string {
    s[SpaceRun(s)..]
  }

  /** The digits of a text of the form: "(", spaces, digits, spaces, ")", spaces. */
  function SuffixDigits(s: string): Option<string> {
    if s == "" || s[0] != '(' then None
    else
      var inside := WithoutSpaces(s[1..]);
      var n := DigitRun(inside);
      if IsClosing(inside[n..]) then Some(inside[..n]) else None
  }

  predicate IsSuffix(s: string) {
    SuffixDigits(s).Some?
  }

  /** Where the group suffix begins, or the length if there is none. */
  function SuffixStart(text: string): nat {
    First(text, IsSuffix)
  }

  function GroupSuffix(group: nat): string {
    "(" + Decimal(group) + ")"
  }

  lemma FreeParts(s: string, n: nat)
    requires n <= |s| && IsFree(s[..n], '(') && IsFree(s[n..], '(')
    ensures IsFree(s, '(')
  {
    assert s == s[..n] + s[n..];
  }

  lemma ClosingIsFree(s: string)
    requires IsClosing(s)
    ensures IsFree(s, '(')
  {
    var n := SpaceRun(s);
    var rest := s[n..];
    assert rest[1..][..|rest| - 1] == rest[1..];
    FreeParts(rest, 1);
    FreeParts(s, n);
  }

  /** A suffix has no parenthesis but its first. */
  lemma OneParenthesis(s: string)
    requires IsSuffix(s)
    ensures s != "" && s[0] == '(' && IsFree(s[1..], '(')
  {
    var a := s[1..];
    var b := a[SpaceRun(a)..];
    ClosingIsFree(b[DigitRun(b)..]);
    FreeParts(b, DigitRun(b));
    FreeParts(a, SpaceRun(a));
  }

  /** A parenthesis, spaces, digits, spaces, a parenthesis, and spaces. */
  ghost predicate IsSuffixOf(s: string, a: string, digits: string, b: string, c: string) {
    AllSpace(a) && AllDigits(digits) && AllSpace(b) && AllSpace(c) && s == "(" + (a + (digits + (b + (")" + c))))
  }

  lemma ClosingReads(s: string, b: string, c: string)
    requires AllSpace(b) && AllSpace(c) && s == b + (")" + c)
    ensures IsClosing(s)
  {
    SpaceRunOf(b, ")" + c);
    assert s[|b|..] == ")" + c && (")" + c)[1..] == c;
    SpaceRunOf(c, "");
    assert c + "" == c;
  }

  lemma NumberReads(s: string, digits: string, b: string, c: string)
    requires AllDigits(digits) && AllSpace(b) && AllSpace(c) && s == digits + (b + (")" + c))
    ensures DigitRun(s) == |digits| && s[..|digits|] == digits && IsClosing(s[|digits|..])
  {
    var rest := b + (")" + c);
    assert rest[0] == if b == "" then ')' else b[0];
    DigitRunOf(digits, rest);
    assert s[|digits|..] == rest;
    ClosingReads(rest, b, c);
  }

  lemma InsideIs(s: string, a: string, digits: string, b: string, c: string)
    requires IsSuffixOf(s, a, digits, b, c) && digits != ""
    ensures WithoutSpaces(s[1..]) == digits + (b + (")" + c))
  {
    var rest := digits + (b + (")" + c));
    assert s[1..] == a + rest && rest[0] == digits[0];
    SpaceRunOf(a, rest);
  }

  lemma InsideOfEmptyIs(s: string, a: string, b: string, c: string)
    requires IsSuffixOf(s, a, "", b, c)
    ensures WithoutSpaces(s[1..]) == ")" + c
  {
    assert s[1..] == (a + b) + (")" + c);
    SpaceRunOf(a + b, ")" + c);
  }

  /** A text of that form is a suffix with those digits. */
  lemma SuffixReads(s: string, a: string, digits: string, b: string, c: string)
    requires IsSuffixOf(s, a, digits, b, c)
    ensures SuffixDigits(s) == Some(digits)
  {
    hide IsClosing, WithoutSpaces;
    if digits == "" {
      InsideOfEmptyIs(s, a, b, c);
      assert "" + ("" + (")" + c)) == ")" + c;
      NumberReads(")" + c, "", "", c);
    } else {
      InsideIs(s, a, digits, b, c);
      NumberReads(digits + (b + (")" + c)), digits, b, c);
    }
  }

  lemma ClosingSplits(s: string) returns (b: string, c: string)
    requires IsClosing(s)
    ensures AllSpace(b) && AllSpace(c) && s == b + (")" + c)
  {
    b := s[..SpaceRun(s)];
    var rest := s[SpaceRun(s)..];
    c := rest[1..];
    assert c[..|c|] == c && rest == ")" + c;
  }

  lemma SpacesSplit(s: string) returns (a: string)
    ensures AllSpace(a) && s == a + WithoutSpaces(s)
  {
    a := s[..SpaceRun(s)];
  }

  lemma NumberSplits(s: string) returns (digits: string, b: string, c: string)
    requires IsClosing(s[DigitRun(s)..])
    ensures digits == s[..DigitRun(s)] && AllSpace(b) && AllSpace(c) && s == digits + (b + (")" + c))
  {
    hide IsClosing;
    digits := s[..DigitRun(s)];
    b, c := ClosingSplits(s[DigitRun(s)..]);
  }

  /** A suffix has that form. */
  lemma SuffixSplits(s: string) returns (a: string, digits: string, b: string, c: string)
    requires IsSuffix(s)
    ensures IsSuffixOf(s, a, digits, b, c) && SuffixDigits(s) == Some(digits)
  {
    hide IsClosing;
    var inside := WithoutSpaces(s[1..]);
    a := SpacesSplit(s[1..]);
    digits, b, c := NumberSplits(inside);
    assert s == "(" + (a + inside);
  }

  lemma GroupSuffixReads(group: nat)
    ensures SuffixDigits(GroupSuffix(group)) == Some(Decimal(group))
  {
    hide Decimal, SuffixDigits;
    var digits := Decimal(group);
    assert "(" + digits + ")" == "(" + ("" + (digits + ("" + (")" + ""))));
    assert IsSuffixOf(GroupSuffix(group), "", Decimal(group), "", "");
    SuffixReads(GroupSuffix(group), "", Decimal(group), "", "");
  }

  ghost predicate HasSuffixAt(text: string, at: nat) {
    at < |text| && IsSuffix(text[at..])
  }

  /** The parenthesis that begins a suffix is the only one from there on. */
  lemma SuffixBeginsAtParenthesis(text: string, at: nat, k: nat)
    requires HasSuffixAt(text, at)
    ensures text[at] == '('
    ensures at < k < |text| ==> text[k] != '('
  {
    OneParenthesis(text[at..]);
    assert text[at] == text[at..][0];
    if at < k < |text| {
      assert text[k] == text[at..][1..][k - at - 1];
    }
  }

  /** Only the suffix decides where it begins. */
  lemma SuffixStartIs(text: string, at: nat)
    requires HasSuffixAt(text, at)
    ensures SuffixStart(text) == at
  {
    var found := SuffixStart(text);
    FirstFinds(text, IsSuffix, at);
    assert found <= at && HasSuffixAt(text, found);
    SuffixBeginsAtParenthesis(text, at, at);
    SuffixBeginsAtParenthesis(text, found, at);
  }

  lemma NotASuffix(s: string)
    requires s != "" && s[0] != '('
    ensures !IsSuffix(s)
  {
  }

  /** Text in front of a suffix, free of parentheses, does not change it. */
  lemma SuffixStartAfter(prefix: string, text: string)
    requires IsFree(prefix, '(')
    ensures SuffixStart(prefix + text) == |prefix| + SuffixStart(text)
  {
    forall k | 0 <= k < |prefix| ensures !IsSuffix((prefix + text)[k..]) {
      NotASuffix((prefix + text)[k..]);
    }
    FirstAfter(prefix, text, IsSuffix);
  }

  function ReplaceFrom(text: string, at: nat, suffix: string): string {
    if at < |text| then text[..at] + suffix else text
  }

  /** The text with its suffix replaced. */
  function WithGroup(text: string, group: nat): string {
    ReplaceFrom(text, SuffixStart(text), GroupSuffix(group))
  }

  lemma ReplaceAfter(prefix: string, text: string, at: nat, suffix: string)
    ensures ReplaceFrom(prefix + text, |prefix| + at, suffix) == prefix + ReplaceFrom(text, at, suffix)
  {
    if at < |text| {
      assert (prefix + text)[..|prefix| + at] == prefix + text[..at];
    }
  }

  lemma WithGroupReads(text: string, group: nat)
    requires SuffixStart(text) < |text|
    ensures var at, after := SuffixStart(text), WithGroup(text, group);
            SuffixStart(after) == at && after[..at] == text[..at] && SuffixDigits(after[at..]) == Some(Decimal(group))
  {
    var at, after := SuffixStart(text), WithGroup(text, group);
    assert after[at..] == GroupSuffix(group);
    GroupSuffixReads(group);
    SuffixStartIs(after, at);
  }

  lemma WithGroupAfter(prefix: string, text: string, group: nat)
    requires IsFree(prefix, '(')
    ensures WithGroup(prefix + text, group) == prefix + WithGroup(text, group)
  {
    SuffixStartAfter(prefix, text);
    ReplaceAfter(prefix, text, SuffixStart(text), GroupSuffix(group));
  }

  // ---------------------------------------------------------------------------
  // Headers
  // ---------------------------------------------------------------------------

  /** A leading "#", and a space after it, mark a variant of the token. */
  function MarkLength(text: string): (n: nat)
    ensures n <= |text| && IsFree(text[..n], '(')
  {
    if text == "" || text[0] != '#' then 0 else if |text| > 1 && text[1] == ' ' then 2 else 1
  }

  datatype Header = Header(id: string, group: Option<nat>)

  /** An empty suffix stays in the id and gives group 0. */
  function ParseHeader(text: string): Header {
    var rest := text[MarkLength(text)..];
    var at := SuffixStart(rest);
    match SuffixDigits(rest[at..])
    case None => Header(ChunkId(rest), None)
    case Some(digits) =>
      if digits == "" then Header(ChunkId(rest), Some(0))
      else
        DigitsAreDigits(rest[at..]);
        Header(ChunkId(Strip(rest[..at])), Some(Value(digits)))
  }

  /** What comes between the token and the text that counts: nothing, a "#", or a "#" and a space. */
  ghost predicate IsMark(mark: string, rest: string) {
    || (mark == "" && (rest == "" || rest[0] != '#'))
    || (mark == "#" && (rest == "" || rest[0] != ' '))
    || mark == "# "
  }

  lemma MarkIs(mark: string, rest: string)
    requires IsMark(mark, rest)
    ensures MarkLength(mark + rest) == |mark| && (mark + rest)[|mark|..] == rest
  {
    assert mark == "#" && rest != "" ==> (mark + rest)[1] == rest[0];
  }

  /** A header that ends in a suffix has its number as the group, or 0 if it has none. */
  lemma SuffixIsGroup(mark: string, text: string, suffix: string, a: string, digits: string, b: string, c: string)
    requires IsMark(mark, text + suffix) && IsSuffixOf(suffix, a, digits, b, c)
    ensures ParseHeader(mark + (text + suffix)) ==
            if digits == "" then Header(ChunkId(text + suffix), Some(0)) else Header(ChunkId(Strip(text)), Some(Value(digits)))
  {
    var rest := text + suffix;
    MarkIs(mark, rest);
    SuffixReads(suffix, a, digits, b, c);
    assert rest[|text|..] == suffix && rest[..|text|] == text;
    SuffixStartIs(rest, |text|);
  }

  /** A header that does not has no group, and its text is its id. */
  lemma NoSuffixNoGroup(mark: string, text: string)
    requires IsMark(mark, text)
    requires forall at, a, digits, b, c :: 0 <= at < |text| ==> !IsSuffixOf(text[at..], a, digits, b, c)
    ensures ParseHeader(mark + text) == Header(ChunkId(text), None)
  {
    MarkIs(mark, text);
    var at := SuffixStart(text);
    FirstFinds(text, IsSuffix, 0);
    if at < |text| {
      var a, digits, b, c := SuffixSplits(text[at..]);
    } else {
      assert text[at..] == "";
    }
  }

  lemma DigitsAreDigits(s: string)
    ensures SuffixDigits(s).Some? ==> AllDigits(SuffixDigits(s).value)
  {
  }

  /** The text has a suffix with a number. */
  ghost predicate EndsInNumber(text: string) {
    var digits := SuffixDigits(text[SuffixStart(text)..]);
    digits.Some? && digits.value != ""
  }

  ghost predicate IsNumbered(text: string) {
    EndsInNumber(text[MarkLength(text)..])
  }

  lemma FirstsStay(text: string, group: nat)
    ensures var after := WithGroup(text, group);
            (text == "" <==> after == "") && (text != "" ==> after[0] == text[0])
  {
    var at := SuffixStart(text);
    FirstFinds(text, IsSuffix, 0);
    if at < |text| {
      SuffixBeginsAtParenthesis(text, at, at);
    }
  }

  lemma MarkStays(text: string, group: nat)
    ensures MarkLength(WithGroup(text, group)) == MarkLength(text)
    ensures WithGroup(text, group)[MarkLength(text)..] == WithGroup(text[MarkLength(text)..], group)
  {
    var n := MarkLength(text);
    var mark, rest := text[..n], text[n..];
    assert text == mark + rest;
    WithGroupAfter(mark, rest, group);
    assert WithGroup(text, group) == mark + WithGroup(rest, group);
    FirstsStay(rest, group);
  }

  /** After rewriting, the id is that of the text before the suffix. */
  lemma RewrittenHeaderIs(text: string, group: nat)
    ensures var rest := text[MarkLength(text)..];
            SuffixStart(rest) < |rest| ==>
              && ParseHeader(WithGroup(text, group)) == Header(ChunkId(Strip(rest[..SuffixStart(rest)])), Some(group))
              && IsNumbered(WithGroup(text, group))
  {
    var rest := text[MarkLength(text)..];
    MarkStays(text, group);
    if SuffixStart(rest) < |rest| {
      WithGroupReads(rest, group);
      DecimalRoundTrip(group);
    }
  }

  /** Rewriting a numbered suffix keeps the id and sets the group. */
  lemma RewrittenHeaderReads(text: string, group: nat)
    requires IsNumbered(text)
    ensures ParseHeader(WithGroup(text, group)) == Header(ParseHeader(text).id, Some(group))
    ensures IsNumbered(WithGroup(text, group))
  {
    RewrittenHeaderIs(text, group);
  }

  lemma RewritingAgainChangesNothing(text: string, group: nat)
    ensures WithGroup(WithGroup(text, group), group) == WithGroup(text, group)
  {
    if SuffixStart(text) < |text| {
      WithGroupReads(text, group);
    }
  }

  ghost predicate EndsInEmptySuffix(text: string) {
    SuffixDigits(text[SuffixStart(text)..]) == Some("")
  }

  /** The spaces inside an empty suffix, and those after it. */
  lemma EmptySuffixParts(s: string) returns (inside: string, end: string)
    requires SuffixDigits(s) == Some("")
    ensures s == Parenthesised(inside) + end && AllSpace(inside) && AllSpace(end)
  {
    hide AllSpace;
    var a, digits, b, c := SuffixSplits(s);
    assert IsSuffixOf(s, a, "", b, c);
    inside, end := a + b, c;
    EmptySuffixRegroups(s, a, b, c);
  }

  lemma EmptySuffixRegroups(s: string, a: string, b: string, c: string)
    requires IsSuffixOf(s, a, "", b, c)
    ensures s == Parenthesised(a + b) + c && AllSpace(a + b) && AllSpace(c)
  {
    assert a + ("" + (b + (")" + c))) == (a + b) + (")" + c);
  }

  ghost function Parenthesised(inside: string): string {
    "(" + inside + ")"
  }

  lemma ParenthesisedIsTail(inside: string, end: string)
    requires AllSpace(inside) && AllSpace(end)
    ensures IsTail(Parenthesised(inside) + end) && |Strip(Parenthesised(inside) + end)| >= 2
  {
    var s := Parenthesised(inside);
    assert s + end == "" + s + end;
    StripDropsSpaces("", s, end);
  }

  lemma EmptySuffixIsTail(s: string)
    requires SuffixDigits(s) == Some("")
    ensures IsTail(s) && |Strip(s)| >= 2
  {
    var inside, end := EmptySuffixParts(s);
    ParenthesisedIsTail(inside, end);
  }

  /** With an empty suffix the id is that of the whole text before rewriting, and that of the text before the suffix
      afterwards. */
  lemma EmptySuffixIds(text: string, group: nat)
    requires EndsInEmptySuffix(text[MarkLength(text)..])
    ensures var rest := text[MarkLength(text)..];
            && SuffixStart(rest) < |rest|
            && ParseHeader(text).id == ChunkId(rest)
            && ParseHeader(WithGroup(text, group)).id == ChunkId(Strip(rest[..SuffixStart(rest)]))
  {
    var rest := text[MarkLength(text)..];
    assert SuffixStart(rest) < |rest| by {
      assert rest[|rest|..] == "";
    }
    RewrittenHeaderIs(text, group);
  }

  /** The text before an empty suffix whose id is that of the whole. */
  ghost predicate IsShielded(before: string) {
    IsCutOff(before) && !HidesMark(before)
  }

  lemma EmptySuffixIdsAgreeIff(rest: string)
    requires EndsInEmptySuffix(rest)
    ensures ChunkId(rest) == ChunkId(Strip(rest[..SuffixStart(rest)])) <==> IsShielded(rest[..SuffixStart(rest)])
  {
    var at := SuffixStart(rest);
    EmptySuffixIsTail(rest[at..]);
    assert rest == rest[..at] + rest[at..];
    EmptySuffixKeepsIdIff(rest[..at], rest[at..]);
  }

  /** Rewriting a header keeps its id exactly when the header has no suffix, or a numbered one, or when a context or a USE
      part cuts its empty suffix off and no space in front hides a mark. */
  lemma IdIsKeptIff(text: string, group: nat)
    ensures var rest := text[MarkLength(text)..];
            ParseHeader(WithGroup(text, group)).id == ParseHeader(text).id <==>
            !EndsInEmptySuffix(rest) || IsShielded(rest[..SuffixStart(rest)])
  {
    var rest := text[MarkLength(text)..];
    if EndsInEmptySuffix(rest) {
      EmptySuffixIds(text, group);
      EmptySuffixIdsAgreeIff(rest);
    } else {
      OtherSuffixKeepsId(text, group);
    }
  }

  lemma OtherSuffixKeepsId(text: string, group: nat)
    requires !EndsInEmptySuffix(text[MarkLength(text)..])
    ensures ParseHeader(WithGroup(text, group)).id == ParseHeader(text).id
  {
    var rest := text[MarkLength(text)..];
    if SuffixStart(rest) == |rest| {
      NoSuffixNoChange(text, group);
    } else {
      OtherSuffixIsNumbered(rest);
      assert IsNumbered(text);
      RewrittenHeaderReads(text, group);
    }
  }

  lemma OtherSuffixIsNumbered(text: string)
    requires SuffixStart(text) < |text| && !EndsInEmptySuffix(text)
    ensures EndsInNumber(text)
  {
    FirstFinds(text, IsSuffix, 0);
  }

  lemma NoSuffixNoChange(text: string, group: nat)
    requires var rest := text[MarkLength(text)..]; SuffixStart(rest) == |rest|
    ensures WithGroup(text, group) == text && !EndsInEmptySuffix(text[MarkLength(text)..])
  {
    var n := MarkLength(text);
    assert text == text[..n] + text[n..];
    SuffixStartAfter(text[..n], text[n..]);
    assert text[n..][|text[n..]|..] == "";
  }

  /** A header whose id rewriting changes. */
  lemma EmptySuffixChangesId(text: string, group: nat)
    requires |text| == 3 && IsPlain(text[0]) && text[1] == '(' && text[2] == ')'
    ensures ParseHeader(text).id != ParseHeader(WithGroup(text, group)).id
  {
    assert IsSuffixOf(text[1..], "", "", "", "");
    SuffixReads(text[1..], "", "", "", "");
    SuffixStartIs(text, 1);
    assert text[0..] == text;
    assert !IsShielded(text[..1]) by {
      assert text[..1] == [text[0]];
      PlainIsNotCutOff(text[0]);
    }
    IdIsKeptIff(text, group);
  }

  ghost predicate IsPlain(c: char) {
    !IsSpace(c) && c != '#' && c != '{' && c != '['
  }

  lemma PlainIsNotCutOff(c: char)
    requires IsPlain(c)
    ensures !IsCutOff([c])
  {
    assert [c] + "" == [c];
    CutAfter([c], "", "{", '}');
    CutAfter([c], "", "[USE:", ']');
  }

  // ---------------------------------------------------------------------------
  // Scripts
  // ---------------------------------------------------------------------------

  datatype Chunk = Chunk(header: nat, id: string, group: Option<nat>, code: seq<string>)

  /** What the balancer sees of a chunk: not the group it has now. */
  datatype Outline = Outline(id: string, grouped: bool, code: seq<string>)

  /** The text without its trailing newlines. */
  function WithoutNewline(line: string): string {
    if line != "" && line[|line| - 1] == '\n' then WithoutNewline(line[..|line| - 1]) else line
  }

  predicate IsHeader(line: string, token: string) {
    token <= line
  }

  function HeaderText(line: string, token: string): string
    requires IsHeader(line, token)
  {
    WithoutNewline(line[|token|..])
  }

  datatype Parsed = HeaderLine(header: Header) | CodeLine(text: string)

  function ParseLine(line: string, token: string): Parsed {
    if IsHeader(line, token) then HeaderLine(ParseHeader(HeaderText(line, token))) else CodeLine(line)
  }

  /** A header line begins a chunk; any other line belongs to the last chunk, if there is one. */
  function AddLine(chunks: seq<Chunk>, n: nat, line: Parsed): seq<Chunk> {
    match line
    case HeaderLine(header) => chunks + [Chunk(n, header.id, header.group, [])]
    case CodeLine(text) =>
      if chunks == [] then []
      else
        var last := chunks[|chunks| - 1];
        chunks[..|chunks| - 1] + [last.(code := last.code + [text])]
  }

  /** The chunks of a script. */
  function ParseChunks(lines: seq<string>, token: string): seq<Chunk> {
    if lines == [] then []
    else AddLine(ParseChunks(lines[..|lines| - 1], token), |lines| - 1, ParseLine(lines[|lines| - 1], token))
  }

  function OutlineOf(chunk: Chunk): Outline {
    Outline(chunk.id, chunk.group.Some?, chunk.code)
  }

  function Outlines(chunks: seq<Chunk>): (outlines: seq<Outline>)
    ensures |outlines| == |chunks| && forall i :: 0 <= i < |chunks| ==> outlines[i] == OutlineOf(chunks[i])
  {
    seq(|chunks|, i requires 0 <= i < |chunks| => OutlineOf(chunks[i]))
  }

  function RewriteLine(line: string, group: nat): string {
    WithGroup(WithoutNewline(line), group) + "\n"
  }

  ghost predicate AreIncreasing(chunks: seq<Chunk>, limit: nat) {
    && (forall i :: 0 <= i < |chunks| ==> chunks[i].header < limit)
    && forall i, j :: 0 <= i < j < |chunks| ==> chunks[i].header < chunks[j].header
  }

  /** A line keeps the headers of the chunks before it, and may add one. */
  lemma AddLineKeeps(chunks: seq<Chunk>, n: nat, line: Parsed)
    ensures var after := AddLine(chunks, n, line);
            && |after| == (if line.HeaderLine? then |chunks| + 1 else |chunks|)
            && (line.HeaderLine? ==> after[|chunks|] == Chunk(n, line.header.id, line.header.group, []))
            && forall i :: 0 <= i < |chunks| ==>
                 after[i].header == chunks[i].header && after[i].id == chunks[i].id && after[i].group == chunks[i].group
  {
  }

  lemma {:induction false} HeadersIncrease(lines: seq<string>, token: string)
    ensures AreIncreasing(ParseChunks(lines, token), |lines|)
  {
    if lines != [] {
      var front, last := lines[..|lines| - 1], |lines| - 1;
      HeadersIncrease(front, token);
      AddLineKeeps(ParseChunks(front, token), last, ParseLine(lines[last], token));
    }
  }

  ghost predicate HasHeaderAt(chunks: seq<Chunk>, n: nat) {
    exists i :: 0 <= i < |chunks| && chunks[i].header == n
  }

  /** Where the code of a chunk ends: at the next header, or with the script. */
  ghost function CodeEnd(chunks: seq<Chunk>, i: nat, end: nat): nat {
    if i + 1 < |chunks| then chunks[i + 1].header else end
  }

  /** The code of a chunk is the lines from its header to the next. */
  ghost predicate IsTile(chunks: seq<Chunk>, i: nat, lines: seq<string>)
    requires i < |chunks|
  {
    var from, end := chunks[i].header + 1, CodeEnd(chunks, i, |lines|);
    from <= end <= |lines| && chunks[i].code == lines[from..end]
  }

  /** The headers are the lines that begin with the token, in order, and the rest is code. */
  ghost predicate AreTiles(chunks: seq<Chunk>, lines: seq<string>, token: string) {
    && AreIncreasing(chunks, |lines|)
    && (forall n :: 0 <= n < |lines| ==> (token <= lines[n] <==> HasHeaderAt(chunks, n)))
    && forall i :: 0 <= i < |chunks| ==> IsTile(chunks, i, lines)
  }

  lemma HeaderKeepsTiles(chunks: seq<Chunk>, front: seq<string>, token: string, line: string, id: string, group: Option<nat>)
    requires AreTiles(chunks, front, token) && token <= line
    ensures AreTiles(chunks + [Chunk(|front|, id, group, [])], front + [line], token)
  {
    var after, lines := chunks + [Chunk(|front|, id, group, [])], front + [line];
    forall n | 0 <= n < |lines| ensures token <= lines[n] <==> HasHeaderAt(after, n) {
      if n == |front| {
        assert after[|chunks|].header == n;
      } else if HasHeaderAt(chunks, n) {
        var i :| 0 <= i < |chunks| && chunks[i].header == n;
        assert after[i].header == n;
      }
    }
    forall i | 0 <= i < |after| ensures IsTile(after, i, lines) {
      if i < |chunks| {
        assert IsTile(chunks, i, front);
        SliceGrows(front, line, chunks[i].header + 1, CodeEnd(chunks, i, |front|));
      }
    }
  }

  lemma SameHeadersAt(chunks: seq<Chunk>, after: seq<Chunk>, n: nat)
    requires |after| == |chunks| && forall i :: 0 <= i < |chunks| ==> after[i].header == chunks[i].header
    ensures HasHeaderAt(after, n) <==> HasHeaderAt(chunks, n)
  {
    if i :| 0 <= i < |chunks| && chunks[i].header == n {
      assert after[i].header == n;
    }
  }

  lemma SliceGrows(front: seq<string>, line: string, from: nat, end: nat)
    requires from <= end <= |front|
    ensures (front + [line])[from..end] == front[from..end]
    ensures end == |front| ==> (front + [line])[from..end + 1] == front[from..end] + [line]
  {
  }

  lemma NoHeaderPast(chunks: seq<Chunk>, limit: nat)
    requires AreIncreasing(chunks, limit)
    ensures !HasHeaderAt(chunks, limit)
  {
  }

  lemma TileGrows(chunks: seq<Chunk>, front: seq<string>, line: string, i: nat)
    requires i < |chunks| && IsTile(chunks, i, front)
    ensures var last := chunks[|chunks| - 1];
            IsTile(chunks[..|chunks| - 1] + [last.(code := last.code + [line])], i, front + [line])
  {
    SliceGrows(front, line, chunks[i].header + 1, CodeEnd(chunks, i, |front|));
  }

  lemma CodeKeepsTiles(chunks: seq<Chunk>, front: seq<string>, token: string, line: string)
    requires AreTiles(chunks, front, token) && !(token <= line) && chunks != []
    ensures var last := chunks[|chunks| - 1];
            AreTiles(chunks[..|chunks| - 1] + [last.(code := last.code + [line])], front + [line], token)
  {
    hide IsTile, HasHeaderAt;
    var last, lines := chunks[|chunks| - 1], front + [line];
    var after := chunks[..|chunks| - 1] + [last.(code := last.code + [line])];
    forall n | 0 <= n < |lines| ensures token <= lines[n] <==> HasHeaderAt(after, n) {
      SameHeadersAt(chunks, after, n);
      if n == |front| {
        NoHeaderPast(chunks, n);
      }
    }
    forall i | 0 <= i < |after| ensures IsTile(after, i, lines) {
      TileGrows(chunks, front, line, i);
    }
  }

  /** The chunks of a script cut it at its header lines. */
  lemma {:induction false} ChunksTile(lines: seq<string>, token: string)
    ensures AreTiles(ParseChunks(lines, token), lines, token)
  {
    if lines != [] {
      var front, line := lines[..|lines| - 1], lines[|lines| - 1];
      var chunks := ParseChunks(front, token);
      ChunksTile(front, token);
      assert lines == front + [line];
      if token <= line {
        var header := ParseHeader(HeaderText(line, token));
        HeaderKeepsTiles(chunks, front, token, line, header.id, header.group);
      } else if chunks != [] {
        CodeKeepsTiles(chunks, front, token, line);
      }
    }
  }

  method FindChunks(lines: seq<string>, token: string) returns (chunks: seq<Chunk>)
    ensures chunks == ParseChunks(lines, token) && AreTiles(chunks, lines, token)
  {
    chunks := [];
    for n := 0 to |lines|
      invariant chunks == ParseChunks(lines[..n], token)
    {
      assert lines[..n + 1][..n] == lines[..n];
      match ParseLine(lines[n], token) {
        case HeaderLine(header) =>
          chunks := chunks + [Chunk(n, header.id, header.group, [])];
        case CodeLine(text) =>
          if chunks != [] {
            var last := chunks[|chunks| - 1];
            chunks := chunks[..|chunks| - 1] + [last.(code := last.code + [text])];
          }
      }
    }
    assert lines[..|lines|] == lines;
    ChunksTile(lines, token);
  }

  function RewrittenLine(line: string, group: Option<nat>): string {
    if group.Some? then RewriteLine(line, group.value) else line
  }

  /** The new group of the chunk whose header is line n. */
  ghost function GroupOfLine(chunks: seq<Chunk>, groups: seq<Option<nat>>, n: nat): Option<nat>
    requires |groups| == |chunks|
  {
    if chunks == [] then None
    else if chunks[|chunks| - 1].header == n then groups[|groups| - 1]
    else GroupOfLine(chunks[..|chunks| - 1], groups[..|groups| - 1], n)
  }

  lemma {:induction false} GroupOfLineIs(chunks: seq<Chunk>, groups: seq<Option<nat>>, limit: nat, n: nat, i: nat)
    requires |groups| == |chunks| && AreIncreasing(chunks, limit)
    ensures i < |chunks| && chunks[i].header == n ==> GroupOfLine(chunks, groups, n) == groups[i]
    ensures (forall k :: 0 <= k < |chunks| ==> chunks[k].header != n) ==> GroupOfLine(chunks, groups, n).None?
  {
    if chunks != [] {
      GroupOfLineIs(chunks[..|chunks| - 1], groups[..|groups| - 1], limit, n, i);
    }
  }

  /** The script with every header rewritten to its new group. */
  ghost function Rewritten(lines: seq<string>, chunks: seq<Chunk>, groups: seq<Option<nat>>): (after: seq<string>)
    requires |groups| == |chunks|
    ensures |after| == |lines|
    ensures forall n :: 0 <= n < |lines| ==> after[n] == RewrittenLine(lines[n], GroupOfLine(chunks, groups, n))
  {
    seq(|lines|, n requires 0 <= n < |lines| => RewrittenLine(lines[n], GroupOfLine(chunks, groups, n)))
  }

  lemma OneMoreHeader(lines: seq<string>, chunks: seq<Chunk>, groups: seq<Option<nat>>, i: nat)
    requires |groups| == |chunks| && i < |chunks| && AreIncreasing(chunks, |lines|)
    ensures var before, at := Rewritten(lines, chunks[..i], groups[..i]), chunks[i].header;
            before[at := RewrittenLine(before[at], groups[i])] == Rewritten(lines, chunks[..i + 1], groups[..i + 1])
  {
    var at := chunks[i].header;
    GroupOfLineIs(chunks[..i], groups[..i], |lines|, at, i);
    assert chunks[..i + 1][..i] == chunks[..i] && groups[..i + 1][..i] == groups[..i];
  }

  method RewriteHeaders(lines: seq<string>, chunks: seq<Chunk>, groups: seq<Option<nat>>) returns (after: seq<string>)
    requires |groups| == |chunks| && AreIncreasing(chunks, |lines|)
    ensures after == Rewritten(lines, chunks, groups)
  {
    after := lines;
    assert after == Rewritten(lines, chunks[..0], groups[..0]);
    for i := 0 to |chunks|
      invariant after == Rewritten(lines, chunks[..i], groups[..i])
    {
      OneMoreHeader(lines, chunks, groups, i);
      var at := chunks[i].header;
      if groups[i].Some? {
        after := after[at := RewriteLine(after[at], groups[i].value)];
      } else {
        assert after[at := after[at]] == after;
      }
    }
    assert chunks[..|chunks|] == chunks && groups[..|groups|] == groups;
  }

  // ---------------------------------------------------------------------------
  // Rewriting a script again
  // ---------------------------------------------------------------------------

  /** The line is not changed, or is a header whose id and being grouped are not. */
  ghost predicate KeepsHeader(line: Parsed, after: Parsed) {
    || after == line
    || (&& line.HeaderLine? && after.HeaderLine? && after.header.id == line.header.id
        && after.header.group.Some? && line.header.group.Some?)
  }

  ghost predicate HaveSameOutlines(chunks: seq<Chunk>, again: seq<Chunk>) {
    |again| == |chunks| &&
    forall i :: 0 <= i < |chunks| ==> OutlineOf(again[i]) == OutlineOf(chunks[i]) && again[i].header == chunks[i].header
  }

  lemma SameOutlinesOneMore(chunks: seq<Chunk>, again: seq<Chunk>, n: nat, line: Parsed, after: Parsed)
    requires HaveSameOutlines(chunks, again) && KeepsHeader(line, after)
    ensures HaveSameOutlines(AddLine(chunks, n, line), AddLine(again, n, after))
  {
  }

  /** Lines that keep their headers have the same outlines. */
  lemma {:induction false} SameOutlines(lines: seq<string>, after: seq<string>, token: string)
    requires |after| == |lines| && forall n :: 0 <= n < |lines| ==> KeepsHeader(ParseLine(lines[n], token), ParseLine(after[n], token))
    ensures HaveSameOutlines(ParseChunks(lines, token), ParseChunks(after, token))
  {
    if lines != [] {
      var front, last := lines[..|lines| - 1], |lines| - 1;
      SameOutlines(front, after[..last], token);
      SameOutlinesOneMore(ParseChunks(front, token), ParseChunks(after[..last], token), last,
                          ParseLine(lines[last], token), ParseLine(after[last], token));
    }
  }

  lemma {:induction false} WithoutNewlineSplits(line: string) returns (newlines: string)
    ensures line == WithoutNewline(line) + newlines && forall i :: 0 <= i < |newlines| ==> newlines[i] == '\n'
    ensures WithoutNewline(line) == "" || WithoutNewline(line)[|WithoutNewline(line)| - 1] != '\n'
  {
    newlines := "";
    if line != "" && line[|line| - 1] == '\n' {
      var rest := WithoutNewlineSplits(line[..|line| - 1]);
      newlines := rest + "\n";
    }
  }

  lemma {:induction false} WithoutNewlineDrops(text: string, newlines: string)
    requires text == "" || text[|text| - 1] != '\n'
    requires forall i :: 0 <= i < |newlines| ==> newlines[i] == '\n'
    ensures WithoutNewline(text + newlines) == text
  {
    if newlines == "" {
      assert text + newlines == text;
    } else {
      assert (text + newlines)[..|text + newlines| - 1] == text + newlines[..|newlines| - 1];
      WithoutNewlineDrops(text, newlines[..|newlines| - 1]);
    }
  }

  /** The token of a header ends neither in a newline nor has a parenthesis. */
  ghost predicate IsToken(token: string) {
    token != "" && token[|token| - 1] != '\n' && IsFree(token, '(')
  }

  /** A header is its token, its text and newlines. */
  lemma HeaderSplits(line: string, token: string)
    requires IsToken(token) && IsHeader(line, token)
    ensures WithoutNewline(line) == token + HeaderText(line, token)
  {
    var newlines := WithoutNewlineSplits(line[|token|..]);
    var text := HeaderText(line, token);
    assert line == token + line[|token|..];
    assert line == (token + text) + newlines;
    WithoutNewlineDrops(token + text, newlines);
  }

  lemma LastStays(text: string, group: nat)
    requires text == "" || text[|text| - 1] != '\n'
    ensures WithGroup(text, group) == "" || WithGroup(text, group)[|WithGroup(text, group)| - 1] != '\n'
  {
  }

  lemma HeaderTextHasNoNewline(line: string, token: string)
    requires IsHeader(line, token)
    ensures var text := HeaderText(line, token); text == "" || text[|text| - 1] != '\n'
  {
    var _ := WithoutNewlineSplits(line[|token|..]);
  }

  lemma DropOneNewline(text: string)
    requires text == "" || text[|text| - 1] != '\n'
    ensures WithoutNewline(text + "\n") == text
  {
    assert (text + "\n")[..|text|] == text;
  }

  lemma HeaderOf(token: string, text: string)
    requires text == "" || text[|text| - 1] != '\n'
    ensures IsHeader(token + text + "\n", token) && HeaderText(token + text + "\n", token) == text
  {
    DropOneNewline(text);
    var line := token + text + "\n";
    assert line[..|token|] == token && line[|token|..] == text + "\n";
  }

  /** A rewritten header is a header with the suffix of its text replaced. */
  lemma RewrittenLineIs(line: string, token: string, group: nat)
    requires IsToken(token) && IsHeader(line, token)
    ensures var after := RewriteLine(line, group);
            IsHeader(after, token) && HeaderText(after, token) == WithGroup(HeaderText(line, token), group)
  {
    var text := HeaderText(line, token);
    HeaderSplits(line, token);
    WithGroupAfter(token, text, group);
    HeaderTextHasNoNewline(line, token);
    LastStays(text, group);
    HeaderOf(token, WithGroup(text, group));
  }

  lemma RewritingLineAgainChangesNothing(line: string, group: nat)
    ensures RewriteLine(RewriteLine(line, group), group) == RewriteLine(line, group)
  {
    var whole := WithoutNewline(line);
    var _ := WithoutNewlineSplits(line);
    LastStays(whole, group);
    DropOneNewline(WithGroup(whole, group));
    RewritingAgainChangesNothing(whole, group);
  }

  /** Rewriting a numbered header keeps its id and sets its group. */
  lemma RewrittenLineKeepsHeader(line: string, token: string, group: nat)
    requires IsToken(token) && IsHeader(line, token) && IsNumbered(HeaderText(line, token))
    ensures KeepsHeader(ParseLine(line, token), ParseLine(RewriteLine(line, group), token))
    ensures ParseLine(RewriteLine(line, group), token) == HeaderLine(Header(ParseHeader(HeaderText(line, token)).id, Some(group)))
  {
    RewrittenLineIs(line, token, group);
    RewrittenHeaderReads(HeaderText(line, token), group);
    NumberedIsGrouped(HeaderText(line, token));
  }

  lemma NumberedIsGrouped(text: string)
    requires IsNumbered(text)
    ensures ParseHeader(text).group.Some?
  {
  }

  // ---------------------------------------------------------------------------
  // The whole script
  // ---------------------------------------------------------------------------

  /** Gives new groups to some chunks, judging by their outlines alone. */
  type Balancer = seq<Outline> -> seq<Option<nat>>

  /** One group, or none, for every chunk, and only for chunks with a numbered header. */
  ghost predicate IsFitting(lines: seq<string>, token: string, balancer: Balancer) {
    var chunks := ParseChunks(lines, token);
    var groups := balancer(Outlines(chunks));
    && |groups| == |chunks|
    && forall i :: 0 <= i < |chunks| && groups[i].Some? ==>
         && chunks[i].header < |lines| && IsHeader(lines[chunks[i].header], token)
         && IsNumbered(HeaderText(lines[chunks[i].header], token))
  }

  ghost function Balanced(lines: seq<string>, token: string, balancer: Balancer): seq<string>
    requires IsFitting(lines, token, balancer)
  {
    var chunks := ParseChunks(lines, token);
    Rewritten(lines, chunks, balancer(Outlines(chunks)))
  }

  /** A line with a new group is the numbered header of its chunk. */
  lemma {:induction false} GroupedLineIsHeader(chunks: seq<Chunk>, groups: seq<Option<nat>>, n: nat) returns (i: nat)
    requires |groups| == |chunks| && GroupOfLine(chunks, groups, n).Some?
    ensures i < |chunks| && chunks[i].header == n && groups[i] == GroupOfLine(chunks, groups, n)
  {
    if chunks[|chunks| - 1].header == n {
      i := |chunks| - 1;
    } else {
      i := GroupedLineIsHeader(chunks[..|chunks| - 1], groups[..|groups| - 1], n);
    }
  }

  lemma BalancedKeepsHeaders(lines: seq<string>, token: string, balancer: Balancer, n: nat)
    requires IsToken(token) && IsFitting(lines, token, balancer) && n < |lines|
    ensures KeepsHeader(ParseLine(lines[n], token), ParseLine(Balanced(lines, token, balancer)[n], token))
  {
    var chunks := ParseChunks(lines, token);
    var groups := balancer(Outlines(chunks));
    var group := GroupOfLine(chunks, groups, n);
    if group.Some? {
      var i := GroupedLineIsHeader(chunks, groups, n);
      RewrittenLineKeepsHeader(lines[n], token, group.value);
    }
  }

  lemma {:induction false} SameHeadersSameGroups(chunks: seq<Chunk>, again: seq<Chunk>, groups: seq<Option<nat>>, n: nat)
    requires |groups| == |chunks| == |again| && forall i :: 0 <= i < |chunks| ==> again[i].header == chunks[i].header
    ensures GroupOfLine(again, groups, n) == GroupOfLine(chunks, groups, n)
  {
    if chunks != [] {
      SameHeadersSameGroups(chunks[..|chunks| - 1], again[..|again| - 1], groups[..|groups| - 1], n);
    }
  }

  lemma BalancedKeepsOutlines(lines: seq<string>, token: string, balancer: Balancer)
    requires IsToken(token) && IsFitting(lines, token, balancer)
    ensures var chunks, again := ParseChunks(lines, token), ParseChunks(Balanced(lines, token, balancer), token);
            && Outlines(again) == Outlines(chunks)
            && |again| == |chunks| && forall i :: 0 <= i < |chunks| ==> again[i].header == chunks[i].header
  {
    var after := Balanced(lines, token, balancer);
    forall n | 0 <= n < |lines| ensures KeepsHeader(ParseLine(lines[n], token), ParseLine(after[n], token)) {
      BalancedKeepsHeaders(lines, token, balancer, n);
    }
    SameOutlines(lines, after, token);
  }

  lemma BalancedLineAgain(lines: seq<string>, token: string, balancer: Balancer, n: nat)
    requires IsToken(token) && IsFitting(lines, token, balancer) && n < |lines|
    ensures var chunks := ParseChunks(lines, token);
            var group := GroupOfLine(chunks, balancer(Outlines(chunks)), n);
            RewrittenLine(Balanced(lines, token, balancer)[n], group) == Balanced(lines, token, balancer)[n]
  {
    var chunks := ParseChunks(lines, token);
    var groups := balancer(Outlines(chunks));
    var group := GroupOfLine(chunks, groups, n);
    if group.Some? {
      RewritingLineAgainChangesNothing(lines[n], group.value);
    }
  }

  lemma UnchangedIfLinesAre(lines: seq<string>, chunks: seq<Chunk>, groups: seq<Option<nat>>)
    requires |groups| == |chunks|
    requires forall n :: 0 <= n < |lines| ==> RewrittenLine(lines[n], GroupOfLine(chunks, groups, n)) == lines[n]
    ensures Rewritten(lines, chunks, groups) == lines
  {
  }

  /** Balancing a balanced script with the same balancer changes nothing. */
  lemma BalancingIsStable(lines: seq<string>, token: string, balancer: Balancer)
    requires IsToken(token) && IsFitting(lines, token, balancer)
    ensures var after := Balanced(lines, token, balancer);
            var again := ParseChunks(after, token);
            |balancer(Outlines(again))| == |again| && Rewritten(after, again, balancer(Outlines(again))) == after
  {
    var chunks := ParseChunks(lines, token);
    var after := Balanced(lines, token, balancer);
    var again := ParseChunks(after, token);
    var groups := balancer(Outlines(chunks));
    BalancedKeepsOutlines(lines, token, balancer);
    forall n | 0 <= n < |after| ensures RewrittenLine(after[n], GroupOfLine(again, groups, n)) == after[n] {
      SameHeadersSameGroups(chunks, again, groups, n);
      BalancedLineAgain(lines, token, balancer, n);
    }
    UnchangedIfLinesAre(after, again, groups);
  }

  ghost predicate IsParsed(chunk: Chunk, lines: seq<string>, token: string) {
    chunk.header < |lines| && ParseLine(lines[chunk.header], token) == HeaderLine(Header(chunk.id, chunk.group))
  }

  lemma {:induction false} ChunksAreParsed(lines: seq<string>, token: string, i: nat)
    requires i < |ParseChunks(lines, token)|
    ensures IsParsed(ParseChunks(lines, token)[i], lines, token)
  {
    var front, last := lines[..|lines| - 1], |lines| - 1;
    AddLineKeeps(ParseChunks(front, token), last, ParseLine(lines[last], token));
    if i < |ParseChunks(front, token)| {
      ChunksAreParsed(front, token, i);
      assert front[ParseChunks(front, token)[i].header] == lines[ParseChunks(front, token)[i].header];
    }
  }

  /** The balanced script has the groups of the balancer, and the ids, the code and the other chunks as before. */
  lemma BalancedHasGroups(lines: seq<string>, token: string, balancer: Balancer, i: nat)
    requires IsToken(token) && IsFitting(lines, token, balancer) && i < |ParseChunks(lines, token)|
    ensures var chunks, again := ParseChunks(lines, token), ParseChunks(Balanced(lines, token, balancer), token);
            var group := balancer(Outlines(chunks))[i];
            && |again| == |chunks| && OutlineOf(again[i]) == OutlineOf(chunks[i])
            && again[i].group == if group.Some? then group else chunks[i].group
  {
    var chunks, after := ParseChunks(lines, token), Balanced(lines, token, balancer);
    var groups := balancer(Outlines(chunks));
    var n := chunks[i].header;
    BalancedKeepsOutlines(lines, token, balancer);
    HeadersIncrease(lines, token);
    GroupOfLineIs(chunks, groups, |lines|, n, i);
    ChunksAreParsed(lines, token, i);
    ChunksAreParsed(after, token, i);
    if groups[i].Some? {
      RewrittenLineKeepsHeader(lines[n], token, groups[i].value);
    }
    assert Outlines(ParseChunks(after, token))[i] == Outlines(chunks)[i];
  }
}
