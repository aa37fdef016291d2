/**
 * Strings as the Python scripts handle them: stripping, splitting, lines and decimal numbers.
 */
module Text {

  // ---------------------------------------------------------------------------
  // White space
  // ---------------------------------------------------------------------------

  /** The characters that strip() removes, which are also those that \s matches. */
  predicate IsSpace(c: char) {
    || '\t' <= c <= '\r' || '\U{1C}' <= c <= ' ' || c == '\U{85}' || c == '\U{A0}' || c == '\U{1680}'
    || '\U{2000}' <= c <= '\U{200A}' || c == '\U{2028}' || c == '\U{2029}' || c == '\U{202F}' || c == '\U{205F}'
    || c == '\U{3000}'
  }

  /** The code points of the white space characters of the Unicode standard, and of the four separators below the space. */
  lemma SpacesAre(c: char)
    ensures IsSpace(c) <==>
            || 9 <= c as int <= 13 || 28 <= c as int <= 32 || c as int == 133 || c as int == 160 || c as int == 5760
            || 8192 <= c as int <= 8202 || c as int == 8232 || c as int == 8233 || c as int == 8239 || c as int == 8287
            || c as int == 12288
  {
  }

  predicate AllSpace(s: string) {
    forall i :: 0 <= i < |s| ==> IsSpace(s[i])
  }

  /** No space at either end. */
  predicate IsTrimmed(s: string) {
    s == "" || (!IsSpace(s[0]) && !IsSpace(s[|s| - 1]))
  }

  function TrimLeft(s: string): string {
    if s != "" && IsSpace(s[0]) then TrimLeft(s[1..]) else s
  }

  function TrimRight(s: string): string {
    if s != "" && IsSpace(s[|s| - 1]) then TrimRight(s[..|s| - 1]) else s
  }

  function Strip(s: string): string {
    TrimRight(TrimLeft(s))
  }

  lemma {:induction false} TrimLeftDropsSpaces(a: string, s: string)
    requires AllSpace(a) && (s == "" || !IsSpace(s[0]))
    ensures TrimLeft(a + s) == s
  {
    if a == "" {
      assert a + s == s;
    } else {
      assert (a + s)[1..] == a[1..] + s;
      TrimLeftDropsSpaces(a[1..], s);
    }
  }

  lemma {:induction false} TrimRightDropsSpaces(s: string, b: string)
    requires AllSpace(b) && (s == "" || !IsSpace(s[|s| - 1]))
    ensures TrimRight(s + b) == s
  {
    if b == "" {
      assert s + b == s;
    } else {
      assert (s + b)[..|s + b| - 1] == s + b[..|b| - 1];
      TrimRightDropsSpaces(s, b[..|b| - 1]);
    }
  }

  /** Stripping takes away exactly the spaces around a trimmed text. */
  lemma StripDropsSpaces(a: string, s: string, b: string)
    requires AllSpace(a) && AllSpace(b) && IsTrimmed(s)
    ensures Strip(a + s + b) == s
  {
    if s == "" {
      assert a + s + b == (a + b) + "";
      TrimLeftDropsSpaces(a + b, "");
    } else {
      assert a + s + b == a + (s + b);
      TrimLeftDropsSpaces(a, s + b);
      TrimRightDropsSpaces(s, b);
    }
  }

  lemma {:induction false} TrimLeftSplits(s: string) returns (a: string)
    ensures s == a + TrimLeft(s) && AllSpace(a)
    ensures TrimLeft(s) == "" || !IsSpace(TrimLeft(s)[0])
  {
    a := "";
    if s != "" && IsSpace(s[0]) {
      var rest := TrimLeftSplits(s[1..]);
      a := [s[0]] + rest;
    }
  }

  lemma {:induction false} TrimRightSplits(s: string) returns (b: string)
    ensures s == TrimRight(s) + b && AllSpace(b)
    ensures TrimRight(s) == "" || !IsSpace(TrimRight(s)[|TrimRight(s)| - 1])
  {
    b := "";
    if s != "" && IsSpace(s[|s| - 1]) {
      var rest := TrimRightSplits(s[..|s| - 1]);
      b := rest + [s[|s| - 1]];
    }
  }

  /** Every text is its stripped form between spaces. */
  lemma StripSplits(s: string) returns (a: string, b: string)
    ensures s == a + Strip(s) + b && AllSpace(a) && AllSpace(b) && IsTrimmed(Strip(s))
  {
    a := TrimLeftSplits(s);
    b := TrimRightSplits(TrimLeft(s));
    assert Strip(s) != "" ==> Strip(s)[0] == TrimLeft(s)[0];
  }

  /** Spaces around a text make no difference to strip(). */
  lemma StripIgnoresSpaces(a: string, s: string, b: string)
    requires AllSpace(a) && AllSpace(b)
    ensures Strip(a + s + b) == Strip(s)
  {
    var c, d := StripSplits(s);
    assert a + s + b == (a + c) + Strip(s) + (d + b);
    StripDropsSpaces(a + c, Strip(s), d + b);
  }

  // ---------------------------------------------------------------------------
  // Splitting
  // ---------------------------------------------------------------------------

  /** The pieces between the separators: one more than there are separators. */
  function Split(s: string, sep: char): (pieces: seq<string>)
    ensures |pieces| > 0
  {
    if s == "" then [""]
    else
      var pieces := Split(s[1..], sep);
      if s[0] == sep then [""] + pieces else [[s[0]] + pieces[0]] + pieces[1..]
  }

  ghost predicate IsFree(s: string, sep: char) {
    forall i :: 0 <= i < |s| ==> s[i] != sep
  }

  /** Puts a character in front of the first piece. */
  ghost function Prefixed(c: char, pieces: seq<string>): seq<string>
    requires |pieces| > 0
  {
    [[c] + pieces[0]] + pieces[1..]
  }

  /** Appends text to the last piece. */
  ghost function Suffixed(pieces: seq<string>, text: string): (longer: seq<string>)
    requires |pieces| > 0
    ensures |longer| == |pieces|
  {
    pieces[..|pieces| - 1] + [pieces[|pieces| - 1] + text]
  }

  lemma PrefixSuffix(c: char, pieces: seq<string>, text: string)
    requires |pieces| > 0
    ensures Suffixed(Prefixed(c, pieces), text) == Prefixed(c, Suffixed(pieces, text))
  {
    if |pieces| == 1 {
      assert [c] + pieces[0] + text == [c] + (pieces[0] + text);
    }
  }

  lemma SplitOfCons(c: char, s: string, sep: char)
    ensures Split([c] + s, sep) == if c == sep then [""] + Split(s, sep) else Prefixed(c, Split(s, sep))
  {
    assert ([c] + s)[1..] == s;
  }

  lemma {:induction false} SplitOfFree(s: string, sep: char)
    requires IsFree(s, sep)
    ensures Split(s, sep) == [s]
  {
    if s != "" {
      SplitOfFree(s[1..], sep);
      assert [s[0]] + s[1..] == s;
    }
  }

  lemma {:induction false} SplitAtSeparator(a: string, b: string, sep: char)
    ensures Split(a + [sep] + b, sep) == Split(a, sep) + Split(b, sep)
  {
    if a == "" {
      assert a + [sep] + b == [sep] + b;
      SplitOfCons(sep, b, sep);
    } else {
      assert a + [sep] + b == [a[0]] + (a[1..] + [sep] + b);
      SplitOfCons(a[0], a[1..] + [sep] + b, sep);
      SplitAtSeparator(a[1..], b, sep);
    }
  }

  /** Text after the last separator extends the last piece. */
  lemma {:induction false} SplitExtendsLast(a: string, b: string, sep: char)
    requires IsFree(b, sep)
    ensures Split(a + b, sep) == Suffixed(Split(a, sep), b)
  {
    if a == "" {
      assert a + b == b && "" + b == b;
      SplitOfFree(b, sep);
    } else {
      assert a + b == [a[0]] + (a[1..] + b);
      SplitOfCons(a[0], a[1..] + b, sep);
      SplitExtendsLast(a[1..], b, sep);
      PrefixSuffix(a[0], Split(a[1..], sep), b);
    }
  }

  /** A piece holds characters of the text, and no separator. */
  lemma {:induction false} PiecesAreFree(s: string, sep: char, other: char)
    ensures forall k :: 0 <= k < |Split(s, sep)| ==>
              IsFree(Split(s, sep)[k], sep) && (IsFree(s, other) ==> IsFree(Split(s, sep)[k], other))
  {
    if s != "" {
      PiecesAreFree(s[1..], sep, other);
      var pieces := Split(s[1..], sep);
      assert IsFree(s, other) ==> IsFree(s[1..], other);
      assert s[0] != sep ==> IsFree([s[0]] + pieces[0], sep);
      assert IsFree(s, other) ==> IsFree([s[0]] + pieces[0], other);
    }
  }

  lemma StripKeepsFree(s: string, c: char)
    requires IsFree(s, c)
    ensures IsFree(Strip(s), c)
  {
    var a, b := StripSplits(s);
    forall i | 0 <= i < |Strip(s)| ensures Strip(s)[i] != c {
      assert s[|a| + i] == Strip(s)[i];
    }
  }

  /** Without line ends. */
  ghost predicate IsLineText(s: string) {
    IsFree(s, '\n') && IsFree(s, '\r')
  }

  /** Text mode: every line ending becomes a newline. */
  function TranslateNewlines(s: string): string {
    if s == "" then ""
    else if s[0] == '\r' then
      if |s| > 1 && s[1] == '\n' then "\n" + TranslateNewlines(s[2..]) else "\n" + TranslateNewlines(s[1..])
    else [s[0]] + TranslateNewlines(s[1..])
  }

  lemma {:induction false} TranslatedHasNoReturn(s: string)
    ensures IsFree(TranslateNewlines(s), '\r')
    decreases |s|
  {
    if s != "" {
      TranslatedHasNoReturn(s[1..]);
      if |s| > 1 {
        TranslatedHasNoReturn(s[2..]);
      }
    }
  }

  lemma {:induction false} TranslateKeeps(s: string)
    requires IsFree(s, '\r')
    ensures TranslateNewlines(s) == s
  {
    if s != "" {
      TranslateKeeps(s[1..]);
    }
  }

  /** The lines of a file; a final newline leaves one more, empty line. */
  function Lines(s: string): (lines: seq<string>)
    ensures |lines| > 0
  {
    Split(TranslateNewlines(s), '\n')
  }

  lemma LinesHaveNoLineEnds(s: string)
    ensures forall k :: 0 <= k < |Lines(s)| ==> IsLineText(Lines(s)[k])
  {
    TranslatedHasNoReturn(s);
    PiecesAreFree(TranslateNewlines(s), '\n', '\r');
  }

  /** A newline, a carriage return, or both; a carriage return before a newline is not an end of its own. */
  ghost predicate IsLineEnd(end: string, rest: string) {
    end == "\n" || end == "\r\n" || (end == "\r" && (rest == "" || rest[0] != '\n'))
  }

  lemma TranslateEnd(end: string, rest: string)
    requires IsLineEnd(end, rest)
    ensures TranslateNewlines(end + rest) == "\n" + TranslateNewlines(rest)
  {
    var s := end + rest;
    assert s[0] == end[0] && s[|end|..] == rest;
    if |end| == 2 {
      assert s[1] == end[1];
    } else if rest != "" {
      assert s[1] == rest[0];
    }
  }

  lemma {:induction false} TranslateAfter(line: string, rest: string)
    requires IsFree(line, '\r')
    ensures TranslateNewlines(line + rest) == line + TranslateNewlines(rest)
  {
    if line == "" {
      assert line + rest == rest;
    } else {
      assert (line + rest)[1..] == line[1..] + rest;
      TranslateAfter(line[1..], rest);
    }
  }

  /** The lines of a file are the texts between its line ends, whichever they are. */
  lemma LinesAre(line: string, end: string, rest: string)
    requires IsLineText(line)
    ensures Lines(line) == [line]
    ensures IsLineEnd(end, rest) ==> Lines(line + (end + rest)) == [line] + Lines(rest)
  {
    TranslateKeeps(line);
    SplitOfFree(line, '\n');
    if IsLineEnd(end, rest) {
      TranslateAfter(line, end + rest);
      TranslateEnd(end, rest);
      var after := TranslateNewlines(rest);
      assert line + ("\n" + after) == line + ['\n'] + after;
      SplitAtSeparator(line, after, '\n');
    }
  }

  // ---------------------------------------------------------------------------
  // Decimal numbers
  // ---------------------------------------------------------------------------

  predicate IsDigit(c: char) {
    '0' <= c <= '9'
  }

  predicate AllDigits(s: string) {
    forall i :: 0 <= i < |s| ==> IsDigit(s[i])
  }

  function Decimal(n: nat): (s: string)
    ensures |s| > 0 && AllDigits(s)
  {
    var last := [('0' as int + n % 10) as char];
    if n < 10 then last else Decimal(n / 10) + last
  }

  function Value(s: string): nat
    requires AllDigits(s)
  {
    if s == "" then 0 else 10 * Value(s[..|s| - 1]) + (s[|s| - 1] as int - '0' as int)
  }

  lemma DigitIs(c: char)
    ensures IsDigit(c) <==> c in "0123456789"
    ensures IsDigit(c) ==> Value([c]) < 10 && "0123456789"[Value([c])] == c
  {
    assert [c][..0] == "";
  }

  /** Reading a number back gives the number. */
  lemma {:induction false} DecimalRoundTrip(n: nat)
    ensures Value(Decimal(n)) == n
  {
    var s := Decimal(n);
    if n < 10 {
      assert s[..|s| - 1] == "";
    } else {
      assert s[..|s| - 1] == Decimal(n / 10);
      DecimalRoundTrip(n / 10);
    }
  }

  /** The number of leading digits. */
  function DigitRun(s: string): (n: nat)
    ensures n <= |s| && AllDigits(s[..n]) && (n < |s| ==> !IsDigit(s[n]))
  {
    if s == "" || !IsDigit(s[0]) then 0
    else
      var n := 1 + DigitRun(s[1..]);
      assert s[..n] == [s[0]] + s[1..][..n - 1];
      n
  }

  /** The number of leading spaces. */
  function SpaceRun(s: string): (n: nat)
    ensures n <= |s| && AllSpace(s[..n]) && (n < |s| ==> !IsSpace(s[n]))
  {
    if s == "" || !IsSpace(s[0]) then 0
    else
      var n := 1 + SpaceRun(s[1..]);
      assert s[..n] == [s[0]] + s[1..][..n - 1];
      n
  }

  lemma {:induction false} DigitRunOf(d: string, rest: string)
    requires AllDigits(d) && (rest == "" || !IsDigit(rest[0]))
    ensures DigitRun(d + rest) == |d|
  {
    if d == "" {
      assert d + rest == rest;
    } else {
      assert (d + rest)[1..] == d[1..] + rest;
      DigitRunOf(d[1..], rest);
    }
  }

  lemma {:induction false} SpaceRunOf(a: string, rest: string)
    requires AllSpace(a) && (rest == "" || !IsSpace(rest[0]))
    ensures SpaceRun(a + rest) == |a|
  {
    if a == "" {
      assert a + rest == rest;
    } else {
      assert (a + rest)[1..] == a[1..] + rest;
      SpaceRunOf(a[1..], rest);
    }
  }

  // ---------------------------------------------------------------------------
  // Searching
  // ---------------------------------------------------------------------------

  /** The first position from which the rest of the text satisfies p, or the length. */
  function First(text: string, p: string -> bool): (at: nat)
    ensures at <= |text|
  {
    if text == "" || p(text) then 0 else 1 + First(text[1..], p)
  }

  lemma {:induction false} FirstFinds(text: string, p: string -> bool, k: nat)
    ensures First(text, p) < |text| ==> p(text[First(text, p)..])
    ensures k < First(text, p) ==> !p(text[k..])
  {
    if text != "" {
      var at := First(text[1..], p);
      FirstFinds(text[1..], p, if k > 0 then k - 1 else 0);
      assert text[0..] == text && text[1..][at..] == text[at + 1..];
      assert 0 < k < |text| ==> text[1..][k - 1..] == text[k..];
    }
  }

  lemma {:induction false} FirstAfter(prefix: string, text: string, p: string -> bool)
    requires forall k :: 0 <= k < |prefix| ==> !p((prefix + text)[k..])
    ensures First(prefix + text, p) == |prefix| + First(text, p)
  {
    if prefix == "" {
      assert prefix + text == text;
    } else {
      var whole := prefix + text;
      assert whole[1..] == prefix[1..] + text && whole[0..] == whole;
      forall k | 0 <= k < |prefix| - 1 ensures !p((prefix[1..] + text)[k..]) {
        assert whole[1..][k..] == whole[k + 1..];
      }
      FirstAfter(prefix[1..], text, p);
    }
  }
}
