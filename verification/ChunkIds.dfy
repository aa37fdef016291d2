/**
 * The id of a chunk: what is left of its header without the context, the stream, the sign and the USE part.
 */
module ChunkIds {
  import opened Text

  // ---------------------------------------------------------------------------
  // Parts that are cut off
  // ---------------------------------------------------------------------------

  function StartsWith(part: string): string -> bool {
    (s: string) => part <= s
  }

  /** Where a part first occurs, or the length. */
  function Occurrence(text: string, part: string): (at: nat)
    ensures at <= |text|
  {
    First(text, StartsWith(part))
  }

  /** The opening occurs, and the closing character somewhere after it. */
  predicate HasPart(text: string, open: string, close: char) {
    close in text[Occurrence(text, open)..]
  }

  /** The text up to such a part. */
  function CutOff(text: string, open: string, close: char): (cut: string)
    ensures cut <= text
  {
    if HasPart(text, open, close) then text[..Occurrence(text, open)] else text
  }

  /** The text holds nothing of the part. */
  ghost predicate Avoids(text: string, open: string, close: char) {
    forall i :: 0 <= i < |text| ==> text[i] !in open && text[i] != close
  }

  /** Text before the part that does not hold its first character stays in front. */
  lemma CutAfter(a: string, s: string, open: string, close: char)
    requires open != "" && IsFree(a, open[0])
    ensures HasPart(a + s, open, close) == HasPart(s, open, close)
    ensures CutOff(a + s, open, close) == a + CutOff(s, open, close)
  {
    var whole, at := a + s, Occurrence(s, open);
    forall k | 0 <= k < |a| ensures !StartsWith(open)(whole[k..]) {
      assert whole[k..][0] == a[k];
    }
    FirstAfter(a, s, StartsWith(open));
    assert whole[|a| + at..] == s[at..] && whole[..|a| + at] == a + s[..at];
  }

  lemma PrefixOfLonger(part: string, s: string, t: string)
    requires forall i :: 0 <= i < |t| ==> t[i] !in part
    ensures part <= s + t <==> part <= s
  {
    if t != "" {
      assert (s + t)[|s|] == t[0];
    }
  }

  lemma {:induction false} OccurrenceBefore(s: string, t: string, part: string)
    requires part != "" && forall i :: 0 <= i < |t| ==> t[i] !in part
    ensures Occurrence(s + t, part) == if Occurrence(s, part) < |s| then Occurrence(s, part) else |s + t|
    decreases |s| + |t|
  {
    if s != "" {
      PrefixOfLonger(part, s, t);
      assert (s + t)[1..] == s[1..] + t;
      OccurrenceBefore(s[1..], t, part);
    } else if t != "" {
      assert s + t == t && t[0] != part[0];
      assert "" + t[1..] == t[1..];
      OccurrenceBefore("", t[1..], part);
    }
  }

  /** Text after the part that holds nothing of it is cut off with it. */
  lemma CutBefore(s: string, t: string, open: string, close: char)
    requires open != "" && Avoids(t, open, close)
    ensures HasPart(s + t, open, close) == HasPart(s, open, close)
    ensures CutOff(s + t, open, close) == if HasPart(s, open, close) then CutOff(s, open, close) else s + t
  {
    OccurrenceBefore(s, t, open);
    var at := Occurrence(s, open);
    if at < |s| {
      assert (s + t)[at..] == s[at..] + t && (s + t)[..at] == s[..at];
    }
  }

  // ---------------------------------------------------------------------------
  // The id
  // ---------------------------------------------------------------------------

  predicate HasContext(text: string) {
    HasPart(text, "{", '}')
  }

  /** Drops a context: the last "}" comes after the first "{". */
  function WithoutContext(text: string): string {
    CutOff(text, "{", '}')
  }

  /** The length of the stream mark at the front. */
  function StreamMark(text: string): (n: nat)
    ensures n <= |text|
  {
    if "<OUT>" <= text then 5
    else if "<ERR>" <= text then 5
    else if "<PROTOCOL>" <= text then 10
    else if "<>" <= text then 2
    else 0
  }

  function WithoutStream(text: string): string {
    if StreamMark(text) > 0 then Strip(text[StreamMark(text)..]) else text
  }

  predicate IsSigned(text: string) {
    |text| > 1 && (text[0] == '+' || text[0] == '-')
  }

  function WithoutSign(text: string): string {
    if IsSigned(text) then text[1..] else text
  }

  predicate HasUse(text: string) {
    HasPart(text, "[USE:", ']')
  }

  function WithoutUse(text: string): string {
    CutOff(text, "[USE:", ']')
  }

  /** What is left of a text without a context. */
  function Bare(text: string): string {
    Strip(WithoutUse(WithoutSign(WithoutStream(text))))
  }

  /** The id in a header whose numbered suffix was removed. */
  function ChunkId(text: string): string {
    Bare(WithoutContext(text))
  }

  // ---------------------------------------------------------------------------
  // Stripping
  // ---------------------------------------------------------------------------

  lemma StripOfParts(a: string, q: string, b: string, c: string, v: string, d: string)
    requires AllSpace(a) && AllSpace(b) && AllSpace(c) && AllSpace(d) && IsTrimmed(q) && IsTrimmed(v)
    ensures |Strip((a + q + b) + (c + v + d))| >= |q| + |v|
  {
    var whole := (a + q + b) + (c + v + d);
    if q == "" {
      assert whole == (a + b + c) + v + d;
      StripDropsSpaces(a + b + c, v, d);
    } else if v == "" {
      assert whole == a + q + (b + c + d);
      StripDropsSpaces(a, q, b + c + d);
    } else {
      assert whole == a + (q + b + c + v) + d;
      StripDropsSpaces(a, q + b + c + v, d);
    }
  }

  /** Concatenation keeps what stripping the two texts leaves. */
  lemma StripConcat(x: string, y: string)
    ensures |Strip(x + y)| >= |Strip(x)| + |Strip(y)|
  {
    var a, b := StripSplits(x);
    var c, d := StripSplits(y);
    StripOfParts(a, Strip(x), b, c, Strip(y), d);
  }

  lemma StripFront(a: string, y: string)
    requires AllSpace(a)
    ensures Strip(a + y) == Strip(y)
  {
    StripIgnoresSpaces(a, y, "");
    assert a + y + "" == a + y;
  }

  lemma StripBack(y: string, b: string)
    requires AllSpace(b)
    ensures Strip(y + b) == Strip(y)
  {
    StripIgnoresSpaces("", y, b);
    assert "" + y + b == y + b;
  }

  lemma StripOfTrimmed(q: string)
    requires IsTrimmed(q)
    ensures Strip(q) == q
  {
    StripDropsSpaces("", q, "");
    assert "" + q + "" == q;
  }

  lemma SpacesAvoidUse(a: string)
    requires AllSpace(a)
    ensures Avoids(a, "[USE:", ']') && IsFree(a, '[')
  {
  }

  lemma SpacesAvoidContext(a: string)
    requires AllSpace(a)
    ensures Avoids(a, "{", '}') && IsFree(a, '{')
  {
  }

  lemma UseIgnoresSpacesAfter(q: string, b: string)
    requires AllSpace(b)
    ensures Strip(WithoutUse(q + b)) == Strip(WithoutUse(q))
  {
    SpacesAvoidUse(b);
    CutBefore(q, b, "[USE:", ']');
    if !HasUse(q) {
      StripBack(q, b);
    }
  }

  lemma UseIgnoresSpacesBefore(a: string, q: string)
    requires AllSpace(a)
    ensures Strip(WithoutUse(a + q)) == Strip(WithoutUse(q))
  {
    SpacesAvoidUse(a);
    CutAfter(a, q, "[USE:", ']');
    StripFront(a, WithoutUse(q));
  }

  /** Dropping the USE part and stripping do not care for spaces around the text. */
  lemma UseOfStripped(y: string)
    ensures Strip(WithoutUse(Strip(y))) == Strip(WithoutUse(y))
  {
    var a, b := StripSplits(y);
    UseIgnoresSpacesAfter(a + Strip(y), b);
    UseIgnoresSpacesBefore(a, Strip(y));
  }

  // ---------------------------------------------------------------------------
  // The parts of a header
  // ---------------------------------------------------------------------------

  /** The part begins at the first opening, if the closing character follows; without a part, it never does. */
  ghost predicate IsCutPoint(front: string, part: string, open: string, close: char) {
    if part == "" then forall i, j :: 0 <= i <= j < |front| && open <= front[i..] ==> front[j] != close
    else open <= part && close in part && forall i :: 0 <= i < |front| ==> !(open <= (front + part)[i..])
  }

  lemma CutOffIs(front: string, part: string, open: string, close: char)
    requires open != "" && IsCutPoint(front, part, open, close)
    ensures CutOff(front + part, open, close) == front
  {
    var text := front + part;
    var at := Occurrence(text, open);
    if part == "" {
      assert text == front;
      FirstFinds(text, StartsWith(open), 0);
      assert text[|text|..] == "";
    } else {
      FirstAfter(front, part, StartsWith(open));
      assert at == |front| && text[at..] == part && text[..at] == front;
    }
  }

  ghost predicate IsStream(mark: string) {
    mark == "<OUT>" || mark == "<ERR>" || mark == "<PROTOCOL>" || mark == "<>"
  }

  lemma StreamIsDropped(mark: string, rest: string)
    requires IsStream(mark)
    ensures WithoutStream(mark + rest) == Strip(rest)
  {
    var text := mark + rest;
    assert text[0] == mark[0] && text[1] == mark[1] && (|mark| > 2 ==> text[2] == mark[2]);
    assert mark <= text && text[|mark|..] == rest;
  }

  lemma NoStreamIsDropped(text: string)
    requires forall mark :: IsStream(mark) ==> !(mark <= text)
    ensures WithoutStream(text) == text
  {
    assert IsStream("<OUT>") && IsStream("<ERR>") && IsStream("<PROTOCOL>") && IsStream("<>");
  }

  ghost predicate BeginsWithSign(text: string) {
    |text| > 1 && (text[0] == '+' || text[0] == '-')
  }

  /** A stream mark, spaces, a sign, a text and a USE part.  Spaces without a mark before them hide a sign, and a sign with
      nothing after it is none. */
  ghost predicate AreParts(stream: string, spaces: string, sign: string, text: string, use: string) {
    && (stream == "" || IsStream(stream)) && AllSpace(spaces) && (sign == "" || sign == "+" || sign == "-")
    && (stream != "" && sign == "" ==> text == "" || !IsSpace(text[0])) && IsCutPoint(text, use, "[USE:", ']')
    && if stream != "" then if sign == "" then !BeginsWithSign(Strip(text + use)) else Strip(text + use) != ""
       else if spaces != "" then sign == ""
       else && (forall mark :: IsStream(mark) ==> !(mark <= sign + (text + use)))
            && if sign == "" then !BeginsWithSign(text + use) else text + use != ""
  }

  lemma TextIsLeft(text: string, use: string, end: string)
    requires IsCutPoint(text, use, "[USE:", ']') && AllSpace(end)
    ensures Strip(WithoutUse(text + use)) == Strip(text)
    ensures forall y :: text + use == y + end ==> Strip(WithoutUse(y)) == Strip(text)
  {
    CutOffIs(text, use, "[USE:", ']');
    forall y | text + use == y + end ensures Strip(WithoutUse(y)) == Strip(text) {
      UseIgnoresSpacesAfter(y, end);
    }
  }

  lemma SpacesBeforeText(spaces: string, text: string, use: string)
    requires AreParts("", spaces, "", text, use) && spaces != ""
    ensures Bare(spaces + (text + use)) == Strip(text)
  {
    TextIsLeft(text, use, "");
    BareAfterSpace(spaces, text + use);
  }

  lemma SignBeforeText(sign: string, text: string, use: string)
    requires AreParts("", "", sign, text, use)
    ensures Bare(sign + (text + use)) == Strip(text)
  {
    hide WithoutUse, WithoutStream, IsCutPoint, TrimLeft, TrimRight;
    var all := sign + (text + use);
    NoStreamIsDropped(all);
    TextIsLeft(text, use, "");
    if sign == "" {
      assert all == text + use;
    } else {
      assert all[1..] == text + use;
    }
  }

  lemma StreamBeforeText(stream: string, spaces: string, sign: string, text: string, use: string)
    requires AreParts(stream, spaces, sign, text, use) && stream != ""
    ensures Bare(stream + (spaces + (sign + (text + use)))) == Strip(text)
  {
    hide Strip, WithoutUse, WithoutSign, WithoutStream, IsCutPoint;
    var all := sign + (text + use);
    StreamIsDropped(stream, spaces + all);
    StripFront(spaces, all);
    if sign == "" {
      assert all == text + use;
      StrippedText(text, use);
    } else {
      StrippedSign(sign, text, use);
    }
  }

  lemma StrippedText(text: string, use: string)
    requires (text == "" || !IsSpace(text[0])) && IsCutPoint(text, use, "[USE:", ']')
    requires !BeginsWithSign(Strip(text + use))
    ensures Strip(WithoutUse(WithoutSign(Strip(text + use)))) == Strip(text)
  {
    hide Strip, TrimLeft, TrimRight, WithoutUse;
    var y := text + use;
    var a, b := StripSplits(y);
    FirstOfText(text, use);
    assert a == "" && y == Strip(y) + b;
    TextIsLeft(text, use, b);
  }

  lemma FirstOfText(text: string, use: string)
    requires (text == "" || !IsSpace(text[0])) && IsCutPoint(text, use, "[USE:", ']')
    ensures text + use != "" ==> !IsSpace((text + use)[0])
  {
    if text == "" && use != "" {
      assert use[0] == '[';
    }
  }

  lemma StrippedSign(sign: string, text: string, use: string)
    requires sign == "+" || sign == "-"
    requires IsCutPoint(text, use, "[USE:", ']') && Strip(text + use) != ""
    ensures Strip(WithoutUse(WithoutSign(Strip(sign + (text + use))))) == Strip(text)
  {
    hide TrimLeft, TrimRight, WithoutUse, IsCutPoint;
    var y := text + use;
    var b := TrimRightSplits(y);
    var z := TrimRight(y);
    assert z != "" by {
      if z == "" {
        assert y == b;
        OnlySpaces(y);
      }
    }
    SignStays(sign, z, b);
    assert sign + y == (sign + z) + b;
    TextIsLeft(text, use, b);
  }

  lemma OnlySpaces(b: string)
    requires AllSpace(b)
    ensures Strip(b) == ""
  {
    assert b + "" + "" == b;
    StripDropsSpaces(b, "", "");
  }

  lemma SignStays(sign: string, z: string, b: string)
    requires (sign == "+" || sign == "-") && z != "" && !IsSpace(z[|z| - 1]) && AllSpace(b)
    ensures Strip((sign + z) + b) == sign + z && WithoutSign(sign + z) == z
  {
    hide Strip;
    assert "" + (sign + z) + b == (sign + z) + b;
    StripDropsSpaces("", sign + z, b);
  }

  /** The id is the text between a sign, or a stream mark and a sign, and the USE part, without spaces around it. */
  lemma ChunkIdReads(stream: string, spaces: string, sign: string, text: string, use: string, context: string)
    requires AreParts(stream, spaces, sign, text, use)
    requires IsCutPoint(stream + (spaces + (sign + (text + use))), context, "{", '}')
    ensures ChunkId(stream + (spaces + (sign + (text + use))) + context) == Strip(text)
  {
    hide CutOff, Bare, Strip, IsCutPoint;
    CutOffIs(stream + (spaces + (sign + (text + use))), context, "{", '}');
    if stream != "" {
      StreamBeforeText(stream, spaces, sign, text, use);
    } else if spaces != "" {
      SpacesBeforeText(spaces, text, use);
      assert "" + (spaces + ("" + (text + use))) == spaces + (text + use);
    } else {
      SignBeforeText(sign, text, use);
      assert "" + ("" + (sign + (text + use))) == sign + (text + use);
    }
  }

  lemma NothingOpensBefore(text: string, open: string, i: nat)
    requires i < Occurrence(text, open)
    ensures !(open <= text[i..])
  {
    FirstFinds(text, StartsWith(open), i);
  }

  lemma NeverClosed(text: string, open: string, close: char, i: nat, j: nat)
    requires i <= j < |text| && open <= text[i..] && !HasPart(text, open, close)
    ensures text[j] != close
  {
    hide Occurrence;
    var at := Occurrence(text, open);
    if i < at {
      NothingOpensBefore(text, open, i);
    }
    assert text[at..][j - at] == text[j];
  }

  lemma PartIsCut(text: string, open: string, close: char)
    requires open != "" && HasPart(text, open, close)
    ensures IsCutPoint(text[..Occurrence(text, open)], text[Occurrence(text, open)..], open, close)
  {
    var at := Occurrence(text, open);
    FirstFinds(text, StartsWith(open), 0);
    hide Occurrence;
    assert text[..at] + text[at..] == text;
    forall i | 0 <= i < at ensures !(open <= (text[..at] + text[at..])[i..]) {
      NothingOpensBefore(text, open, i);
    }
  }

  lemma CutParts(text: string, open: string, close: char) returns (front: string, part: string)
    requires open != ""
    ensures text == front + part && IsCutPoint(front, part, open, close)
  {
    hide Occurrence, HasPart;
    if HasPart(text, open, close) {
      PartIsCut(text, open, close);
      front, part := text[..Occurrence(text, open)], text[Occurrence(text, open)..];
    } else {
      forall i, j | 0 <= i <= j < |text| && open <= text[i..] ensures text[j] != close {
        NeverClosed(text, open, close, i, j);
      }
      front, part := text, "";
    }
  }

  lemma StreamParts(text: string) returns (stream: string, rest: string)
    ensures text == stream + rest && (stream == "" || IsStream(stream))
    ensures stream == "" ==> forall mark :: IsStream(mark) ==> !(mark <= text)
  {
    if mark :| IsStream(mark) && mark <= text {
      stream, rest := mark, text[|mark|..];
    } else {
      stream, rest := "", text;
    }
  }

  lemma NotOnlySpaces(s: string, k: nat)
    requires k < |s| && !IsSpace(s[k])
    ensures Strip(s) != ""
  {
    hide Strip;
    var a, b := StripSplits(s);
  }

  lemma SignIsFollowed(y: string)
    requires y != "" && !IsSpace(y[0]) && BeginsWithSign(Strip(y))
    ensures (y[0] == '+' || y[0] == '-') && Strip(y[1..]) != ""
  {
    hide Strip;
    var a, b := StripSplits(y);
    assert a == "" && y == Strip(y) + b;
    NotOnlySpaces(y[1..], |Strip(y)| - 2);
  }

  /** The sign that is dropped, and the rest. */
  lemma SignParts(stream: string, spaces: string, y: string) returns (sign: string, z: string)
    requires y == "" || !IsSpace(y[0])
    ensures y == sign + z && (sign == "" || sign == "+" || sign == "-")
    ensures if stream != "" then if sign == "" then !BeginsWithSign(Strip(y)) else Strip(z) != ""
            else if spaces != "" then sign == ""
            else if sign == "" then !BeginsWithSign(y) else z != ""
  {
    hide Strip;
    var signed := if stream != "" then y != "" && BeginsWithSign(Strip(y)) else spaces == "" && BeginsWithSign(y);
    if stream != "" && signed {
      SignIsFollowed(y);
    }
    if y == "" {
      StripOfTrimmed("");
    }
    sign, z := if signed then y[..1] else "", if signed then y[1..] else y;
  }

  lemma PartsOfFront(front: string) returns (stream: string, spaces: string, sign: string, body: string, use: string)
    ensures AreParts(stream, spaces, sign, body, use) && front == stream + (spaces + (sign + (body + use)))
  {
    hide IsCutPoint, Strip, IsStream;
    var rest, z;
    stream, rest := StreamParts(front);
    spaces := rest[..SpaceRun(rest)];
    var y := rest[SpaceRun(rest)..];
    sign, z := SignParts(stream, spaces, y);
    body, use := CutParts(z, "[USE:", ']');
    assert rest == spaces + y;
    assert body != "" ==> body[0] == z[0];
    assert sign == "" ==> y == body + use;
    assert stream == "" && spaces == "" ==> front == sign + (body + use);
  }

  /** Every header text is made of such parts. */
  lemma PartsOf(text: string)
    returns (stream: string, spaces: string, sign: string, body: string, use: string, context: string)
    ensures AreParts(stream, spaces, sign, body, use)
    ensures IsCutPoint(stream + (spaces + (sign + (body + use))), context, "{", '}')
    ensures text == stream + (spaces + (sign + (body + use))) + context
  {
    hide IsCutPoint, AreParts;
    var front;
    front, context := CutParts(text, "{", '}');
    stream, spaces, sign, body, use := PartsOfFront(front);
  }

  // ---------------------------------------------------------------------------
  // Stream marks and signs
  // ---------------------------------------------------------------------------

  ghost predicate HasMark(text: string) {
    StreamMark(text) > 0 || IsSigned(text)
  }

  lemma StreamMarkHolds(z: string)
    ensures forall i :: 0 <= i < StreamMark(z) ==> !IsSpace(z[i]) && z[i] != '['
  {
  }

  /** A sign only makes the rest shorter... */
  lemma SignShortens(y: string)
    ensures |Strip(WithoutUse(WithoutSign(y)))| + (if IsSigned(y) then 1 else 0) <= |Strip(WithoutUse(y))|
  {
    if IsSigned(y) {
      var sign, rest := y[..1], y[1..];
      assert y == sign + rest;
      CutAfter(sign, rest, "[USE:", ']');
      StripConcat(sign, WithoutUse(rest));
      StripOfTrimmed(sign);
    }
  }

  /** ... and so does a stream mark. */
  lemma MarkShortens(z: string)
    requires HasMark(z)
    ensures |Bare(z)| < |Strip(WithoutUse(z))|
  {
    var n := StreamMark(z);
    if n > 0 {
      var mark, rest := z[..n], z[n..];
      StreamMarkHolds(z);
      assert z == mark + rest;
      CutAfter(mark, rest, "[USE:", ']');
      StripConcat(mark, WithoutUse(rest));
      StripOfTrimmed(mark);
      SignShortens(Strip(rest));
      UseOfStripped(rest);
    } else {
      SignShortens(z);
    }
  }

  lemma BareAfterSpace(a: string, z: string)
    requires AllSpace(a) && a != ""
    ensures Bare(a + z) == Strip(WithoutUse(z))
  {
    assert (a + z)[0] == a[0];
    assert WithoutSign(WithoutStream(a + z)) == a + z;
    UseIgnoresSpacesBefore(a, z);
  }

  /** A space in front hides a mark, and makes a difference exactly then. */
  lemma SpaceHidesMark(a: string, z: string)
    requires AllSpace(a) && (z == "" || !IsSpace(z[0]))
    ensures Bare(a + z) == Bare(z) <==> a == "" || !HasMark(z)
  {
    if a == "" {
      assert a + z == z;
    } else {
      BareAfterSpace(a, z);
      if HasMark(z) {
        MarkShortens(z);
      }
    }
  }

  // ---------------------------------------------------------------------------
  // Empty suffixes
  // ---------------------------------------------------------------------------

  /** Spaces and parentheses only. */
  ghost predicate IsTail(t: string) {
    forall i :: 0 <= i < |t| ==> IsSpace(t[i]) || t[i] == '(' || t[i] == ')'
  }

  /** A context or a USE part, with all that follows, is not part of the id. */
  predicate IsCutOff(text: string) {
    HasContext(text) || HasUse(text)
  }

  /** A space in front keeps a stream mark or a sign in the id. */
  predicate HidesMark(text: string) {
    var rest := WithoutContext(text);
    TrimLeft(rest) != rest && (StreamMark(TrimLeft(rest)) > 0 || IsSigned(TrimLeft(rest)))
  }

  lemma TailAvoids(t: string)
    requires IsTail(t)
    ensures Avoids(t, "{", '}') && Avoids(t, "[USE:", ']')
  {
  }

  lemma StreamMarkOfLonger(q: string, t: string)
    requires IsTail(t)
    ensures StreamMark(q + t) == StreamMark(q)
  {
    PrefixOfLonger("<OUT>", q, t);
    PrefixOfLonger("<ERR>", q, t);
    PrefixOfLonger("<PROTOCOL>", q, t);
    PrefixOfLonger("<>", q, t);
  }

  /** Stripping a trimmed text with a tail strips the tail's end. */
  lemma StripWithTail(c: string, r: string, t: string) returns (tail: string)
    requires AllSpace(c) && r != "" && IsTrimmed(r) && IsTail(t)
    ensures Strip(c + r + t) == r + tail && IsTail(tail) && |Strip(tail)| == |Strip(t)|
  {
    tail := TrimRight(t);
    var b := TrimRightSplits(t);
    assert forall i :: 0 <= i < |tail| ==> tail[i] == t[i];
    assert c + r + t == c + (r + tail) + b;
    assert IsTrimmed(r + tail);
    StripDropsSpaces(c, r + tail, b);
    StripBack(tail, b);
  }

  /** What follows a stream mark, stripped alone and with a tail. */
  lemma RestWithTail(rest: string, t: string) returns (tail: string)
    requires (rest == "" || !IsSpace(rest[|rest| - 1])) && IsTail(t)
    ensures IsTail(tail) && |Strip(tail)| == |Strip(t)|
    ensures Strip(rest + t) == if Strip(rest) == "" then Strip(t) else Strip(rest) + tail
    ensures HasUse(Strip(rest)) == HasUse(rest)
  {
    var c, b := StripSplits(rest);
    assert rest == "" || rest[|rest| - 1] == (c + Strip(rest) + b)[|rest| - 1];
    assert b == "";
    UsePartOfStripped(c, Strip(rest), b);
    tail := t;
    if Strip(rest) == "" {
      StripFront(rest, t);
    } else {
      tail := StripWithTail(c, Strip(rest), t);
      assert rest + t == c + Strip(rest) + t;
    }
  }

  /** The text without its stream mark, alone and with a tail. */
  lemma StreamWithTail(q: string, t: string) returns (tail: string)
    requires q != "" && IsTrimmed(q) && IsTail(t)
    ensures IsTail(tail) && |Strip(tail)| == |Strip(t)|
    ensures WithoutStream(q + t) == if WithoutStream(q) == "" then Strip(t) else WithoutStream(q) + tail
    ensures HasUse(WithoutStream(q)) == HasUse(q)
  {
    var n := StreamMark(q);
    StreamMarkOfLonger(q, t);
    tail := t;
    if n > 0 {
      var mark, rest := q[..n], q[n..];
      StreamMarkHolds(q);
      assert q == mark + rest && (q + t)[n..] == rest + t;
      CutAfter(mark, rest, "[USE:", ']');
      tail := RestWithTail(rest, t);
    }
  }

  lemma UsePartOfStripped(c: string, r: string, b: string)
    requires AllSpace(c) && AllSpace(b)
    ensures HasUse(c + r + b) == HasUse(r)
  {
    SpacesAvoidUse(c);
    SpacesAvoidUse(b);
    CutBefore(c + r, b, "[USE:", ']');
    CutAfter(c, r, "[USE:", ']');
  }

  /** A USE part cuts the tail off... */
  lemma UseCutsTail(r: string, tail: string)
    requires HasUse(r) && IsTail(tail)
    ensures WithoutUse(WithoutSign(r + tail)) == WithoutUse(WithoutSign(r))
  {
    UseIsLong(r);
    TailAvoids(tail);
    if IsSigned(r) {
      assert r == r[..1] + r[1..] && (r + tail)[1..] == r[1..] + tail;
      CutAfter(r[..1], r[1..], "[USE:", ']');
      CutBefore(r[1..], tail, "[USE:", ']');
    } else {
      assert (r + tail)[0] == r[0];
      CutBefore(r, tail, "[USE:", ']');
    }
  }

  lemma UseIsLong(r: string)
    requires HasUse(r)
    ensures |r| > 1
  {
    FirstFinds(r, StartsWith("[USE:"), 0);
  }

  /** ... and without one the tail makes the rest longer. */
  lemma TailStays(r: string, tail: string)
    requires !HasUse(r) && r != "" && !IsSpace(r[0]) && IsTail(tail) && |Strip(tail)| >= 2
    ensures |Strip(WithoutUse(WithoutSign(r + tail)))| > |Strip(WithoutUse(WithoutSign(r)))|
  {
    var rest := if IsSigned(r + tail) then r[1..] else r;
    TailAvoids(tail);
    assert (r + tail)[0] == r[0] && (r + tail)[1..] == r[1..] + tail;
    assert WithoutSign(r + tail) == rest + tail;
    assert r == r[..1] + r[1..];
    if r[0] == '+' || r[0] == '-' {
      CutAfter(r[..1], r[1..], "[USE:", ']');
    }
    CutBefore(rest, tail, "[USE:", ']');
    StripConcat(rest, tail);
    StripIsShorter(r);
    assert |r| > 1 ==> WithoutSign(r) == rest;
  }

  lemma StripIsShorter(y: string)
    ensures |Strip(y)| <= |y|
  {
    var a, b := StripSplits(y);
  }

  lemma TrimLeftOf(a: string, z: string)
    requires AllSpace(a) && (z == "" || !IsSpace(z[0]))
    ensures TrimLeft(a + z) == z && (TrimLeft(a + z) != a + z <==> a != "")
  {
    TrimLeftDropsSpaces(a, z);
    assert |a + z| == |a| + |z|;
    assert a == "" ==> a + z == z;
  }

  /** Where a context cuts the suffix off, only a hidden mark makes a difference. */
  lemma ContextCutsSuffix(p: string, suffix: string)
    requires HasContext(p) && IsTail(suffix)
    ensures ChunkId(p + suffix) == ChunkId(Strip(p)) <==> !HidesMark(p)
  {
    var a, b := StripSplits(p);
    var q := Strip(p);
    TailAvoids(suffix);
    CutBefore(p, suffix, "{", '}');
    SpacesAvoidContext(a);
    SpacesAvoidContext(b);
    CutBefore(a + q, b, "{", '}');
    CutAfter(a, q, "{", '}');
    SpaceHidesMark(a, WithoutContext(q));
    TrimLeftOf(a, WithoutContext(q));
  }

  lemma ContextOfStripped(p: string)
    ensures HasContext(Strip(p)) == HasContext(p)
  {
    var a, b := StripSplits(p);
    SpacesAvoidContext(a);
    SpacesAvoidContext(b);
    CutBefore(a + Strip(p), b, "{", '}');
    CutAfter(a, Strip(p), "{", '}');
  }

  lemma BareWithUse(q: string, t: string)
    requires IsTrimmed(q) && HasUse(q) && IsTail(t)
    ensures Bare(q + t) == Bare(q)
  {
    UseIsLong(q);
    var tail := StreamWithTail(q, t);
    UseIsLong(WithoutStream(q));
    UseCutsTail(WithoutStream(q), tail);
  }

  lemma MarkOfLonger(q: string, t: string)
    requires |q| > 1 && IsTail(t)
    ensures HasMark(q + t) == HasMark(q)
  {
    StreamMarkOfLonger(q, t);
    assert (q + t)[0] == q[0];
  }

  lemma BareOfSpacedUse(a: string, q: string, t: string)
    requires AllSpace(a) && IsTrimmed(q) && HasUse(q) && IsTail(t)
    ensures Bare(a + (q + t)) == Bare(q) <==> a == "" || !HasMark(q)
  {
    UseIsLong(q);
    SpaceHidesMark(a, q + t);
    BareWithUse(q, t);
    MarkOfLonger(q, t);
  }

  lemma HidesMarkOf(a: string, q: string, b: string)
    requires AllSpace(a) && AllSpace(b) && IsTrimmed(q) && |q| > 1 && !HasContext(a + (q + b))
    ensures HidesMark(a + (q + b)) <==> a != "" && HasMark(q)
  {
    MarkOfLonger(q, b);
    TrimLeftOf(a, q + b);
  }

  /** The same where a USE part does. */
  lemma UseCutsSuffix(p: string, suffix: string)
    requires !HasContext(p) && HasUse(p) && IsTail(suffix)
    ensures ChunkId(p + suffix) == ChunkId(Strip(p)) <==> !HidesMark(p)
  {
    var a, b := StripSplits(p);
    var q := Strip(p);
    UsePartOfStripped(a, q, b);
    UseIsLong(q);
    assert p + suffix == a + (q + (b + suffix)) && p == a + (q + b);
    BareOfSpacedUse(a, q, b + suffix);
    HidesMarkOf(a, q, b);
    TailAvoids(suffix);
    CutBefore(p, suffix, "{", '}');
    ContextOfStripped(p);
  }

  lemma BareOfTail(t: string)
    requires IsTail(t)
    ensures Bare(t) == Strip(t)
  {
    TailAvoids(t);
    assert "" + t == t;
    CutBefore("", t, "[USE:", ']');
    StreamMarkOfLonger("", t);
  }

  lemma BareIsShorter(q: string)
    ensures |Bare(q)| <= |Strip(q)|
  {
    if HasMark(q) {
      MarkShortens(q);
    }
    var use := WithoutUse(q);
    assert q == use + q[|use|..];
    StripConcat(use, q[|use|..]);
  }

  /** Without either, the suffix is part of the id. */
  lemma SuffixStays(p: string, suffix: string)
    requires !HasContext(p) && !HasUse(p) && IsTail(suffix) && |Strip(suffix)| >= 2
    ensures |ChunkId(p + suffix)| > |ChunkId(Strip(p))|
  {
    TailAvoids(suffix);
    CutBefore(p, suffix, "{", '}');
    CutBefore(p, suffix, "[USE:", ']');
    ContextOfStripped(p);
    if p == "" || IsSpace(p[0]) {
      assert p + suffix == suffix || IsSpace((p + suffix)[0]);
      SuffixStaysAfterSpace(p, suffix);
    } else {
      SuffixStaysAfterText(p, suffix);
    }
  }

  lemma SuffixStaysAfterSpace(p: string, suffix: string)
    requires (p == "" || IsSpace(p[0])) && !HasUse(p) && IsTail(suffix) && |Strip(suffix)| >= 2
    ensures |Bare(p + suffix)| > |Bare(Strip(p))|
  {
    TailAvoids(suffix);
    CutBefore(p, suffix, "[USE:", ']');
    if p == "" {
      assert p + suffix == suffix;
      BareOfTail(suffix);
    } else {
      assert IsSpace((p + suffix)[0]);
      assert Bare(p + suffix) == Strip(p + suffix);
    }
    StripConcat(p, suffix);
    BareIsShorter(Strip(p));
    StripIsShorter(Strip(p));
  }

  lemma SuffixStaysAfterText(p: string, suffix: string)
    requires p != "" && !IsSpace(p[0]) && !HasUse(p) && IsTail(suffix) && |Strip(suffix)| >= 2
    ensures |Bare(p + suffix)| > |Bare(Strip(p))|
  {
    hide Bare, HasUse, Strip;
    var b := TextBeginsStripped(p);
    UsePartOfStripped("", Strip(p), b);
    StripConcat(b, suffix);
    assert (Strip(p) + b) + suffix == Strip(p) + (b + suffix);
    SuffixStaysAfterTrimmed(Strip(p), b + suffix);
  }

  lemma SuffixStaysAfterTrimmed(q: string, t: string)
    requires q != "" && IsTrimmed(q) && !HasUse(q) && IsTail(t) && |Strip(t)| >= 2
    ensures |Bare(q + t)| > |Bare(q)|
  {
    var tail := StreamWithTail(q, t);
    var r := WithoutStream(q);
    if r == "" {
      StrippedTail(t);
      BareRest(Strip(t));
    } else {
      StreamRestIsTrimmed(q);
      TailStays(r, tail);
    }
  }

  /** Without leading spaces, stripping removes the spaces at the end. */
  lemma TextBeginsStripped(p: string) returns (b: string)
    requires p != "" && !IsSpace(p[0])
    ensures Strip(p) != "" && IsTrimmed(Strip(p)) && p == Strip(p) + b && AllSpace(b) && "" + Strip(p) + b == p
  {
    var a;
    a, b := StripSplits(p);
    assert p[0] == (a + Strip(p) + b)[0];
  }

  lemma StreamRestIsTrimmed(q: string)
    requires IsTrimmed(q)
    ensures IsTrimmed(WithoutStream(q))
  {
    var _, _ := StripSplits(q[StreamMark(q)..]);
  }

  lemma StrippedTail(t: string)
    requires IsTail(t)
    ensures IsTail(Strip(t)) && Strip(Strip(t)) == Strip(t)
  {
    var a, b := StripSplits(t);
    assert forall i :: 0 <= i < |Strip(t)| ==> Strip(t)[i] == t[|a| + i];
    StripOfTrimmed(Strip(t));
  }

  lemma BareRest(t: string)
    requires IsTail(t)
    ensures Strip(WithoutUse(WithoutSign(t))) == Strip(t) && Strip(WithoutUse(WithoutSign(""))) == ""
  {
    TailAvoids(t);
    assert "" + t == t;
    CutBefore("", t, "[USE:", ']');
    StripOfTrimmed("");
  }

  /** A text with an empty suffix and the text before it have the same id exactly when a context or a USE part
      cuts the suffix off and no mark is hidden. */
  lemma EmptySuffixKeepsIdIff(p: string, suffix: string)
    requires IsTail(suffix) && |Strip(suffix)| >= 2
    ensures ChunkId(p + suffix) == ChunkId(Strip(p)) <==> IsCutOff(p) && !HidesMark(p)
  {
    if HasContext(p) {
      ContextCutsSuffix(p, suffix);
    } else if HasUse(p) {
      UseCutsSuffix(p, suffix);
    } else {
      SuffixStays(p, suffix);
    }
  }
}
