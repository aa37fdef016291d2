/**
 * The test runner's timing file: one line per filter spec and group, merged after every run.
 */
module TimingFile {
  import opened Options
  import opened Text

  /** An entry; its duration is in milliseconds. */
  datatype Entry = Entry(spec: string, group: nat, duration: real)

  /** A dictionary in insertion order, keyed by spec and group. */
  type Times = seq<Entry>

  datatype Outcome = Loaded(times: Times) | Malformed(text: string)

  predicate SameKey(a: Entry, b: Entry) {
    a.spec == b.spec && a.group == b.group
  }

  /** The position of an entry's key, or the number of entries if it is new. */
  function Position(times: Times, entry: Entry): (at: nat)
    ensures at <= |times|
    ensures at < |times| ==> SameKey(times[at], entry)
    ensures at == |times| ==> forall i :: 0 <= i < |times| ==> !SameKey(times[i], entry)
  {
    if times == [] then 0
    else if SameKey(times[|times| - 1], entry) then |times| - 1
    else
      var at := Position(times[..|times| - 1], entry);
      if at < |times| - 1 then at else |times|
  }

  /** Replaces the value of a key in place, or adds the key at the end. */
  function Put(times: Times, entry: Entry): Times {
    var at := Position(times, entry);
    if at < |times| then times[at := entry] else times + [entry]
  }

  ghost predicate HasKey(times: Times, spec: string, group: nat) {
    exists i :: 0 <= i < |times| && times[i].spec == spec && times[i].group == group
  }

  ghost predicate Distinct(times: Times) {
    forall i, j :: 0 <= i < j < |times| ==> times[i].spec != times[j].spec || times[i].group != times[j].group
  }

  // ---------------------------------------------------------------------------
  // Durations
  // ---------------------------------------------------------------------------

  function Power10(n: nat): (p: nat)
    ensures p > 0
  {
    if n == 0 then 1 else 10 * Power10(n - 1)
  }

  /** Rounds to hundredths, ties to even. */
  function Hundredths(d: real): nat
    requires 0.0 <= d
  {
    var scaled := d * 100.0;
    var down := scaled.Floor;
    var rest := scaled - down as real;
    if rest < 0.5 || (rest == 0.5 && down % 2 == 0) then down else down + 1
  }

  function Rounded(d: real): real {
    if d < 0.0 then -(Hundredths(-d) as real / 100.0) else Hundredths(d) as real / 100.0
  }

  function Digit(n: nat): string {
    Decimal(n % 10)
  }

  /** The number with two decimals. */
  function Fixed(hundredths: nat): string {
    Decimal(hundredths / 100) + "." + Digit(hundredths / 10) + Digit(hundredths)
  }

  /** A duration with two decimals. */
  function Printed(d: real): string {
    if d < 0.0 then "-" + Fixed(Hundredths(-d)) else Fixed(Hundredths(d))
  }

  predicate IsSign(s: string) {
    s != "" && (s[0] == '+' || s[0] == '-')
  }

  predicate IsExponentMark(s: string) {
    s != "" && (s[0] == 'e' || s[0] == 'E')
  }

  /** The number times a power of ten. */
  function Shifted(x: real, exponent: int): real
    decreases if exponent < 0 then -exponent else exponent
  {
    if exponent == 0 then x else if exponent > 0 then Shifted(x * 10.0, exponent - 1) else Shifted(x / 10.0, exponent + 1)
  }

  function ParseInteger(s: string): Option<int> {
    var digits := if IsSign(s) then s[1..] else s;
    if digits == "" || DigitRun(digits) != |digits| then None
    else
      assert digits[..|digits|] == digits;
      var value: int := Value(digits);
      Some(if IsSign(s) && s[0] == '-' then -value else value)
  }

  /** A decimal number with an optional exponent. */
  function ParseUnsigned(s: string): Option<real> {
    var at := First(s, IsExponentMark);
    var exponent := if at == |s| then Some(0) else ParseInteger(s[at + 1..]);
    var mantissa := ParseDecimal(s[..at]);
    if exponent.None? || mantissa.None? then None else Some(Shifted(mantissa.value, exponent.value))
  }

  /** A number with an optional sign, decimal point and exponent. */
  function ParseDuration(s: string): Option<real> {
    match ParseUnsigned(if IsSign(s) then s[1..] else s)
    case None => None
    case Some(x) => Some(if IsSign(s) && s[0] == '-' then -x else x)
  }

  /** Digits with an optional decimal point. */
  function ParseDecimal(s: string): Option<real> {
    var whole := DigitRun(s);
    if whole == |s| then
      if s == "" then None else Some(Value(s[..whole]) as real)
    else
      var fraction := s[whole + 1..];
      if s[whole] != '.' || DigitRun(fraction) != |fraction| || whole + |fraction| == 0 then None
      else
        assert fraction[..|fraction|] == fraction;
        Some(Value(s[..whole]) as real + Value(fraction) as real / Power10(|fraction|) as real)
  }

  lemma {:induction false} ValueOfBoth(a: string, b: string)
    requires AllDigits(a) && AllDigits(b)
    ensures AllDigits(a + b) && Value(a + b) == Value(a) * Power10(|b|) + Value(b)
  {
    if b == "" {
      assert a + b == a;
    } else {
      var front, last := b[..|b| - 1], b[|b| - 1];
      ValueOfBoth(a, front);
      assert (a + b)[..|a + b| - 1] == a + front && (a + b)[|a + b| - 1] == last;
      TimesTen(Value(a), Power10(|front|), Value(front), last as int - '0' as int);
    }
  }

  lemma TimesTen(v: nat, p: nat, f: nat, x: int)
    ensures 10 * (v * p + f) + x == v * (10 * p) + (10 * f + x)
  {
  }

  /** Digits are a number... */
  lemma WholeReads(whole: string)
    requires AllDigits(whole) && whole != ""
    ensures ParseDecimal(whole) == Some(Value(whole) as real)
  {
    DigitRunOf(whole, "");
    assert whole + "" == whole && whole[..|whole|] == whole;
  }

  /** ... and with a decimal point among them the number is divided by a power of ten. */
  lemma DecimalReads(whole: string, fraction: string)
    requires AllDigits(whole) && AllDigits(fraction) && whole + fraction != ""
    ensures AllDigits(whole + fraction)
    ensures ParseDecimal(whole + "." + fraction) == Some(Value(whole + fraction) as real / Power10(|fraction|) as real)
  {
    hide DigitRun, Value, Power10;
    var s, p := whole + "." + fraction, Power10(|fraction|);
    assert s == whole + ("." + fraction);
    DigitRunOf(whole, "." + fraction);
    DigitRunOf(fraction, "");
    assert fraction + "" == fraction;
    assert s[..|whole|] == whole && s[|whole| + 1..] == fraction;
    ValueOfBoth(whole, fraction);
    SumOfFraction(Value(whole), Value(fraction), p);
  }

  lemma SumOfFraction(a: nat, b: nat, p: nat)
    requires p > 0
    ensures a as real + b as real / p as real == (a * p + b) as real / p as real
  {
    assert a as real == a as real * p as real / p as real;
    assert (a * p) as real == a as real * p as real;
  }

  lemma ShiftedIs(x: real, n: nat)
    ensures Shifted(x, n) == x * Power10(n) as real
    ensures Shifted(x, 0 - n) == x / Power10(n) as real
    decreases n
  {
    if n > 0 {
      ShiftedIs(x * 10.0, n - 1);
      ShiftedIs(x / 10.0, n - 1);
      assert Power10(n) as real == 10.0 * Power10(n - 1) as real;
    }
  }

  /** What a mark and an integer after a decimal do to it. */
  ghost function Scaled(x: real, sign: string, n: nat): real {
    if sign == "-" then x / Power10(n) as real else x * Power10(n) as real
  }

  lemma ShiftedIsScaled(x: real, sign: string, n: nat)
    ensures Shifted(x, if sign == "-" then 0 - n else n) == Scaled(x, sign, n)
  {
    ShiftedIs(x, n);
  }

  lemma ExponentReads(mantissa: string, mark: char, sign: string, digits: string)
    requires forall i :: 0 <= i < |mantissa| ==> IsDigit(mantissa[i]) || mantissa[i] == '.'
    requires (mark == 'e' || mark == 'E') && (sign == "" || sign == "+" || sign == "-")
    requires AllDigits(digits) && digits != "" && ParseDecimal(mantissa).Some?
    ensures ParseUnsigned(mantissa + [mark] + (sign + digits)) ==
            Some(Scaled(ParseDecimal(mantissa).value, sign, Value(digits)))
  {
    hide ParseDecimal, First, Shifted, ParseInteger, Value, Scaled;
    var exponent := sign + digits;
    var s := mantissa + [mark] + exponent;
    MantissaEnds(mantissa, mark, exponent);
    assert s[..|mantissa|] == mantissa && s[|mantissa| + 1..] == exponent;
    IntegerReads(sign, digits);
    ShiftedIsScaled(ParseDecimal(mantissa).value, sign, Value(digits));
  }

  lemma MantissaEnds(mantissa: string, mark: char, exponent: string)
    requires forall i :: 0 <= i < |mantissa| ==> IsDigit(mantissa[i]) || mantissa[i] == '.'
    requires mark == 'e' || mark == 'E'
    ensures First(mantissa + [mark] + exponent, IsExponentMark) == |mantissa|
  {
    var rest := [mark] + exponent;
    forall k | 0 <= k < |mantissa| ensures !IsExponentMark((mantissa + rest)[k..]) {
      assert (mantissa + rest)[k..][0] == mantissa[k];
    }
    FirstAfter(mantissa, rest, IsExponentMark);
    assert mantissa + [mark] + exponent == mantissa + rest;
  }

  lemma IntegerReads(sign: string, digits: string)
    requires (sign == "" || sign == "+" || sign == "-") && AllDigits(digits) && digits != ""
    ensures ParseInteger(sign + digits) == Some(if sign == "-" then 0 - Value(digits) else Value(digits))
  {
    hide DigitRun, Value;
    var s := sign + digits;
    DigitRunOf(digits, "");
    assert digits + "" == digits;
    if sign == "" {
      assert s == digits;
    } else {
      assert s[1..] == digits;
    }
  }

  /** A sign in front of a number. */
  lemma SignReads(sign: string, s: string)
    requires (sign == "" && !IsSign(s)) || sign == "+" || sign == "-"
    ensures var x := ParseUnsigned(s);
            ParseDuration(sign + s) == if x.Some? then Some(if sign == "-" then -x.value else x.value) else None
  {
    if sign == "" {
      assert sign + s == s;
    } else {
      assert (sign + s)[1..] == s;
    }
  }

  /** Digits with a decimal point among them or not. */
  ghost predicate IsDecimal(s: string) {
    exists whole, fraction ::
      AllDigits(whole) && AllDigits(fraction) && whole + fraction != "" &&
      ((s == whole && fraction == "") || s == whole + "." + fraction)
  }

  /** Nothing, or a mark, a sign or not, and digits. */
  ghost predicate IsExponent(s: string) {
    s == "" || exists mark, sign, digits ::
      (mark == 'e' || mark == 'E') && (sign == "" || sign == "+" || sign == "-") && AllDigits(digits) && digits != "" &&
      s == [mark] + (sign + digits)
  }

  /** A sign or not, a decimal and an exponent or not. */
  ghost predicate IsNumber(s: string) {
    exists sign, mantissa, exponent ::
      (sign == "" || sign == "+" || sign == "-") && IsDecimal(mantissa) && IsExponent(exponent) && s == sign + (mantissa + exponent)
  }

  lemma DecimalIff(s: string)
    ensures ParseDecimal(s).Some? <==> IsDecimal(s)
  {
    if ParseDecimal(s).Some? {
      var n := DigitRun(s);
      var whole, fraction := s[..n], if n == |s| then "" else s[n + 1..];
      assert fraction[..|fraction|] == fraction;
      if n == |s| {
        assert s == whole;
      } else {
        assert s == whole + "." + fraction;
      }
      assert AllDigits(whole) && AllDigits(fraction) && whole + fraction != "";
    } else if whole, fraction :| AllDigits(whole) && AllDigits(fraction) && whole + fraction != "" &&
                                ((s == whole && fraction == "") || s == whole + "." + fraction) {
      DecimalParses(s, whole, fraction);
    }
  }

  lemma DecimalParses(s: string, whole: string, fraction: string)
    requires AllDigits(whole) && AllDigits(fraction) && whole + fraction != ""
    requires (s == whole && fraction == "") || s == whole + "." + fraction
    ensures ParseDecimal(s).Some?
  {
    if s == whole && fraction == "" {
      WholeReads(whole);
    } else {
      DecimalReads(whole, fraction);
    }
  }

  lemma DecimalIsPlain(s: string)
    requires IsDecimal(s)
    ensures s != "" && forall i :: 0 <= i < |s| ==> IsDigit(s[i]) || s[i] == '.'
  {
  }

  lemma IntegerSplits(s: string) returns (sign: string, digits: string)
    requires ParseInteger(s).Some?
    ensures (sign == "" || sign == "+" || sign == "-") && AllDigits(digits) && digits != "" && s == sign + digits
  {
    sign, digits := if IsSign(s) then s[..1] else "", if IsSign(s) then s[1..] else s;
    assert digits[..|digits|] == digits;
    assert s == sign + digits;
  }

  lemma UnsignedSplits(s: string) returns (mantissa: string, exponent: string)
    requires ParseUnsigned(s).Some?
    ensures IsDecimal(mantissa) && IsExponent(exponent) && s == mantissa + exponent
  {
    hide ParseInteger, ParseDecimal, Shifted, IsDecimal;
    var at := First(s, IsExponentMark);
    FirstFinds(s, IsExponentMark, 0);
    mantissa, exponent := s[..at], s[at..];
    DecimalIff(mantissa);
    if at < |s| {
      var sign, digits := IntegerSplits(s[at + 1..]);
      assert exponent == [s[at]] + (sign + digits);
    }
  }

  lemma UnsignedReads(mantissa: string, exponent: string)
    requires IsDecimal(mantissa) && IsExponent(exponent)
    ensures ParseUnsigned(mantissa + exponent).Some?
  {
    hide IsDecimal, ParseDecimal, ParseUnsigned;
    DecimalIff(mantissa);
    DecimalIsPlain(mantissa);
    if exponent == "" {
      assert mantissa + exponent == mantissa;
      NoExponent(mantissa);
    } else {
      var mark, sign, digits :|
        (mark == 'e' || mark == 'E') && (sign == "" || sign == "+" || sign == "-") && AllDigits(digits) && digits != "" &&
        exponent == [mark] + (sign + digits);
      assert mantissa + exponent == mantissa + [mark] + (sign + digits);
      ExponentReads(mantissa, mark, sign, digits);
    }
  }

  /** A duration is malformed exactly if it is not a number in this form. */
  lemma DurationIff(s: string)
    ensures ParseDuration(s).Some? <==> IsNumber(s)
  {
    hide ParseUnsigned, IsDecimal, IsExponent;
    if ParseDuration(s).Some? {
      var sign, rest := if IsSign(s) then s[..1] else "", if IsSign(s) then s[1..] else s;
      var mantissa, exponent := UnsignedSplits(rest);
      assert s == sign + (mantissa + exponent);
    } else if sign, mantissa, exponent :| (sign == "" || sign == "+" || sign == "-") && IsDecimal(mantissa) &&
                                          IsExponent(exponent) && s == sign + (mantissa + exponent) {
      UnsignedReads(mantissa, exponent);
      DecimalIsPlain(mantissa);
      assert (mantissa + exponent)[0] == mantissa[0];
      SignReads(sign, mantissa + exponent);
      assert false;
    }
  }

  lemma DigitIsShort(n: nat)
    ensures |Digit(n)| == 1 && Value(Digit(n)) == n % 10
  {
    DecimalRoundTrip(n % 10);
  }

  lemma ValueOfTwo(tens: string, ones: string)
    requires |tens| == 1 && |ones| == 1 && AllDigits(tens) && AllDigits(ones)
    ensures AllDigits(tens + ones) && Value(tens + ones) == 10 * Value(tens) + Value(ones)
  {
    assert (tens + ones)[..1] == tens && ones[..0] == "";
  }

  lemma TwoDigits(hundredths: nat)
    ensures var fraction := Digit(hundredths / 10) + Digit(hundredths);
            |fraction| == 2 && AllDigits(fraction) && Value(fraction) == hundredths % 100
  {
    DigitIsShort(hundredths / 10);
    DigitIsShort(hundredths);
    ValueOfTwo(Digit(hundredths / 10), Digit(hundredths));
  }

  lemma FixedReadsBack(hundredths: nat)
    ensures ParseDecimal(Fixed(hundredths)) == Some(hundredths as real / 100.0)
  {
    var whole, fraction := Decimal(hundredths / 100), Digit(hundredths / 10) + Digit(hundredths);
    var s := Fixed(hundredths);
    assert s == whole + ("." + fraction);
    DigitRunOf(whole, "." + fraction);
    DecimalRoundTrip(hundredths / 100);
    TwoDigits(hundredths);
    assert s[..|whole|] == whole && s[|whole| + 1..] == fraction;
    DigitRunOf(fraction, "");
    assert fraction + "" == fraction;
    assert Power10(2) == 100 by {
      assert Power10(1) == 10;
    }
    assert hundredths == 100 * (hundredths / 100) + hundredths % 100;
  }

  lemma FixedIsPlain(hundredths: nat)
    ensures var s := Fixed(hundredths);
            s != "" && HasNoSpace(s) && forall i :: 0 <= i < |s| ==> IsDigit(s[i]) || s[i] == '.'
  {
  }

  lemma PrintedIsOneWord(d: real)
    ensures Printed(d) != "" && HasNoSpace(Printed(d))
  {
    FixedIsPlain(Hundredths(if d < 0.0 then -d else d));
  }

  /** A number without an exponent is read as a decimal. */
  lemma NoExponent(s: string)
    requires forall i :: 0 <= i < |s| ==> IsDigit(s[i]) || s[i] == '.'
    ensures ParseUnsigned(s) == ParseDecimal(s)
  {
    FirstFinds(s, IsExponentMark, 0);
    assert First(s, IsExponentMark) == |s|;
    assert s[..|s|] == s;
  }

  lemma FixedIsDuration(h: nat)
    ensures ParseDuration(Fixed(h)) == ParseUnsigned(Fixed(h)) == Some(h as real / 100.0)
  {
    FixedIsPlain(h);
    FixedReadsBack(h);
    NoExponent(Fixed(h));
    assert !IsSign(Fixed(h));
  }

  /** A printed duration reads back rounded. */
  lemma PrintedReadsBack(d: real)
    ensures ParseDuration(Printed(d)) == Some(Rounded(d))
  {
    hide Hundredths, Fixed, ParseUnsigned, ParseDuration;
    var h := Hundredths(if d < 0.0 then -d else d);
    FixedIsDuration(h);
    if d < 0.0 {
      SignReads("-", Fixed(h));
    }
  }

  /** The nearest number of hundredths, the even one of two. */
  ghost predicate IsNearest(h: int, d: real) {
    var off := h as real - d * 100.0;
    -0.5 <= off <= 0.5 && (off == 0.5 || off == -0.5 ==> h % 2 == 0)
  }

  lemma HundredthsAreNearest(d: real)
    requires 0.0 <= d
    ensures IsNearest(Hundredths(d), d)
  {
  }

  /** A printed duration reads back as the nearest number of hundredths. */
  lemma PrintedIsNearest(d: real) returns (h: int)
    ensures ParseDuration(Printed(d)) == Some(h as real / 100.0) && IsNearest(h, d)
  {
    hide Printed, ParseDuration, Hundredths;
    PrintedReadsBack(d);
    var n: int := Hundredths(if d < 0.0 then -d else d);
    HundredthsAreNearest(if d < 0.0 then -d else d);
    h := if d < 0.0 then -n else n;
  }

  lemma HundredthsOfWhole(h: nat)
    ensures Hundredths(h as real / 100.0) == h
  {
    assert h as real / 100.0 * 100.0 == h as real;
  }

  /** Rounding a rounded duration changes nothing. */
  lemma RoundedIsStable(d: real)
    ensures Rounded(Rounded(d)) == Rounded(d)
  {
    var h := Hundredths(if d < 0.0 then -d else d);
    HundredthsOfWhole(h);
    if d < 0.0 && h > 0 {
      assert -Rounded(d) == h as real / 100.0;
    }
  }

  // ---------------------------------------------------------------------------
  // Reading
  // ---------------------------------------------------------------------------

  predicate HasNoSpace(s: string) {
    forall i :: 0 <= i < |s| ==> !IsSpace(s[i])
  }

  /** Where the last word begins. */
  function WordStart(s: string): (n: nat)
    ensures n <= |s| && HasNoSpace(s[n..]) && (n > 0 ==> IsSpace(s[n - 1]))
  {
    if s == "" || IsSpace(s[|s| - 1]) then |s|
    else
      var n := WordStart(s[..|s| - 1]);
      assert s[n..] == s[..|s| - 1][n..] + [s[|s| - 1]];
      n
  }

  /** The text before the last word, without trailing spaces. */
  function BeforeWord(s: string): string {
    TrimRight(s[..WordStart(s)])
  }

  function LastWord(s: string): string {
    s[WordStart(s)..]
  }

  /** A line of a spec, an optional group and a duration; a line of one word says nothing. */
  function ReadLine(times: Times, raw: string): Outcome {
    var line := Strip(raw);
    if line == "" || line[0] == '#' then Loaded(times)
    else
      var rest := BeforeWord(line);
      if rest == "" then Loaded(times)
      else
        var spec, group := BeforeWord(rest), LastWord(rest);
        match ParseDuration(LastWord(line))
        case None => Malformed(LastWord(line))
        case Some(duration) =>
          if spec != "" && DigitRun(group) == |group| && group != "" then
            assert group[..|group|] == group;
            Loaded(Put(times, Entry(spec, Value(group), duration)))
          else
            Loaded(Put(times, Entry(rest, 0, duration)))
  }

  function Read(lines: seq<string>): Outcome {
    if lines == [] then Loaded([])
    else
      match Read(lines[..|lines| - 1])
      case Loaded(times) => ReadLine(times, lines[|lines| - 1])
      case Malformed(text) => Malformed(text)
  }

  // ---------------------------------------------------------------------------
  // Merging and writing
  // ---------------------------------------------------------------------------

  predicate IsRun(tasks: seq<Entry>, spec: string) {
    exists i :: 0 <= i < |tasks| && tasks[i].spec == spec
  }

  function KeepUnrun(times: Times, tasks: seq<Entry>): Times {
    if times == [] then []
    else
      var last := times[|times| - 1];
      KeepUnrun(times[..|times| - 1], tasks) + if IsRun(tasks, last.spec) then [] else [last]
  }

  function PutAll(times: Times, tasks: seq<Entry>): Times {
    if tasks == [] then times else Put(PutAll(times, tasks[..|tasks| - 1]), tasks[|tasks| - 1])
  }

  function Merge(times: Times, tasks: seq<Entry>): Times {
    PutAll(KeepUnrun(times, tasks), tasks)
  }

  function EntryLine(entry: Entry): string {
    entry.spec + " " + Decimal(entry.group) + " " + Printed(entry.duration)
  }

  function FileText(times: Times): string {
    if times == [] then "" else FileText(times[..|times| - 1]) + EntryLine(times[|times| - 1]) + "\n"
  }

  // ---------------------------------------------------------------------------
  // The programs
  // ---------------------------------------------------------------------------

  lemma {:induction false} FirstErrorStays(lines: seq<string>, l: nat)
    requires l <= |lines| && Read(lines[..l]).Malformed?
    ensures Read(lines) == Read(lines[..l])
    decreases |lines|
  {
    if l == |lines| {
      assert lines[..l] == lines;
    } else {
      assert lines[..|lines| - 1][..l] == lines[..l];
      FirstErrorStays(lines[..|lines| - 1], l);
    }
  }

  method LoadExecutionTimes(text: string) returns (outcome: Outcome)
    ensures outcome == Read(Lines(text))
  {
    hide ReadLine;
    var times: Times := [];
    var lines := Lines(text);
    for l := 0 to |lines|
      invariant Read(lines[..l]) == Loaded(times)
    {
      assert lines[..l + 1][..l] == lines[..l];
      var read := ReadLine(times, lines[l]);
      if read.Malformed? {
        FirstErrorStays(lines, l + 1);
        return read;
      }
      times := read.times;
    }
    assert lines[..|lines|] == lines;
    outcome := Loaded(times);
  }

  method MergeTimes(before: Times, tasks: seq<Entry>) returns (times: Times)
    ensures times == Merge(before, tasks)
  {
    times := [];
    for i := 0 to |before|
      invariant times == KeepUnrun(before[..i], tasks)
    {
      assert before[..i + 1][..i] == before[..i];
      if !IsRun(tasks, before[i].spec) {
        times := times + [before[i]];
      }
    }
    assert before[..|before|] == before;
    ghost var kept := times;
    for i := 0 to |tasks|
      invariant times == PutAll(kept, tasks[..i])
    {
      assert tasks[..i + 1][..i] == tasks[..i];
      times := Put(times, tasks[i]);
    }
    assert tasks[..|tasks|] == tasks;
  }

  /** The new text of the file, or the error that leaves it as it was. */
  method SaveExecutionTimes(file: string, tasks: seq<Entry>) returns (text: string)
    ensures var before := Read(Lines(file));
            text == if before.Loaded? then FileText(Merge(before.times, tasks)) else file
  {
    var before := LoadExecutionTimes(file);
    if before.Malformed? {
      return file;
    }
    var times := MergeTimes(before.times, tasks);
    text := "";
    for i := 0 to |times|
      invariant text == FileText(times[..i])
    {
      assert times[..i + 1][..i] == times[..i];
      text := text + EntryLine(times[i]) + "\n";
    }
    assert times[..|times|] == times;
  }

  // ---------------------------------------------------------------------------
  // Merging keeps what was not run
  // ---------------------------------------------------------------------------

  /** The duration stored last under a key. */
  ghost function Lookup(times: seq<Entry>, spec: string, group: nat): Option<real> {
    if times == [] then None
    else
      var last := times[|times| - 1];
      if last.spec == spec && last.group == group then Some(last.duration)
      else Lookup(times[..|times| - 1], spec, group)
  }

  lemma LookupOneMore(times: seq<Entry>, entry: Entry, spec: string, group: nat)
    ensures Lookup(times + [entry], spec, group) ==
            if entry.spec == spec && entry.group == group then Some(entry.duration) else Lookup(times, spec, group)
  {
    assert (times + [entry])[..|times|] == times;
  }

  lemma {:induction false} LookupReplaced(times: Times, at: nat, entry: Entry, spec: string, group: nat)
    requires Distinct(times) && at < |times| && SameKey(times[at], entry)
    ensures Lookup(times[at := entry], spec, group) ==
            if entry.spec == spec && entry.group == group then Some(entry.duration) else Lookup(times, spec, group)
  {
    var front, last := times[..|times| - 1], times[|times| - 1];
    if at == |front| {
      assert times[at := entry] == front + [entry];
      LookupOneMore(front, entry, spec, group);
    } else {
      assert times[at := entry] == front[at := entry] + [last];
      LookupReplaced(front, at, entry, spec, group);
      LookupOneMore(front[at := entry], last, spec, group);
    }
  }

  lemma LookupPut(times: Times, entry: Entry, spec: string, group: nat)
    requires Distinct(times)
    ensures Lookup(Put(times, entry), spec, group) ==
            if entry.spec == spec && entry.group == group then Some(entry.duration) else Lookup(times, spec, group)
  {
    var at := Position(times, entry);
    if at < |times| {
      LookupReplaced(times, at, entry, spec, group);
    } else {
      LookupOneMore(times, entry, spec, group);
    }
  }

  lemma {:induction false} LookupPutAll(times: Times, tasks: seq<Entry>, spec: string, group: nat)
    requires Distinct(times)
    ensures Distinct(PutAll(times, tasks))
    ensures Lookup(PutAll(times, tasks), spec, group) ==
            if Lookup(tasks, spec, group).Some? then Lookup(tasks, spec, group) else Lookup(times, spec, group)
  {
    if tasks != [] {
      var front, last := tasks[..|tasks| - 1], tasks[|tasks| - 1];
      LookupPutAll(times, front, spec, group);
      LookupPut(PutAll(times, front), last, spec, group);
      PutPutsKey(PutAll(times, front), last);
    }
  }

  lemma {:induction false} LookupKept(times: Times, tasks: seq<Entry>, spec: string, group: nat)
    ensures Lookup(KeepUnrun(times, tasks), spec, group) == if IsRun(tasks, spec) then None else Lookup(times, spec, group)
  {
    if times != [] {
      var front, last := times[..|times| - 1], times[|times| - 1];
      LookupKept(front, tasks, spec, group);
      if IsRun(tasks, last.spec) {
        assert KeepUnrun(times, tasks) == KeepUnrun(front, tasks);
      } else {
        LookupOneMore(KeepUnrun(front, tasks), last, spec, group);
      }
    }
  }

  /** A merge stores the last duration of every task, drops the other groups of the specs that were run, and keeps the rest. */
  lemma MergeOverlays(times: Times, tasks: seq<Entry>, spec: string, group: nat)
    requires Distinct(times)
    ensures Lookup(Merge(times, tasks), spec, group) ==
            if Lookup(tasks, spec, group).Some? then Lookup(tasks, spec, group)
            else if exists i :: 0 <= i < |tasks| && tasks[i].spec == spec then None
            else Lookup(times, spec, group)
  {
    KeepUnrunKeeps(times, tasks);
    LookupPutAll(KeepUnrun(times, tasks), tasks, spec, group);
    LookupKept(times, tasks, spec, group);
  }

  lemma PutPutsKey(times: Times, entry: Entry)
    requires Distinct(times)
    ensures Distinct(Put(times, entry))
    ensures exists i :: 0 <= i < |Put(times, entry)| && Put(times, entry)[i] == entry
    ensures forall i :: 0 <= i < |Put(times, entry)| ==> Put(times, entry)[i] == entry || Put(times, entry)[i] in times
  {
    assert Put(times, entry)[Position(times, entry)] == entry;
  }

  lemma {:induction false} KeepUnrunKeeps(times: Times, tasks: seq<Entry>)
    requires Distinct(times)
    ensures Distinct(KeepUnrun(times, tasks))
    ensures forall i :: 0 <= i < |KeepUnrun(times, tasks)| ==> KeepUnrun(times, tasks)[i] in times
  {
    if times != [] {
      KeepUnrunKeeps(times[..|times| - 1], tasks);
    }
  }

  // ---------------------------------------------------------------------------
  // Which entries survive
  // ---------------------------------------------------------------------------

  /** Non-empty, trimmed, free of line ends and not a comment. */
  ghost predicate IsReadable(spec: string) {
    spec != "" && IsTrimmed(spec) && spec[0] != '#' && IsFree(spec, '\n') && IsFree(spec, '\r')
  }

  ghost predicate AllReadable(times: seq<Entry>) {
    forall i :: 0 <= i < |times| ==> IsReadable(times[i].spec)
  }

  lemma PutIsReadable(times: Times, entry: Entry)
    requires Distinct(times) && AllReadable(times)
    ensures AllReadable(Put(times, entry)) <==> IsReadable(entry.spec)
  {
    PutPutsKey(times, entry);
  }

  lemma {:induction false} PutAllIsReadable(times: Times, tasks: seq<Entry>)
    requires Distinct(times) && AllReadable(times)
    ensures Distinct(PutAll(times, tasks))
    ensures AllReadable(tasks) ==> AllReadable(PutAll(times, tasks))
  {
    if tasks != [] {
      var front, last := tasks[..|tasks| - 1], tasks[|tasks| - 1];
      PutAllIsReadable(times, front);
      PutPutsKey(PutAll(times, front), last);
      if AllReadable(tasks) {
        PutIsReadable(PutAll(times, front), last);
      }
    }
  }

  lemma {:induction false} StoredIsFound(times: seq<Entry>, spec: string, group: nat)
    ensures Lookup(times, spec, group).Some? <==> HasKey(times, spec, group)
  {
    if times != [] {
      var front, last := times[..|times| - 1], times[|times| - 1];
      StoredIsFound(front, spec, group);
      if HasKey(front, spec, group) {
        var i :| 0 <= i < |front| && front[i].spec == spec && front[i].group == group;
        assert times[i].spec == spec;
      }
    }
  }

  /** The merged times can all be read again exactly when the tasks can. */
  lemma MergeIsReadableIff(times: Times, tasks: seq<Entry>)
    requires Distinct(times) && AllReadable(times)
    ensures Distinct(Merge(times, tasks))
    ensures AllReadable(Merge(times, tasks)) <==> AllReadable(tasks)
  {
    KeepUnrunKeeps(times, tasks);
    PutAllIsReadable(KeepUnrun(times, tasks), tasks);
    if AllReadable(Merge(times, tasks)) {
      forall i | 0 <= i < |tasks| ensures IsReadable(tasks[i].spec) {
        StoredIsFound(tasks, tasks[i].spec, tasks[i].group);
        MergeOverlays(times, tasks, tasks[i].spec, tasks[i].group);
        StoredIsFound(Merge(times, tasks), tasks[i].spec, tasks[i].group);
      }
    }
  }

  // ---------------------------------------------------------------------------
  // One line
  // ---------------------------------------------------------------------------

  lemma {:induction false} WordStartOf(prefix: string, word: string)
    requires HasNoSpace(word) && (prefix == "" || IsSpace(prefix[|prefix| - 1]))
    ensures WordStart(prefix + word) == |prefix|
  {
    if word == "" {
      assert prefix + word == prefix;
    } else {
      assert (prefix + word)[..|prefix + word| - 1] == prefix + word[..|word| - 1];
      WordStartOf(prefix, word[..|word| - 1]);
    }
  }

  /** The words of a line, apart from the spaces around it. */
  ghost predicate IsLine(raw: string, line: string) {
    IsTrimmed(line) && exists a, b :: AllSpace(a) && AllSpace(b) && raw == a + line + b
  }

  lemma LineIsStripped(raw: string, line: string)
    requires IsLine(raw, line)
    ensures Strip(raw) == line
  {
    var a, b :| AllSpace(a) && AllSpace(b) && raw == a + line + b;
    StripDropsSpaces(a, line, b);
  }

  /** Text, spaces and a last word. */
  ghost predicate IsBeforeWord(line: string, text: string, word: string) {
    && text != "" && IsTrimmed(text) && word != "" && HasNoSpace(word)
    && exists gap :: gap != "" && AllSpace(gap) && line == text + gap + word
  }

  lemma LastWordIs(line: string, text: string, word: string)
    requires IsBeforeWord(line, text, word)
    ensures BeforeWord(line) == text && LastWord(line) == word
  {
    var gap :| gap != "" && AllSpace(gap) && line == text + gap + word;
    WordStartOf(text + gap, word);
    assert line[..|text + gap|] == text + gap && line[|text + gap|..] == word;
    TrimRightDropsSpaces(text, gap);
  }

  /** What a duration does to the entries. */
  ghost function Stored(times: Times, spec: string, group: nat, word: string): Outcome {
    match ParseDuration(word)
    case None => Malformed(word)
    case Some(duration) => Loaded(Put(times, Entry(spec, group, duration)))
  }

  /** A spec, a group and a duration. */
  lemma GroupedLineReads(times: Times, raw: string, line: string, text: string, spec: string, group: string, word: string)
    requires IsLine(raw, line) && line != "" && line[0] != '#'
    requires IsBeforeWord(line, text, word) && IsBeforeWord(text, spec, group) && AllDigits(group)
    ensures ReadLine(times, raw) == Stored(times, spec, Value(group), word)
  {
    LineIsStripped(raw, line);
    LastWordIs(line, text, word);
    LastWordIs(text, spec, group);
    DigitRunOf(group, "");
    assert group + "" == group;
  }

  /** A spec that does not end in a group, and a duration: the group is 0. */
  lemma UngroupedLineReads(times: Times, raw: string, line: string, spec: string, word: string)
    requires IsLine(raw, line) && line != "" && line[0] != '#' && IsBeforeWord(line, spec, word)
    requires forall inner, group :: IsBeforeWord(spec, inner, group) ==> !AllDigits(group)
    ensures ReadLine(times, raw) == Stored(times, spec, 0, word)
  {
    hide Strip, WordStart, ParseDuration, IsLine, IsTrimmed;
    LineIsStripped(raw, line);
    LastWordIs(line, spec, word);
    if BeforeWord(spec) != "" {
      WordsAreBefore(spec);
    }
  }

  lemma WordsAreBefore(text: string)
    requires text != "" && IsTrimmed(text) && BeforeWord(text) != ""
    ensures IsBeforeWord(text, BeforeWord(text), LastWord(text))
  {
    var head := text[..WordStart(text)];
    var b := TrimRightSplits(head);
    assert text == BeforeWord(text) + b + LastWord(text);
    assert BeforeWord(text)[0] == text[0];
    assert b != "" by {
      assert head[|head| - 1] == text[WordStart(text) - 1];
    }
    assert LastWord(text) != "";
  }

  /** A blank line, a comment and a single word say nothing. */
  lemma OtherLineSaysNothing(times: Times, raw: string, line: string)
    requires IsLine(raw, line) && (line == "" || line[0] == '#' || HasNoSpace(line))
    ensures ReadLine(times, raw) == Loaded(times)
  {
    LineIsStripped(raw, line);
    if line != "" && HasNoSpace(line) {
      WordStartOf("", line);
      assert "" + line == line;
    }
  }

  function RoundedEntry(entry: Entry): Entry {
    entry.(duration := Rounded(entry.duration))
  }

  lemma PartsOfEntryLine(entry: Entry)
    requires IsReadable(entry.spec)
    ensures var line, text := EntryLine(entry), entry.spec + " " + Decimal(entry.group);
            && IsLine(line, line) && line != "" && line[0] != '#'
            && IsBeforeWord(line, text, Printed(entry.duration)) && IsBeforeWord(text, entry.spec, Decimal(entry.group))
  {
    hide Decimal, Printed;
    var line, text, word := EntryLine(entry), entry.spec + " " + Decimal(entry.group), Printed(entry.duration);
    PrintedIsOneWord(entry.duration);
    assert line == text + " " + word && AllSpace("") && line == "" + line + "";
    assert line[|line| - 1] == word[|word| - 1] && line[0] == entry.spec[0];
    assert text[|text| - 1] == Decimal(entry.group)[|Decimal(entry.group)| - 1] && text[0] == entry.spec[0];
  }

  /** A written line reads back as the entry with its duration rounded. */
  lemma EntryLineReads(times: Times, entry: Entry)
    requires IsReadable(entry.spec)
    ensures ReadLine(times, EntryLine(entry)) == Loaded(Put(times, RoundedEntry(entry)))
  {
    hide ReadLine, EntryLine, IsLine, IsBeforeWord, Decimal, Printed, ParseDuration, Put;
    var line, text := EntryLine(entry), entry.spec + " " + Decimal(entry.group);
    PartsOfEntryLine(entry);
    GroupedLineReads(times, line, line, text, entry.spec, Decimal(entry.group), Printed(entry.duration));
    PrintedReadsBack(entry.duration);
    DecimalRoundTrip(entry.group);
  }

  lemma BeforeWordIsReadable(text: string)
    requires text != "" && !IsSpace(text[0]) && text[0] != '#' && IsFree(text, '\n') && IsFree(text, '\r')
    ensures BeforeWord(text) == "" || IsReadable(BeforeWord(text))
  {
    var head := text[..WordStart(text)];
    var b := TrimRightSplits(head);
    forall i | 0 <= i < |BeforeWord(text)| ensures BeforeWord(text)[i] == text[i] {
      assert head[i] == text[i];
    }
  }

  /** Whatever the line, the keys stay distinct and readable. */
  lemma ReadLineIsReadable(times: Times, raw: string)
    requires Distinct(times) && AllReadable(times) && IsLineText(raw)
    ensures var read := ReadLine(times, raw); read.Loaded? ==> Distinct(read.times) && AllReadable(read.times)
  {
    StripKeepsFree(raw, '\n');
    StripKeepsFree(raw, '\r');
    var _, _ := StripSplits(raw);
    var line := Strip(raw);
    var read := ReadLine(times, raw);
    if read.Loaded? && line != "" && line[0] != '#' && BeforeWord(line) != "" {
      var rest := BeforeWord(line);
      BeforeWordIsReadable(line);
      BeforeWordIsReadable(rest);
      var duration := ParseDuration(LastWord(line)).value;
      forall spec, group: nat | IsReadable(spec)
        ensures Distinct(Put(times, Entry(spec, group, duration))) && AllReadable(Put(times, Entry(spec, group, duration)))
      {
        PutPutsKey(times, Entry(spec, group, duration));
        PutIsReadable(times, Entry(spec, group, duration));
      }
    }
  }

  /** Whatever the file, the loaded keys are distinct and readable. */
  lemma {:induction false} LoadedIsReadable(lines: seq<string>)
    requires forall k :: 0 <= k < |lines| ==> IsLineText(lines[k])
    ensures Read(lines).Loaded? ==> Distinct(Read(lines).times) && AllReadable(Read(lines).times)
  {
    if lines != [] {
      var before := Read(lines[..|lines| - 1]);
      LoadedIsReadable(lines[..|lines| - 1]);
      if before.Loaded? {
        ReadLineIsReadable(before.times, lines[|lines| - 1]);
      }
    }
  }

  // ---------------------------------------------------------------------------
  // The whole file
  // ---------------------------------------------------------------------------

  ghost function RoundAll(times: Times): (rounded: Times)
    ensures |rounded| == |times| && forall i :: 0 <= i < |times| ==> rounded[i] == RoundedEntry(times[i])
  {
    if times == [] then [] else RoundAll(times[..|times| - 1]) + [RoundedEntry(times[|times| - 1])]
  }

  ghost function EntryLines(times: Times): seq<string> {
    if times == [] then [] else EntryLines(times[..|times| - 1]) + [EntryLine(times[|times| - 1])]
  }

  lemma FixedLooksLike()
    ensures Fixed(1205) == "12.05"
  {
    assert Decimal(12) == "12" && Decimal(0) == "0" && Decimal(5) == "5";
  }

  /** What a file looks like. */
  lemma FileLooksLike()
    ensures FileText([Entry("a b", 3, 12.05)]) == "a b 3 12.05\n"
  {
    HundredthsOfWhole(1205);
    FixedLooksLike();
    hide Fixed, Hundredths;
    assert Decimal(3) == "3" && Printed(12.05) == "12.05";
    var times := [Entry("a b", 3, 12.05)];
    assert times[..0] == [] && EntryLine(times[0]) == "a b 3 12.05";
  }

  lemma EntryLineIsLineText(entry: Entry)
    requires IsReadable(entry.spec)
    ensures IsLineText(EntryLine(entry))
  {
    PrintedIsOneWord(entry.duration);
  }

  lemma {:induction false} FileTextSplits(times: Times)
    requires AllReadable(times)
    ensures IsFree(FileText(times), '\r')
    ensures Split(FileText(times), '\n') == EntryLines(times) + [""]
  {
    hide EntryLine;
    if times != [] {
      var front, last := times[..|times| - 1], times[|times| - 1];
      var line := EntryLine(last);
      FileTextSplits(front);
      EntryLineIsLineText(last);
      SplitExtendsLast(FileText(front), line, '\n');
      SplitAtSeparator(FileText(front) + line, "", '\n');
      assert FileText(front) + line + ['\n'] + "" == FileText(times);
      assert "" + line == line;
    }
  }

  lemma ReadOneMore(lines: seq<string>, line: string, times: Times)
    requires Read(lines) == Loaded(times)
    ensures Read(lines + [line]) == ReadLine(times, line)
  {
    assert (lines + [line])[..|lines|] == lines;
  }

  lemma {:induction false} EntryLinesRead(times: Times)
    requires AllReadable(times) && Distinct(times)
    ensures Read(EntryLines(times)) == Loaded(RoundAll(times))
  {
    hide ReadLine, EntryLine;
    if times != [] {
      var front, last := times[..|times| - 1], times[|times| - 1];
      EntryLinesRead(front);
      EntryLineReads(RoundAll(front), last);
      ReadOneMore(EntryLines(front), EntryLine(last), RoundAll(front));
    }
  }

  lemma FileReads(times: Times)
    requires AllReadable(times) && Distinct(times)
    ensures Read(Lines(FileText(times))) == Loaded(RoundAll(times))
  {
    FileTextSplits(times);
    TranslateKeeps(FileText(times));
    EntryLinesRead(times);
    ReadOneMore(EntryLines(times), "", RoundAll(times));
  }

  lemma RoundAllIsReadableIff(times: Times)
    ensures AllReadable(RoundAll(times)) <==> AllReadable(times)
  {
    forall i | 0 <= i < |times| ensures RoundAll(times)[i].spec == times[i].spec {
    }
  }

  /** Loading the saved file gives the merged times, rounded and in order, exactly when the specs that were run are readable. */
  lemma TimingRoundTripIff(file: string, tasks: seq<Entry>)
    requires Read(Lines(file)).Loaded?
    ensures var merged := Merge(Read(Lines(file)).times, tasks);
            Read(Lines(FileText(merged))) == Loaded(RoundAll(merged)) <==> AllReadable(tasks)
  {
    var before := Read(Lines(file)).times;
    var merged := Merge(before, tasks);
    LinesHaveNoLineEnds(file);
    LoadedIsReadable(Lines(file));
    MergeIsReadableIff(before, tasks);
    if Read(Lines(FileText(merged))) == Loaded(RoundAll(merged)) {
      LinesHaveNoLineEnds(FileText(merged));
      LoadedIsReadable(Lines(FileText(merged)));
      RoundAllIsReadableIff(merged);
    } else if AllReadable(tasks) {
      FileReads(merged);
    }
  }

  /** A spec that looks like a comment is lost. */
  lemma CommentIsLost(file: string, d: real)
    requires Read(Lines(file)).Loaded?
    ensures var merged := Merge(Read(Lines(file)).times, [Entry("#a", 0, d)]);
            Read(Lines(FileText(merged))) != Loaded(RoundAll(merged))
  {
    var tasks := [Entry("#a", 0, d)];
    assert !IsReadable(tasks[0].spec);
    TimingRoundTripIff(file, tasks);
  }
}
