/**
 * The execution plan file: one line per worker, written by the test runner and read back by the plotter.
 */
module ExecutionPlan {
  import opened Options
  import opened Text

  /** A filter spec and the group it is limited to; group 0 means not split. */
  datatype Task = Task(spec: string, group: nat)

  type Queue = seq<Task>

  datatype Outcome = Loaded(plan: map<nat, Queue>) | Unparsable(line: nat)

  // ---------------------------------------------------------------------------
  // Writing
  // ---------------------------------------------------------------------------

  function GroupTag(group: nat): string {
    " [group " + Decimal(group) + "]"
  }

  function Label(task: Task): string {
    if task.group != 0 then task.spec + GroupTag(task.group) else task.spec
  }

  function Join(queue: Queue): string {
    if queue == [] then ""
    else if |queue| == 1 then Label(queue[0])
    else Join(queue[..|queue| - 1]) + ", " + Label(queue[|queue| - 1])
  }

  function PlanLine(worker: nat, queue: Queue): string {
    "worker" + Decimal(worker) + ": " + Join(queue)
  }

  function PlanText(queues: seq<Queue>): string {
    if queues == [] then ""
    else PlanText(queues[..|queues| - 1]) + PlanLine(|queues| - 1, queues[|queues| - 1]) + "\n"
  }

  // ---------------------------------------------------------------------------
  // Reading
  // ---------------------------------------------------------------------------

  /** The group named by a text of the form: space, "[group", spaces, digits, "]". */
  function GroupSuffix(s: string): Option<nat> {
    if |s| < 7 || !IsSpace(s[0]) || s[1..7] != "[group" then None
    else
      var rest := s[7..];
      var spaces := SpaceRun(rest);
      var digits := DigitRun(rest[spaces..]);
      if spaces == 0 || digits == 0 || rest[spaces + digits..] != "]" then None
      else Some(Value(rest[spaces..][..digits]))
  }

  /** Where the first group suffix that reaches the end begins, or the length if there is none. */
  function SuffixStart(token: string, from: nat): (at: nat)
    requires from <= |token|
    ensures from <= at <= |token|
    ensures forall k :: from <= k < at ==> GroupSuffix(token[k..]).None?
    ensures at < |token| ==> GroupSuffix(token[at..]).Some?
    decreases |token| - from
  {
    if from == |token| || GroupSuffix(token[from..]).Some? then from else SuffixStart(token, from + 1)
  }

  /** A spec is at least one character long, and as short as possible. */
  function ParseEntry(token: string): Task
    requires token != ""
  {
    var at := SuffixStart(token, 1);
    if at == |token| then Task(token, 0) else Task(token[..at], GroupSuffix(token[at..]).value)
  }

  function Entries(pieces: seq<string>): Queue {
    if pieces == [] then []
    else
      var token := Strip(pieces[|pieces| - 1]);
      Entries(pieces[..|pieces| - 1]) + if token == "" then [] else [ParseEntry(token)]
  }

  /** The worker and the stripped list of suites of a line. */
  function ParsePlanLine(line: string): Option<(nat, string)> {
    if |line| < 6 || line[..6] != "worker" then None
    else
      var rest := line[6..];
      var digits := DigitRun(rest);
      if digits == 0 || digits == |rest| || rest[digits] != ':' then None
      else Some((Value(rest[..digits]), Strip(rest[digits + 1..])))
  }

  function ReadLine(plan: map<nat, Queue>, raw: string, lineNumber: nat): Outcome {
    var line := Strip(raw);
    if line == "" then Loaded(plan)
    else
      match ParsePlanLine(line)
      case None => Unparsable(lineNumber)
      case Some((worker, suites)) => Loaded(plan[worker := Entries(Split(suites, ','))])
  }

  function Read(lines: seq<string>): Outcome {
    if lines == [] then Loaded(map[])
    else
      match Read(lines[..|lines| - 1])
      case Loaded(plan) => ReadLine(plan, lines[|lines| - 1], |lines|)
      case Unparsable(line) => Unparsable(line)
  }

  // ---------------------------------------------------------------------------
  // The programs
  // ---------------------------------------------------------------------------

  method WritePlan(queues: seq<Queue>) returns (text: string)
    ensures text == PlanText(queues)
  {
    text := "";
    for worker := 0 to |queues|
      invariant text == PlanText(queues[..worker])
    {
      assert queues[..worker + 1][..worker] == queues[..worker];
      text := text + PlanLine(worker, queues[worker]) + "\n";
    }
    assert queues[..|queues|] == queues;
  }

  method LoadEntries(suites: string) returns (entries: Queue)
    ensures entries == Entries(Split(suites, ','))
  {
    entries := [];
    var pieces := Split(suites, ',');
    for k := 0 to |pieces|
      invariant entries == Entries(pieces[..k])
    {
      assert pieces[..k + 1][..k] == pieces[..k];
      var token := Strip(pieces[k]);
      if token == "" {
        continue;
      }
      entries := entries + [ParseEntry(token)];
    }
    assert pieces[..|pieces|] == pieces;
  }

  lemma {:induction false} FirstErrorStays(lines: seq<string>, l: nat)
    requires l <= |lines| && Read(lines[..l]).Unparsable?
    ensures Read(lines) == Read(lines[..l])
    decreases |lines|
  {
    if l == |lines| {
      assert lines[..l] == lines;
    } else {
      assert lines[..|lines| - 1][..l] == lines[..l];
      FirstErrorStays(lines[..|lines| - 1], l);
    }
  }

  method LoadPlan(text: string) returns (outcome: Outcome)
    ensures outcome == Read(Lines(text))
  {
    var plan: map<nat, Queue> := map[];
    var lines := Lines(text);
    for l := 0 to |lines|
      invariant Read(lines[..l]) == Loaded(plan)
    {
      assert lines[..l + 1][..l] == lines[..l];
      var line := Strip(lines[l]);
      if line == "" {
        continue;
      }
      match ParsePlanLine(line) {
        case None =>
          FirstErrorStays(lines, l + 1);
          return Unparsable(l + 1);
        case Some(parsed) =>
          var entries := LoadEntries(parsed.1);
          plan := plan[parsed.0 := entries];
      }
    }
    assert lines[..|lines|] == lines;
    outcome := Loaded(plan);
  }

  // ---------------------------------------------------------------------------
  // Which tasks survive
  // ---------------------------------------------------------------------------

  /** Non-empty, free of commas and line ends, and not starting with a space. */
  ghost predicate IsClean(task: Task) {
    && task.spec != "" && !IsSpace(task.spec[0])
    && IsFree(task.spec, ',') && IsFree(task.spec, '\n') && IsFree(task.spec, '\r')
  }

  ghost predicate EndsInGroupSuffix(spec: string) {
    exists k, space, spaces, digits :: 1 <= k < |spec| && IsGroupSuffix(spec[k..], space, spaces, digits)
  }

  /** A clean task; without a group, its spec must also end in neither a space nor a group suffix. */
  ghost predicate IsReadable(task: Task) {
    && IsClean(task)
    && (task.group == 0 ==> !IsSpace(task.spec[|task.spec| - 1]) && !EndsInGroupSuffix(task.spec))
  }

  ghost predicate AllClean(queues: seq<Queue>) {
    forall i, j :: 0 <= i < |queues| && 0 <= j < |queues[i]| ==> IsClean(queues[i][j])
  }

  ghost predicate AllReadable(queues: seq<Queue>) {
    forall i, j :: 0 <= i < |queues| && 0 <= j < |queues[i]| ==> IsReadable(queues[i][j])
  }

  // ---------------------------------------------------------------------------
  // One label
  // ---------------------------------------------------------------------------

  /** A space, "[group", spaces, digits and a closing bracket. */
  ghost predicate IsGroupSuffix(s: string, space: char, spaces: string, digits: string) {
    && IsSpace(space) && AllSpace(spaces) && spaces != "" && AllDigits(digits) && digits != ""
    && s == [space] + "[group" + (spaces + (digits + "]"))
  }

  lemma GroupSuffixReads(s: string, space: char, spaces: string, digits: string)
    requires IsGroupSuffix(s, space, spaces, digits)
    ensures GroupSuffix(s) == Some(Value(digits))
  {
    var rest := spaces + (digits + "]");
    assert s[1..7] == "[group" && s[7..] == rest;
    assert (digits + "]")[0] == digits[0];
    SpaceRunOf(spaces, digits + "]");
    assert rest[|spaces|..] == digits + "]";
    DigitRunOf(digits, "]");
    assert (digits + "]")[..|digits|] == digits && rest[|spaces| + |digits|..] == "]";
  }

  lemma GroupSuffixSplits(s: string) returns (space: char, spaces: string, digits: string)
    requires GroupSuffix(s).Some?
    ensures IsGroupSuffix(s, space, spaces, digits)
  {
    var rest := s[7..];
    space, spaces := s[0], rest[..SpaceRun(rest)];
    var number := rest[SpaceRun(rest)..];
    digits := number[..DigitRun(number)];
    assert number == digits + "]" && rest == spaces + number;
    assert s == [space] + s[1..7] + rest;
  }

  lemma GroupTagReadsBack(group: nat)
    ensures GroupSuffix(GroupTag(group)) == Some(group)
  {
    var digits := Decimal(group);
    assert GroupTag(group) == " [group" + (" " + (digits + "]"));
    GroupSuffixReads(GroupTag(group), ' ', " ", digits);
    DecimalRoundTrip(group);
  }

  /** A group suffix has no bracket but the one after its first space. */
  lemma OneBracket(s: string, k: nat)
    requires GroupSuffix(s).Some? && 2 <= k < |s|
    ensures s[k] != '['
  {
    var rest := s[7..];
    var spaces := SpaceRun(rest);
    var digits := DigitRun(rest[spaces..]);
    if k < 7 {
      assert s[k] == s[1..7][k - 1];
    } else if k - 7 < spaces {
      assert s[k] == rest[..spaces][k - 7];
    } else if k - 7 < spaces + digits {
      assert s[k] == rest[spaces..][..digits][k - 7 - spaces];
    } else {
      assert s[k] == rest[spaces + digits..][k - 7 - spaces - digits];
    }
  }

  /** No text ends in two group suffixes. */
  lemma SuffixIsUnique(token: string, k: nat, m: nat)
    requires k < m <= |token| && GroupSuffix(token[k..]).Some?
    ensures GroupSuffix(token[m..]).None?
  {
    if |token| - m >= 7 {
      OneBracket(token[k..], m + 1 - k);
      assert token[m..][1..7][0] == token[m + 1];
    }
  }

  lemma GroupedLabelReadsBack(task: Task)
    requires IsClean(task) && task.group != 0
    ensures Strip(Label(task)) == Label(task) && ParseEntry(Label(task)) == task
  {
    var token, n := Label(task), |task.spec|;
    StripDropsSpaces("", token, "");
    assert "" + token + "" == token;
    assert token[n..] == GroupTag(task.group) && token[..n] == task.spec;
    GroupTagReadsBack(task.group);
    var at := SuffixStart(token, 1);
    if at < n {
      SuffixIsUnique(token, at, n);
    }
  }

  lemma StripOfUnindented(s: string) returns (b: string)
    requires s != "" && !IsSpace(s[0])
    ensures s == Strip(s) + b && AllSpace(b) && Strip(s) != "" && IsTrimmed(Strip(s))
  {
    var a, rest := StripSplits(s);
    assert s[0] == (a + Strip(s) + rest)[0];
    assert a == "";
    b := rest;
  }

  lemma TrimmedReadsBackIff(spec: string)
    requires spec != ""
    ensures ParseEntry(spec) == Task(spec, 0) <==> !EndsInGroupSuffix(spec)
  {
    var at := SuffixStart(spec, 1);
    if at < |spec| {
      var space, spaces, digits := GroupSuffixSplits(spec[at..]);
      assert EndsInGroupSuffix(spec);
      assert |ParseEntry(spec).spec| < |spec|;
    } else if k, space, spaces, digits :| 1 <= k < |spec| && IsGroupSuffix(spec[k..], space, spaces, digits) {
      GroupSuffixReads(spec[k..], space, spaces, digits);
      assert false;
    }
  }

  lemma PlainLabelReadsBackIff(task: Task)
    requires IsClean(task) && task.group == 0
    ensures Strip(task.spec) != ""
    ensures ParseEntry(Strip(task.spec)) == task <==> IsReadable(task)
  {
    var spec := task.spec;
    var b := StripOfUnindented(spec);
    if b == "" {
      assert Strip(spec) == spec;
      TrimmedReadsBackIff(spec);
    } else {
      assert spec[|spec| - 1] == b[|b| - 1];
      assert |ParseEntry(Strip(spec)).spec| < |spec|;
    }
  }

  /** A clean task's label reads back as the task exactly when the task is readable. */
  lemma LabelReadsBackIff(task: Task)
    requires IsClean(task)
    ensures Strip(Label(task)) != ""
    ensures ParseEntry(Strip(Label(task))) == task <==> IsReadable(task)
  {
    if task.group != 0 {
      GroupedLabelReadsBack(task);
    } else {
      PlainLabelReadsBackIff(task);
    }
  }

  // ---------------------------------------------------------------------------
  // One line
  // ---------------------------------------------------------------------------

  ghost predicate SameStripped(p: seq<string>, q: seq<string>) {
    |p| == |q| && forall k :: 0 <= k < |p| ==> Strip(p[k]) == Strip(q[k])
  }

  lemma {:induction false} SameStrippedSameEntries(p: seq<string>, q: seq<string>)
    requires SameStripped(p, q)
    ensures Entries(p) == Entries(q)
  {
    if p != [] {
      SameStrippedSameEntries(p[..|p| - 1], q[..|q| - 1]);
    }
  }

  lemma {:induction false} LeadingSpacesDoNotMatter(a: string, s: string)
    requires AllSpace(a)
    ensures SameStripped(Split(a + s, ','), Split(s, ','))
  {
    if a == "" {
      assert a + s == s;
    } else {
      assert a + s == [a[0]] + (a[1..] + s);
      SplitOfCons(a[0], a[1..] + s, ',');
      LeadingSpacesDoNotMatter(a[1..], s);
      var first := Split(a[1..] + s, ',')[0];
      StripIgnoresSpaces([a[0]], first, "");
      assert [a[0]] + first + "" == [a[0]] + first;
    }
  }

  lemma SuffixedSameStripped(pieces: seq<string>, b: string)
    requires |pieces| > 0 && AllSpace(b)
    ensures SameStripped(Suffixed(pieces, b), pieces)
  {
    var last := pieces[|pieces| - 1];
    StripIgnoresSpaces("", last, b);
    assert "" + last + b == last + b;
  }

  lemma TrailingSpacesDoNotMatter(s: string, b: string)
    requires AllSpace(b)
    ensures SameStripped(Split(s + b, ','), Split(s, ','))
  {
    SplitExtendsLast(s, b, ',');
    SuffixedSameStripped(Split(s, ','), b);
  }

  lemma StrippedTextSameEntries(s: string)
    ensures Entries(Split(Strip(s), ',')) == Entries(Split(s, ','))
  {
    var a, b := StripSplits(s);
    LeadingSpacesDoNotMatter(a, Strip(s));
    TrailingSpacesDoNotMatter(a + Strip(s), b);
    SameStrippedSameEntries(Split(a + Strip(s), ','), Split(Strip(s), ','));
    SameStrippedSameEntries(Split(s, ','), Split(a + Strip(s), ','));
  }

  ghost function Labels(queue: Queue): (texts: seq<string>)
    ensures |texts| == |queue| && forall j :: 0 <= j < |queue| ==> texts[j] == Label(queue[j])
  {
    if queue == [] then [] else Labels(queue[..|queue| - 1]) + [Label(queue[|queue| - 1])]
  }

  lemma LabelIsFree(task: Task, c: char)
    requires IsFree(task.spec, c) && (c == ',' || c == '\n' || c == '\r')
    ensures IsFree(Label(task), c)
  {
    if task.group != 0 {
      assert IsFree(GroupTag(task.group), c);
    }
  }

  lemma OneMoreEntry(pieces: seq<string>, piece: string)
    requires Strip(piece) != ""
    ensures Entries(pieces + [piece]) == Entries(pieces) + [ParseEntry(Strip(piece))]
  {
    assert (pieces + [piece])[..|pieces|] == pieces;
  }

  /** One more label after a comma is one more piece. */
  lemma OneMorePiece(joined: string, text: string)
    requires IsFree(text, ',')
    ensures Split(joined + ", " + text, ',') == Split(joined, ',') + [" " + text]
    ensures Strip(" " + text) == Strip(text)
  {
    assert joined + ", " + text == joined + [','] + (" " + text);
    SplitAtSeparator(joined, " " + text, ',');
    SplitOfFree(" " + text, ',');
    StripIgnoresSpaces(" ", text, "");
    assert " " + text + "" == " " + text;
  }

  lemma SameStrippedOneMore(p: seq<string>, q: seq<string>, x: string, y: string)
    requires SameStripped(p, q) && Strip(x) == Strip(y)
    ensures SameStripped(p + [x], q + [y])
  {
  }

  lemma {:induction false} JoinedPieces(queue: Queue)
    requires queue != [] && forall j :: 0 <= j < |queue| ==> IsFree(queue[j].spec, ',')
    ensures SameStripped(Split(Join(queue), ','), Labels(queue))
  {
    var front, task := queue[..|queue| - 1], queue[|queue| - 1];
    LabelIsFree(task, ',');
    if |queue| == 1 {
      SplitOfFree(Label(task), ',');
    } else {
      JoinedPieces(front);
      OneMorePiece(Join(front), Label(task));
      SameStrippedOneMore(Split(Join(front), ','), Labels(front), " " + Label(task), Label(task));
    }
  }

  lemma JoinedEntries(queue: Queue)
    requires forall j :: 0 <= j < |queue| ==> IsClean(queue[j])
    ensures Entries(Split(Join(queue), ',')) == Entries(Labels(queue))
  {
    if queue == [] {
      assert Entries([""]) == Entries([]);
    } else {
      JoinedPieces(queue);
      SameStrippedSameEntries(Split(Join(queue), ','), Labels(queue));
    }
  }

  lemma {:induction false} EntriesOfTokens(pieces: seq<string>)
    requires forall j :: 0 <= j < |pieces| ==> Strip(pieces[j]) != ""
    ensures |Entries(pieces)| == |pieces|
    ensures forall j :: 0 <= j < |pieces| ==> Entries(pieces)[j] == ParseEntry(Strip(pieces[j]))
  {
    if pieces != [] {
      var front, piece := pieces[..|pieces| - 1], pieces[|pieces| - 1];
      EntriesOfTokens(front);
      OneMoreEntry(front, piece);
      assert front + [piece] == pieces;
    }
  }

  /** The labels of a clean queue read back as the queue exactly when all its tasks are readable. */
  lemma LabelsReadBackIff(queue: Queue)
    requires forall j :: 0 <= j < |queue| ==> IsClean(queue[j])
    ensures Entries(Labels(queue)) == queue <==> forall j :: 0 <= j < |queue| ==> IsReadable(queue[j])
  {
    var texts := Labels(queue);
    forall j | 0 <= j < |queue| ensures Strip(texts[j]) != "" {
      LabelReadsBackIff(queue[j]);
    }
    EntriesOfTokens(texts);
    forall j | 0 <= j < |queue| ensures Entries(texts)[j] == queue[j] <==> IsReadable(queue[j]) {
      LabelReadsBackIff(queue[j]);
    }
  }

  /** "worker", a number, a colon and the suites. */
  ghost predicate IsPlanLine(line: string, digits: string, suites: string) {
    digits != "" && AllDigits(digits) && line == "worker" + digits + ":" + suites
  }

  lemma PlanLineReads(line: string, digits: string, suites: string)
    requires IsPlanLine(line, digits, suites)
    ensures ParsePlanLine(line) == Some((Value(digits), Strip(suites)))
  {
    assert line[..6] == "worker";
    assert line[6..] == digits + (":" + suites);
    DigitRunOf(digits, ":" + suites);
    assert line[6..][..|digits|] == digits && line[6..][|digits| + 1..] == suites;
  }

  lemma PlanLineSplits(line: string) returns (digits: string, suites: string)
    requires ParsePlanLine(line).Some?
    ensures IsPlanLine(line, digits, suites)
  {
    var rest := line[6..];
    digits, suites := rest[..DigitRun(rest)], rest[DigitRun(rest) + 1..];
    assert line == "worker" + rest && rest == digits + ":" + suites;
  }

  /** Stripping a line whose head has no outer space strips only its tail. */
  lemma StripTail(head: string, tail: string) returns (rest: string)
    requires head != "" && IsTrimmed(head)
    ensures Strip(head + tail) == head + rest && Strip(rest) == Strip(tail)
  {
    var a, b := StripSplits(tail);
    if Strip(tail) == "" {
      rest := "";
      assert head + tail == "" + head + (a + b);
      StripDropsSpaces("", head, a + b);
      StripDropsSpaces("", "", "");
    } else {
      rest := a + Strip(tail);
      assert head + tail == "" + (head + rest) + b;
      StripDropsSpaces("", head + rest, b);
      StripDropsSpaces(a, Strip(tail), "");
      assert rest + "" == rest;
    }
  }

  /** The written line of a worker parses as that worker and the joined labels. */
  lemma PlanLineParses(worker: nat, queue: Queue)
    ensures Strip(PlanLine(worker, queue)) != ""
    ensures ParsePlanLine(Strip(PlanLine(worker, queue))) == Some((worker, Strip(Join(queue))))
  {
    var head, joined := "worker" + Decimal(worker) + ":", Join(queue);
    assert PlanLine(worker, queue) == head + (" " + joined);
    var rest := StripTail(head, " " + joined);
    PlanLineReads(head + rest, Decimal(worker), rest);
    DecimalRoundTrip(worker);
    StripIgnoresSpaces(" ", joined, "");
    assert " " + joined + "" == " " + joined;
  }

  // ---------------------------------------------------------------------------
  // The whole file
  // ---------------------------------------------------------------------------

  ghost function PlanLines(queues: seq<Queue>): (lines: seq<string>)
    ensures |lines| == |queues|
    ensures forall i :: 0 <= i < |queues| ==> lines[i] == PlanLine(i, queues[i])
  {
    if queues == [] then []
    else PlanLines(queues[..|queues| - 1]) + [PlanLine(|queues| - 1, queues[|queues| - 1])]
  }

  lemma {:induction false} JoinIsFree(queue: Queue, c: char)
    requires c == '\n' || c == '\r'
    requires forall j :: 0 <= j < |queue| ==> IsClean(queue[j])
    ensures IsFree(Join(queue), c)
  {
    if queue != [] {
      LabelIsFree(queue[|queue| - 1], c);
      JoinIsFree(queue[..|queue| - 1], c);
    }
  }

  lemma PlanLineIsFree(worker: nat, queue: Queue, c: char)
    requires c == '\n' || c == '\r'
    requires forall j :: 0 <= j < |queue| ==> IsClean(queue[j])
    ensures IsFree(PlanLine(worker, queue), c)
  {
    JoinIsFree(queue, c);
  }

  lemma {:induction false} PlanTextSplits(queues: seq<Queue>)
    requires AllClean(queues)
    ensures IsFree(PlanText(queues), '\r')
    ensures Split(PlanText(queues), '\n') == PlanLines(queues) + [""]
  {
    if queues != [] {
      var front, last := queues[..|queues| - 1], |queues| - 1;
      var line := PlanLine(last, queues[last]);
      PlanTextSplits(front);
      PlanLineIsFree(last, queues[last], '\n');
      PlanLineIsFree(last, queues[last], '\r');
      SplitExtendsLast(PlanText(front), line, '\n');
      SplitAtSeparator(PlanText(front) + line, "", '\n');
      assert PlanText(front) + line + ['\n'] + "" == PlanText(queues);
      assert "" + line == line;
    }
  }

  ghost function PlanOf(queues: seq<Queue>): map<nat, Queue> {
    map i: nat | i < |queues| :: queues[i]
  }

  /** The queues as their labels read. */
  ghost function Reread(queues: seq<Queue>): (again: seq<Queue>)
    ensures |again| == |queues| && forall i :: 0 <= i < |queues| ==> again[i] == Entries(Labels(queues[i]))
  {
    if queues == [] then [] else Reread(queues[..|queues| - 1]) + [Entries(Labels(queues[|queues| - 1]))]
  }

  lemma OneMoreQueue(queues: seq<Queue>, queue: Queue)
    ensures PlanOf(queues + [queue]) == PlanOf(queues)[|queues| := queue]
  {
  }

  lemma ReadOneMore(lines: seq<string>, line: string, plan: map<nat, Queue>)
    requires Read(lines) == Loaded(plan)
    ensures Read(lines + [line]) == ReadLine(plan, line, |lines| + 1)
  {
    assert (lines + [line])[..|lines|] == lines;
  }

  lemma PlanLineAdds(plan: map<nat, Queue>, worker: nat, queue: Queue)
    requires forall j :: 0 <= j < |queue| ==> IsClean(queue[j])
    ensures ReadLine(plan, PlanLine(worker, queue), worker + 1) == Loaded(plan[worker := Entries(Labels(queue))])
  {
    PlanLineParses(worker, queue);
    StrippedTextSameEntries(Join(queue));
    JoinedEntries(queue);
  }

  lemma {:induction false} PlanLinesRead(queues: seq<Queue>)
    requires AllClean(queues)
    ensures Read(PlanLines(queues)) == Loaded(PlanOf(Reread(queues)))
  {
    if queues != [] {
      var front, last := queues[..|queues| - 1], |queues| - 1;
      PlanLinesRead(front);
      PlanLineAdds(PlanOf(Reread(front)), last, queues[last]);
      ReadOneMore(PlanLines(front), PlanLine(last, queues[last]), PlanOf(Reread(front)));
      OneMoreQueue(Reread(front), Entries(Labels(queues[last])));
    }
  }

  // ---------------------------------------------------------------------------
  // Which files load
  // ---------------------------------------------------------------------------

  /** A line that is blank, or names a worker and its suites. */
  ghost predicate IsLegal(raw: string) {
    Strip(raw) == "" || exists digits, suites :: IsPlanLine(Strip(raw), digits, suites)
  }

  lemma ReadLineIff(plan: map<nat, Queue>, raw: string, lineNumber: nat)
    ensures if IsLegal(raw) then ReadLine(plan, raw, lineNumber).Loaded?
            else ReadLine(plan, raw, lineNumber) == Unparsable(lineNumber)
  {
    var line := Strip(raw);
    if line != "" {
      if ParsePlanLine(line).Some? {
        var digits, suites := PlanLineSplits(line);
      } else if digits, suites :| IsPlanLine(line, digits, suites) {
        PlanLineReads(line, digits, suites);
      }
    }
  }

  /** A file loads exactly if all its lines are legal; otherwise the first line that is not is reported. */
  lemma {:induction false} LoadsIff(lines: seq<string>)
    ensures Read(lines).Loaded? <==> forall k :: 0 <= k < |lines| ==> IsLegal(lines[k])
    ensures Read(lines).Unparsable? ==>
              var n := Read(lines).line;
              1 <= n <= |lines| && !IsLegal(lines[n - 1]) && forall k :: 0 <= k < n - 1 ==> IsLegal(lines[k])
  {
    hide IsLegal, ReadLine;
    if lines != [] {
      var front, last := lines[..|lines| - 1], lines[|lines| - 1];
      LoadsIff(front);
      assert forall k :: 0 <= k < |front| ==> front[k] == lines[k];
      if Read(front).Loaded? {
        ReadLineIff(Read(front).plan, last, |lines|);
      }
    }
  }

  /** The line names this worker. */
  ghost predicate Names(raw: string, worker: nat) {
    exists digits, suites :: IsPlanLine(Strip(raw), digits, suites) && Value(digits) == worker
  }

  /** The line gives this worker this queue. */
  ghost predicate Gives(raw: string, worker: nat, queue: Queue) {
    exists digits, suites ::
      IsPlanLine(Strip(raw), digits, suites) && Value(digits) == worker && queue == Entries(Split(suites, ','))
  }

  /** A plan line changes the queue of the worker it names, and no other. */
  lemma ReadLineGives(plan: map<nat, Queue>, raw: string, lineNumber: nat, worker: nat)
    requires ReadLine(plan, raw, lineNumber).Loaded?
    ensures var after := ReadLine(plan, raw, lineNumber).plan;
            if Names(raw, worker) then worker in after && Gives(raw, worker, after[worker])
            else (worker in after <==> worker in plan) && (worker in plan ==> after[worker] == plan[worker])
  {
    var line := Strip(raw);
    if line != "" {
      var digits, suites := PlanLineSplits(line);
      PlanLineReads(line, digits, suites);
      StrippedTextSameEntries(suites);
      if d, s :| IsPlanLine(line, d, s) && Value(d) == worker {
        PlanLineReads(line, d, s);
      }
    }
  }

  /** Line k gives this worker this queue, and no later line names the worker. */
  ghost predicate IsLastFor(lines: seq<string>, worker: nat, queue: Queue, k: int) {
    0 <= k < |lines| && Gives(lines[k], worker, queue) && forall l :: k < l < |lines| ==> !Names(lines[l], worker)
  }

  lemma OtherLineFollows(front: seq<string>, line: string, worker: nat, queue: Queue, k: int)
    requires IsLastFor(front, worker, queue, k) && !Names(line, worker)
    ensures IsLastFor(front + [line], worker, queue, k)
  {
    hide Names, Gives;
  }

  ghost predicate IsDecided(lines: seq<string>, plan: map<nat, Queue>, worker: nat) {
    if worker in plan then exists k :: IsLastFor(lines, worker, plan[worker], k)
    else forall k :: 0 <= k < |lines| ==> !Names(lines[k], worker)
  }

  lemma StaysDecided(front: seq<string>, before: map<nat, Queue>, line: string, lineNumber: nat, worker: nat)
    requires IsDecided(front, before, worker) && ReadLine(before, line, lineNumber).Loaded?
    ensures IsDecided(front + [line], ReadLine(before, line, lineNumber).plan, worker)
  {
    hide Names, Gives, ReadLine, IsLastFor;
    var after := ReadLine(before, line, lineNumber).plan;
    ReadLineGives(before, line, lineNumber, worker);
    if Names(line, worker) {
      LastLineGives(front, line, worker, after[worker]);
    } else if worker in before {
      var k :| IsLastFor(front, worker, before[worker], k);
      OtherLineFollows(front, line, worker, before[worker], k);
    }
  }

  lemma LastLineGives(front: seq<string>, line: string, worker: nat, queue: Queue)
    requires Gives(line, worker, queue)
    ensures IsLastFor(front + [line], worker, queue, |front|)
  {
  }

  /** The last line that names a worker decides on its queue; a worker that no line names has none. */
  lemma {:induction false} LastLineDecides(lines: seq<string>, worker: nat)
    requires Read(lines).Loaded?
    ensures IsDecided(lines, Read(lines).plan, worker)
  {
    hide IsDecided, ReadLine;
    if lines == [] {
      NothingIsDecided(worker);
    } else {
      var front, last := lines[..|lines| - 1], |lines| - 1;
      LastLineDecides(front, worker);
      StaysDecided(front, Read(front).plan, lines[last], |lines|, worker);
      assert front + [lines[last]] == lines;
    }
  }

  lemma NothingIsDecided(worker: nat)
    ensures IsDecided([], map[], worker)
  {
  }

  /** A plan of clean tasks always loads, line for line. */
  lemma CleanPlanLoads(queues: seq<Queue>)
    requires AllClean(queues)
    ensures Read(Lines(PlanText(queues))) == Loaded(PlanOf(Reread(queues)))
  {
    PlanTextSplits(queues);
    TranslateKeeps(PlanText(queues));
    PlanLinesRead(queues);
    ReadOneMore(PlanLines(queues), "", PlanOf(Reread(queues)));
  }

  lemma EntryIsClean(token: string)
    requires token != "" && IsTrimmed(token)
    requires IsFree(token, ',') && IsFree(token, '\n') && IsFree(token, '\r')
    ensures IsClean(ParseEntry(token))
  {
  }

  lemma {:induction false} EntriesAreClean(pieces: seq<string>)
    requires forall k :: 0 <= k < |pieces| ==> IsFree(pieces[k], ',') && IsLineText(pieces[k])
    ensures forall j :: 0 <= j < |Entries(pieces)| ==> IsClean(Entries(pieces)[j])
  {
    if pieces != [] {
      var piece := pieces[|pieces| - 1];
      EntriesAreClean(pieces[..|pieces| - 1]);
      StripKeepsFree(piece, ',');
      StripKeepsFree(piece, '\n');
      StripKeepsFree(piece, '\r');
      var _, _ := StripSplits(piece);
      if Strip(piece) != "" {
        EntryIsClean(Strip(piece));
      }
    }
  }

  lemma SuitesAreClean(suites: string)
    requires IsLineText(suites)
    ensures forall j :: 0 <= j < |Entries(Split(suites, ','))| ==> IsClean(Entries(Split(suites, ','))[j])
  {
    PiecesAreFree(suites, ',', '\n');
    PiecesAreFree(suites, ',', '\r');
    EntriesAreClean(Split(suites, ','));
  }

  ghost predicate IsCleanPlan(plan: map<nat, Queue>) {
    forall w :: w in plan ==> forall j :: 0 <= j < |plan[w]| ==> IsClean(plan[w][j])
  }

  lemma ReadLineIsClean(plan: map<nat, Queue>, raw: string, lineNumber: nat)
    requires IsCleanPlan(plan) && IsLineText(raw)
    ensures var outcome := ReadLine(plan, raw, lineNumber); outcome.Loaded? ==> IsCleanPlan(outcome.plan)
  {
    StripKeepsFree(raw, '\n');
    StripKeepsFree(raw, '\r');
    var line := Strip(raw);
    if line != "" && ParsePlanLine(line).Some? {
      var rest := line[6..];
      var tail := rest[DigitRun(rest) + 1..];
      StripKeepsFree(tail, '\n');
      StripKeepsFree(tail, '\r');
      SuitesAreClean(Strip(tail));
    }
  }

  /** Whatever the file, every task read from it is clean. */
  lemma {:induction false} LoadedIsClean(lines: seq<string>)
    requires forall k :: 0 <= k < |lines| ==> IsLineText(lines[k])
    ensures Read(lines).Loaded? ==> IsCleanPlan(Read(lines).plan)
  {
    if lines != [] {
      LoadedIsClean(lines[..|lines| - 1]);
      var before := Read(lines[..|lines| - 1]);
      if before.Loaded? {
        ReadLineIsClean(before.plan, lines[|lines| - 1], |lines|);
      }
    }
  }

  lemma RoundTripIsClean(queues: seq<Queue>)
    requires Read(Lines(PlanText(queues))) == Loaded(PlanOf(queues))
    ensures AllClean(queues)
  {
    LinesHaveNoLineEnds(PlanText(queues));
    LoadedIsClean(Lines(PlanText(queues)));
    forall i, j | 0 <= i < |queues| && 0 <= j < |queues[i]| ensures IsClean(queues[i][j]) {
      assert i in PlanOf(queues);
    }
  }

  lemma SamePlanIff(queues: seq<Queue>, others: seq<Queue>)
    requires |queues| == |others|
    ensures PlanOf(queues) == PlanOf(others) <==> queues == others
  {
    if PlanOf(queues) == PlanOf(others) {
      forall i: nat | i < |queues| ensures queues[i] == others[i] {
        assert PlanOf(queues)[i] == PlanOf(others)[i];
      }
    }
  }

  lemma RereadIsSameIff(queues: seq<Queue>)
    requires AllClean(queues)
    ensures Reread(queues) == queues <==> AllReadable(queues)
  {
    forall i: nat | i < |queues|
      ensures Reread(queues)[i] == queues[i] <==> forall j :: 0 <= j < |queues[i]| ==> IsReadable(queues[i][j])
    {
      LabelsReadBackIff(queues[i]);
    }
  }

  /** Loading the written plan gives every worker's tasks back, empty queues included, exactly when all tasks are readable. */
  lemma PlanRoundTripIff(queues: seq<Queue>)
    ensures Read(Lines(PlanText(queues))) == Loaded(PlanOf(queues)) <==> AllReadable(queues)
  {
    if Read(Lines(PlanText(queues))) == Loaded(PlanOf(queues)) {
      RoundTripIsClean(queues);
    }
    if AllClean(queues) {
      CleanPlanLoads(queues);
      SamePlanIff(Reread(queues), queues);
      RereadIsSameIff(queues);
    }
  }

  lemma LabelsLookLike()
    ensures Join([Task("a", 0), Task("b", 1)]) == "a, b [group 1]" && Join([]) == ""
  {
    assert Decimal(1) == "1";
    assert Label(Task("a", 0)) == "a" && Label(Task("b", 1)) == "b [group 1]";
    var queue := [Task("a", 0), Task("b", 1)];
    assert queue[..1] == [Task("a", 0)] && Join(queue[..1]) == "a";
  }

  lemma LinesLookLike()
    ensures PlanLine(0, [Task("a", 0), Task("b", 1)]) == "worker0: a, b [group 1]" && PlanLine(1, []) == "worker1: "
  {
    assert Decimal(0) == "0" && Decimal(1) == "1";
    hide Join, Decimal;
    LabelsLookLike();
    assert "worker" + "0" + ": " == "worker0: " && "worker" + "1" + ": " == "worker1: ";
  }

  /** What a plan looks like. */
  lemma PlanLooksLike()
    ensures PlanText([[Task("a", 0), Task("b", 1)], []]) == "worker0: a, b [group 1]\nworker1: \n"
  {
    hide Join, PlanLine;
    var queue := [Task("a", 0), Task("b", 1)];
    var queues: seq<Queue> := [queue, []];
    LinesLookLike();
    assert queues[..1] == [queue] && [queue][..0] == [];
    assert PlanText([queue]) == "worker0: a, b [group 1]\n";
  }

  /** A spec that looks like a label is read as the task with that label. */
  lemma LookalikeIsConfused()
    ensures "a [group 1]" == Label(Task("a", 1))
    ensures var queues := [[Task("a [group 1]", 0)]];
            && Read(Lines(PlanText(queues))) != Loaded(PlanOf(queues))
            && Read(Lines(PlanText(queues))) == Loaded(PlanOf([[Task("a", 1)]]))
  {
    var spec := "a [group 1]";
    assert Decimal(1) == "1";
    assert Label(Task("a", 1)) == spec == Label(Task(spec, 0));
    var queues, others := [[Task(spec, 0)]], [[Task("a", 1)]];
    assert queues[..0] == others[..0] == [];
    assert PlanText(queues) == PlanText(others);
    assert IsReadable(Task("a", 1));
    PlanRoundTripIff(others);
    assert PlanOf(queues)[0] != PlanOf(others)[0];
  }
}
