/**
 * Reports: the options of the \show command, and the arguments passed to the report's function.
 *
 * A command line is taken as the option events it raises, in order, followed by its plain arguments.
 */
module Reports {
  import opened Options

  datatype ValueType = StringType | BoolType | IntegerType | FloatType

  datatype Value = StringValue(text: string) | BoolValue(flag: bool) | IntegerValue(i: int) | FloatValue(r: real)

  /** An option; an empty list of values allows any. */
  datatype ReportOption = ReportOption(name: string, kind: ValueType, required: bool, values: seq<string>)

  /** The least and the greatest number of arguments. */
  datatype Argc = Argc(least: nat, greatest: nat)

  datatype Report = Report(name: string, options: seq<ReportOption>, argc: Argc)

  /** Conversions of text to numbers; they fail on malformed text. */
  datatype Numbers = Numbers(toInteger: string -> Option<int>, toFloat: string -> Option<real>)

  datatype Event = HelpGiven | VerticalGiven | OptionGiven(index: nat, text: Option<string>)

  datatype Verdict =
    | Accepted
    | BadValue(option: string)
    | MissingOptions(names: seq<string>)
    | WrongCount(argc: nat)

  // ---------------------------------------------------------------------------
  // The signature of the report's function
  // ---------------------------------------------------------------------------

  datatype Parameter =
    | SessionParameter
    | ArgvParameter(mandatory: bool, argc: Argc)
    | OptionsParameter(mandatory: bool, options: seq<ReportOption>)

  datatype Argument = SessionArgument | ArrayArgument(items: seq<string>) | MapArgument(entries: map<string, Value>)

  predicate RequiresOptions(options: seq<ReportOption>) {
    exists k :: 0 <= k < |options| && options[k].required
  }

  /** The signature built when the report is registered. */
  function Signature(report: Report): seq<Parameter> {
    var takesOptions := report.options != [];
    var required := RequiresOptions(report.options);
    [SessionParameter] +
    (if report.argc.greatest > 0 || takesOptions then [ArgvParameter(report.argc.least > 0 || required, report.argc)] else []) +
    (if takesOptions then [OptionsParameter(required, report.options)] else [])
  }

  ghost predicate IsMandatory(parameter: Parameter) {
    parameter.SessionParameter? || parameter.mandatory
  }

  ghost predicate HasType(value: Value, kind: ValueType) {
    match kind
    case StringType => value.StringValue?
    case BoolType => value.BoolValue?
    case IntegerType => value.IntegerValue?
    case FloatType => value.FloatValue?
  }

  ghost predicate FitsOption(value: Value, option: ReportOption) {
    HasType(value, option.kind) && (value.StringValue? && option.values != [] ==> value.text in option.values)
  }

  /** Only known options with fitting values, and all the required ones. */
  ghost predicate FitsOptions(entries: map<string, Value>, options: seq<ReportOption>) {
    && (forall name :: name in entries ==>
          exists k :: 0 <= k < |options| && options[k].name == name && FitsOption(entries[name], options[k]))
    && forall k :: 0 <= k < |options| && options[k].required ==> options[k].name in entries
  }

  ghost predicate Fits(argument: Argument, parameter: Parameter) {
    match parameter
    case SessionParameter => argument.SessionArgument?
    case ArgvParameter(_, argc) => argument.ArrayArgument? && argc.least <= |argument.items| <= argc.greatest
    case OptionsParameter(_, options) => argument.MapArgument? && FitsOptions(argument.entries, options)
  }

  /** Every argument fits its parameter, and no mandatory parameter is left without one. */
  ghost predicate Matches(arguments: seq<Argument>, signature: seq<Parameter>) {
    && |arguments| <= |signature|
    && (forall i :: 0 <= i < |arguments| ==> Fits(arguments[i], signature[i]))
    && forall i :: |arguments| <= i < |signature| ==> !IsMandatory(signature[i])
  }

  /** No mandatory parameter of a report's signature comes after an optional one. */
  lemma MandatoryComeFirst(report: Report, i: nat, j: nat)
    requires i < j < |Signature(report)| && IsMandatory(Signature(report)[j])
    ensures IsMandatory(Signature(report)[i])
  {
  }

  /** A call with the session alone, with plain arguments, or with options too, matches exactly if it leaves nothing out
      that the report needs and gives nothing that the report does not take. */
  lemma MatchesIff(report: Report, items: seq<string>, entries: map<string, Value>)
    ensures Matches([SessionArgument], Signature(report)) <==>
            (report.argc.greatest == 0 && report.options == []) || (report.argc.least == 0 && NoneRequired(report.options))
    ensures Matches([SessionArgument, ArrayArgument(items)], Signature(report)) <==>
            && (report.argc.greatest > 0 || report.options != [])
            && report.argc.least <= |items| <= report.argc.greatest && NoneRequired(report.options)
    ensures Matches([SessionArgument, ArrayArgument(items), MapArgument(entries)], Signature(report)) <==>
            && report.options != [] && report.argc.least <= |items| <= report.argc.greatest
            && FitsOptions(entries, report.options)
  {
    hide FitsOptions;
    var signature := Signature(report);
    var session, withItems := [SessionArgument], [SessionArgument, ArrayArgument(items)];
    var withEntries := withItems + [MapArgument(entries)];
    assert Fits(session[0], signature[0]) && Fits(withItems[0], signature[0]) && Fits(withEntries[0], signature[0]);
    if |signature| > 1 {
      assert Fits(withItems[1], signature[1]) <==> report.argc.least <= |items| <= report.argc.greatest;
      assert Fits(withEntries[1], signature[1]) <==> report.argc.least <= |items| <= report.argc.greatest;
    }
    if |signature| > 2 {
      assert Fits(withEntries[2], signature[2]) <==> FitsOptions(entries, report.options);
    }
  }

  ghost predicate NoneRequired(options: seq<ReportOption>) {
    forall k :: 0 <= k < |options| ==> !options[k].required
  }

  // ---------------------------------------------------------------------------
  // What a command line means
  // ---------------------------------------------------------------------------

  function Convert(option: ReportOption, text: Option<string>, numbers: Numbers): Option<Value> {
    var given := if text.Some? then text.value else "";
    match option.kind
    case StringType => if option.values != [] && given !in option.values then None else Some(StringValue(given))
    case BoolType => Some(BoolValue(true))
    case IntegerType =>
      (match numbers.toInteger(given) case None => None case Some(i) => Some(IntegerValue(i)))
    case FloatType =>
      (match numbers.toFloat(given) case None => None case Some(r) => Some(FloatValue(r)))
  }

  /** The value an option takes from the text given with it: a flag is set, other values come from the text. */
  ghost predicate IsValueOf(option: ReportOption, text: Option<string>, numbers: Numbers, value: Value) {
    match value
    case StringValue(s) => option.kind.StringType? && IsText(text, s) && (option.values == [] || s in option.values)
    case BoolValue(flag) => option.kind.BoolType? && flag
    case IntegerValue(i) => option.kind.IntegerType? && exists s :: IsText(text, s) && numbers.toInteger(s) == Some(i)
    case FloatValue(r) => option.kind.FloatType? && exists s :: IsText(text, s) && numbers.toFloat(s) == Some(r)
  }

  /** No text is the empty text. */
  ghost predicate IsText(text: Option<string>, s: string) {
    text == Some(s) || (text == None && s == "")
  }

  lemma ConvertsIff(option: ReportOption, text: Option<string>, numbers: Numbers, value: Value)
    ensures Convert(option, text, numbers) == Some(value) <==> IsValueOf(option, text, numbers, value)
  {
    var given := if text.Some? then text.value else "";
    assert IsText(text, given);
  }

  ghost predicate HasValue(option: ReportOption, text: Option<string>, numbers: Numbers) {
    exists value :: IsValueOf(option, text, numbers, value)
  }

  lemma ConvertsIfAny(option: ReportOption, text: Option<string>, numbers: Numbers)
    ensures Convert(option, text, numbers).Some? <==> HasValue(option, text, numbers)
  {
    if Convert(option, text, numbers).Some? {
      ConvertsIff(option, text, numbers, Convert(option, text, numbers).value);
    } else if value :| IsValueOf(option, text, numbers, value) {
      ConvertsIff(option, text, numbers, value);
    }
  }

  ghost predicate AreEvents(report: Report, events: seq<Event>) {
    forall e :: 0 <= e < |events| && events[e].OptionGiven? ==> events[e].index < |report.options|
  }

  ghost predicate GivesOption(report: Report, events: seq<Event>, e: int, name: string) {
    0 <= e < |events| && events[e].OptionGiven? && events[e].index < |report.options| && report.options[events[e].index].name == name
  }

  /** Event e names a required option of this name. */
  ghost predicate GivesRequired(report: Report, events: seq<Event>, e: int, name: string) {
    GivesOption(report, events, e, name) && report.options[events[e].index].required
  }

  ghost predicate IsGiven(report: Report, events: seq<Event>, name: string) {
    exists e :: GivesRequired(report, events, e, name)
  }

  ghost predicate IsConvertible(report: Report, events: seq<Event>, numbers: Numbers, e: int) {
    0 <= e < |events| && events[e].OptionGiven? && events[e].index < |report.options|
    ==> HasValue(report.options[events[e].index], events[e].text, numbers)
  }

  /** The value of an option is that of the first event that gives it. */
  ghost predicate IsFirstValue(report: Report, events: seq<Event>, numbers: Numbers, name: string, value: Value) {
    exists e ::
      && GivesOption(report, events, e, name)
      && IsValueOf(report.options[events[e].index], events[e].text, numbers, value)
      && forall d :: 0 <= d < e ==> !GivesOption(report, events, d, name)
  }

  ghost predicate AreParsedOptions(report: Report, events: seq<Event>, numbers: Numbers, parsed: map<string, Value>) {
    && (forall name :: name in parsed ==> IsFirstValue(report, events, numbers, name, parsed[name]))
    && forall e, name :: GivesOption(report, events, e, name) ==> name in parsed
  }

  /** The names of the required options, in order. */
  ghost function RequiredNames(options: seq<ReportOption>): seq<string> {
    if options == [] then []
    else
      var last := options[|options| - 1];
      RequiredNames(options[..|options| - 1]) + if last.required then [last.name] else []
  }

  function Without(names: seq<string>, name: string): seq<string> {
    if names == [] then []
    else
      var front, last := Without(names[..|names| - 1], name), names[|names| - 1];
      if last == name then front else front + [last]
  }

  /** The names of the required options that no event gives, in order. */
  ghost function Missing(names: seq<string>, report: Report, events: seq<Event>): seq<string> {
    if names == [] then []
    else
      var front, last := Missing(names[..|names| - 1], report, events), names[|names| - 1];
      if IsGiven(report, events, last) then front else front + [last]
  }

  lemma {:induction false} NothingGiven(names: seq<string>, report: Report)
    ensures Missing(names, report, []) == names
  {
    if names != [] {
      NothingGiven(names[..|names| - 1], report);
    }
  }

  lemma OneMoreGives(report: Report, events: seq<Event>, event: Event, name: string)
    ensures IsGiven(report, events + [event], name) <==>
            IsGiven(report, events, name) || GivesRequired(report, [event], 0, name)
  {
    var more := events + [event];
    if e :| GivesRequired(report, events, e, name) {
      assert GivesRequired(report, more, e, name);
    }
    if GivesRequired(report, [event], 0, name) {
      assert GivesRequired(report, more, |events|, name);
    }
    if e :| GivesRequired(report, more, e, name) {
      assert e < |events| ==> GivesRequired(report, events, e, name);
    }
  }

  /** Giving a required option takes its name off the list of missing ones. */
  lemma {:induction false} MissingOneLess(names: seq<string>, report: Report, events: seq<Event>, event: Event)
    ensures var missing := Missing(names, report, events);
            Missing(names, report, events + [event]) ==
            if event.OptionGiven? && event.index < |report.options| && report.options[event.index].required
            then Without(missing, report.options[event.index].name) else missing
  {
    if names != [] {
      var front, last := names[..|names| - 1], names[|names| - 1];
      MissingOneLess(front, report, events, event);
      OneMoreGives(report, events, event, last);
      var before := Missing(front, report, events);
      assert (before + [last])[..|before|] == before;
    }
  }

  lemma {:induction false} MissingIsEmptyIff(names: seq<string>, report: Report, events: seq<Event>)
    ensures Missing(names, report, events) == [] <==>
            forall i :: 0 <= i < |names| ==> IsGiven(report, events, names[i])
  {
    if names != [] {
      var front := names[..|names| - 1];
      MissingIsEmptyIff(front, report, events);
      assert forall i :: 0 <= i < |front| ==> front[i] == names[i];
    }
  }

  lemma {:induction false} RequiredNamesAre(options: seq<ReportOption>, k: nat)
    requires k < |options| && options[k].required
    ensures options[k].name in RequiredNames(options)
  {
    if k < |options| - 1 {
      RequiredNamesAre(options[..|options| - 1], k);
    }
  }

  // ---------------------------------------------------------------------------
  // Parsing a command line
  // ---------------------------------------------------------------------------

  class ReportOptions {
    const report: Report
    var showHelp: bool
    var vertical: bool
    var missing: seq<string>
    var arguments: seq<string>
    var parsedOptions: map<string, Value>
    var parsedArguments: seq<string>

    constructor (report: Report)
      ensures this.report == report
    {
      this.report := report;
      showHelp, vertical, missing, arguments, parsedOptions, parsedArguments := false, false, [], [], map[], [];
    }

    method Reset()
      modifies this
      ensures !showHelp && !vertical && missing == RequiredNames(report.options)
      ensures arguments == [] && parsedOptions == map[] && parsedArguments == []
    {
      showHelp, vertical, missing, arguments, parsedOptions, parsedArguments := false, false, [], [], map[], [];
      for k := 0 to |report.options|
        invariant missing == RequiredNames(report.options[..k])
        invariant !showHelp && !vertical && arguments == [] && parsedOptions == map[] && parsedArguments == []
      {
        assert report.options[..k + 1][..k] == report.options[..k];
        if report.options[k].required {
          missing := missing + [report.options[k].name];
        }
      }
      assert report.options[..|report.options|] == report.options;
    }

    /** What the events so far have done. */
    ghost predicate Reflects(events: seq<Event>, numbers: Numbers)
      reads this
    {
      && (showHelp <==> HelpGiven in events) && (vertical <==> VerticalGiven in events)
      && missing == Missing(RequiredNames(report.options), report, events)
      && AreParsedOptions(report, events, numbers, parsedOptions)
    }

    /** Stores the first value of an option and takes a required one off the list of missing ones. */
    method HandleOption(index: nat, text: Option<string>, numbers: Numbers) returns (ok: bool)
      requires index < |report.options|
      modifies this`parsedOptions, this`missing
      ensures ok <==> HasValue(report.options[index], text, numbers)
      ensures var option := report.options[index];
              ok ==> && option.name in parsedOptions
                     && parsedOptions == old(parsedOptions)[option.name := parsedOptions[option.name]]
                     && (if option.name in old(parsedOptions) then parsedOptions == old(parsedOptions)
                         else IsValueOf(option, text, numbers, parsedOptions[option.name]))
                     && missing == if option.required then Without(old(missing), option.name) else old(missing)
      ensures !ok ==> parsedOptions == old(parsedOptions) && missing == old(missing)
    {
      var option := report.options[index];
      var value := Convert(option, text, numbers);
      ConvertsIfAny(option, text, numbers);
      if value.None? {
        return false;
      }
      ConvertsIff(option, text, numbers, value.value);
      if option.name !in parsedOptions {
        parsedOptions := parsedOptions[option.name := value.value];
      }
      if option.required {
        missing := Without(missing, option.name);
      }
      return true;
    }

    method HandleEvent(event: Event, ghost before: seq<Event>, numbers: Numbers) returns (ok: bool)
      requires event.OptionGiven? ==> event.index < |report.options|
      requires Reflects(before, numbers)
      modifies this`showHelp, this`vertical, this`parsedOptions, this`missing
      ensures ok <==> IsConvertible(report, [event], numbers, 0)
      ensures ok ==> Reflects(before + [event], numbers)
    {
      MissingOneLess(RequiredNames(report.options), report, before, event);
      match event {
        case HelpGiven => showHelp := true;
        case VerticalGiven => vertical := true;
        case OptionGiven(index, text) =>
          ok := HandleOption(index, text, numbers);
          if !ok {
            return false;
          }
      }
      ParsedOptionsOneMore(report, before, event, numbers, old(parsedOptions), parsedOptions);
      return true;
    }

    /** Handles the events up to the first with a bad value. */
    method HandleEvents(events: seq<Event>, numbers: Numbers) returns (handled: nat)
      requires AreEvents(report, events) && Reflects([], numbers)
      modifies this`showHelp, this`vertical, this`parsedOptions, this`missing
      ensures handled <= |events| && forall e :: 0 <= e < handled ==> IsConvertible(report, events, numbers, e)
      ensures handled < |events| ==> !IsConvertible(report, events, numbers, handled)
      ensures handled == |events| ==> Reflects(events, numbers)
    {
      for e := 0 to |events|
        invariant Reflects(events[..e], numbers)
        invariant forall d :: 0 <= d < e ==> IsConvertible(report, events, numbers, d)
      {
        OneMoreEvent(report, events, numbers, e);
        var ok := HandleEvent(events[e], events[..e], numbers);
        if !ok {
          return e;
        }
      }
      assert events[..|events|] == events;
      return |events|;
    }

    /** Judges a command line; the outcome does not depend on what was parsed before. */
    method ParseArgs(events: seq<Event>, extra: seq<string>, numbers: Numbers) returns (verdict: Verdict)
      requires AreEvents(report, events)
      modifies this
      ensures verdict == Judge(report, events, extra, numbers)
      ensures verdict.Accepted? ==>
                && showHelp == (HelpGiven in events) && vertical == (VerticalGiven in events)
                && AreParsedOptions(report, events, numbers, parsedOptions)
                && parsedArguments == if showHelp then [] else extra
    {
      Reset();
      NothingGiven(RequiredNames(report.options), report);
      var handled := HandleEvents(events, numbers);
      if handled < |events| {
        FirstBadIs(report, events, numbers, handled);
        return BadValue(report.options[events[handled].index].name);
      }
      FirstBadIs(report, events, numbers, |events|);
      arguments := extra;
      if !showHelp {
        if missing != [] {
          return MissingOptions(missing);
        }
        if |arguments| < report.argc.least || |arguments| > report.argc.greatest {
          return WrongCount(|arguments|);
        }
        parsedArguments := arguments;
      }
      return Accepted;
    }

    /** The arguments the report's function is called with. */
    function CallArguments(): seq<Argument>
      reads this
    {
      [SessionArgument] +
      (if report.argc.greatest > 0 || report.options != [] then [ArrayArgument(parsedArguments)] else []) +
      (if report.options != [] then [MapArgument(parsedOptions)] else [])
    }

    /** An accepted command line calls the report's function, and only with arguments that match its signature. */
    method CallReport(events: seq<Event>, extra: seq<string>, numbers: Numbers, sessionIsOpen: bool) returns (call: Call)
      requires AreEvents(report, events)
      modifies this
      ensures call.Refused? <==> !Judge(report, events, extra, numbers).Accepted?
      ensures call.Refused? ==> call.verdict == Judge(report, events, extra, numbers)
      ensures call.HelpShown? <==> Judge(report, events, extra, numbers).Accepted? && HelpGiven in events
      ensures call.Called? <==> Judge(report, events, extra, numbers).Accepted? && HelpGiven !in events && sessionIsOpen
      ensures call.Called? ==> Matches(call.arguments, Signature(report))
      ensures call.Called? ==> AreCallArguments(report, events, extra, numbers, call.arguments)
    {
      var verdict := ParseArgs(events, extra, numbers);
      if !verdict.Accepted? {
        return Refused(verdict);
      }
      if showHelp {
        return HelpShown;
      }
      if !sessionIsOpen {
        return NoSession;
      }
      AcceptedMatches(report, events, extra, numbers, parsedOptions);
      return Called(CallArguments());
    }
  }

  lemma OneMoreEvent(report: Report, events: seq<Event>, numbers: Numbers, e: nat)
    requires e < |events|
    ensures events[..e] + [events[e]] == events[..e + 1]
    ensures IsConvertible(report, [events[e]], numbers, 0) == IsConvertible(report, events, numbers, e)
  {
  }

  datatype Call = Refused(verdict: Verdict) | HelpShown | NoSession | Called(arguments: seq<Argument>)

  /** The position of the first event with a bad value. */
  ghost function FirstBad(report: Report, events: seq<Event>, numbers: Numbers): (e: nat)
    requires AreEvents(report, events)
    ensures e <= |events| && forall d :: 0 <= d < e ==> IsConvertible(report, events, numbers, d)
    ensures e < |events| ==> events[e].OptionGiven? && !IsConvertible(report, events, numbers, e)
  {
    if exists e :: 0 <= e < |events| && !IsConvertible(report, events, numbers, e)
    then LeastBad(report, events, numbers, 0) else |events|
  }

  ghost function LeastBad(report: Report, events: seq<Event>, numbers: Numbers, from: nat): (e: nat)
    requires AreEvents(report, events)
    requires exists e :: from <= e < |events| && !IsConvertible(report, events, numbers, e)
    ensures from <= e < |events| && !IsConvertible(report, events, numbers, e)
    ensures forall d :: from <= d < e ==> IsConvertible(report, events, numbers, d)
    decreases |events| - from
  {
    if IsConvertible(report, events, numbers, from) then LeastBad(report, events, numbers, from + 1) else from
  }

  lemma FirstBadIs(report: Report, events: seq<Event>, numbers: Numbers, e: nat)
    requires AreEvents(report, events) && e <= |events|
    requires forall d :: 0 <= d < e ==> IsConvertible(report, events, numbers, d)
    requires e < |events| ==> !IsConvertible(report, events, numbers, e)
    ensures FirstBad(report, events, numbers) == e
  {
  }

  /** The verdict on a command line: the first bad value, then missing options, then the number of arguments. */
  ghost function Judge(report: Report, events: seq<Event>, extra: seq<string>, numbers: Numbers): Verdict
    requires AreEvents(report, events)
  {
    var bad := FirstBad(report, events, numbers);
    var missing := Missing(RequiredNames(report.options), report, events);
    if bad < |events| then BadValue(report.options[events[bad].index].name)
    else if HelpGiven in events then Accepted
    else if missing != [] then MissingOptions(missing)
    else if !(report.argc.least <= |extra| <= report.argc.greatest) then WrongCount(|extra|)
    else Accepted
  }

  ghost predicate AreCallArguments(report: Report, events: seq<Event>, extra: seq<string>, numbers: Numbers,
                                   arguments: seq<Argument>) {
    && 1 <= |arguments| <= 3 && arguments[0] == SessionArgument
    && (|arguments| >= 2 <==> report.argc.greatest > 0 || report.options != [])
    && (|arguments| == 3 <==> report.options != [])
    && (forall i :: 0 <= i < |arguments| && arguments[i].ArrayArgument? ==> arguments[i].items == extra)
    && forall i :: 0 <= i < |arguments| && arguments[i].MapArgument? ==>
         AreParsedOptions(report, events, numbers, arguments[i].entries)
  }

  lemma ValueFits(option: ReportOption, text: Option<string>, numbers: Numbers, value: Value)
    requires IsValueOf(option, text, numbers, value)
    ensures FitsOption(value, option)
  {
  }

  lemma ParsedOptionsFit(report: Report, events: seq<Event>, numbers: Numbers, parsed: map<string, Value>)
    requires AreParsedOptions(report, events, numbers, parsed)
    requires Missing(RequiredNames(report.options), report, events) == []
    ensures FitsOptions(parsed, report.options)
  {
    var options := report.options;
    forall name | name in parsed
      ensures exists k :: 0 <= k < |options| && options[k].name == name && FitsOption(parsed[name], options[k])
    {
      var e :| GivesOption(report, events, e, name) && IsValueOf(options[events[e].index], events[e].text, numbers, parsed[name]);
      ValueFits(options[events[e].index], events[e].text, numbers, parsed[name]);
    }
    MissingIsEmptyIff(RequiredNames(options), report, events);
    forall k | 0 <= k < |options| && options[k].required ensures options[k].name in parsed {
      RequiredNamesAre(options, k);
      assert IsGiven(report, events, options[k].name);
      var e :| GivesRequired(report, events, e, options[k].name);
    }
  }

  /** The arguments built from an accepted command line match the signature built at registration. */
  lemma AcceptedMatches(report: Report, events: seq<Event>, extra: seq<string>, numbers: Numbers, parsed: map<string,
                        Value>)
    requires AreEvents(report, events) && Judge(report, events, extra, numbers).Accepted? && HelpGiven !in events
    requires AreParsedOptions(report, events, numbers, parsed)
    ensures var arguments :=
              [SessionArgument] +
              (if report.argc.greatest > 0 || report.options != [] then [ArrayArgument(extra)] else []) +
              (if report.options != [] then [MapArgument(parsed)] else []);
            Matches(arguments, Signature(report))
  {
    ParsedOptionsFit(report, events, numbers, parsed);
  }

  lemma ParsedOptionsOneMore(report: Report, events: seq<Event>, event: Event, numbers: Numbers, before: map<string,
                             Value>, after: map<string, Value>)
    requires AreParsedOptions(report, events, numbers, before)
    requires event.OptionGiven? ==> event.index < |report.options| && report.options[event.index].name in after
    requires if event.OptionGiven? && report.options[event.index].name !in before
             then var option := report.options[event.index];
                  && after == before[option.name := after[option.name]]
                  && IsValueOf(option, event.text, numbers, after[option.name])
             else after == before
    ensures AreParsedOptions(report, events + [event], numbers, after)
  {
    var more := events + [event];
    forall name | name in after ensures IsFirstValue(report, more, numbers, name, after[name]) {
      if name in before {
        var e :| && GivesOption(report, events, e, name)
                 && IsValueOf(report.options[events[e].index], events[e].text, numbers, before[name])
                 && forall d :: 0 <= d < e ==> !GivesOption(report, events, d, name);
        assert GivesOption(report, more, e, name);
        forall d | 0 <= d < e ensures !GivesOption(report, more, d, name) {
          assert !GivesOption(report, events, d, name);
        }
      } else {
        assert GivesOption(report, more, |events|, name);
        forall d | 0 <= d < |events| ensures !GivesOption(report, more, d, name) {
          assert !GivesOption(report, events, d, name);
        }
      }
    }
    forall e, name | GivesOption(report, more, e, name) ensures name in after {
      assert e < |events| ==> GivesOption(report, events, e, name);
    }
  }
}
