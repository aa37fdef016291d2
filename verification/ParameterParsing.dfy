/**
 * Parsing the parameter definitions of extension functions and reports.
 *
 * The parser keeps a stack of levels that describes the definition at hand; it renames, pushes and pops
 * levels while it recurses.  Errors show the stack as it is when they are raised.
 */
module ParameterParsing {
  import opened Options

  /** What an error message shows of one level. */
  datatype Level = Level(name: string, position: Option<nat>)

  type Path = p: seq<Level> | |p| > 0 witness [Level("", None)]

  class Context {
    var levels: Path

    constructor (levels: Path)
      ensures this.levels == levels
    {
      this.levels := levels;
    }
  }

  datatype Item = NotAMap | Map(definition: Definition)

  /**
   * A dictionary that defines a parameter.  `isIdentifier` says whether the name is a valid identifier,
   * `unpacks` whether the dictionary has a name and only known entries, and `classesExist` whether all classes
   * named for an object parameter are known.
   */
  datatype Definition = Definition(
    name: string, isIdentifier: bool, typeName: Option<string>, required: Option<bool>,
    unpacks: bool, classesExist: bool, options: seq<Item>)

  datatype Parameter = Parameter(name: string, isIdentifier: bool, typeName: Option<string>, required: bool,
                                 options: seq<Parameter>)

  datatype Error =
    | ClassesRejected(name: string)
    | UnpackingFailed(path: Path)
    | UnsupportedType(path: Path)
    | InvalidDefinition(path: Path)
    | NotAnIdentifier(path: Path, name: string)
    | AlreadyDefined(level: string, name: string)
    | RequiredAfterOptional(level: string, name: string, optional: string)

  datatype Outcome<+T> = Success(value: T) | Failure(error: Error)

  // ---------------------------------------------------------------------------
  // Names and levels
  // ---------------------------------------------------------------------------

  function LowerChar(c: char): char {
    if 'A' <= c <= 'Z' then (c as int + 32) as char else c
  }

  /** Equal but for the case of letters. */
  predicate CaseEqual(a: string, b: string) {
    |a| == |b| && forall i :: 0 <= i < |a| ==> LowerChar(a[i]) == LowerChar(b[i])
  }

  function Back(path: Path): Level {
    path[|path| - 1]
  }

  function WithBack(path: Path, level: Level): Path {
    path[|path| - 1 := level]
  }

  function At(path: Path, position: nat): Path {
    WithBack(path, Level(Back(path).name, Some(position)))
  }

  function WithoutPosition(path: Path): Path {
    WithBack(path, Level(Back(path).name, None))
  }

  lemma PositionsDoNotMatter(a: Path, b: Path, position: nat)
    requires WithoutPosition(a) == WithoutPosition(b)
    ensures At(a, position) == At(b, position)
  {
    forall i | 0 <= i < |a| ensures At(a, position)[i] == At(b, position)[i] {
      assert WithoutPosition(a)[i] == WithoutPosition(b)[i];
    }
  }

  function TypePrefix(definition: Definition): string {
    if definition.typeName.Some? && definition.typeName.value != "" then definition.typeName.value + " " else ""
  }

  /** The level of a definition while its dictionary is unpacked. */
  function UnpackingPath(definition: Definition, path: Path): Path {
    if !definition.isIdentifier then path
    else WithBack(path, Level(TypePrefix(definition) + Back(path).name + " '" + definition.name + "'", None))
  }

  /** The level of a definition while its type and its options are checked. */
  function DefinitionPath(definition: Definition, path: Path): Path {
    var position := if definition.isIdentifier then None else Back(path).position;
    WithBack(path, Level(Back(path).name + " '" + definition.name + "'", position))
  }

  predicate IsType(definition: Definition, allowed: set<string>, typeName: string) {
    definition.typeName == Some(typeName) && typeName in allowed
  }

  predicate IsSupported(definition: Definition, allowed: set<string>) {
    definition.typeName.None? || definition.typeName.value in allowed
  }

  function IsRequired(definition: Definition, asParameters: bool): bool {
    if definition.required.Some? then definition.required.value else asParameters
  }

  // ---------------------------------------------------------------------------
  // The parser on values
  // ---------------------------------------------------------------------------

  predicate IsTaken(parameters: seq<Parameter>, name: string) {
    exists i :: 0 <= i < |parameters| && CaseEqual(name, parameters[i].name)
  }

  /** The optional parameter that forbids required ones after it, or nothing. */
  function OptionalName(parameters: seq<Parameter>): string {
    if parameters == [] then ""
    else
      var before, last := OptionalName(parameters[..|parameters| - 1]), parameters[|parameters| - 1];
      if before == "" && !last.required then last.name else before
  }

  /** Checks one more parameter against those before it. */
  function Admit(before: seq<Parameter>, parameter: Parameter, path: Path, asParameters: bool): Outcome<seq<Parameter>> {
    var text := Back(path).name;
    if IsTaken(before, parameter.name) then Failure(AlreadyDefined(text, parameter.name))
    else if asParameters && parameter.required && OptionalName(before) != "" then
      Failure(RequiredAfterOptional(text, parameter.name, OptionalName(before)))
    else Success(before + [parameter])
  }

  function ParseOne(item: Item, path: Path, allowed: set<string>, asParameters: bool): Outcome<Parameter>
    requires item.Map?
    decreases item
  {
    var definition := item.definition;
    var inner := DefinitionPath(definition, path);
    if IsType(definition, allowed, "object") && !definition.classesExist then Failure(ClassesRejected(definition.name))
    else if !definition.unpacks then Failure(UnpackingFailed(UnpackingPath(definition, path)))
    else if !IsSupported(definition, allowed) then Failure(UnsupportedType(inner))
    else
      var options := if IsType(definition, allowed, "dictionary") && definition.options != []
                     then ParseFirst(definition.options, |definition.options|, inner + [Level("option", None)], allowed, false)
                     else Success([]);
      match options
      case Failure(error) => Failure(error)
      case Success(parsed) =>
        Success(Parameter(definition.name, definition.isIdentifier, definition.typeName, IsRequired(definition, asParameters),
                          parsed))
  }

  /** Parses the first n definitions. */
  function ParseFirst(items: seq<Item>, n: nat, path: Path, allowed: set<string>,
                      asParameters: bool): Outcome<seq<Parameter>>
    requires n <= |items|
    decreases items, n
  {
    if n == 0 then Success([])
    else
      match ParseFirst(items, n - 1, path, allowed, asParameters)
      case Failure(error) => Failure(error)
      case Success(before) =>
        match items[n - 1]
        case NotAMap => Failure(InvalidDefinition(At(path, n)))
        case Map(_) =>
          match ParseOne(items[n - 1], At(path, n), allowed, asParameters)
          case Failure(error) => Failure(error)
          case Success(parameter) => Admit(before, parameter, path, asParameters)
  }

  function Parse(data: Option<seq<Item>>, path: Path, allowed: set<string>, asParameters: bool): Outcome<seq<Parameter>> {
    if data.None? then Success([]) else ParseFirst(data.value, |data.value|, path, allowed, asParameters)
  }

  // ---------------------------------------------------------------------------
  // The parser on the shared stack
  // ---------------------------------------------------------------------------

  /** Success leaves every level as it was; an error leaves the stack as it is. */
  method ParseParameter(item: Item, context: Context, allowed: set<string>, asParameters: bool)
    returns (outcome: Outcome<Parameter>)
    requires item.Map?
    modifies context
    ensures outcome == ParseOne(item, old(context.levels), allowed, asParameters)
    ensures outcome.Success? ==> context.levels == old(context.levels)
    decreases item
  {
    var definition := item.definition;
    if IsType(definition, allowed, "object") && !definition.classesExist {
      return Failure(ClassesRejected(definition.name));
    }
    var backup := Back(context.levels);
    if definition.isIdentifier {
      context.levels := WithBack(context.levels, Level(TypePrefix(definition) + backup.name + " '" + definition.name + "'", None));
    }
    if !definition.unpacks {
      return Failure(UnpackingFailed(context.levels));
    }
    context.levels := WithBack(context.levels, Level(backup.name + " '" + definition.name + "'", Back(context.levels).position));
    assert context.levels == DefinitionPath(definition, old(context.levels));
    if !IsSupported(definition, allowed) {
      return Failure(UnsupportedType(context.levels));
    }
    var options := [];
    if IsType(definition, allowed, "dictionary") && definition.options != [] {
      context.levels := context.levels + [Level("option", None)];
      var parsed := ParseParameters(Some(definition.options), context, allowed, false);
      if parsed.Failure? {
        return Failure(parsed.error);
      }
      options := parsed.value;
      context.levels := context.levels[..|context.levels| - 1];
    }
    context.levels := WithBack(context.levels, backup);
    assert context.levels == old(context.levels);
    return Success(Parameter(definition.name, definition.isIdentifier, definition.typeName, IsRequired(definition, asParameters),
                             options));
  }

  /** Success leaves every level as it was, but for the position of the last. */
  method ParseParameters(data: Option<seq<Item>>, context: Context, allowed: set<string>, asParameters: bool)
    returns (outcome: Outcome<seq<Parameter>>)
    modifies context
    ensures outcome == Parse(data, old(context.levels), allowed, asParameters)
    ensures outcome.Success? ==>
              context.levels == if data.None? then old(context.levels) else WithoutPosition(old(context.levels))
    decreases if data.Some? then data.value else []
  {
    var parameters: seq<Parameter> := [];
    if data.None? {
      return Success(parameters);
    }
    var items := data.value;
    ghost var path := context.levels;
    var optional := "";
    for index := 0 to |items|
      invariant ParseFirst(items, index, path, allowed, asParameters) == Success(parameters)
      invariant asParameters ==> optional == OptionalName(parameters)
      invariant WithoutPosition(context.levels) == WithoutPosition(path)
    {
      PositionsDoNotMatter(context.levels, path, index + 1);
      context.levels := At(context.levels, index + 1);
      if items[index].NotAMap? {
        FirstFailureStays(items, index + 1, path, allowed, asParameters);
        return Failure(InvalidDefinition(context.levels));
      }
      var parsed := ParseParameter(items[index], context, allowed, asParameters);
      if parsed.Failure? {
        FirstFailureStays(items, index + 1, path, allowed, asParameters);
        return Failure(parsed.error);
      }
      var parameter, text := parsed.value, Back(context.levels).name;
      if IsTaken(parameters, parameter.name) {
        FirstFailureStays(items, index + 1, path, allowed, asParameters);
        return Failure(AlreadyDefined(text, parameter.name));
      }
      if asParameters {
        if parameter.required && optional != "" {
          FirstFailureStays(items, index + 1, path, allowed, asParameters);
          return Failure(RequiredAfterOptional(text, parameter.name, optional));
        } else if optional == "" && !parameter.required {
          optional := parameter.name;
        }
      }
      assert (parameters + [parameter])[..|parameters|] == parameters;
      parameters := parameters + [parameter];
    }
    context.levels := WithoutPosition(context.levels);
    return Success(parameters);
  }

  lemma {:induction false} FirstFailureStays(items: seq<Item>, n: nat, path: Path, allowed: set<string>,
                                             asParameters: bool)
    requires n <= |items| && ParseFirst(items, n, path, allowed, asParameters).Failure?
    ensures ParseFirst(items, |items|, path, allowed, asParameters) == ParseFirst(items, n, path, allowed, asParameters)
    decreases |items| - n
  {
    if n < |items| {
      FirstFailureStays(items, n + 1, path, allowed, asParameters);
    }
  }

  // ---------------------------------------------------------------------------
  // Which definitions are accepted
  // ---------------------------------------------------------------------------

  /** One is a letter from A to Z and the other its lower case form, 32 code points up. */
  ghost predicate IsOtherCase(c: char, d: char) {
    'A' <= c <= 'Z' && d as int == c as int + 32
  }

  /** At every place there is the same character, or the same letter in the other case. */
  ghost predicate IsSameName(a: string, b: string) {
    |a| == |b| && forall i :: 0 <= i < |a| ==> a[i] == b[i] || IsOtherCase(a[i], b[i]) || IsOtherCase(b[i], a[i])
  }

  lemma CaseEqualIff(a: string, b: string)
    ensures CaseEqual(a, b) <==> IsSameName(a, b)
  {
    if |a| == |b| {
      forall i | 0 <= i < |a|
        ensures LowerChar(a[i]) == LowerChar(b[i]) <==> a[i] == b[i] || IsOtherCase(a[i], b[i]) || IsOtherCase(b[i], a[i])
      {
        SameLetterIff(a[i], b[i]);
      }
    }
  }

  lemma SameLetterIff(c: char, d: char)
    ensures LowerChar(c) == LowerChar(d) <==> c == d || IsOtherCase(c, d) || IsOtherCase(d, c)
  {
  }

  ghost predicate NamesAreDistinct(items: seq<Item>, n: nat)
    requires n <= |items| && forall i :: 0 <= i < n ==> items[i].Map?
  {
    forall i, j :: 0 <= i < j < n ==> !IsSameName(items[j].definition.name, items[i].definition.name)
  }

  /** No required parameter comes after a named optional one. */
  ghost predicate NamedOptionalsComeLast(items: seq<Item>, n: nat)
    requires n <= |items| && forall i :: 0 <= i < n ==> items[i].Map?
  {
    forall i, j :: 0 <= i < j < n && items[i].definition.required == Some(false) && items[i].definition.name != "" ==>
      items[j].definition.required == Some(false)
  }

  ghost predicate IsAcceptable(item: Item, allowed: set<string>)
    decreases item
  {
    item.Map? &&
    var definition := item.definition;
    && definition.unpacks && (definition.typeName.Some? ==> definition.typeName.value in allowed)
    && (definition.typeName == Some("object") ==> definition.classesExist)
    && (definition.typeName == Some("dictionary") ==> AreAcceptable(definition.options, |definition.options|, allowed, false))
  }

  /** What the first n definitions must satisfy, said without the parser. */
  ghost predicate AreAcceptable(items: seq<Item>, n: nat, allowed: set<string>, asParameters: bool)
    requires n <= |items|
    decreases items
  {
    && (forall i :: 0 <= i < n ==> IsAcceptable(items[i], allowed))
    && NamesAreDistinct(items, n)
    && (asParameters ==> NamedOptionalsComeLast(items, n))
  }

  /** The result of a definition, said without the parser. */
  ghost predicate Mirrors(parameter: Parameter, item: Item, allowed: set<string>, asParameters: bool)
    decreases item
  {
    item.Map? &&
    var definition := item.definition;
    && parameter.name == definition.name && parameter.isIdentifier == definition.isIdentifier
    && parameter.typeName == definition.typeName
    && (if definition.required.Some? then definition.required == Some(parameter.required) else parameter.required == asParameters)
    && (if definition.typeName == Some("dictionary")
        then AllMirror(parameter.options, definition.options, |definition.options|, allowed, false)
        else parameter.options == [])
  }

  ghost predicate AllMirror(parameters: seq<Parameter>, items: seq<Item>, n: nat, allowed: set<string>,
                            asParameters: bool)
    requires n <= |items|
    decreases items
  {
    |parameters| == n && forall i :: 0 <= i < n ==> Mirrors(parameters[i], items[i], allowed, asParameters)
  }

  /** The remembered name is that of the first named optional parameter. */
  lemma {:induction false} OptionalNameIsFirst(parameters: seq<Parameter>)
    ensures OptionalName(parameters) == "" <==>
            forall i :: 0 <= i < |parameters| && !parameters[i].required ==> parameters[i].name == ""
  {
    if parameters != [] {
      OptionalNameIsFirst(parameters[..|parameters| - 1]);
    }
  }

  /** One more parameter is admitted exactly when it keeps the names distinct and the order of the optional ones. */
  lemma AdmitsIff(before: seq<Parameter>, parameter: Parameter, items: seq<Item>, n: nat, path: Path,
                  allowed: set<string>, asParameters: bool)
    requires n < |items| && AllMirror(before, items, n, allowed, asParameters) && Mirrors(parameter, items[n], allowed, asParameters)
    requires AreAcceptable(items, n, allowed, asParameters) && IsAcceptable(items[n], allowed)
    ensures Admit(before, parameter, path, asParameters).Success? <==> AreAcceptable(items, n + 1, allowed, asParameters)
  {
    OptionalNameIsFirst(before);
    assert forall i :: 0 <= i < n ==> before[i].name == items[i].definition.name;
    forall i | 0 <= i < n ensures CaseEqual(parameter.name, before[i].name) == IsSameName(parameter.name, before[i].name) {
      CaseEqualIff(parameter.name, before[i].name);
    }
    if asParameters {
      assert forall i :: 0 <= i < n ==> before[i].required == IsRequired(items[i].definition, true);
    }
  }

  lemma {:induction false} ParseOneIff(item: Item, path: Path, allowed: set<string>, asParameters: bool)
    requires item.Map?
    ensures ParseOne(item, path, allowed, asParameters).Success? <==> IsAcceptable(item, allowed)
    ensures var outcome := ParseOne(item, path, allowed, asParameters);
            outcome.Success? ==> Mirrors(outcome.value, item, allowed, asParameters)
    decreases item
  {
    var options := item.definition.options;
    var inner := DefinitionPath(item.definition, path) + [Level("option", None)];
    ParseFirstIff(options, |options|, inner, allowed, false);
  }

  /** Parsing succeeds exactly on acceptable definitions, and its result mirrors them. */
  lemma {:induction false} ParseFirstIff(items: seq<Item>, n: nat, path: Path, allowed: set<string>, asParameters: bool)
    requires n <= |items|
    ensures ParseFirst(items, n, path, allowed, asParameters).Success? <==> AreAcceptable(items, n, allowed, asParameters)
    ensures var outcome := ParseFirst(items, n, path, allowed, asParameters);
            outcome.Success? ==> AllMirror(outcome.value, items, n, allowed, asParameters)
    decreases items, n
  {
    if n > 0 {
      ParseFirstIff(items, n - 1, path, allowed, asParameters);
      var before := ParseFirst(items, n - 1, path, allowed, asParameters);
      if before.Success? && items[n - 1].Map? {
        ParseOneIff(items[n - 1], At(path, n), allowed, asParameters);
        var parameter := ParseOne(items[n - 1], At(path, n), allowed, asParameters);
        if parameter.Success? {
          AdmitsIff(before.value, parameter.value, items, n - 1, path, allowed, asParameters);
        }
      }
    }
  }

  // ---------------------------------------------------------------------------
  // What holds of every result
  // ---------------------------------------------------------------------------

  /** No two names of one level differ only in case, at any depth. */
  ghost predicate DistinctAtEveryLevel(parameters: seq<Parameter>)
    decreases parameters
  {
    && (forall i, j :: 0 <= i < j < |parameters| ==> !IsSameName(parameters[j].name, parameters[i].name))
    && forall i :: 0 <= i < |parameters| ==> DistinctBelow(parameters[i])
  }

  ghost predicate DistinctBelow(parameter: Parameter)
    decreases parameter
  {
    DistinctAtEveryLevel(parameter.options)
  }

  lemma {:induction false} MirrorIsDistinct(parameter: Parameter, item: Item, allowed: set<string>, asParameters: bool)
    requires IsAcceptable(item, allowed) && Mirrors(parameter, item, allowed, asParameters)
    ensures DistinctBelow(parameter)
    decreases item
  {
    if item.definition.typeName == Some("dictionary") {
      MirrorsAreDistinct(parameter.options, item.definition.options, allowed, false);
    }
  }

  lemma {:induction false} MirrorsAreDistinct(parameters: seq<Parameter>, items: seq<Item>, allowed: set<string>,
                                              asParameters: bool)
    requires AreAcceptable(items, |items|, allowed, asParameters) && AllMirror(parameters, items, |items|, allowed, asParameters)
    ensures DistinctAtEveryLevel(parameters)
    decreases items
  {
    forall i | 0 <= i < |parameters| ensures DistinctBelow(parameters[i]) {
      MirrorIsDistinct(parameters[i], items[i], allowed, asParameters);
    }
    assert forall i :: 0 <= i < |parameters| ==> parameters[i].name == items[i].definition.name;
  }

  lemma ParsedNamesAreDistinct(items: seq<Item>, path: Path, allowed: set<string>, asParameters: bool)
    ensures var outcome := ParseFirst(items, |items|, path, allowed, asParameters);
            outcome.Success? ==> DistinctAtEveryLevel(outcome.value)
  {
    ParseFirstIff(items, |items|, path, allowed, asParameters);
    var outcome := ParseFirst(items, |items|, path, allowed, asParameters);
    if outcome.Success? {
      MirrorsAreDistinct(outcome.value, items, allowed, asParameters);
    }
  }

  /** The required parameters form a prefix. */
  ghost predicate RequiredComeFirst(parameters: seq<Parameter>) {
    forall i, j :: 0 <= i < j < |parameters| && parameters[j].required ==> parameters[i].required
  }

  /** A required definition somewhere after an optional one with an empty name. */
  ghost predicate FollowsUnnamedOptional(items: seq<Item>, i: int, j: int) {
    && 0 <= i < j < |items| && items[i].Map? && items[j].Map?
    && items[i].definition.name == "" && items[i].definition.required == Some(false) && items[j].definition.required != Some(false)
  }

  /** Accepted parameters start with all the required ones, unless an optional one without a name stands before one of those. */
  lemma RequiredComeFirstIff(items: seq<Item>, path: Path, allowed: set<string>)
    requires ParseFirst(items, |items|, path, allowed, true).Success?
    ensures RequiredComeFirst(ParseFirst(items, |items|, path, allowed, true).value) <==>
            !exists i, j :: FollowsUnnamedOptional(items, i, j)
  {
    ParseFirstIff(items, |items|, path, allowed, true);
    var parameters := ParseFirst(items, |items|, path, allowed, true).value;
    assert forall i :: 0 <= i < |items| ==> parameters[i].required == IsRequired(items[i].definition, true);
    if exists i, j :: FollowsUnnamedOptional(items, i, j) {
      var i, j :| FollowsUnnamedOptional(items, i, j);
      assert parameters[j].required && !parameters[i].required;
    } else {
      forall i, j | 0 <= i < j < |parameters| && parameters[j].required ensures parameters[i].required {
        assert !FollowsUnnamedOptional(items, i, j);
      }
    }
  }

  /** Such definitions are accepted. */
  lemma UnnamedOptionalIsAccepted(path: Path, allowed: set<string>)
    ensures var optional := Map(Definition("", false, None, Some(false), true, true, []));
            var required := Map(Definition("x", true, None, None, true, true, []));
            var outcome := ParseFirst([optional, required], 2, path, allowed, true);
            outcome.Success? && !RequiredComeFirst(outcome.value)
  {
    var optional := Map(Definition("", false, None, Some(false), true, true, []));
    var required := Map(Definition("x", true, None, None, true, true, []));
    var items := [optional, required];
    assert IsAcceptable(items[0], allowed) && IsAcceptable(items[1], allowed);
    ParseFirstIff(items, 2, path, allowed, true);
    assert FollowsUnnamedOptional(items, 0, 1);
    RequiredComeFirstIff(items, path, allowed);
  }

  /** Names that differ in case only are rejected. */
  lemma OtherCaseIsRejected(path: Path, allowed: set<string>, asParameters: bool)
    ensures var lower := Map(Definition("x", true, None, None, true, true, []));
            var upper := Map(Definition("X", true, None, None, true, true, []));
            ParseFirst([lower, upper], 2, path, allowed, asParameters) == Failure(AlreadyDefined(path[|path| - 1].name, "X"))
  {
    var lower := Map(Definition("x", true, None, None, true, true, []));
    var upper := Map(Definition("X", true, None, None, true, true, []));
    var items := [lower, upper];
    assert IsAcceptable(items[0], allowed);
    var first := ParseFirst(items, 1, path, allowed, asParameters);
    assert ParseFirst(items, 0, path, allowed, asParameters) == Success([]);
    ParseFirstIff(items, 1, path, allowed, asParameters);
    assert first.Success? && |first.value| == 1 && first.value[0].name == "x";
    CaseEqualIff("X", first.value[0].name);
    assert IsOtherCase('X', 'x');
  }

  lemma LastLevel(outer: seq<Level>, level: Level, other: Level, position: nat)
    ensures var path := outer + [level];
            WithBack(path, other) == outer + [other] && At(path, position) == outer + [Level(level.name, Some(position))]
  {
  }

  /** What an error in a definition shows: its name on the last level, its type too while it is unpacked, and its position
      if its name is not an identifier. */
  ghost predicate ShowsLevel(outcome: Outcome<seq<Parameter>>, definition: Definition, outer: seq<Level>, text: string,
                             position: nat, allowed: set<string>) {
    var named := text + " '" + definition.name + "'";
    && (!definition.unpacks && definition.isIdentifier && definition.typeName.None? ==>
          outcome == Failure(UnpackingFailed(outer + [Level(named, None)])))
    && (!definition.unpacks && definition.isIdentifier && definition.typeName.Some? && definition.typeName.value != "" ==>
          outcome == Failure(UnpackingFailed(outer + [Level(definition.typeName.value + " " + named, None)])))
    && (!definition.unpacks && !definition.isIdentifier ==>
          outcome == Failure(UnpackingFailed(outer + [Level(text, Some(position))])))
    && (definition.unpacks && definition.typeName.Some? && definition.typeName.value !in allowed ==>
          outcome == Failure(UnsupportedType(outer + [Level(named, if definition.isIdentifier then None else Some(position))])))
  }

  lemma OneShowsLevel(item: Item, outer: seq<Level>, text: string, position: nat, allowed: set<string>, asParameters: bool)
    requires item.Map? && !(item.definition.typeName == Some("object") && "object" in allowed && !item.definition.classesExist)
    ensures var outcome := ParseOne(item, outer + [Level(text, Some(position))], allowed, asParameters);
            outcome.Failure? ==> ShowsLevel(Failure(outcome.error), item.definition, outer, text, position, allowed)
    ensures var outcome := ParseOne(item, outer + [Level(text, Some(position))], allowed, asParameters);
            outcome.Success? ==>
              item.definition.unpacks && (item.definition.typeName.Some? ==> item.definition.typeName.value in allowed)
  {
    var definition, here := item.definition, Level(text, Some(position));
    var named := text + " '" + definition.name + "'";
    LastLevel(outer, here, Level(TypePrefix(definition) + named, None), 0);
    LastLevel(outer, here, Level(named, if definition.isIdentifier then None else Some(position)), 0);
    assert TypePrefix(definition) + text + " '" + definition.name + "'" == TypePrefix(definition) + named;
    assert "" + named == named;
  }

  lemma FailsAt(items: seq<Item>, n: nat, path: Path, allowed: set<string>, asParameters: bool)
    requires n < |items| && ParseFirst(items, n, path, allowed, asParameters).Success? && items[n].Map?
    ensures var one := ParseOne(items[n], At(path, n + 1), allowed, asParameters);
            one.Failure? ==> ParseFirst(items, |items|, path, allowed, asParameters) == Failure(one.error)
  {
    var one := ParseOne(items[n], At(path, n + 1), allowed, asParameters);
    if one.Failure? {
      assert ParseFirst(items, n + 1, path, allowed, asParameters) == Failure(one.error);
      FirstFailureStays(items, n + 1, path, allowed, asParameters);
    }
  }

  /** The first definition that does not unpack or has an unsupported type is shown so in the error. */
  lemma ErrorShowsLevel(items: seq<Item>, n: nat, outer: seq<Level>, level: Level, allowed: set<string>, asParameters: bool)
    requires n < |items| && ParseFirst(items, n, outer + [level], allowed, asParameters).Success? && items[n].Map?
    requires var definition := items[n].definition;
             !(definition.typeName == Some("object") && "object" in allowed && !definition.classesExist)
    ensures ShowsLevel(ParseFirst(items, |items|, outer + [level], allowed, asParameters), items[n].definition, outer, level.name,
                       n + 1, allowed)
  {
    hide ParseOne, ParseFirst;
    LastLevel(outer, level, level, n + 1);
    OneShowsLevel(items[n], outer, level.name, n + 1, allowed, asParameters);
    FailsAt(items, n, outer + [level], allowed, asParameters);
  }

  // ---------------------------------------------------------------------------
  // Validating the parameters of a function
  // ---------------------------------------------------------------------------

  /** The level of a parameter that has been validated. */
  function Named(path: Path, name: string): Path {
    WithBack(path, Level(Back(path).name + " '" + name + "'", None))
  }

  /** The first name, parents before options, that is not an identifier. */
  function FirstInvalid(parameter: Parameter, path: Path): Option<Error>
    decreases parameter
  {
    if !parameter.isIdentifier then Some(NotAnIdentifier(path, parameter.name))
    else FirstInvalidOption(parameter.options, 0, Named(path, parameter.name))
  }

  function FirstInvalidOption(options: seq<Parameter>, n: nat, path: Path): Option<Error>
    requires n <= |options|
    decreases options, |options| - n
  {
    if n == |options| then None
    else
      var first := FirstInvalid(options[n], path + [Level("option", Some(n + 1))]);
      if first.Some? then first else FirstInvalidOption(options, n + 1, path)
  }

  function FirstInvalidParameter(parameters: seq<Parameter>, n: nat): Option<Error>
    requires n <= |parameters|
    decreases |parameters| - n
  {
    if n == |parameters| then None
    else
      var first := FirstInvalid(parameters[n], [Level("parameter", Some(n + 1))]);
      if first.Some? then first else FirstInvalidParameter(parameters, n + 1)
  }

  /** A valid parameter leaves its name on its level; an error leaves the stack as it is. */
  method ValidateParameter(parameter: Parameter, context: Context) returns (error: Option<Error>)
    modifies context
    ensures error == FirstInvalid(parameter, old(context.levels))
    ensures error.None? ==> context.levels == Named(old(context.levels), parameter.name)
    decreases parameter
  {
    if !parameter.isIdentifier {
      return Some(NotAnIdentifier(context.levels, parameter.name));
    }
    context.levels := Named(context.levels, parameter.name);
    ghost var path := context.levels;
    for n := 0 to |parameter.options|
      invariant context.levels == path
      invariant FirstInvalidOption(parameter.options, n, path) == FirstInvalidOption(parameter.options, 0, path)
    {
      context.levels := context.levels + [Level("option", Some(n + 1))];
      error := ValidateParameter(parameter.options[n], context);
      if error.Some? {
        return;
      }
      context.levels := context.levels[..|context.levels| - 1];
      assert context.levels == path;
    }
    error := None;
  }

  method ValidateFunction(parameters: seq<Parameter>) returns (error: Option<Error>)
    ensures error == FirstInvalidParameter(parameters, 0)
  {
    var context := new Context([Level("", None)]);
    for n := 0 to |parameters|
      invariant |context.levels| == 1
      invariant FirstInvalidParameter(parameters, n) == FirstInvalidParameter(parameters, 0)
    {
      context.levels := [Level("parameter", Some(n + 1))];
      error := ValidateParameter(parameters[n], context);
      if error.Some? {
        return;
      }
    }
    error := None;
  }

  /** All names are identifiers, at any depth. */
  ghost predicate HasIdentifiers(parameter: Parameter)
    decreases parameter
  {
    parameter.isIdentifier && forall i :: 0 <= i < |parameter.options| ==> HasIdentifiers(parameter.options[i])
  }

  lemma {:induction false} FirstInvalidIff(parameter: Parameter, path: Path)
    ensures FirstInvalid(parameter, path).None? <==> HasIdentifiers(parameter)
    decreases parameter
  {
    if parameter.isIdentifier {
      FirstInvalidOptionIff(parameter.options, 0, Named(path, parameter.name));
    }
  }

  lemma {:induction false} FirstInvalidOptionIff(options: seq<Parameter>, n: nat, path: Path)
    requires n <= |options|
    ensures FirstInvalidOption(options, n, path).None? <==> forall i :: n <= i < |options| ==> HasIdentifiers(options[i])
    decreases options, |options| - n
  {
    if n < |options| {
      FirstInvalidIff(options[n], path + [Level("option", Some(n + 1))]);
      FirstInvalidOptionIff(options, n + 1, path);
    }
  }

  /** Validation accepts exactly the parameters whose names, at any depth, are identifiers. */
  lemma {:induction false} ValidationIff(parameters: seq<Parameter>, n: nat)
    requires n <= |parameters|
    ensures FirstInvalidParameter(parameters, n).None? <==> forall i :: n <= i < |parameters| ==> HasIdentifiers(parameters[i])
    decreases |parameters| - n
  {
    if n < |parameters| {
      FirstInvalidIff(parameters[n], [Level("parameter", Some(n + 1))]);
      ValidationIff(parameters, n + 1);
    }
  }

  lemma {:induction false} FirstInvalidFrom(parameters: seq<Parameter>, n: nat, m: nat)
    requires n <= m <= |parameters| && forall i :: n <= i < m ==> HasIdentifiers(parameters[i])
    ensures FirstInvalidParameter(parameters, n) == FirstInvalidParameter(parameters, m)
    decreases m - n
  {
    if n < m {
      FirstInvalidIff(parameters[n], [Level("parameter", Some(n + 1))]);
      FirstInvalidFrom(parameters, n + 1, m);
    }
  }

  lemma {:induction false} FirstInvalidOptionFrom(options: seq<Parameter>, n: nat, m: nat, path: Path)
    requires n <= m <= |options| && forall i :: n <= i < m ==> HasIdentifiers(options[i])
    ensures FirstInvalidOption(options, n, path) == FirstInvalidOption(options, m, path)
    decreases m - n
  {
    if n < m {
      FirstInvalidIff(options[n], path + [Level("option", Some(n + 1))]);
      FirstInvalidOptionFrom(options, n + 1, m, path);
    }
  }

  /** The error for a parameter shows its position, the error for an option the parameter's name and the option's position. */
  lemma InvalidNameShowsLevel(parameters: seq<Parameter>, n: nat, m: nat)
    requires n < |parameters| && forall i :: 0 <= i < n ==> HasIdentifiers(parameters[i])
    ensures !parameters[n].isIdentifier ==>
              FirstInvalidParameter(parameters, 0) == Some(NotAnIdentifier([Level("parameter", Some(n + 1))], parameters[n].name))
    ensures var options := parameters[n].options;
            && parameters[n].isIdentifier && m < |options| && !options[m].isIdentifier
            && (forall i :: 0 <= i < m ==> HasIdentifiers(options[i])) ==>
              FirstInvalidParameter(parameters, 0) ==
              Some(NotAnIdentifier([Level("parameter '" + parameters[n].name + "'", None), Level("option", Some(m + 1))],
                                   options[m].name))
  {
    FirstInvalidFrom(parameters, 0, n);
    var options := parameters[n].options;
    var path := [Level("parameter '" + parameters[n].name + "'", None)];
    assert Named([Level("parameter", Some(n + 1))], parameters[n].name) == path by {
      assert "parameter" + " '" == "parameter '";
    }
    if parameters[n].isIdentifier && m < |options| && !options[m].isIdentifier && forall i :: 0 <= i < m ==> HasIdentifiers(options[i]) {
      FirstInvalidOptionFrom(options, 0, m, path);
      assert path + [Level("option", Some(m + 1))] == [path[0], Level("option", Some(m + 1))];
      assert FirstInvalidOption(options, m, path) == FirstInvalid(parameters[n], [Level("parameter", Some(n + 1))]);
    }
  }

  /** The parameters of every function that passes both parsing and validation start with all the required ones. */
  lemma FunctionParametersAreOrdered(items: seq<Item>, path: Path, allowed: set<string>)
    requires forall i :: 0 <= i < |items| && items[i].Map? && items[i].definition.isIdentifier ==> items[i].definition.name != ""
    ensures var outcome := ParseFirst(items, |items|, path, allowed, true);
            outcome.Success? && FirstInvalidParameter(outcome.value, 0).None? ==> RequiredComeFirst(outcome.value)
  {
    var outcome := ParseFirst(items, |items|, path, allowed, true);
    if outcome.Success? && FirstInvalidParameter(outcome.value, 0).None? {
      ParseFirstIff(items, |items|, path, allowed, true);
      ValidationIff(outcome.value, 0);
      forall i, j ensures !FollowsUnnamedOptional(items, i, j) {
        if 0 <= i < |items| {
          assert HasIdentifiers(outcome.value[i]);
          assert Mirrors(outcome.value[i], items[i], allowed, true);
        }
      }
      RequiredComeFirstIff(items, path, allowed);
    }
  }
}
