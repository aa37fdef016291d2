/** Builds the sidebar forest from the lines of SUMMARY.md.

    The builder keeps a stack of (depth, item list) frames whose lists are the very lists stored in the nodes
    built so far, so that appending to the top list grows the tree in place.  The specification is a forest
    value in which every tree carries the position of its line among the lines that count.
 */
module SummaryTree {

  /** A line of the file, as classified by the two line patterns. */
  datatype Line =
    | PartLine(title: string)
    | EntryLine(indent: string, text: string, page: string)
    | OtherLine

  /** A line that counts: a part heading, or an entry with its depth. */
  datatype Item =
    | Part(title: string)
    | Entry(depth: nat, text: string, page: string)

  function Width(indent: string): nat {
    if indent == "" then 0
    else Width(indent[..|indent| - 1]) + if indent[|indent| - 1] == '\t' then 2 else 1
  }

  /** The items of a file.  There are two columns of indentation per level; a tab counts as two columns. */
  function ItemsOf(lines: seq<Line>): seq<Item> {
    if lines == [] then []
    else
      var front := ItemsOf(lines[..|lines| - 1]);
      match lines[|lines| - 1]
      case PartLine(title) => front + [Part(title)]
      case EntryLine(indent, text, page) => front + [Entry(Width(indent) / 2, text, page)]
      case OtherLine => front
  }

  lemma {:induction false} ItemsArePrefix(lines: seq<Line>, l: nat)
    requires l <= |lines|
    ensures ItemsOf(lines[..l]) <= ItemsOf(lines)
    decreases |lines|
  {
    if l == |lines| {
      assert lines[..l] == lines;
    } else {
      ItemsArePrefix(lines[..|lines| - 1], l);
      assert lines[..|lines| - 1][..l] == lines[..l];
    }
  }

  // ---------------------------------------------------------------------------
  // Forests
  // ---------------------------------------------------------------------------

  /** A list of trees, last tree first.  Every tree carries the position of its item. */
  datatype Forest = Empty | Trees(front: Forest, index: nat, item: Item, kids: Forest)

  /** The positions of the roots, in order. */
  ghost function Roots(forest: Forest): seq<nat> {
    if forest.Empty? then [] else Roots(forest.front) + [forest.index]
  }

  /** The positions and items of all trees, parents before children, left to right. */
  ghost function Preorder(forest: Forest): seq<(nat, Item)> {
    if forest.Empty? then []
    else Preorder(forest.front) + [(forest.index, forest.item)] + Preorder(forest.kids)
  }

  /** The positions of the children of the tree at position i, in order. */
  ghost function KidsOf(forest: Forest, i: nat): seq<nat> {
    if forest.Empty? then []
    else if i < forest.index then KidsOf(forest.front, i)
    else if i == forest.index then Roots(forest.kids)
    else KidsOf(forest.kids, i)
  }

  /** The number of trees on the rightmost path. */
  ghost function Height(forest: Forest): nat {
    if forest.Empty? then 0 else 1 + Height(forest.kids)
  }

  /** The position s levels down the rightmost path. */
  ghost function SpineAt(forest: Forest, s: nat): nat
    requires s < Height(forest)
    decreases s
  {
    if s == 0 then forest.index else SpineAt(forest.kids, s - 1)
  }

  /** The positions increase in preorder, and lie between lo and hi. */
  ghost predicate Ordered(forest: Forest, lo: nat, hi: nat) {
    if forest.Empty? then lo <= hi
    else Ordered(forest.front, lo, forest.index) && forest.index < hi && Ordered(forest.kids, forest.index + 1, hi)
  }

  lemma {:induction false} SpineIsOrdered(forest: Forest, lo: nat, hi: nat, s: nat)
    requires Ordered(forest, lo, hi) && s < Height(forest)
    ensures lo <= SpineAt(forest, s) < hi
    decreases forest
  {
    OrderedRange(forest.front, lo, forest.index);
    if s > 0 {
      SpineIsOrdered(forest.kids, forest.index + 1, hi, s - 1);
    }
  }

  lemma {:induction false} OrderedRange(forest: Forest, lo: nat, hi: nat)
    requires Ordered(forest, lo, hi)
    ensures lo <= hi
  {
    if forest.Trees? {
      OrderedRange(forest.front, lo, forest.index);
    }
  }

  /** Adds a tree as the last child of the tree k levels down the rightmost path, or as the last root. */
  ghost function Insert(forest: Forest, k: nat, n: nat, item: Item): Forest
    decreases k
  {
    if k == 0 || forest.Empty? then Trees(forest, n, item, Empty)
    else Trees(forest.front, forest.index, forest.item, Insert(forest.kids, k - 1, n, item))
  }

  lemma {:induction false} InsertAppendsToPreorder(forest: Forest, k: nat, n: nat, item: Item)
    ensures Preorder(Insert(forest, k, n, item)) == Preorder(forest) + [(n, item)]
    decreases k
  {
    if k > 0 && forest.Trees? {
      InsertAppendsToPreorder(forest.kids, k - 1, n, item);
    }
  }

  lemma {:induction false} InsertKeepsOrder(forest: Forest, k: nat, lo: nat, n: nat, item: Item)
    requires Ordered(forest, lo, n) && lo <= n
    ensures Ordered(Insert(forest, k, n, item), lo, n + 1)
    decreases k
  {
    if k > 0 && forest.Trees? {
      InsertKeepsOrder(forest.kids, k - 1, forest.index + 1, n, item);
    }
  }

  /** The new tree ends the rightmost path. */
  lemma {:induction false} InsertEndsSpine(forest: Forest, k: nat, n: nat, item: Item, s: nat)
    requires s <= k <= Height(forest)
    ensures Height(Insert(forest, k, n, item)) == k + 1
    ensures SpineAt(Insert(forest, k, n, item), s) == if s < k then SpineAt(forest, s) else n
    decreases k
  {
    if k > 0 {
      InsertEndsSpine(forest.kids, k - 1, n, item, if s > 0 then s - 1 else 0);
    }
  }

  /** Only one list of children grows... */
  lemma {:induction false} InsertAddsChild(forest: Forest, k: nat, lo: nat, n: nat, item: Item, i: nat)
    requires Ordered(forest, lo, n) && k <= Height(forest) && i < n
    ensures KidsOf(Insert(forest, k, n, item), i) ==
            if k > 0 && SpineAt(forest, k - 1) == i then KidsOf(forest, i) + [n] else KidsOf(forest, i)
    decreases k
  {
    if k > 0 {
      InsertAddsChild(forest.kids, k - 1, forest.index + 1, n, item, i);
      if k > 1 {
        SpineIsOrdered(forest.kids, forest.index + 1, n, k - 2);
      }
    }
  }

  /** ... and the new tree has none yet. */
  lemma {:induction false} InsertedHasNoChildren(forest: Forest, k: nat, lo: nat, n: nat, item: Item)
    requires Ordered(forest, lo, n) && k <= Height(forest)
    ensures KidsOf(Insert(forest, k, n, item), n) == []
    decreases k
  {
    if k > 0 {
      InsertedHasNoChildren(forest.kids, k - 1, forest.index + 1, n, item);
    }
  }

  // ---------------------------------------------------------------------------
  // The builder's specification
  // ---------------------------------------------------------------------------

  /** The forest so far, and the positions of the open entries, outermost first. */
  datatype State = State(forest: Forest, stack: seq<nat>)

  ghost predicate IsEntry(items: seq<Item>, i: int) {
    0 <= i < |items| && items[i].Entry?
  }

  ghost function DepthAt(items: seq<Item>, i: nat): int {
    if IsEntry(items, i) then items[i].depth else -1
  }

  /** Closes the entries that are at least as deep as the new one. */
  ghost function Pop(items: seq<Item>, stack: seq<nat>, depth: int): (rest: seq<nat>)
    ensures rest <= stack
  {
    if stack == [] || DepthAt(items, stack[|stack| - 1]) < depth then stack
    else Pop(items, stack[..|stack| - 1], depth)
  }

  /** The open entries that item n goes under: none for a heading, the shallower ones for an entry. */
  ghost function Keep(items: seq<Item>, n: nat, stack: seq<nat>): (rest: seq<nat>)
    requires n < |items|
    ensures rest <= stack
  {
    if items[n].Part? then [] else Pop(items, stack, items[n].depth)
  }

  /** Inserts item n. */
  ghost function Step(items: seq<Item>, n: nat, before: State): (after: State)
    requires n < |items|
  {
    var open := Keep(items, n, before.stack);
    State(Insert(before.forest, |open|, n, items[n]), if items[n].Part? then [] else open + [n])
  }

  /** The state after items n and following. */
  ghost function Continue(items: seq<Item>, n: nat, state: State): State
    requires n <= |items|
    decreases |items| - n
  {
    if n == |items| then state else Continue(items, n + 1, Step(items, n, state))
  }

  lemma ContinueWithStep(items: seq<Item>, n: nat, state: State)
    requires n < |items|
    ensures Continue(items, n, state) == Continue(items, n + 1, Step(items, n, state))
  {
  }

  ghost predicate IsKept(items: seq<Item>, holds: (nat, State) -> bool, n: nat, before: State)
    requires n < |items|
  {
    holds(n, before) ==> holds(n + 1, Step(items, n, before))
  }

  /** What every step keeps holds at the end. */
  lemma {:induction false} KeptToTheEnd(items: seq<Item>, n: nat, state: State, holds: (nat, State) -> bool)
    requires n <= |items| && holds(n, state)
    requires forall m: nat, s :: m < |items| ==> IsKept(items, holds, m, s)
    ensures holds(|items|, Continue(items, n, state))
    decreases |items| - n
  {
    if n < |items| {
      assert IsKept(items, holds, n, state);
      KeptToTheEnd(items, n + 1, Step(items, n, state), holds);
    }
  }

  ghost const START: State := State(Empty, [])

  ghost function Build(items: seq<Item>): Forest {
    Continue(items, 0, START).forest
  }

  /** The preorder is the first n items with their positions. */
  ghost predicate IsInputOrder(order: seq<(nat, Item)>, items: seq<Item>, n: nat) {
    |order| == n <= |items| && forall i :: 0 <= i < n ==> order[i] == (i, items[i])
  }

  /** Reading the forest in preorder gives back the items in input order. */
  lemma PreorderIsInputOrder(items: seq<Item>)
    ensures IsInputOrder(Preorder(Build(items)), items, |items|)
  {
    var holds := (m: nat, s: State) => IsInputOrder(Preorder(s.forest), items, m);
    forall m: nat, s: State | m < |items| ensures IsKept(items, holds, m, s) {
      InsertAppendsToPreorder(s.forest, |Keep(items, m, s.stack)|, m, items[m]);
    }
    KeptToTheEnd(items, 0, START, holds);
  }

  /** The stack is the start of the forest's rightmost path. */
  ghost predicate IsSound(n: nat, state: State) {
    && Ordered(state.forest, 0, n) && |state.stack| <= Height(state.forest)
    && forall s :: 0 <= s < |state.stack| ==> SpineAt(state.forest, s) == state.stack[s]
  }

  lemma StepIsSound(items: seq<Item>, n: nat, before: State)
    requires n < |items| && IsSound(n, before)
    ensures IsSound(n + 1, Step(items, n, before))
  {
    var open := Keep(items, n, before.stack);
    var k := |open|;
    InsertKeepsOrder(before.forest, k, 0, n, items[n]);
    InsertEndsSpine(before.forest, k, n, items[n], k);
    forall s | 0 <= s < k ensures SpineAt(Insert(before.forest, k, n, items[n]), s) == open[s] {
      InsertEndsSpine(before.forest, k, n, items[n], s);
    }
  }

  // ---------------------------------------------------------------------------
  // Parents
  // ---------------------------------------------------------------------------

  /** All items strictly between the positions are entries of at least the given depth. */
  ghost predicate Gap(items: seq<Item>, lo: int, hi: nat, depth: nat) {
    forall k :: lo < k < hi && 0 <= k ==> IsEntry(items, k) && depth <= items[k].depth
  }

  /** Position p is the nearest entry before j that is less deep, with no part heading in between. */
  ghost predicate IsNearestShallower(items: seq<Item>, j: nat, p: int) {
    IsEntry(items, j) && IsEntry(items, p) && p < j && items[p].depth < items[j].depth && Gap(items, p, j, items[j].depth)
  }

  /** Since the start or the part heading at p, every entry before j is at least as deep. */
  ghost predicate IsShallowestSince(items: seq<Item>, j: nat, p: int) {
    IsEntry(items, j) && p < j && OpensPart(items, p) && Gap(items, p, j, items[j].depth)
  }

  ghost predicate OpensPart(items: seq<Item>, p: int) {
    p == -1 || (0 <= p < |items| && items[p].Part?)
  }

  /** What the stack stands on: its top entry, or the place where the current part opened. */
  ghost function Floor(stack: seq<nat>, start: int): int {
    if stack == [] then start else stack[|stack| - 1]
  }

  /** Each open entry is the nearest shallower one of the next; the first is the shallowest since the part opened. */
  ghost predicate Nested(items: seq<Item>, stack: seq<nat>, start: int) {
    if stack == [] then OpensPart(items, start)
    else
      var rest, top := stack[..|stack| - 1], stack[|stack| - 1];
      && Nested(items, rest, start)
      && if rest == [] then IsShallowestSince(items, top, start) else IsNearestShallower(items, top, Floor(rest, start))
  }

  /** The depths on a nested stack strictly increase. */
  lemma {:induction false} NestedDepthsIncrease(items: seq<Item>, stack: seq<nat>, start: int, a: nat, b: nat)
    requires Nested(items, stack, start) && a < b < |stack|
    ensures stack[a] < stack[b] && 0 <= DepthAt(items, stack[a]) < DepthAt(items, stack[b])
  {
    var rest := stack[..|stack| - 1];
    if b < |rest| {
      NestedDepthsIncrease(items, rest, start, a, b);
    } else if a < |rest| - 1 {
      NestedDepthsIncrease(items, rest, start, a, |rest| - 1);
    }
  }

  /** After closing the deeper entries, nothing shallower lies between the top of the stack and the new entry. */
  lemma {:induction false} PopLeavesNearest(items: seq<Item>, stack: seq<nat>, start: int, n: nat)
    requires IsEntry(items, n) && Nested(items, stack, start)
    requires Floor(stack, start) < n && Gap(items, Floor(stack, start), n, items[n].depth)
    ensures var rest := Pop(items, stack, items[n].depth);
            && Nested(items, rest, start)
            && if rest == [] then IsShallowestSince(items, n, start) else IsNearestShallower(items, n, Floor(rest, start))
    decreases |stack|
  {
    if stack != [] && items[n].depth <= DepthAt(items, stack[|stack| - 1]) {
      PopLeavesNearest(items, stack[..|stack| - 1], start, n);
    }
  }

  /** The stack before item n is nested, and item n - 1 is its top or a part heading. */
  ghost predicate NestedUpTo(items: seq<Item>, stack: seq<nat>, start: int, n: nat) {
    Nested(items, stack, start) && Floor(stack, start) == n - 1
  }

  lemma PushKeepsNested(items: seq<Item>, stack: seq<nat>, start: int, n: nat)
    requires IsEntry(items, n) && NestedUpTo(items, stack, start, n)
    ensures NestedUpTo(items, Keep(items, n, stack) + [n], start, n + 1)
  {
    PopLeavesNearest(items, stack, start, n);
    var rest := Keep(items, n, stack);
    assert (rest + [n])[..|rest|] == rest;
  }

  lemma StepKeepsNested(items: seq<Item>, n: nat, before: State, start: int)
    requires n < |items| && NestedUpTo(items, before.stack, start, n)
    ensures NestedUpTo(items, Step(items, n, before).stack, if items[n].Part? then n else start, n + 1)
  {
    if items[n].Entry? {
      PushKeepsNested(items, before.stack, start, n);
    }
  }

  /** Entry j is a child of its nearest shallower entry p, or a root because there is none since the start of its part. */
  ghost predicate IsPlaced(items: seq<Item>, forest: Forest, j: nat, p: int) {
    || (IsNearestShallower(items, j, p) && j in KidsOf(forest, p))
    || (IsShallowestSince(items, j, p) && j in Roots(forest))
  }

  lemma PlacedWhenInserted(items: seq<Item>, j: nat, before: State, start: int)
    requires IsEntry(items, j) && IsSound(j, before) && NestedUpTo(items, before.stack, start, j)
    ensures IsPlaced(items, Step(items, j, before).forest, j, Floor(Keep(items, j, before.stack), start))
  {
    var open := Keep(items, j, before.stack);
    PopLeavesNearest(items, before.stack, start, j);
    if open != [] {
      InsertAddsChild(before.forest, |open|, 0, j, items[j], Floor(open, start));
    }
  }

  lemma PlacementPersists(items: seq<Item>, n: nat, before: State, j: nat, p: int)
    requires j < n < |items| && IsSound(n, before) && IsPlaced(items, before.forest, j, p)
    ensures IsPlaced(items, Step(items, n, before).forest, j, p)
  {
    if IsNearestShallower(items, j, p) {
      InsertAddsChild(before.forest, |Keep(items, n, before.stack)|, 0, n, items[n], p);
    }
  }

  ghost predicate HasPlace(items: seq<Item>, forest: Forest, j: nat) {
    exists p :: IsPlaced(items, forest, j, p)
  }

  /** The first n items are placed, and the stack stands where it should. */
  ghost predicate WellPlaced(items: seq<Item>, n: nat, state: State, start: int)
    requires n <= |items|
  {
    && IsSound(n, state) && NestedUpTo(items, state.stack, start, n)
    && forall j :: 0 <= j < n && items[j].Entry? ==> HasPlace(items, state.forest, j)
  }

  lemma StepKeepsPlaces(items: seq<Item>, n: nat, before: State, start: int, j: nat)
    requires n < |items| && WellPlaced(items, n, before, start) && j <= n && items[j].Entry?
    ensures HasPlace(items, Step(items, n, before).forest, j)
  {
    if j == n {
      PlacedWhenInserted(items, j, before, start);
    } else {
      var p :| IsPlaced(items, before.forest, j, p);
      PlacementPersists(items, n, before, j, p);
    }
  }

  lemma StepIsWellPlaced(items: seq<Item>, n: nat, before: State, start: int)
    requires n < |items| && WellPlaced(items, n, before, start)
    ensures WellPlaced(items, n + 1, Step(items, n, before), if items[n].Part? then n else start)
  {
    StepIsSound(items, n, before);
    StepKeepsNested(items, n, before, start);
    forall j | 0 <= j < n + 1 && items[j].Entry? ensures HasPlace(items, Step(items, n, before).forest, j) {
      StepKeepsPlaces(items, n, before, start, j);
    }
  }

  /** The state after some items is well placed for some start of the current part. */
  ghost predicate IsWellPlaced(items: seq<Item>, n: nat, state: State) {
    n <= |items| && exists start :: WellPlaced(items, n, state, start)
  }

  lemma StepKeepsWellPlaced(items: seq<Item>, n: nat, before: State)
    requires n < |items| && IsWellPlaced(items, n, before)
    ensures IsWellPlaced(items, n + 1, Step(items, n, before))
  {
    var start :| WellPlaced(items, n, before, start);
    StepIsWellPlaced(items, n, before, start);
  }

  lemma StartIsWellPlaced(items: seq<Item>)
    ensures IsWellPlaced(items, 0, START)
  {
    assert WellPlaced(items, 0, START, -1);
  }

  ghost function WellPlacedAfter(items: seq<Item>): (nat, State) -> bool {
    (m: nat, s: State) => IsWellPlaced(items, m, s)
  }

  lemma WellPlacedIsKept(items: seq<Item>, n: nat, before: State)
    requires n < |items|
    ensures IsKept(items, WellPlacedAfter(items), n, before)
  {
    if IsWellPlaced(items, n, before) {
      StepKeepsWellPlaced(items, n, before);
    }
  }

  lemma EndIsWellPlaced(items: seq<Item>)
    ensures IsWellPlaced(items, |items|, Continue(items, 0, START))
  {
    forall m: nat, s: State | m < |items| ensures IsKept(items, WellPlacedAfter(items), m, s) {
      WellPlacedIsKept(items, m, s);
    }
    StartIsWellPlaced(items);
    KeptToTheEnd(items, 0, START, WellPlacedAfter(items));
  }

  /** Each entry is a child of the nearest earlier entry of its part that is less deep, or a root if there is none. */
  lemma ParentIsNearestShallower(items: seq<Item>, j: nat)
    requires j < |items| && items[j].Entry?
    ensures HasPlace(items, Build(items), j)
  {
    EndIsWellPlaced(items);
  }

  /** After any items the depths on the stack strictly increase. */
  lemma StackDepthsIncrease(items: seq<Item>, a: nat, b: nat)
    requires a < b < |Continue(items, 0, START).stack|
    ensures var stack := Continue(items, 0, START).stack;
            stack[a] < stack[b] && 0 <= DepthAt(items, stack[a]) < DepthAt(items, stack[b])
  {
    EndIsWellPlaced(items);
    var start := WellPlacedIsNested(items, |items|, Continue(items, 0, START));
    NestedDepthsIncrease(items, Continue(items, 0, START).stack, start, a, b);
  }

  // ---------------------------------------------------------------------------
  // Parents, line by line
  // ---------------------------------------------------------------------------

  lemma {:induction false} WidthIs(indent: string)
    ensures Width(indent) == |indent| + multiset(indent)['\t']
  {
    if indent != "" {
      WidthIs(indent[..|indent| - 1]);
      assert indent == indent[..|indent| - 1] + [indent[|indent| - 1]];
    }
  }

  /** Half the columns of the indentation, a tab taking two. */
  ghost function LineDepth(line: Line): nat
    requires line.EntryLine?
  {
    (|line.indent| + multiset(line.indent)['\t']) / 2
  }

  /** How many of the lines are part headings or entries. */
  ghost function Counted(lines: seq<Line>): nat {
    if lines == [] then 0
    else Counted(lines[..|lines| - 1]) + if lines[|lines| - 1].OtherLine? then 0 else 1
  }

  ghost predicate IsItemOf(item: Item, line: Line) {
    match line
    case PartLine(title) => item == Part(title)
    case EntryLine(_, text, page) => item == Entry(LineDepth(line), text, page)
    case OtherLine => false
  }

  lemma {:induction false} ItemsAreCounted(lines: seq<Line>)
    ensures |ItemsOf(lines)| == Counted(lines)
  {
    if lines != [] {
      ItemsAreCounted(lines[..|lines| - 1]);
    }
  }

  /** A line that counts gives the item at its position among those lines. */
  lemma LineGivesItem(lines: seq<Line>, l: nat)
    requires l < |lines| && !lines[l].OtherLine?
    ensures Counted(lines[..l]) < |ItemsOf(lines)| == Counted(lines)
    ensures IsItemOf(ItemsOf(lines)[Counted(lines[..l])], lines[l])
  {
    ItemsArePrefix(lines, l + 1);
    assert lines[..l + 1][..l] == lines[..l];
    ItemsAreCounted(lines[..l]);
    ItemsAreCounted(lines);
    if lines[l].EntryLine? {
      WidthIs(lines[l].indent);
    }
  }

  /** Line k is an earlier entry of the same part, and less deep. */
  ghost predicate IsShallower(lines: seq<Line>, k: int, l: int) {
    && 0 <= k < l < |lines| && lines[k].EntryLine? && lines[l].EntryLine? && LineDepth(lines[k]) < LineDepth(lines[l])
    && forall h :: k < h < l ==> !lines[h].PartLine?
  }

  ghost predicate IsParentLine(lines: seq<Line>, l: int, p: int) {
    IsShallower(lines, p, l) && forall k :: p < k < l ==> !IsShallower(lines, k, l)
  }

  ghost predicate IsTopLine(lines: seq<Line>, l: int) {
    forall k :: 0 <= k < l ==> !IsShallower(lines, k, l)
  }

  /** Every line has a parent or is at the top. */
  lemma {:induction false} ParentOrTop(lines: seq<Line>, l: nat, q: nat) returns (p: int)
    requires q <= l < |lines| && forall k :: q <= k < l ==> !IsShallower(lines, k, l)
    ensures if p >= 0 then IsParentLine(lines, l, p) else IsTopLine(lines, l)
  {
    if q == 0 {
      p := -1;
    } else if IsShallower(lines, q - 1, l) {
      p := q - 1;
    } else {
      p := ParentOrTop(lines, l, q - 1);
    }
  }

  /** The heading that opens the part of a line, or -1. */
  lemma {:induction false} PartOpens(lines: seq<Line>, l: nat, q: nat) returns (p: int)
    requires q <= l < |lines| && forall h :: q <= h < l ==> !lines[h].PartLine?
    ensures -1 <= p < q && (p >= 0 ==> lines[p].PartLine?) && forall h :: p < h < l ==> !lines[h].PartLine?
  {
    if q == 0 {
      p := -1;
    } else if lines[q - 1].PartLine? {
      p := q - 1;
    } else {
      p := PartOpens(lines, l, q - 1);
    }
  }

  /** Lines that are no headings, and no entries less deep, leave a gap between items. */
  lemma {:induction false} GapOfLines(lines: seq<Line>, lo: nat, hi: nat, depth: nat)
    requires lo <= hi <= |lines|
    requires forall k :: lo <= k < hi ==> lines[k].OtherLine? || (lines[k].EntryLine? && depth <= LineDepth(lines[k]))
    ensures Counted(lines[..lo]) <= Counted(lines[..hi])
    ensures Gap(ItemsOf(lines), Counted(lines[..lo]) - 1, Counted(lines[..hi]), depth)
    decreases hi
  {
    if lo < hi {
      GapOfLines(lines, lo, hi - 1, depth);
      assert lines[..hi][..hi - 1] == lines[..hi - 1];
      if lines[hi - 1].EntryLine? {
        LineGivesItem(lines, hi - 1);
      }
    }
  }

  lemma CountedNext(lines: seq<Line>, l: nat)
    requires l < |lines|
    ensures Counted(lines[..l + 1]) == Counted(lines[..l]) + if lines[l].OtherLine? then 0 else 1
  {
    assert lines[..l + 1][..l] == lines[..l];
  }

  lemma ParentLineIsNearest(lines: seq<Line>, l: nat, p: nat)
    requires IsParentLine(lines, l, p)
    ensures IsNearestShallower(ItemsOf(lines), Counted(lines[..l]), Counted(lines[..p]))
  {
    LineGivesItem(lines, l);
    LineGivesItem(lines, p);
    CountedNext(lines, p);
    forall k | p < k < l ensures lines[k].OtherLine? || (lines[k].EntryLine? && LineDepth(lines[l]) <= LineDepth(lines[k])) {
      assert !IsShallower(lines, k, l);
    }
    GapOfLines(lines, p + 1, l, LineDepth(lines[l]));
  }

  lemma TopLineIsShallowest(lines: seq<Line>, l: nat) returns (p: int)
    requires l < |lines| && lines[l].EntryLine? && IsTopLine(lines, l)
    ensures IsShallowestSince(ItemsOf(lines), Counted(lines[..l]), p)
  {
    LineGivesItem(lines, l);
    var q := PartOpens(lines, l, l);
    if q >= 0 {
      LineGivesItem(lines, q);
      CountedNext(lines, q);
    }
    p := Counted(lines[..q + 1]) - 1;
    forall k | q < k < l ensures lines[k].OtherLine? || (lines[k].EntryLine? && LineDepth(lines[l]) <= LineDepth(lines[k])) {
      assert !IsShallower(lines, k, l);
    }
    GapOfLines(lines, q + 1, l, LineDepth(lines[l]));
  }

  lemma OnePlace(items: seq<Item>, j: nat, a: int, b: int)
    requires IsNearestShallower(items, j, a) && (IsNearestShallower(items, j, b) || IsShallowestSince(items, j, b))
    ensures a == b && !IsShallowestSince(items, j, b)
  {
  }

  /** The parent of an entry line is the nearest earlier entry line of its part with less indentation, if there is one. */
  lemma ParentOfLine(lines: seq<Line>, l: nat, p: nat)
    requires IsParentLine(lines, l, p)
    ensures Counted(lines[..l]) in KidsOf(Build(ItemsOf(lines)), Counted(lines[..p]))
  {
    var items, j := ItemsOf(lines), Counted(lines[..l]);
    ParentLineIsNearest(lines, l, p);
    ParentIsNearestShallower(items, j);
    var q :| IsPlaced(items, Build(items), j, q);
    OnePlace(items, j, Counted(lines[..p]), q);
  }

  lemma InsertKeepsRoots(forest: Forest, k: nat, n: nat, item: Item)
    ensures Roots(Insert(forest, k, n, item)) == if k == 0 || forest.Empty? then Roots(forest) + [n] else Roots(forest)
  {
  }

  /** Headings are roots. */
  lemma PartsAreRoots(items: seq<Item>, j: nat)
    requires j < |items| && items[j].Part?
    ensures j in Roots(Build(items))
  {
    var holds := (m: nat, s: State) => j < m ==> j in Roots(s.forest);
    forall m: nat, s: State | m < |items| ensures IsKept(items, holds, m, s) {
      InsertKeepsRoots(s.forest, |Keep(items, m, s.stack)|, m, items[m]);
    }
    KeptToTheEnd(items, 0, START, holds);
  }

  /** Headings are roots, and so are the entry lines without a parent. */
  lemma TopLineIsRoot(lines: seq<Line>, l: nat)
    requires l < |lines| && !lines[l].OtherLine? && IsTopLine(lines, l)
    ensures Counted(lines[..l]) in Roots(Build(ItemsOf(lines)))
  {
    var items, j := ItemsOf(lines), Counted(lines[..l]);
    LineGivesItem(lines, l);
    if lines[l].PartLine? {
      PartsAreRoots(items, j);
    } else {
      var p := TopLineIsShallowest(lines, l);
      ParentIsNearestShallower(items, j);
      var q :| IsPlaced(items, Build(items), j, q);
      if IsNearestShallower(items, j, q) {
        OnePlace(items, j, q, p);
      }
    }
  }

  ghost predicate Increasing(positions: seq<nat>) {
    forall a, b :: 0 <= a < b < |positions| ==> positions[a] < positions[b]
  }

  lemma {:induction false} RootsIncrease(forest: Forest, lo: nat, hi: nat)
    requires Ordered(forest, lo, hi)
    ensures Increasing(Roots(forest)) && forall j :: j in Roots(forest) ==> lo <= j < hi
  {
    if forest.Trees? {
      RootsIncrease(forest.front, lo, forest.index);
      OrderedRange(forest.front, lo, forest.index);
      OrderedRange(forest.kids, forest.index + 1, hi);
      var front := Roots(forest.front);
      assert forall a :: 0 <= a < |front| ==> front[a] in front && front[a] < forest.index;
    }
  }

  lemma {:induction false} KidsIncrease(forest: Forest, lo: nat, hi: nat, i: nat)
    requires Ordered(forest, lo, hi)
    ensures Increasing(KidsOf(forest, i)) && forall j :: j in KidsOf(forest, i) ==> lo <= i < j < hi
  {
    if forest.Trees? {
      OrderedRange(forest.front, lo, forest.index);
      OrderedRange(forest.kids, forest.index + 1, hi);
      if i < forest.index {
        KidsIncrease(forest.front, lo, forest.index, i);
      } else if i == forest.index {
        RootsIncrease(forest.kids, i + 1, hi);
      } else {
        KidsIncrease(forest.kids, forest.index + 1, hi, i);
      }
    }
  }

  lemma {:induction false} RootIsNoChild(forest: Forest, lo: nat, hi: nat, i: nat, j: nat)
    requires Ordered(forest, lo, hi) && j in Roots(forest)
    ensures j !in KidsOf(forest, i)
  {
    RootsIncrease(forest.front, lo, forest.index);
    if i < forest.index {
      KidsIncrease(forest.front, lo, forest.index, i);
      if j != forest.index {
        RootIsNoChild(forest.front, lo, forest.index, i, j);
      }
    } else if i == forest.index {
      RootsIncrease(forest.kids, forest.index + 1, hi);
    } else {
      KidsIncrease(forest.kids, forest.index + 1, hi, i);
    }
  }

  lemma {:induction false} OneParent(forest: Forest, lo: nat, hi: nat, j: nat, a: nat, b: nat)
    requires Ordered(forest, lo, hi) && j in KidsOf(forest, a) && j in KidsOf(forest, b) && a <= b
    ensures a == b
    decreases forest
  {
    KidsIncrease(forest, lo, hi, b);
    if a < forest.index {
      KidsIncrease(forest.front, lo, forest.index, a);
      OneParent(forest.front, lo, forest.index, j, a, b);
    } else if a > forest.index {
      OneParent(forest.kids, forest.index + 1, hi, j, a, b);
    } else if b > a {
      RootIsNoChild(forest.kids, forest.index + 1, hi, b, j);
    }
  }

  lemma BuildIsOrdered(items: seq<Item>)
    ensures Ordered(Build(items), 0, |items|)
  {
    EndIsWellPlaced(items);
  }

  /** The children of an entry line are exactly the lines whose parent it is. */
  lemma ChildrenOfLine(lines: seq<Line>, l: nat, p: nat)
    requires l < |lines| && !lines[l].OtherLine? && p < |lines| && lines[p].EntryLine?
    ensures Counted(lines[..l]) in KidsOf(Build(ItemsOf(lines)), Counted(lines[..p])) <==> IsParentLine(lines, l, p)
  {
    var forest, n, j, i := Build(ItemsOf(lines)), |ItemsOf(lines)|, Counted(lines[..l]), Counted(lines[..p]);
    BuildIsOrdered(ItemsOf(lines));
    var q := ParentOrTop(lines, l, l);
    if q < 0 {
      TopLineIsRoot(lines, l);
      RootIsNoChild(forest, 0, n, i, j);
    } else {
      ParentOfLine(lines, l, q);
      if j in KidsOf(forest, i) {
        var m := Counted(lines[..q]);
        OneParent(forest, 0, n, j, if i <= m then i else m, if i <= m then m else i);
        SameCountedLine(lines, p, q);
      }
    }
    if IsParentLine(lines, l, p) {
      ParentOfLine(lines, l, p);
    }
  }

  /** The roots are exactly the lines without a parent. */
  lemma RootsOfLines(lines: seq<Line>, l: nat)
    requires l < |lines| && !lines[l].OtherLine?
    ensures Counted(lines[..l]) in Roots(Build(ItemsOf(lines))) <==> IsTopLine(lines, l)
  {
    BuildIsOrdered(ItemsOf(lines));
    var p := ParentOrTop(lines, l, l);
    if p < 0 {
      TopLineIsRoot(lines, l);
    } else {
      ParentOfLine(lines, l, p);
      if Counted(lines[..l]) in Roots(Build(ItemsOf(lines))) {
        RootIsNoChild(Build(ItemsOf(lines)), 0, |ItemsOf(lines)|, Counted(lines[..p]), Counted(lines[..l]));
      }
    }
  }

  lemma {:induction false} CountedGrows(lines: seq<Line>, a: nat, b: nat)
    requires a < b <= |lines| && !lines[a].OtherLine?
    ensures Counted(lines[..a]) < Counted(lines[..b])
    decreases b
  {
    hide Counted;
    CountedNext(lines, b - 1);
    if a < b - 1 {
      CountedGrows(lines, a, b - 1);
    }
  }

  lemma SameCountedLine(lines: seq<Line>, a: nat, b: nat)
    requires a < |lines| && b < |lines| && !lines[a].OtherLine? && !lines[b].OtherLine?
    requires Counted(lines[..a]) == Counted(lines[..b])
    ensures a == b
  {
    if a < b {
      CountedGrows(lines, a, b);
    } else if b < a {
      CountedGrows(lines, b, a);
    }
  }

  // ---------------------------------------------------------------------------
  // The builder, on the heap
  // ---------------------------------------------------------------------------

  /** An item list that several places may refer to. */
  class ItemList {
    var list: seq<Built>

    constructor ()
      ensures list == []
    {
      list := [];
    }
  }

  class Node {
    const text: string
    const page: string
    const items: ItemList

    constructor (text: string, page: string)
      ensures this.text == text && this.page == page && fresh(items) && items.list == []
    {
      this.text := text;
      this.page := page;
      this.items := new ItemList();
    }
  }

  datatype Built = Heading(value: string) | Page(node: Node)

  datatype Frame = Frame(depth: int, items: ItemList)

  /** The list holds the built items at the given positions. */
  ghost predicate Holds(list: seq<Built>, made: seq<Built>, positions: seq<nat>) {
    |list| == |positions| && forall k :: 0 <= k < |list| ==> positions[k] < |made| && list[k] == made[positions[k]]
  }

  ghost predicate IsBuilt(built: Built, item: Item) {
    match item
    case Part(title) => built == Heading(title)
    case Entry(_, text, page) => built.Page? && built.node.text == text && built.node.page == page
  }

  /** The item lists of the root and of all nodes. */
  ghost function Lists(root: ItemList, made: seq<Built>): set<ItemList> {
    {root} + set i | 0 <= i < |made| && made[i].Page? :: made[i].node.items
  }

  /** No two nodes share a list. */
  ghost predicate Separate(root: ItemList, made: seq<Built>) {
    && (forall i :: 0 <= i < |made| && made[i].Page? ==> made[i].node.items != root)
    && (forall i, j :: 0 <= i < j < |made| && made[i].Page? && made[j].Page? ==> made[i].node.items != made[j].node.items)
  }

  /** The lists on the heap are the child lists of the forest. */
  ghost predicate Represents(root: ItemList, made: seq<Built>, forest: Forest)
    reads Lists(root, made)
  {
    && Holds(root.list, made, Roots(forest))
    && forall i :: 0 <= i < |made| && made[i].Page? ==> Holds(made[i].node.items.list, made, KidsOf(forest, i))
  }

  /** The frames above the root frame alias the lists of the open entries. */
  ghost predicate Aliases(frames: seq<Frame>, root: ItemList, made: seq<Built>, items: seq<Item>, stack: seq<nat>) {
    && |frames| == |stack| + 1 && frames[0] == Frame(-1, root)
    && forall s :: 0 <= s < |stack| ==>
         IsEntry(items, stack[s]) && stack[s] < |made| && made[stack[s]].Page? &&
         frames[s + 1] == Frame(items[stack[s]].depth, made[stack[s]].node.items)
  }

  /** Closes the frames that are at least as deep as the new entry. */
  method PopFrames(frames: seq<Frame>, depth: nat, ghost root: ItemList, ghost made: seq<Built>,
                   ghost items: seq<Item>, ghost stack: seq<nat>) returns (rest: seq<Frame>)
    requires Aliases(frames, root, made, items, stack)
    ensures Aliases(rest, root, made, items, Pop(items, stack, depth))
  {
    rest := frames;
    ghost var open := stack;
    while rest[|rest| - 1].depth >= depth
      invariant Aliases(rest, root, made, items, open)
      invariant Pop(items, open, depth) == Pop(items, stack, depth)
      decreases |rest|
    {
      rest := rest[..|rest| - 1];
      open := open[..|open| - 1];
    }
  }

  /** The list that items under the given spine are appended to. */
  ghost function ListAt(root: ItemList, made: seq<Built>, spine: seq<nat>): ItemList
    requires forall s :: 0 <= s < |spine| ==> spine[s] < |made| && made[spine[s]].Page?
  {
    if spine == [] then root else made[spine[|spine| - 1]].node.items
  }

  /** A snapshot of the lists: the root's, and one for each built item. */
  datatype Content = Content(top: seq<Built>, kids: seq<seq<Built>>)

  ghost predicate Stored(content: Content, root: ItemList, made: seq<Built>)
    reads Lists(root, made)
  {
    && |content.kids| == |made| && root.list == content.top
    && forall i :: 0 <= i < |made| && made[i].Page? ==> made[i].node.items.list == content.kids[i]
  }

  ghost predicate Shows(content: Content, made: seq<Built>, forest: Forest) {
    && |content.kids| == |made| && Holds(content.top, made, Roots(forest))
    && forall i :: 0 <= i < |made| ==> Holds(content.kids[i], made, KidsOf(forest, i))
  }

  /** The snapshot after appending to the list at the end of the spine. */
  ghost function Appended(content: Content, spine: seq<nat>, built: Built): Content
    requires spine != [] ==> spine[|spine| - 1] < |content.kids|
  {
    if spine == [] then Content(content.top + [built], content.kids + [[]])
    else
      var p := spine[|spine| - 1];
      Content(content.top, content.kids[p := content.kids[p] + [built]] + [[]])
  }

  lemma HoldsAfterAppending(list: seq<Built>, made: seq<Built>, positions: seq<nat>, built: Built)
    requires Holds(list, made, positions)
    ensures Holds(list, made + [built], positions)
    ensures Holds(list + [built], made + [built], positions + [|made|])
  {
  }

  /** The rightmost path of the forest starts with the open positions. */
  ghost predicate Follows(forest: Forest, open: seq<nat>, n: nat) {
    && Ordered(forest, 0, n) && |open| <= Height(forest)
    && forall s :: 0 <= s < |open| ==> SpineAt(forest, s) == open[s] < n
  }

  lemma AppendedShowsKids(content: Content, made: seq<Built>, forest: Forest, open: seq<nat>, built: Built,
                          item: Item, i: nat)
    requires Shows(content, made, forest) && Follows(forest, open, |made|) && i <= |made|
    ensures Holds(Appended(content, open, built).kids[i], made + [built], KidsOf(Insert(forest, |open|, |made|, item), i))
  {
    if i < |made| {
      InsertAddsChild(forest, |open|, 0, |made|, item, i);
      HoldsAfterAppending(content.kids[i], made, KidsOf(forest, i), built);
    } else {
      InsertedHasNoChildren(forest, |open|, 0, |made|, item);
    }
  }

  lemma AppendedShowsInsertion(content: Content, made: seq<Built>, forest: Forest, open: seq<nat>, built: Built,
                               item: Item)
    requires Shows(content, made, forest) && Follows(forest, open, |made|)
    ensures Shows(Appended(content, open, built), made + [built], Insert(forest, |open|, |made|, item))
  {
    HoldsAfterAppending(content.top, made, Roots(forest), built);
    var after, grown, more := Appended(content, open, built), Insert(forest, |open|, |made|, item), made + [built];
    forall i | 0 <= i < |more| ensures Holds(after.kids[i], more, KidsOf(grown, i)) {
      AppendedShowsKids(content, made, forest, open, built, item, i);
    }
  }

  lemma KeepFollows(items: seq<Item>, n: nat, state: State)
    requires n < |items| && IsSound(n, state)
    ensures Follows(state.forest, Keep(items, n, state.stack), n)
  {
    var open := Keep(items, n, state.stack);
    forall s | 0 <= s < |open| ensures SpineAt(state.forest, s) == open[s] < n {
      SpineIsOrdered(state.forest, 0, n, s);
    }
  }

  /** Appending to one aliased list changes only that list. */
  method Append(list: ItemList, built: Built, ghost root: ItemList, ghost made: seq<Built>, ghost content: Content,
                ghost spine: seq<nat>)
    requires Separate(root, made) && Stored(content, root, made)
    requires forall s :: 0 <= s < |spine| ==> spine[s] < |made| && made[spine[s]].Page?
    requires list == ListAt(root, made, spine)
    requires built.Page? ==> built.node.items !in Lists(root, made) && built.node.items.list == []
    modifies list
    ensures Stored(Appended(content, spine, built), root, made + [built])
  {
    list.list := list.list + [built];
  }

  lemma StaysSeparate(root: ItemList, made: seq<Built>, built: Built)
    requires Separate(root, made) && (built.Page? ==> built.node.items !in Lists(root, made))
    ensures Separate(root, made + [built])
  {
    if built.Page? {
      forall i | 0 <= i < |made| && made[i].Page? ensures made[i].node.items != built.node.items {
        assert made[i].node.items in Lists(root, made);
      }
    }
  }

  /** The frames after the entry was pushed. */
  lemma PushedFramesAlias(frames: seq<Frame>, root: ItemList, made: seq<Built>, items: seq<Item>, stack: seq<nat>,
                          node: Node)
    requires Aliases(frames, root, made, items, stack) && IsEntry(items, |made|)
    ensures Aliases(frames + [Frame(items[|made|].depth, node.items)], root, made + [Page(node)], items, stack + [|made|])
  {
  }

  ghost predicate AllBuilt(made: seq<Built>, items: seq<Item>) {
    |made| <= |items| && forall i :: 0 <= i < |made| ==> IsBuilt(made[i], items[i])
  }

  /** What holds, apart from the heap, before item |made| is read. */
  ghost predicate Progress(root: ItemList, made: seq<Built>, content: Content, frames: seq<Frame>, items: seq<Item>,
                           state: State) {
    && AllBuilt(made, items) && Separate(root, made) && IsSound(|made|, state)
    && Shows(content, made, state.forest) && Aliases(frames, root, made, items, state.stack)
  }

  /** The bookkeeping for one more item, given the frames it leaves. */
  lemma ItemKeepsProgress(root: ItemList, made: seq<Built>, content: Content, frames: seq<Frame>, items: seq<Item>,
                          state: State,
                          built: Built, rest: seq<Frame>)
    requires Progress(root, made, content, frames, items, state)
    requires |made| < |items| && IsBuilt(built, items[|made|]) && (built.Page? ==> built.node.items !in Lists(root, made))
    requires Aliases(rest, root, made + [built], items, Step(items, |made|, state).stack)
    ensures Follows(state.forest, Keep(items, |made|, state.stack), |made|)
    ensures Progress(root, made + [built], Appended(content, Keep(items, |made|, state.stack), built), rest, items,
                     Step(items, |made|, state))
  {
    var n := |made|;
    KeepFollows(items, n, state);
    StepIsSound(items, n, state);
    StaysSeparate(root, made, built);
    AppendedShowsInsertion(content, made, state.forest, Keep(items, n, state.stack), built, items[n]);
  }

  lemma OneMoreList(root: ItemList, made: seq<Built>, built: Built)
    ensures Lists(root, made + [built]) == Lists(root, made) + if built.Page? then {built.node.items} else {}
  {
    var after := made + [built];
    assert forall i :: 0 <= i < |made| ==> after[i] == made[i];
    assert after[|made|] == built;
  }

  method ReadHeading(title: string, frames: seq<Frame>, ghost root: ItemList, ghost made: seq<Built>,
                     ghost content: Content, ghost items: seq<Item>, ghost state: State)
    returns (rest: seq<Frame>)
    requires Progress(root, made, content, frames, items, state) && Stored(content, root, made)
    requires |made| < |items| && items[|made|] == Part(title)
    modifies root
    ensures Progress(root, made + [Heading(title)], Appended(content, [], Heading(title)), rest, items, Step(items, |made|, state))
    ensures Stored(Appended(content, [], Heading(title)), root, made + [Heading(title)])
  {
    rest := frames[..1];
    ItemKeepsProgress(root, made, content, frames, items, state, Heading(title), rest);
    Append(frames[0].items, Heading(title), root, made, content, []);
  }

  method ReadEntry(depth: nat, node: Node, frames: seq<Frame>, ghost root: ItemList, ghost made: seq<Built>,
                   ghost content: Content, ghost items: seq<Item>, ghost state: State)
    returns (rest: seq<Frame>)
    requires Progress(root, made, content, frames, items, state) && Stored(content, root, made)
    requires |made| < |items| && items[|made|] == Entry(depth, node.text, node.page)
    requires node.items !in Lists(root, made) && node.items.list == []
    modifies Lists(root, made)
    ensures Follows(state.forest, Keep(items, |made|, state.stack), |made|)
    ensures Progress(root, made + [Page(node)], Appended(content, Keep(items, |made|, state.stack), Page(node)), rest, items,
                     Step(items, |made|, state))
    ensures Stored(Appended(content, Keep(items, |made|, state.stack), Page(node)), root, made + [Page(node)])
  {
    var open := PopFrames(frames, depth, root, made, items, state.stack);
    rest := open + [Frame(depth, node.items)];
    PushedFramesAlias(open, root, made, items, Keep(items, |made|, state.stack), node);
    ItemKeepsProgress(root, made, content, frames, items, state, Page(node), rest);
    Append(open[|open| - 1].items, Page(node), root, made, content, Keep(items, |made|, state.stack));
  }

  /** Makes the node of an entry and reads it. */
  method ReadNewEntry(depth: nat, text: string, page: string, frames: seq<Frame>, ghost root: ItemList,
                      ghost made: seq<Built>,
                      ghost content: Content, ghost items: seq<Item>, ghost state: State)
    returns (rest: seq<Frame>, ghost more: seq<Built>, ghost after: Content)
    requires Progress(root, made, content, frames, items, state) && Stored(content, root, made)
    requires |made| < |items| && items[|made|] == Entry(depth, text, page)
    modifies Lists(root, made)
    ensures Progress(root, more, after, rest, items, Step(items, |made|, state))
    ensures Stored(after, root, more) && |more| == |made| + 1
    ensures fresh(Lists(root, more) - Lists(root, made))
  {
    var node := new Node(text, page);
    OneMoreList(root, made, Page(node));
    rest := ReadEntry(depth, node, frames, root, made, content, items, state);
    more, after := made + [Page(node)], Appended(content, Keep(items, |made|, state.stack), Page(node));
  }

  lemma NextItem(lines: seq<Line>, l: nat, n: nat)
    requires l < |lines| && n <= |ItemsOf(lines)| && ItemsOf(lines[..l]) == ItemsOf(lines)[..n]
    ensures var items := ItemsOf(lines);
            match lines[l]
            case PartLine(title) => n < |items| && items[n] == Part(title) && ItemsOf(lines[..l + 1]) == items[..n + 1]
            case EntryLine(indent, text, page) =>
              n < |items| && items[n] == Entry(Width(indent) / 2, text, page) && ItemsOf(lines[..l + 1]) == items[..n + 1]
            case OtherLine => ItemsOf(lines[..l + 1]) == items[..n]
  {
    ItemsArePrefix(lines, l + 1);
    assert lines[..l + 1][..l] == lines[..l];
  }

  /** The line gives the next item, or none. */
  ghost predicate IsNext(line: Line, items: seq<Item>, n: nat) {
    match line
    case PartLine(title) => n < |items| && items[n] == Part(title)
    case EntryLine(indent, text, page) => n < |items| && items[n] == Entry(Width(indent) / 2, text, page)
    case OtherLine => true
  }

  method ReadLine(line: Line, frames: seq<Frame>, ghost root: ItemList, ghost made: seq<Built>,
                  ghost content: Content, ghost items: seq<Item>, ghost state: State)
    returns (rest: seq<Frame>, ghost more: seq<Built>, ghost after: Content, ghost next: State)
    requires Progress(root, made, content, frames, items, state) && Stored(content, root, made) && IsNext(line, items, |made|)
    modifies Lists(root, made)
    ensures Progress(root, more, after, rest, items, next) && Stored(after, root, more)
    ensures next == if line.OtherLine? then state else Step(items, |made|, state)
    ensures |more| == if line.OtherLine? then |made| else |made| + 1
    ensures |more| <= |items| && Continue(items, |more|, next) == Continue(items, |made|, state)
    ensures fresh(Lists(root, more) - Lists(root, made))
  {
    if !line.OtherLine? {
      ContinueWithStep(items, |made|, state);
    }
    match line {
      case PartLine(title) =>
        OneMoreList(root, made, Heading(title));
        rest := ReadHeading(title, frames, root, made, content, items, state);
        more, after := made + [Heading(title)], Appended(content, [], Heading(title));
        next := Step(items, |made|, state);
      case EntryLine(indent, text, page) =>
        rest, more, after := ReadNewEntry(Width(indent) / 2, text, page, frames, root, made, content, items, state);
        next := Step(items, |made|, state);
      case OtherLine =>
        rest, more, after, next := frames, made, content, state;
    }
  }

  /** The lists reachable from the root are the forest of the items, `made` being the built items in input order. */
  ghost predicate IsTreeOf(root: ItemList, made: seq<Built>, items: seq<Item>)
    reads Lists(root, made)
  {
    |made| == |items| && AllBuilt(made, items) && Separate(root, made) && Represents(root, made, Build(items))
  }

  ghost predicate DepthsIncrease(frames: seq<Frame>) {
    forall a, b :: 0 <= a < b < |frames| ==> frames[a].depth < frames[b].depth
  }

  lemma FrameDepth(frames: seq<Frame>, root: ItemList, made: seq<Built>, items: seq<Item>, stack: seq<nat>, b: nat)
    requires Aliases(frames, root, made, items, stack) && 0 < b < |frames|
    ensures frames[b].depth == DepthAt(items, stack[b - 1]) >= 0
  {
    var s := b - 1;
    assert frames[s + 1] == Frame(items[stack[s]].depth, made[stack[s]].node.items);
  }

  lemma FrameIsDeeper(frames: seq<Frame>, root: ItemList, made: seq<Built>, items: seq<Item>, stack: seq<nat>, start: int,
                      a: nat, b: nat)
    requires Aliases(frames, root, made, items, stack) && Nested(items, stack, start) && a < b < |frames|
    ensures frames[a].depth < frames[b].depth
  {
    FrameDepth(frames, root, made, items, stack, b);
    if a > 0 {
      FrameDepth(frames, root, made, items, stack, a);
      NestedDepthsIncrease(items, stack, start, a - 1, b - 1);
    }
  }

  lemma WellPlacedIsNested(items: seq<Item>, n: nat, state: State) returns (start: int)
    requires IsWellPlaced(items, n, state)
    ensures Nested(items, state.stack, start)
  {
    start :| WellPlaced(items, n, state, start);
  }

  /** Frames that alias the open entries have strictly increasing depths, from -1 on. */
  lemma FrameDepthsIncrease(frames: seq<Frame>, root: ItemList, made: seq<Built>, items: seq<Item>, stack: seq<nat>, start: int)
    requires Aliases(frames, root, made, items, stack) && Nested(items, stack, start)
    ensures frames[0].depth == -1 && DepthsIncrease(frames)
  {
    forall a, b | 0 <= a < b < |frames| ensures frames[a].depth < frames[b].depth {
      FrameIsDeeper(frames, root, made, items, stack, start, a, b);
    }
  }

  lemma LineKeepsWellPlaced(line: Line, items: seq<Item>, n: nat, state: State)
    requires IsWellPlaced(items, n, state) && IsNext(line, items, n)
    ensures !line.OtherLine? ==> IsWellPlaced(items, n + 1, Step(items, n, state))
  {
    if !line.OtherLine? {
      StepKeepsWellPlaced(items, n, state);
    }
  }

  /** Once all items are read, the lists are the forest. */
  lemma FinishedTree(root: ItemList, made: seq<Built>, content: Content, frames: seq<Frame>, items: seq<Item>,
                     state: State)
    requires Progress(root, made, content, frames, items, state) && Stored(content, root, made)
    requires |made| == |items| && state.forest == Build(items)
    ensures IsTreeOf(root, made, items)
  {
  }

  /** What holds, apart from the heap, after l lines. */
  ghost predicate IsReached(lines: seq<Line>, l: nat, root: ItemList, made: seq<Built>, content: Content, frames: seq<Frame>,
                            state: State)
    requires l <= |lines|
  {
    var items := ItemsOf(lines);
    && Progress(root, made, content, frames, items, state) && IsWellPlaced(items, |made|, state)
    && ItemsOf(lines[..l]) == items[..|made|] && Continue(items, |made|, state).forest == Build(items)
    && frames[0].depth == -1 && DepthsIncrease(frames)
  }

  method ReadNext(lines: seq<Line>, l: nat, frames: seq<Frame>, ghost root: ItemList, ghost made: seq<Built>,
                  ghost content: Content, ghost state: State)
    returns (rest: seq<Frame>, ghost more: seq<Built>, ghost after: Content, ghost next: State)
    requires l < |lines| && IsReached(lines, l, root, made, content, frames, state) && Stored(content, root, made)
    modifies Lists(root, made)
    ensures IsReached(lines, l + 1, root, more, after, rest, next) && Stored(after, root, more)
    ensures fresh(Lists(root, more) - Lists(root, made))
  {
    NextItem(lines, l, |made|);
    LineKeepsWellPlaced(lines[l], ItemsOf(lines), |made|, state);
    rest, more, after, next := ReadLine(lines[l], frames, root, made, content, ItemsOf(lines), state);
    ghost var start := WellPlacedIsNested(ItemsOf(lines), |more|, next);
    FrameDepthsIncrease(rest, root, more, ItemsOf(lines), next.stack, start);
  }

  /** Reads the lines into an empty list. */
  method ReadLines(lines: seq<Line>, root: ItemList) returns (ghost made: seq<Built>)
    requires root.list == []
    modifies root
    ensures IsTreeOf(root, made, ItemsOf(lines))
  {
    made := [];
    ghost var content, state := Content([], []), START;
    var frames := [Frame(-1, root)];
    StartIsWellPlaced(ItemsOf(lines));
    for l := 0 to |lines|
      invariant IsReached(lines, l, root, made, content, frames, state) && Stored(content, root, made)
      invariant fresh(Lists(root, made) - {root})
    {
      frames, made, content, state := ReadNext(lines, l, frames, root, made, content, state);
    }
    assert lines[..|lines|] == lines;
    FinishedTree(root, made, content, frames, ItemsOf(lines), state);
  }

  ghost predicate IsBuiltFrom(built: Built, line: Line) {
    match line
    case PartLine(title) => built == Heading(title)
    case EntryLine(_, text, page) => built.Page? && built.node.text == text && built.node.page == page
    case OtherLine => false
  }

  /** The list holds, in input order, what was built from the lines under line p, or from the lines at the top if p is -1. */
  ghost predicate ListsLines(list: seq<Built>, made: seq<Built>, lines: seq<Line>, p: int, positions: seq<nat>) {
    && Holds(list, made, positions) && Increasing(positions)
    && forall l :: 0 <= l < |lines| && !lines[l].OtherLine? ==>
         (Counted(lines[..l]) in positions <==> if p < 0 then IsTopLine(lines, l) else IsParentLine(lines, l, p))
  }

  /** What was built from line l stands where the indentation of the lines says. */
  ghost predicate IsPlacedByLine(root: ItemList, made: seq<Built>, lines: seq<Line>, l: nat)
    requires l < |lines|
    reads Lists(root, made)
  {
    var n := Counted(lines[..l]);
    && n < |made| && IsBuiltFrom(made[n], lines[l])
    && (lines[l].EntryLine? ==> exists positions :: ListsLines(made[n].node.items.list, made, lines, l, positions))
  }

  /** The lists reachable from the root hold one built item for each line that counts, arranged by the lines' indentation. */
  ghost predicate IsTreeOfLines(root: ItemList, made: seq<Built>, lines: seq<Line>)
    reads Lists(root, made)
  {
    && |made| == Counted(lines) && Separate(root, made)
    && (exists positions :: ListsLines(root.list, made, lines, -1, positions))
    && forall l :: 0 <= l < |lines| && !lines[l].OtherLine? ==> IsPlacedByLine(root, made, lines, l)
  }

  lemma TreeListsLines(root: ItemList, made: seq<Built>, lines: seq<Line>, p: nat)
    requires IsTreeOf(root, made, ItemsOf(lines)) && p < |lines| && !lines[p].OtherLine?
    ensures IsPlacedByLine(root, made, lines, p)
  {
    var items := ItemsOf(lines);
    LineGivesItem(lines, p);
    var i := Counted(lines[..p]);
    assert IsBuilt(made[i], items[i]);
    if lines[p].EntryLine? {
      BuildIsOrdered(items);
      KidsIncrease(Build(items), 0, |items|, i);
      forall l | 0 <= l < |lines| && !lines[l].OtherLine?
        ensures Counted(lines[..l]) in KidsOf(Build(items), i) <==> IsParentLine(lines, l, p)
      {
        ChildrenOfLine(lines, l, p);
      }
      assert ListsLines(made[i].node.items.list, made, lines, p, KidsOf(Build(items), i));
    }
  }

  lemma TreeOfLines(root: ItemList, made: seq<Built>, lines: seq<Line>)
    requires IsTreeOf(root, made, ItemsOf(lines))
    ensures IsTreeOfLines(root, made, lines)
  {
    var items := ItemsOf(lines);
    ItemsAreCounted(lines);
    BuildIsOrdered(items);
    RootsIncrease(Build(items), 0, |items|);
    forall l | 0 <= l < |lines| && !lines[l].OtherLine?
      ensures Counted(lines[..l]) in Roots(Build(items)) <==> IsTopLine(lines, l)
    {
      RootsOfLines(lines, l);
    }
    assert ListsLines(root.list, made, lines, -1, Roots(Build(items)));
    forall l | 0 <= l < |lines| && !lines[l].OtherLine? ensures IsPlacedByLine(root, made, lines, l) {
      TreeListsLines(root, made, lines, l);
    }
  }

  /** Builds the forest of a file in one pass. */
  method ParseSummary(lines: seq<Line>) returns (root: ItemList)
    ensures exists made :: IsTreeOf(root, made, ItemsOf(lines)) && IsTreeOfLines(root, made, lines)
  {
    root := new ItemList();
    ghost var made := ReadLines(lines, root);
    TreeOfLines(root, made, lines);
  }

  // ---------------------------------------------------------------------------
  // Sidebar items
  // ---------------------------------------------------------------------------

  datatype SidebarItem =
    | Html(value: string, defaultStyle: bool)
    | Doc(page: string, text: string)
    | Category(text: string, page: string, collapsible: bool, collapsed: bool, items: seq<SidebarItem>)

  /** A heading stays a heading, an entry becomes a category if it has children and a page otherwise. */
  function ToSidebarItems(forest: Forest): seq<SidebarItem> {
    match forest
    case Empty => []
    case Trees(front, _, Part(title), _) => ToSidebarItems(front) + [Html(title, true)]
    case Trees(front, _, Entry(_, text, page), kids) =>
      ToSidebarItems(front) +
      [if kids.Empty? then Doc(page, text) else Category(text, page, true, true, ToSidebarItems(kids))]
  }

  // ---------------------------------------------------------------------------
  // Converting the built nodes
  // ---------------------------------------------------------------------------

  /** Every tree carries the item at its position. */
  ghost predicate Carries(forest: Forest, items: seq<Item>) {
    forest.Empty? ||
    (&& forest.index < |items| && forest.item == items[forest.index]
     && Carries(forest.front, items) && Carries(forest.kids, items))
  }

  lemma {:induction false} InsertCarries(forest: Forest, k: nat, n: nat, items: seq<Item>)
    requires Carries(forest, items) && n < |items|
    ensures Carries(Insert(forest, k, n, items[n]), items)
    decreases k
  {
    if k > 0 && forest.Trees? {
      InsertCarries(forest.kids, k - 1, n, items);
    }
  }

  ghost predicate IsFaithful(items: seq<Item>, n: nat, state: State) {
    Carries(state.forest, items) && IsSound(n, state)
  }

  lemma StepIsFaithful(items: seq<Item>, n: nat, before: State)
    requires n < |items| && IsFaithful(items, n, before)
    ensures IsFaithful(items, n + 1, Step(items, n, before))
  {
    InsertCarries(before.forest, |Keep(items, n, before.stack)|, n, items);
    StepIsSound(items, n, before);
  }

  lemma BuildCarries(items: seq<Item>)
    ensures Carries(Build(items), items) && Ordered(Build(items), 0, |items|)
  {
    var holds := (m: nat, s: State) => IsFaithful(items, m, s);
    forall m: nat, s: State | m < |items| ensures IsKept(items, holds, m, s) {
      if holds(m, s) {
        StepIsFaithful(items, m, s);
      }
    }
    KeptToTheEnd(items, 0, START, holds);
  }

  /** The lists of the nodes at positions lo to hi are the child lists of the forest. */
  ghost predicate IsShownBy(forest: Forest, lo: nat, hi: nat, root: ItemList, made: seq<Built>, items: seq<Item>)
    reads Lists(root, made)
  {
    && hi <= |made| && AllBuilt(made, items) && Ordered(forest, lo, hi) && Carries(forest, items)
    && forall i :: lo <= i < hi && made[i].Page? ==> Holds(made[i].node.items.list, made, KidsOf(forest, i))
  }

  lemma RootsOf(forest: Forest)
    ensures |Roots(forest)| == 0 <==> forest.Empty?
  {
  }

  lemma FrontIsShown(forest: Forest, lo: nat, hi: nat, root: ItemList, made: seq<Built>, items: seq<Item>)
    requires forest.Trees? && IsShownBy(forest, lo, hi, root, made, items)
    ensures IsShownBy(forest.front, lo, forest.index, root, made, items)
    ensures IsShownBy(forest.kids, forest.index + 1, hi, root, made, items)
  {
    OrderedRange(forest.front, lo, forest.index);
    OrderedRange(forest.kids, forest.index + 1, hi);
    assert forall i :: lo <= i < forest.index ==> KidsOf(forest, i) == KidsOf(forest.front, i);
    assert forall i :: forest.index < i < hi ==> KidsOf(forest, i) == KidsOf(forest.kids, i);
  }

  lemma FrontIsHeld(list: seq<Built>, made: seq<Built>, forest: Forest)
    requires forest.Trees? && Holds(list, made, Roots(forest))
    ensures |list| > 0 && forest.index < |made| && list[|list| - 1] == made[forest.index]
    ensures Holds(list[..|list| - 1], made, Roots(forest.front))
  {
    var roots := Roots(forest);
    assert roots[..|roots| - 1] == Roots(forest.front) && roots[|roots| - 1] == forest.index;
  }

  /** Converts one built item, whose tree is the last of the forest. */
  method ConvertItem(built: Built, ghost forest: Forest, ghost lo: nat, ghost hi: nat,
                     ghost root: ItemList, ghost made: seq<Built>, ghost items: seq<Item>)
    returns (converted: SidebarItem)
    requires forest.Trees? && IsShownBy(forest, lo, hi, root, made, items) && built == made[forest.index]
    ensures ToSidebarItems(forest) == ToSidebarItems(forest.front) + [converted]
    decreases forest, 0
  {
    OrderedRange(forest.front, lo, forest.index);
    FrontIsShown(forest, lo, hi, root, made, items);
    RootsOf(forest.kids);
    match built {
      case Heading(title) =>
        converted := Html(title, true);
      case Page(node) =>
        assert Holds(node.items.list, made, Roots(forest.kids));
        if |node.items.list| == 0 {
          converted := Doc(node.page, node.text);
        } else {
          var kids := ConvertItems(node.items.list, forest.kids, forest.index + 1, hi, root, made, items);
          converted := Category(node.text, node.page, true, true, kids);
        }
    }
  }

  /** Converts a list of built items, which are the roots of the forest. */
  method ConvertItems(list: seq<Built>, ghost forest: Forest, ghost lo: nat, ghost hi: nat,
                      ghost root: ItemList, ghost made: seq<Built>, ghost items: seq<Item>)
    returns (converted: seq<SidebarItem>)
    requires IsShownBy(forest, lo, hi, root, made, items) && Holds(list, made, Roots(forest))
    ensures converted == ToSidebarItems(forest)
    decreases forest, 1
  {
    RootsOf(forest);
    if |list| == 0 {
      return [];
    }
    FrontIsShown(forest, lo, hi, root, made, items);
    FrontIsHeld(list, made, forest);
    var front := ConvertItems(list[..|list| - 1], forest.front, lo, forest.index, root, made, items);
    var last := ConvertItem(list[|list| - 1], forest, lo, hi, root, made, items);
    converted := front + [last];
  }

  // ---------------------------------------------------------------------------
  // What the sidebar shows
  // ---------------------------------------------------------------------------

  /** What a reader sees of one sidebar line. */
  datatype Label = HeadingLabel(value: string) | PageLabel(text: string, page: string)

  function LabelOf(item: Item): Label {
    match item
    case Part(title) => HeadingLabel(title)
    case Entry(_, text, page) => PageLabel(text, page)
  }

  /** The sidebar read top to bottom, with the level of every line. */
  ghost function SidebarOutline(items: seq<SidebarItem>, level: nat): seq<(nat, Label)> {
    if items == [] then []
    else SidebarOutline(items[..|items| - 1], level) + ItemOutline(items[|items| - 1], level)
  }

  ghost function ItemOutline(item: SidebarItem, level: nat): seq<(nat, Label)> {
    match item
    case Html(value, _) => [(level, HeadingLabel(value))]
    case Doc(page, text) => [(level, PageLabel(text, page))]
    case Category(text, page, _, _, kids) => [(level, PageLabel(text, page))] + SidebarOutline(kids, level + 1)
  }

  /** The forest read top to bottom, with the level of every tree. */
  ghost function Outline(forest: Forest, level: nat): seq<(nat, Label)>
    decreases forest
  {
    if forest.Empty? then []
    else Outline(forest.front, level) + [(level, LabelOf(forest.item))] + Outline(forest.kids, level + 1)
  }

  /** Headings have no children. */
  ghost predicate HeadingsAreLeaves(forest: Forest) {
    forest.Empty? ||
    (HeadingsAreLeaves(forest.front) && HeadingsAreLeaves(forest.kids) && (forest.item.Part? ==> forest.kids.Empty?))
  }

  lemma OneMoreSidebarItem(items: seq<SidebarItem>, item: SidebarItem, level: nat)
    ensures SidebarOutline(items + [item], level) == SidebarOutline(items, level) + ItemOutline(item, level)
  {
    assert (items + [item])[..|items|] == items;
  }

  /** The conversion keeps every line, its label, its level and the order. */
  lemma {:induction false} ConversionKeepsOutline(forest: Forest, level: nat)
    requires HeadingsAreLeaves(forest)
    ensures SidebarOutline(ToSidebarItems(forest), level) == Outline(forest, level)
    decreases forest
  {
    if forest.Trees? {
      ConversionKeepsOutline(forest.front, level);
      ConversionKeepsOutline(forest.kids, level + 1);
      var items := ToSidebarItems(forest);
      OneMoreSidebarItem(ToSidebarItems(forest.front), items[|items| - 1], level);
    }
  }

  /** The outline lists the labels in preorder. */
  lemma {:induction false} OutlineFollowsPreorder(forest: Forest, level: nat)
    ensures |Outline(forest, level)| == |Preorder(forest)|
    ensures forall i :: 0 <= i < |Preorder(forest)| ==> Outline(forest, level)[i].1 == LabelOf(Preorder(forest)[i].1)
    decreases forest
  {
    if forest.Trees? {
      OutlineFollowsPreorder(forest.front, level);
      OutlineFollowsPreorder(forest.kids, level + 1);
    }
  }

  /** The first k trees on the rightmost path are entries. */
  ghost predicate SpineOfEntries(forest: Forest, k: nat)
    decreases k
  {
    k == 0 || (forest.Trees? && forest.item.Entry? && SpineOfEntries(forest.kids, k - 1))
  }

  lemma {:induction false} ShorterSpineOfEntries(forest: Forest, k: nat, j: nat)
    requires SpineOfEntries(forest, k) && j <= k
    ensures SpineOfEntries(forest, j)
    decreases j
  {
    if j > 0 {
      ShorterSpineOfEntries(forest.kids, k - 1, j - 1);
    }
  }

  lemma {:induction false} InsertKeepsHeadingsLeaves(forest: Forest, k: nat, n: nat, item: Item)
    requires SpineOfEntries(forest, k) && HeadingsAreLeaves(forest)
    ensures HeadingsAreLeaves(Insert(forest, k, n, item))
    ensures item.Entry? ==> SpineOfEntries(Insert(forest, k, n, item), k + 1)
    decreases k
  {
    if k > 0 {
      InsertKeepsHeadingsLeaves(forest.kids, k - 1, n, item);
    }
  }

  ghost predicate IsLeafy(state: State) {
    HeadingsAreLeaves(state.forest) && SpineOfEntries(state.forest, |state.stack|)
  }

  lemma StepIsLeafy(items: seq<Item>, n: nat, before: State)
    requires n < |items| && IsLeafy(before)
    ensures IsLeafy(Step(items, n, before))
  {
    var k := |Keep(items, n, before.stack)|;
    ShorterSpineOfEntries(before.forest, |before.stack|, k);
    InsertKeepsHeadingsLeaves(before.forest, k, n, items[n]);
  }

  /** Headings never get children. */
  lemma HeadingsStayLeaves(items: seq<Item>)
    ensures HeadingsAreLeaves(Build(items))
  {
    var holds := (m: nat, s: State) => IsLeafy(s);
    forall m: nat, s: State | m < |items| ensures IsKept(items, holds, m, s) {
      if holds(m, s) {
        StepIsLeafy(items, m, s);
      }
    }
    KeptToTheEnd(items, 0, START, holds);
  }

  /** The sidebar shows exactly the items of the file, in input order. */
  lemma SidebarFollowsInput(items: seq<Item>)
    ensures var outline := SidebarOutline(ToSidebarItems(Build(items)), 0);
            |outline| == |items| && forall i :: 0 <= i < |items| ==> outline[i].1 == LabelOf(items[i])
  {
    HeadingsStayLeaves(items);
    ConversionKeepsOutline(Build(items), 0);
    OutlineFollowsPreorder(Build(items), 0);
    PreorderIsInputOrder(items);
  }

  // ---------------------------------------------------------------------------
  // What the sidebar shows, line by line
  // ---------------------------------------------------------------------------

  /** The level of the tree at position i. */
  ghost function LevelIn(forest: Forest, i: nat, level: nat): nat
    decreases forest
  {
    if forest.Empty? then 0
    else if i < forest.index then LevelIn(forest.front, i, level)
    else if i == forest.index then level
    else LevelIn(forest.kids, i, level + 1)
  }

  lemma {:induction false} RootLevel(forest: Forest, lo: nat, hi: nat, j: nat, level: nat)
    requires Ordered(forest, lo, hi) && j in Roots(forest)
    ensures LevelIn(forest, j, level) == level
  {
    if j != forest.index {
      RootsIncrease(forest.front, lo, forest.index);
      RootLevel(forest.front, lo, forest.index, j, level);
    }
  }

  lemma {:induction false} ChildLevel(forest: Forest, lo: nat, hi: nat, j: nat, p: nat, level: nat)
    requires Ordered(forest, lo, hi) && j in KidsOf(forest, p)
    ensures LevelIn(forest, j, level) == LevelIn(forest, p, level) + 1
    decreases forest
  {
    KidsIncrease(forest, lo, hi, p);
    if p < forest.index {
      KidsIncrease(forest.front, lo, forest.index, p);
      ChildLevel(forest.front, lo, forest.index, j, p, level);
    } else if p == forest.index {
      RootLevel(forest.kids, forest.index + 1, hi, j, level + 1);
    } else {
      ChildLevel(forest.kids, forest.index + 1, hi, j, p, level + 1);
    }
  }

  lemma {:induction false} PreorderRange(forest: Forest, lo: nat, hi: nat, k: nat)
    requires Ordered(forest, lo, hi) && k < |Preorder(forest)|
    ensures lo <= Preorder(forest)[k].0 < hi
  {
    OrderedRange(forest.front, lo, forest.index);
    OrderedRange(forest.kids, forest.index + 1, hi);
    var front := |Preorder(forest.front)|;
    if k < front {
      PreorderRange(forest.front, lo, forest.index, k);
    } else if k > front {
      PreorderRange(forest.kids, forest.index + 1, hi, k - front - 1);
    }
  }

  lemma {:induction false} OutlineLevel(forest: Forest, lo: nat, hi: nat, level: nat, k: nat)
    requires Ordered(forest, lo, hi) && k < |Preorder(forest)|
    ensures k < |Outline(forest, level)| && Outline(forest, level)[k].0 == LevelIn(forest, Preorder(forest)[k].0, level)
    decreases forest
  {
    OutlineFollowsPreorder(forest, level);
    OutlineFollowsPreorder(forest.front, level);
    var front := |Preorder(forest.front)|;
    if k < front {
      PreorderRange(forest.front, lo, forest.index, k);
      OutlineLevel(forest.front, lo, forest.index, level, k);
    } else if k > front {
      PreorderRange(forest.kids, forest.index + 1, hi, k - front - 1);
      OutlineLevel(forest.kids, forest.index + 1, hi, level + 1, k - front - 1);
    }
  }

  /** A line is shown with its label: a heading or a parentless entry at level 0, a child one level below its parent. */
  ghost predicate IsShown(outline: seq<(nat, Label)>, lines: seq<Line>, l: nat)
    requires l < |lines| && |outline| == Counted(lines)
  {
    var n := Counted(lines[..l]);
    && n < |outline|
    && outline[n].1 == (match lines[l]
                        case PartLine(title) => HeadingLabel(title)
                        case EntryLine(_, text, page) => PageLabel(text, page)
                        case OtherLine => outline[n].1)
    && (IsTopLine(lines, l) ==> outline[n].0 == 0)
    && forall p :: IsParentLine(lines, l, p) ==>
         Counted(lines[..p]) < n && outline[n].0 == outline[Counted(lines[..p])].0 + 1
  }

  /** The outline shows exactly the lines that count, in input order. */
  ghost predicate IsOutlineOf(outline: seq<(nat, Label)>, lines: seq<Line>) {
    |outline| == Counted(lines) && forall l :: 0 <= l < |lines| && !lines[l].OtherLine? ==> IsShown(outline, lines, l)
  }

  lemma OutlineLevelOf(items: seq<Item>, n: nat)
    requires n < |items|
    ensures n < |Outline(Build(items), 0)| && Outline(Build(items), 0)[n].0 == LevelIn(Build(items), n, 0)
  {
    BuildIsOrdered(items);
    PreorderIsInputOrder(items);
    OutlineLevel(Build(items), 0, |items|, 0, n);
  }

  lemma LineLevel(lines: seq<Line>, l: nat, p: nat)
    requires IsParentLine(lines, l, p)
    ensures var outline := Outline(Build(ItemsOf(lines)), 0);
            Counted(lines[..p]) < Counted(lines[..l]) < |outline| &&
            outline[Counted(lines[..l])].0 == outline[Counted(lines[..p])].0 + 1
  {
    var items := ItemsOf(lines);
    LineGivesItem(lines, l);
    CountedGrows(lines, p, l);
    BuildIsOrdered(items);
    ParentOfLine(lines, l, p);
    ChildLevel(Build(items), 0, |items|, Counted(lines[..l]), Counted(lines[..p]), 0);
    OutlineLevelOf(items, Counted(lines[..l]));
    OutlineLevelOf(items, Counted(lines[..p]));
  }

  lemma TopLevel(lines: seq<Line>, l: nat)
    requires l < |lines| && !lines[l].OtherLine? && IsTopLine(lines, l)
    ensures var outline := Outline(Build(ItemsOf(lines)), 0);
            Counted(lines[..l]) < |outline| && outline[Counted(lines[..l])].0 == 0
  {
    var items := ItemsOf(lines);
    LineGivesItem(lines, l);
    BuildIsOrdered(items);
    TopLineIsRoot(lines, l);
    RootLevel(Build(items), 0, |items|, Counted(lines[..l]), 0);
    OutlineLevelOf(items, Counted(lines[..l]));
  }

  lemma LineIsShown(lines: seq<Line>, l: nat)
    requires l < |lines| && !lines[l].OtherLine?
    requires |SidebarOutline(ToSidebarItems(Build(ItemsOf(lines))), 0)| == Counted(lines)
    ensures IsShown(SidebarOutline(ToSidebarItems(Build(ItemsOf(lines))), 0), lines, l)
  {
    var items := ItemsOf(lines);
    HeadingsStayLeaves(items);
    ConversionKeepsOutline(Build(items), 0);
    SidebarFollowsInput(items);
    LineGivesItem(lines, l);
    if IsTopLine(lines, l) {
      TopLevel(lines, l);
    }
    forall p: nat | IsParentLine(lines, l, p)
      ensures Counted(lines[..p]) < Counted(lines[..l])
      ensures Outline(Build(items), 0)[Counted(lines[..l])].0 == Outline(Build(items), 0)[Counted(lines[..p])].0 + 1
    {
      LineLevel(lines, l, p);
    }
  }

  /** The sidebar shows the lines of the file, nested as their indentation says. */
  lemma SidebarFollowsLines(lines: seq<Line>)
    ensures IsOutlineOf(SidebarOutline(ToSidebarItems(Build(ItemsOf(lines))), 0), lines)
  {
    SidebarFollowsInput(ItemsOf(lines));
    ItemsAreCounted(lines);
    forall l | 0 <= l < |lines| && !lines[l].OtherLine?
      ensures IsShown(SidebarOutline(ToSidebarItems(Build(ItemsOf(lines))), 0), lines, l)
    {
      LineIsShown(lines, l);
    }
  }

  /** Headings have the default style; a category has items, and starts collapsed. */
  ghost predicate IsPresented(items: seq<SidebarItem>) {
    forall k :: 0 <= k < |items| ==> IsItemPresented(items[k])
  }

  ghost predicate IsItemPresented(item: SidebarItem) {
    match item
    case Html(_, defaultStyle) => defaultStyle
    case Doc(_, _) => true
    case Category(_, _, collapsible, collapsed, items) => collapsible && collapsed && items != [] && IsPresented(items)
  }

  lemma {:induction false} ConversionIsPresented(forest: Forest)
    ensures IsPresented(ToSidebarItems(forest)) && (forest.Trees? ==> ToSidebarItems(forest) != [])
  {
    if forest.Trees? {
      ConversionIsPresented(forest.front);
      ConversionIsPresented(forest.kids);
    }
  }

  /** An item's first line is at its level, the others are below it. */
  ghost predicate IsBelow(outline: seq<(nat, Label)>, level: nat) {
    |outline| > 0 && outline[0].0 == level && forall k :: 1 <= k < |outline| ==> outline[k].0 > level
  }

  lemma {:induction false} OutlineIsBelow(items: seq<SidebarItem>, level: nat)
    ensures forall k :: 0 <= k < |SidebarOutline(items, level)| ==> SidebarOutline(items, level)[k].0 >= level
    ensures items != [] ==> |SidebarOutline(items, level)| > 0
    decreases items, 1
  {
    if items != [] {
      OutlineIsBelow(items[..|items| - 1], level);
      ItemIsBelow(items[|items| - 1], level);
    }
  }

  lemma {:induction false} ItemIsBelow(item: SidebarItem, level: nat)
    ensures IsBelow(ItemOutline(item, level), level)
    decreases item, 0
  {
    if item.Category? {
      OutlineIsBelow(item.items, level + 1);
    }
  }

  /** An outline splits in one way only into what comes before its last item and that item. */
  lemma SplitsOnce(a: seq<(nat, Label)>, x: seq<(nat, Label)>, b: seq<(nat, Label)>, y: seq<(nat, Label)>, level: nat)
    requires a + x == b + y && IsBelow(x, level) && IsBelow(y, level)
    ensures a == b && x == y
  {
    assert (a + x)[|a|] == x[0] && (b + y)[|b|] == y[0];
    assert |a| == |b|;
    assert a == (a + x)[..|a|] && b == (b + y)[..|b|];
    assert x == (a + x)[|a|..] && y == (b + y)[|b|..];
  }

  lemma {:induction false} ItemsAgree(x: SidebarItem, y: SidebarItem, level: nat)
    requires IsItemPresented(x) && IsItemPresented(y) && ItemOutline(x, level) == ItemOutline(y, level)
    ensures x == y
    decreases x, 0
  {
    assert ItemOutline(x, level)[0] == ItemOutline(y, level)[0];
    if x.Category? {
      OutlineIsBelow(x.items, level + 1);
    }
    if y.Category? {
      OutlineIsBelow(y.items, level + 1);
    }
    assert x.Category? == y.Category?;
    if x.Category? && y.Category? {
      assert SidebarOutline(x.items, level + 1) == ItemOutline(x, level)[1..];
      assert SidebarOutline(y.items, level + 1) == ItemOutline(y, level)[1..];
      OutlineDeterminesSidebar(x.items, y.items, level + 1);
    }
  }

  /** Two sidebars that show the same are the same. */
  lemma {:induction false} OutlineDeterminesSidebar(a: seq<SidebarItem>, b: seq<SidebarItem>, level: nat)
    requires IsPresented(a) && IsPresented(b) && SidebarOutline(a, level) == SidebarOutline(b, level)
    ensures a == b
    decreases a, 1
  {
    OutlineIsBelow(a, level);
    OutlineIsBelow(b, level);
    if a != [] {
      var x, y := a[|a| - 1], b[|b| - 1];
      ItemIsBelow(x, level);
      ItemIsBelow(y, level);
      SplitsOnce(SidebarOutline(a[..|a| - 1], level), ItemOutline(x, level),
                 SidebarOutline(b[..|b| - 1], level), ItemOutline(y, level), level);
      OutlineDeterminesSidebar(a[..|a| - 1], b[..|b| - 1], level);
      ItemsAgree(x, y, level);
      assert a == a[..|a| - 1] + [x] && b == b[..|b| - 1] + [y];
    }
  }

  lemma {:induction false} LineAt(lines: seq<Line>, n: nat) returns (l: nat)
    requires n < Counted(lines)
    ensures l < |lines| && !lines[l].OtherLine? && Counted(lines[..l]) == n
  {
    var last := |lines| - 1;
    if n < Counted(lines[..last]) {
      l := LineAt(lines[..last], n);
      assert lines[..last][..l] == lines[..l];
    } else {
      l := last;
    }
  }

  lemma TopShownAlike(x: seq<(nat, Label)>, y: seq<(nat, Label)>, lines: seq<Line>, l: nat)
    requires l < |lines| && !lines[l].OtherLine? && IsTopLine(lines, l) && |x| == |y| == Counted(lines)
    requires IsShown(x, lines, l) && IsShown(y, lines, l)
    ensures Counted(lines[..l]) < |x| && x[Counted(lines[..l])] == y[Counted(lines[..l])]
  {
    hide Counted, IsTopLine, IsParentLine;
  }

  lemma ChildShownAlike(x: seq<(nat, Label)>, y: seq<(nat, Label)>, lines: seq<Line>, l: nat, p: nat)
    requires p < l < |lines| && !lines[l].OtherLine? && IsParentLine(lines, l, p) && |x| == |y| == Counted(lines)
    requires IsShown(x, lines, l) && IsShown(y, lines, l)
    requires Counted(lines[..p]) < |x| && x[Counted(lines[..p])] == y[Counted(lines[..p])]
    ensures Counted(lines[..l]) < |x| && x[Counted(lines[..l])] == y[Counted(lines[..l])]
  {
    hide Counted, IsTopLine, IsParentLine;
  }

  lemma ParentComesFirst(lines: seq<Line>, l: nat, p: int)
    requires IsParentLine(lines, l, p)
    ensures 0 <= p < l < |lines| && !lines[p].OtherLine?
  {
  }

  lemma {:induction false} ShownAlike(x: seq<(nat, Label)>, y: seq<(nat, Label)>, lines: seq<Line>, l: nat)
    requires IsOutlineOf(x, lines) && IsOutlineOf(y, lines) && l < |lines| && !lines[l].OtherLine?
    ensures Counted(lines[..l]) < |x| == |y| && x[Counted(lines[..l])] == y[Counted(lines[..l])]
    decreases l
  {
    hide Counted, IsShown, IsParentLine, IsTopLine;
    assert IsShown(x, lines, l) && IsShown(y, lines, l);
    var p := ParentOrTop(lines, l, l);
    if p < 0 {
      TopShownAlike(x, y, lines, l);
    } else {
      ParentComesFirst(lines, l, p);
      ShownAlike(x, y, lines, p);
      ChildShownAlike(x, y, lines, l, p);
    }
  }

  /** What the lines say leaves one sidebar only. */
  lemma LinesDetermineSidebar(lines: seq<Line>, a: seq<SidebarItem>, b: seq<SidebarItem>)
    requires IsOutlineOf(SidebarOutline(a, 0), lines) && IsPresented(a)
    requires IsOutlineOf(SidebarOutline(b, 0), lines) && IsPresented(b)
    ensures a == b
  {
    hide Counted, SidebarOutline;
    var x, y := SidebarOutline(a, 0), SidebarOutline(b, 0);
    forall n: nat | n < |x| ensures x[n] == y[n] {
      var l := LineAt(lines, n);
      ShownAlike(x, y, lines, l);
    }
    OutlineDeterminesSidebar(a, b, 0);
  }

  /** Builds the nodes of a file and converts them. */
  method BuildSidebar(lines: seq<Line>) returns (sidebar: seq<SidebarItem>)
    ensures sidebar == ToSidebarItems(Build(ItemsOf(lines)))
    ensures IsOutlineOf(SidebarOutline(sidebar, 0), lines) && IsPresented(sidebar)
  {
    var root := ParseSummary(lines);
    ghost var items := ItemsOf(lines);
    ghost var made :| IsTreeOf(root, made, items) && IsTreeOfLines(root, made, lines);
    BuildCarries(items);
    sidebar := ConvertItems(root.list, Build(items), 0, |items|, root, made, items);
    SidebarFollowsLines(lines);
    ConversionIsPresented(Build(items));
  }
}
