/** Splitting preserves meaning: every chunk of a group's run reads, from each name it uses,
    what it would read in the full serial run of the script.
 */
module ReachingDefinitions {
  import opened LinearPartition
  import opened ChunkBalancer
  import opened Options

  // ---------------------------------------------------------------------------
  // Dependencies stay together
  // ---------------------------------------------------------------------------

  /** What the balancer guarantees about its result. */
  ghost predicate IsGrouping(chunks: seq<Chunk>, extra: seq<Dependency>, starts: seq<nat>, groups: map<nat, nat>) {
    && IsAllowedSplit(ForbiddenSet(chunks, extra), starts, |Grouped(chunks)|)
    && IsAssignment(Grouped(chunks), starts, groups, |Grouped(chunks)|)
  }

  /** No chunk the dependency spans has the marker that permits a cut before it. */
  ghost predicate Unmarked(chunks: seq<Chunk>, d: Dependency) {
    forall i :: 0 <= i < |chunks| && d.first < i <= d.last && chunks[i].grouped ==> !chunks[i].allowCut
  }

  /** Two positions are in the same group exactly when no group starts after the first, up to the second. */
  lemma {:induction false} SameGroupIff(starts: seq<nat>, n: nat, p: nat, q: nat)
    requires IsSplit(starts, n) && p <= q < n
    ensures GroupAt(starts, p) <= GroupAt(starts, q)
    ensures GroupAt(starts, p) == GroupAt(starts, q) <==> forall m :: p < m <= q ==> m !in starts
    decreases q
  {
    if p < q {
      SameGroupIff(starts, n, p, q - 1);
      GroupChangesAtStarts(starts, n, q);
    }
  }

  lemma SpannedCutIsNotAStart(chunks: seq<Chunk>, extra: seq<Dependency>, starts: seq<nat>, d: Dependency, m: nat)
    requires IsAllowedSplit(ForbiddenSet(chunks, extra), starts, |Grouped(chunks)|)
    requires IsDependency(chunks, extra, d) && Unmarked(chunks, d) && Spans(Grouped(chunks), d, m) && 0 < m
    ensures m !in starts
  {
    assert Forbidden(chunks, extra, m);
  }

  /** Every grouped chunk inside an unmarked dependency interval is in the group of its first chunk. */
  lemma DependencyStaysTogether(chunks: seq<Chunk>, extra: seq<Dependency>, starts: seq<nat>, groups: map<nat, nat>,
                                d: Dependency, i: nat)
    requires IsGrouping(chunks, extra, starts, groups)
    requires IsDependency(chunks, extra, d) && WellFormed(chunks, d) && Unmarked(chunks, d)
    requires d.first <= i <= d.last && chunks[i].grouped
    ensures d.first in groups && i in groups && groups[d.first] == groups[i]
  {
    var grouped := Grouped(chunks);
    var p :| 0 <= p < |grouped| && grouped[p] == d.first;
    var q :| 0 <= q < |grouped| && grouped[q] == i;
    PositionsStayTogether(chunks, extra, starts, d, p, q);
  }

  lemma PositionsStayTogether(chunks: seq<Chunk>, extra: seq<Dependency>, starts: seq<nat>, d: Dependency, p: nat, q: nat)
    requires IsAllowedSplit(ForbiddenSet(chunks, extra), starts, |Grouped(chunks)|)
    requires IsDependency(chunks, extra, d) && Unmarked(chunks, d)
    requires p < |Grouped(chunks)| && q < |Grouped(chunks)|
    requires Grouped(chunks)[p] == d.first <= Grouped(chunks)[q] <= d.last
    ensures GroupAt(starts, p) == GroupAt(starts, q)
  {
    assert p <= q;
    forall m | p < m <= q ensures m !in starts {
      SpannedCutIsNotAStart(chunks, extra, starts, d, m);
    }
    SameGroupIff(starts, |Grouped(chunks)|, p, q);
  }

  // ---------------------------------------------------------------------------
  // Reaching definitions
  // ---------------------------------------------------------------------------

  /** The run of group g: the ungrouped chunks and the chunks of the group. */
  ghost function RunOf(chunks: seq<Chunk>, groups: map<nat, nat>, g: nat): Run {
    (i: nat) => i < |chunks| && (!chunks[i].grouped || (i in groups && groups[i] == g))
  }

  /** A definition that is in the run reaches the same use there as in the full run. */
  lemma {:induction false} SameDefinerInRun(chunks: seq<Chunk>, run: Run, j: nat, name: string)
    requires j <= |chunks|
    requires var full := LastDefiner(chunks, EVERYTHING, j, name); full.Some? ==> run(full.value)
    ensures LastDefiner(chunks, run, j, name) == LastDefiner(chunks, EVERYTHING, j, name)
  {
    var full, inRun := LastDefiner(chunks, EVERYTHING, j, name), LastDefiner(chunks, run, j, name);
    if inRun.Some? {
      assert EVERYTHING(inRun.value);
    }
  }

  /** The groups of a split of the grouped chunks. */
  ghost predicate IsSplitting(chunks: seq<Chunk>, starts: seq<nat>, groups: map<nat, nat>) {
    IsSplit(starts, |Grouped(chunks)|) && IsAssignment(Grouped(chunks), starts, groups, |Grouped(chunks)|)
  }

  /** No group starts at a chunk after i, up to chunk j. */
  ghost predicate NoStartBetween(chunks: seq<Chunk>, starts: seq<nat>, i: nat, j: nat) {
    forall m :: 0 <= m < |Grouped(chunks)| && i < Grouped(chunks)[m] <= j ==> m !in starts
  }

  lemma SameGroupOfChunksIff(chunks: seq<Chunk>, starts: seq<nat>, groups: map<nat, nat>, i: nat, j: nat)
    requires IsSplitting(chunks, starts, groups) && i in Grouped(chunks) && j in Grouped(chunks) && i <= j
    ensures i in groups && j in groups
    ensures groups[i] == groups[j] <==> NoStartBetween(chunks, starts, i, j)
  {
    var grouped := Grouped(chunks);
    var p :| 0 <= p < |grouped| && grouped[p] == i;
    var q :| 0 <= q < |grouped| && grouped[q] == j;
    SameGroupIff(starts, |grouped|, p, q);
    NoStartBetweenIff(chunks, starts, p, q);
  }

  lemma NoStartBetweenIff(chunks: seq<Chunk>, starts: seq<nat>, p: nat, q: nat)
    requires p < |Grouped(chunks)| && q < |Grouped(chunks)|
    ensures NoStartBetween(chunks, starts, Grouped(chunks)[p], Grouped(chunks)[q]) <==> forall m :: p < m <= q ==> m !in starts
  {
    var grouped := Grouped(chunks);
    forall m | 0 <= m < |grouped| ensures grouped[p] < grouped[m] <= grouped[q] <==> p < m <= q {
      if m < p {
        assert grouped[m] < grouped[p];
      }
      if q < m {
        assert grouped[q] < grouped[m];
      }
    }
  }

  /** A use of a grouped chunk keeps its definition exactly when there is none, or it is ungrouped, or no group starts
      between the two. */
  lemma GroupedUseIsPreservedIff(chunks: seq<Chunk>, starts: seq<nat>, groups: map<nat, nat>, j: nat, name: string)
    requires IsSplitting(chunks, starts, groups) && j < |chunks| && chunks[j].grouped
    ensures j in groups
    ensures var full := LastDefiner(chunks, EVERYTHING, j, name);
            LastDefiner(chunks, RunOf(chunks, groups, groups[j]), j, name) == full <==>
            (full.Some? && chunks[full.value].grouped ==> NoStartBetween(chunks, starts, full.value, j))
  {
    assert j in Grouped(chunks);
    var full := LastDefiner(chunks, EVERYTHING, j, name);
    if full.Some? && chunks[full.value].grouped {
      assert full.value in Grouped(chunks);
      SameGroupOfChunksIff(chunks, starts, groups, full.value, j);
      if NoStartBetween(chunks, starts, full.value, j) {
        SameDefinerInRun(chunks, RunOf(chunks, groups, groups[j]), j, name);
      } else {
        assert !RunOf(chunks, groups, groups[j])(full.value);
      }
    } else {
      SameDefinerInRun(chunks, RunOf(chunks, groups, groups[j]), j, name);
    }
  }

  /** In its group's run, each use of a grouped chunk sees the same definition as in the full run. */
  lemma SplittingPreservesDefinitions(chunks: seq<Chunk>, extra: seq<Dependency>, starts: seq<nat>, groups: map<nat, nat>,
                                      j: nat, name: string)
    requires IsGrouping(chunks, extra, starts, groups)
    requires j < |chunks| && chunks[j].grouped && name in chunks[j].used
    requires forall i :: 0 <= i < |chunks| ==> !chunks[i].allowCut
    ensures j in groups
    ensures LastDefiner(chunks, RunOf(chunks, groups, groups[j]), j, name) == LastDefiner(chunks, EVERYTHING, j, name)
  {
    assert j in Grouped(chunks);
    var full := LastDefiner(chunks, EVERYTHING, j, name);
    if full.Some? && chunks[full.value].grouped {
      var d := Dependency(full.value, j);
      assert UsesFrom(chunks, d, name);
      DependencyStaysTogether(chunks, extra, starts, groups, d, j);
    }
    SameDefinerInRun(chunks, RunOf(chunks, groups, groups[j]), j, name);
  }

  /** For an ungrouped chunk the same holds in all groups exactly when the definition is not in a grouped
      chunk: the balancer adds no dependency for ungrouped uses. */
  lemma UngroupedUseIsPreservedIff(chunks: seq<Chunk>, groups: map<nat, nat>, count: nat, u: nat, name: string)
    requires u < |chunks| && !chunks[u].grouped && 2 <= count
    ensures (forall g :: 1 <= g <= count ==>
               LastDefiner(chunks, RunOf(chunks, groups, g), u, name) == LastDefiner(chunks, EVERYTHING, u, name)) <==>
            (var full := LastDefiner(chunks, EVERYTHING, u, name); full.Some? ==> !chunks[full.value].grouped)
  {
    var full := LastDefiner(chunks, EVERYTHING, u, name);
    if full.Some? && chunks[full.value].grouped {
      var i := full.value;
      var other := if i in groups && groups[i] == 1 then 2 else 1;
      assert !RunOf(chunks, groups, other)(i);
    } else {
      forall g | 1 <= g <= count
        ensures LastDefiner(chunks, RunOf(chunks, groups, g), u, name) == full
      {
        SameDefinerInRun(chunks, RunOf(chunks, groups, g), u, name);
      }
    }
  }

  // ---------------------------------------------------------------------------
  // Execution
  // ---------------------------------------------------------------------------

  /** What each chunk computes: the value it binds to a name, given the values of the names it uses. */
  type Meaning<!V> = (nat, string, map<string, V>) -> V

  /** The part of the environment a chunk can read. */
  ghost function Inputs<V>(chunks: seq<Chunk>, env: map<string, V>, j: nat): map<string, V>
    requires j < |chunks|
  {
    map x | x in env && x in chunks[j].used :: env[x]
  }

  /** What a chunk binds, given its inputs. */
  ghost function Bindings<V>(chunks: seq<Chunk>, meaning: Meaning<V>, inputs: map<string, V>, j: nat): map<string, V>
    requires j < |chunks|
  {
    map x | x in chunks[j].defined :: meaning(j, x, inputs)
  }

  /** The global names and values before chunk j of a run. */
  ghost function EnvironmentBefore<V>(chunks: seq<Chunk>, run: Run, meaning: Meaning<V>, j: nat): map<string, V>
    requires j <= |chunks|
  {
    if j == 0 then map[]
    else
      var env := EnvironmentBefore(chunks, run, meaning, j - 1);
      if run(j - 1) then env + Bindings(chunks, meaning, Inputs(chunks, env, j - 1), j - 1) else env
  }

  /** What chunk j of a run reads. */
  ghost function Reads<V>(chunks: seq<Chunk>, run: Run, meaning: Meaning<V>, j: nat): map<string, V>
    requires j < |chunks|
  {
    Inputs(chunks, EnvironmentBefore(chunks, run, meaning, j), j)
  }

  /** A name holds what its last definer computed from its own inputs. */
  lemma {:induction false} EnvironmentHoldsLastDefinition<V>(chunks: seq<Chunk>, run: Run, meaning: Meaning<V>, j: nat, name: string)
    requires j <= |chunks|
    ensures var env, definer := EnvironmentBefore(chunks, run, meaning, j), LastDefiner(chunks, run, j, name);
            && (name in env <==> definer.Some?)
            && (definer.Some? ==> env[name] == meaning(definer.value, name, Reads(chunks, run, meaning, definer.value)))
  {
    if j > 0 {
      EnvironmentHoldsLastDefinition(chunks, run, meaning, j - 1, name);
    }
  }

  /** Every name an ungrouped chunk uses is last defined, if at all, by an ungrouped chunk. */
  ghost predicate UngroupedSelfContained(chunks: seq<Chunk>) {
    forall u, name :: 0 <= u < |chunks| && !chunks[u].grouped && name in chunks[u].used ==>
      var full := LastDefiner(chunks, EVERYTHING, u, name);
      full.Some? ==> !chunks[full.value].grouped
  }

  /** No group starts between a grouped chunk and the grouped definition of a name it uses. */
  ghost predicate NoUseIsCut(chunks: seq<Chunk>, starts: seq<nat>) {
    forall j, name :: 0 <= j < |chunks| && chunks[j].grouped && name in chunks[j].used ==>
      var full := LastDefiner(chunks, EVERYTHING, j, name);
      full.Some? && chunks[full.value].grouped ==> NoStartBetween(chunks, starts, full.value, j)
  }

  /** Without markers the balancer cuts no use. */
  lemma UnmarkedUsesAreNotCut(chunks: seq<Chunk>, extra: seq<Dependency>, starts: seq<nat>, groups: map<nat, nat>)
    requires IsGrouping(chunks, extra, starts, groups)
    requires forall i :: 0 <= i < |chunks| ==> !chunks[i].allowCut
    ensures NoUseIsCut(chunks, starts)
  {
    forall j, name | 0 <= j < |chunks| && chunks[j].grouped && name in chunks[j].used
      ensures var full := LastDefiner(chunks, EVERYTHING, j, name);
              full.Some? && chunks[full.value].grouped ==> NoStartBetween(chunks, starts, full.value, j)
    {
      SplittingPreservesDefinitions(chunks, extra, starts, groups, j, name);
      GroupedUseIsPreservedIff(chunks, starts, groups, j, name);
    }
  }

  /** The only group runs everything. */
  lemma OnlyGroupRunsAll(chunks: seq<Chunk>, starts: seq<nat>, groups: map<nat, nat>, i: nat)
    requires IsSplitting(chunks, starts, groups) && |starts| == 1 && i < |chunks|
    ensures RunOf(chunks, groups, 1)(i)
  {
    if chunks[i].grouped {
      assert i in Grouped(chunks);
      var p :| 0 <= p < |Grouped(chunks)| && Grouped(chunks)[p] == i;
      GroupAtIsRange(starts, |Grouped(chunks)|, p);
    }
  }

  lemma RunSeesTheSameDefinition(chunks: seq<Chunk>, starts: seq<nat>, groups: map<nat, nat>, g: nat, j: nat, name: string)
    requires IsSplitting(chunks, starts, groups) && NoUseIsCut(chunks, starts)
    requires UngroupedSelfContained(chunks) || (|starts| == 1 && g == 1)
    requires j < |chunks| && RunOf(chunks, groups, g)(j) && name in chunks[j].used
    ensures LastDefiner(chunks, RunOf(chunks, groups, g), j, name) == LastDefiner(chunks, EVERYTHING, j, name)
  {
    if chunks[j].grouped {
      GroupedUseIsPreservedIff(chunks, starts, groups, j, name);
    } else {
      var full := LastDefiner(chunks, EVERYTHING, j, name);
      if full.Some? && |starts| == 1 && g == 1 {
        OnlyGroupRunsAll(chunks, starts, groups, full.value);
      }
      SameDefinerInRun(chunks, RunOf(chunks, groups, g), j, name);
    }
  }

  /** Whatever the chunks compute, running one group gives every chunk in it the inputs of the full run. */
  lemma {:induction false} SplittingPreservesExecution<V>(chunks: seq<Chunk>, starts: seq<nat>, groups: map<nat, nat>,
                                                         g: nat, meaning: Meaning<V>, j: nat)
    requires IsSplitting(chunks, starts, groups) && NoUseIsCut(chunks, starts)
    requires UngroupedSelfContained(chunks) || (|starts| == 1 && g == 1)
    requires j < |chunks| && RunOf(chunks, groups, g)(j)
    ensures Reads(chunks, RunOf(chunks, groups, g), meaning, j) == Reads(chunks, EVERYTHING, meaning, j)
    decreases j
  {
    var run := RunOf(chunks, groups, g);
    forall name | name in chunks[j].used
      ensures var a, b := EnvironmentBefore(chunks, run, meaning, j), EnvironmentBefore(chunks, EVERYTHING, meaning, j);
              (name in a <==> name in b) && (name in a ==> a[name] == b[name])
    {
      RunSeesTheSameDefinition(chunks, starts, groups, g, j, name);
      EnvironmentHoldsLastDefinition(chunks, run, meaning, j, name);
      EnvironmentHoldsLastDefinition(chunks, EVERYTHING, meaning, j, name);
      var definer := LastDefiner(chunks, run, j, name);
      if definer.Some? {
        SplittingPreservesExecution(chunks, starts, groups, g, meaning, definer.value);
      }
    }
  }

  /** Every chunk of every group's run reads what it reads in the full run, whatever the chunks compute. */
  ghost predicate ExecutionIsPreserved(chunks: seq<Chunk>, starts: seq<nat>, groups: map<nat, nat>) {
    forall g: nat, j: nat, meaning: Meaning<nat> :: 1 <= g <= |starts| && j < |chunks| && RunOf(chunks, groups, g)(j) ==>
      Reads(chunks, RunOf(chunks, groups, g), meaning, j) == Reads(chunks, EVERYTHING, meaning, j)
  }

  /** Each chunk binds its own position. */
  ghost const POSITION: Meaning<nat> := (i, _, _) => i

  /** If chunks bind their positions, equal inputs have equal definers. */
  lemma EqualReadsHaveEqualDefiners(chunks: seq<Chunk>, run: Run, j: nat, name: string)
    requires j < |chunks| && name in chunks[j].used
    requires Reads(chunks, run, POSITION, j) == Reads(chunks, EVERYTHING, POSITION, j)
    ensures LastDefiner(chunks, run, j, name) == LastDefiner(chunks, EVERYTHING, j, name)
  {
    EnvironmentHoldsLastDefinition(chunks, run, POSITION, j, name);
    EnvironmentHoldsLastDefinition(chunks, EVERYTHING, POSITION, j, name);
    var a, b := Reads(chunks, run, POSITION, j), Reads(chunks, EVERYTHING, POSITION, j);
    assert name in a <==> LastDefiner(chunks, run, j, name).Some?;
    assert name in b <==> LastDefiner(chunks, EVERYTHING, j, name).Some?;
  }

  /** A split preserves every execution exactly when it cuts no use of a grouped chunk and, if there is more than one group, ungrouped
      chunks use ungrouped definitions only. */
  lemma ExecutionIsPreservedIff(chunks: seq<Chunk>, starts: seq<nat>, groups: map<nat, nat>)
    requires IsSplitting(chunks, starts, groups)
    ensures ExecutionIsPreserved(chunks, starts, groups) <==>
            NoUseIsCut(chunks, starts) && (|starts| < 2 || UngroupedSelfContained(chunks))
  {
    if NoUseIsCut(chunks, starts) && (|starts| < 2 || UngroupedSelfContained(chunks)) {
      forall g: nat, j: nat, meaning: Meaning<nat> | 1 <= g <= |starts| && j < |chunks| && RunOf(chunks, groups, g)(j)
        ensures Reads(chunks, RunOf(chunks, groups, g), meaning, j) == Reads(chunks, EVERYTHING, meaning, j)
      {
        SplittingPreservesExecution(chunks, starts, groups, g, meaning, j);
      }
    }
    if ExecutionIsPreserved(chunks, starts, groups) {
      PreservedExecutionCutsNoUse(chunks, starts, groups);
      if 2 <= |starts| {
        PreservedExecutionIsSelfContained(chunks, starts, groups);
      }
    }
  }

  lemma PreservedExecutionCutsNoUse(chunks: seq<Chunk>, starts: seq<nat>, groups: map<nat, nat>)
    requires IsSplitting(chunks, starts, groups) && ExecutionIsPreserved(chunks, starts, groups)
    ensures NoUseIsCut(chunks, starts)
  {
    forall j, name | 0 <= j < |chunks| && chunks[j].grouped && name in chunks[j].used
      ensures var full := LastDefiner(chunks, EVERYTHING, j, name);
              full.Some? && chunks[full.value].grouped ==> NoStartBetween(chunks, starts, full.value, j)
    {
      GroupedUseIsPreservedIff(chunks, starts, groups, j, name);
      GroupExists(chunks, starts, groups, j);
      EqualReadsHaveEqualDefiners(chunks, RunOf(chunks, groups, groups[j]), j, name);
    }
  }

  lemma GroupExists(chunks: seq<Chunk>, starts: seq<nat>, groups: map<nat, nat>, j: nat)
    requires IsSplitting(chunks, starts, groups) && j < |chunks| && chunks[j].grouped
    ensures j in groups && 1 <= groups[j] <= |starts|
  {
    assert j in Grouped(chunks);
    var p :| 0 <= p < |Grouped(chunks)| && Grouped(chunks)[p] == j;
    GroupAtIsRange(starts, |Grouped(chunks)|, p);
  }

  lemma PreservedExecutionIsSelfContained(chunks: seq<Chunk>, starts: seq<nat>, groups: map<nat, nat>)
    requires ExecutionIsPreserved(chunks, starts, groups) && 2 <= |starts|
    ensures UngroupedSelfContained(chunks)
  {
    forall u, name | 0 <= u < |chunks| && !chunks[u].grouped && name in chunks[u].used
      ensures var full := LastDefiner(chunks, EVERYTHING, u, name); full.Some? ==> !chunks[full.value].grouped
    {
      forall g: nat | 1 <= g <= |starts|
        ensures LastDefiner(chunks, RunOf(chunks, groups, g), u, name) == LastDefiner(chunks, EVERYTHING, u, name)
      {
        EqualReadsHaveEqualDefiners(chunks, RunOf(chunks, groups, g), u, name);
      }
      UngroupedUseIsPreservedIff(chunks, groups, |starts|, u, name);
    }
  }

  // ---------------------------------------------------------------------------
  // A lost definition
  // ---------------------------------------------------------------------------

  /** A grouped chunk that defines x, an ungrouped one that uses it, and another grouped one. */
  ghost const LOST_USE: seq<Chunk> :=
    [Chunk(true, ["x"], [], false), Chunk(false, [], ["x"], false), Chunk(true, [], [], false)]

  /** The balancer puts the two grouped chunks into two groups, and then the second group's run has no x. */
  lemma UngroupedUseCanBeLost(times: seq<Option<real>>)
    requires |times| == |LOST_USE| && !AllUntimed(times)
    ensures var outcome := Result(LOST_USE, [], times, 2);
            && outcome.Balanced? && LastDefiner(LOST_USE, EVERYTHING, 1, "x") == Some(0)
            && LastDefiner(LOST_USE, RunOf(LOST_USE, outcome.newGroup, 2), 1, "x") == None
  {
    hide Result, GroupedUpTo;
    var chunks := LOST_USE;
    forall d ensures !IsDependency(chunks, [], d) {
    }
    TwoGroupsOfThree(chunks, times, 2);
  }

  /** Of two independent grouped chunks, the first one gets group 1. */
  lemma TwoGroupsOfThree(chunks: seq<Chunk>, times: seq<Option<real>>, groups: nat)
    requires |chunks| == |times| == 3 && chunks[0].grouped && !chunks[1].grouped && chunks[2].grouped && groups == 2
    requires !AllUntimed(times) && forall d :: !IsDependency(chunks, [], d)
    ensures var outcome := Result(chunks, [], times, groups);
            outcome.Balanced? && 0 in outcome.newGroup && outcome.newGroup[0] == 1
  {
    hide GroupedUpTo, GroupAt, Assignment, BlockStartsUpTo;
    GroupedOfThree(chunks);
    assert ForbiddenSet(chunks, []) == {};
    BlocksOfTwo({});
    var starts := BestStarts(PositionCosts(chunks, times), {}, groups);
    SplitOfTwo(starts);
    AssignmentIsOne(Grouped(chunks), starts, 2);
    assert Grouped(chunks)[0] == 0;
  }

  lemma BlocksOfTwo(forbidden: set<nat>)
    requires 1 !in forbidden
    ensures |BlockStartsUpTo(forbidden, 2)| == 2
  {
    assert BlockStartsUpTo(forbidden, 1) == [0];
  }

  lemma SplitOfTwo(starts: seq<nat>)
    requires IsSplit(starts, 2) && |starts| == 2
    ensures GroupAt(starts, 0) == 1
  {
    SplitElementPositive(starts, 2, 1);
    GroupAtIsRange(starts, 2, 0);
  }

  lemma GroupedOfThree(chunks: seq<Chunk>)
    requires |chunks| == 3 && chunks[0].grouped && !chunks[1].grouped && chunks[2].grouped
    ensures Grouped(chunks) == [0, 2]
  {
    assert GroupedUpTo(chunks, 1) == [0];
    assert GroupedUpTo(chunks, 2) == [0];
  }
}
