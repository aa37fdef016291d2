/** Assigns the grouped chunks of a test script to N contiguous groups.

    A dependency between two chunks forbids every cut between them.  The maximal
    runs without a permitted cut are the blocks, and the linear partition is
    solved over the blocks' total costs.
 */
module ChunkBalancer {
  import opened LinearPartition
  import opened Options

  /** A chunk, with the global names it binds and the ones it reads before binding them.
      An ungrouped chunk runs in every group. */
  datatype Chunk = Chunk(grouped: bool, defined: seq<string>, used: seq<string>, allowCut: bool)

  /** Chunks `first` and `last`, and every chunk between them, must run in the same group. */
  datatype Dependency = Dependency(first: nat, last: nat)

  datatype Error = TooFewChunks | NoTimings | TooFewBlocks | InvalidGroupCount

  /** The position each group starts at, and each grouped chunk's group, or the reason there are none. */
  datatype Outcome =
    | Balanced(groupStarts: seq<nat>, newGroup: map<nat, nat>)
    | Refused(error: Error)

  // ---------------------------------------------------------------------------
  // Definitions and uses
  // ---------------------------------------------------------------------------

  /** Which chunks a run executes. */
  type Run = nat -> bool

  /** The full serial run. */
  const EVERYTHING: Run := (_: nat) => true

  /** The last chunk before j, among those in `run`, that defines the name. */
  function LastDefiner(chunks: seq<Chunk>, run: Run, j: nat, name: string): (r: Option<nat>)
    requires j <= |chunks|
    ensures r.Some? ==> r.value < j && run(r.value) && name in chunks[r.value].defined
    ensures forall k :: 0 <= k < j && run(k) && name in chunks[k].defined ==> r.Some? && k <= r.value
  {
    if j == 0 then None
    else if run(j - 1) && name in chunks[j - 1].defined then Some(j - 1)
    else LastDefiner(chunks, run, j - 1, name)
  }

  /** Chunk `last` uses a name whose last definition, in the full script, is in the grouped chunk `first`. */
  ghost predicate IsNameDependency(chunks: seq<Chunk>, d: Dependency) {
    && d.last < |chunks| && chunks[d.last].grouped
    && exists s :: 0 <= s < |chunks[d.last].used| && UsesFrom(chunks, d, chunks[d.last].used[s])
  }

  ghost predicate UsesFrom(chunks: seq<Chunk>, d: Dependency, name: string)
    requires d.last < |chunks|
  {
    LastDefiner(chunks, EVERYTHING, d.last, name) == Some(d.first) && chunks[d.first].grouped
  }

  function Lookup(m: map<string, nat>, name: string): Option<nat> {
    if name in m then Some(m[name]) else None
  }

  /** The map of last definers as it stands before chunk j. */
  ghost predicate Tracks(lastDefiner: map<string, nat>, chunks: seq<Chunk>, j: nat)
    requires j <= |chunks|
  {
    forall name :: Lookup(lastDefiner, name) == LastDefiner(chunks, EVERYTHING, j, name)
  }

  method DependenciesOf(chunks: seq<Chunk>, lastDefiner: map<string, nat>, j: nat) returns (deps: seq<Dependency>)
    requires j < |chunks| && Tracks(lastDefiner, chunks, j)
    ensures forall d :: d in deps <==> d.last == j && IsNameDependency(chunks, d)
  {
    deps := [];
    if chunks[j].grouped {
      var used := chunks[j].used;
      for t := 0 to |used|
        invariant forall d :: d in deps <==> d.last == j && exists s :: 0 <= s < t && UsesFrom(chunks, d, used[s])
      {
        var i := Lookup(lastDefiner, used[t]);
        assert i == LastDefiner(chunks, EVERYTHING, j, used[t]);
        if i.Some? && chunks[i.value].grouped {
          deps := deps + [Dependency(i.value, j)];
        }
      }
    }
  }

  method Define(chunks: seq<Chunk>, lastDefiner: map<string, nat>, j: nat) returns (updated: map<string, nat>)
    requires j < |chunks| && Tracks(lastDefiner, chunks, j)
    ensures Tracks(updated, chunks, j + 1)
  {
    var names := chunks[j].defined;
    updated := lastDefiner;
    for t := 0 to |names|
      invariant forall x :: Lookup(updated, x) == if x in names[..t] then Some(j) else Lookup(lastDefiner, x)
    {
      assert names[..t + 1] == names[..t] + [names[t]];
      updated := updated[names[t] := j];
    }
    assert names[..|names|] == names;
  }

  method FindNameDependencies(chunks: seq<Chunk>) returns (deps: seq<Dependency>)
    ensures forall d :: d in deps <==> IsNameDependency(chunks, d)
  {
    deps := [];
    var lastDefiner: map<string, nat> := map[];
    for j := 0 to |chunks|
      invariant Tracks(lastDefiner, chunks, j)
      invariant forall d :: d in deps <==> d.last < j && IsNameDependency(chunks, d)
    {
      var more := DependenciesOf(chunks, lastDefiner, j);
      deps := deps + more;
      lastDefiner := Define(chunks, lastDefiner, j);
    }
  }

  // ---------------------------------------------------------------------------
  // Forbidden cuts
  // ---------------------------------------------------------------------------

  /** The indices of the grouped chunks among the first n, in file order. */
  function GroupedUpTo(chunks: seq<Chunk>, n: nat): (grouped: seq<nat>)
    requires n <= |chunks|
    ensures forall p :: 0 <= p < |grouped| ==> grouped[p] < n && chunks[grouped[p]].grouped
    ensures forall p, q :: 0 <= p < q < |grouped| ==> grouped[p] < grouped[q]
    ensures forall i :: 0 <= i < n && chunks[i].grouped ==> i in grouped
  {
    if n == 0 then []
    else if chunks[n - 1].grouped then GroupedUpTo(chunks, n - 1) + [n - 1]
    else GroupedUpTo(chunks, n - 1)
  }

  function Grouped(chunks: seq<Chunk>): seq<nat> {
    GroupedUpTo(chunks, |chunks|)
  }

  ghost predicate IsDependency(chunks: seq<Chunk>, extra: seq<Dependency>, d: Dependency) {
    d in extra || IsNameDependency(chunks, d)
  }

  /** A dependency produced by the other heuristics joins two grouped chunks. */
  ghost predicate WellFormed(chunks: seq<Chunk>, d: Dependency) {
    d.first <= d.last < |chunks| && chunks[d.first].grouped && chunks[d.last].grouped
  }

  /** Cutting before grouped position p would separate the ends of the dependency. */
  ghost predicate Spans(grouped: seq<nat>, d: Dependency, p: nat) {
    p < |grouped| && d.first < grouped[p] <= d.last
  }

  ghost predicate Forbidden(chunks: seq<Chunk>, extra: seq<Dependency>, p: nat) {
    && p < |Grouped(chunks)| && !chunks[Grouped(chunks)[p]].allowCut
    && exists d :: IsDependency(chunks, extra, d) && Spans(Grouped(chunks), d, p)
  }

  ghost predicate Increasing(grouped: seq<nat>) {
    forall p, q :: 0 <= p < q < |grouped| ==> grouped[p] < grouped[q]
  }

  ghost predicate IsPosition(grouped: seq<nat>, position: map<nat, nat>) {
    forall p :: 0 <= p < |grouped| ==> grouped[p] in position && position[grouped[p]] == p
  }

  /** Each grouped chunk's position among the grouped chunks. */
  function Positions(grouped: seq<nat>): (position: map<nat, nat>)
    requires Increasing(grouped)
    ensures IsPosition(grouped, position)
  {
    map p | 0 <= p < |grouped| :: grouped[p] := p
  }

  /** Adds the cuts one dependency spans. */
  method AddSpan(grouped: seq<nat>, position: map<nat, nat>, d: Dependency, before: set<nat>) returns (after: set<nat>)
    requires Increasing(grouped) && IsPosition(grouped, position)
    requires d.first in grouped && d.last in grouped && d.first <= d.last
    ensures forall p :: p in after <==> p in before || Spans(grouped, d, p)
  {
    var lo, hi := position[d.first], position[d.last];
    assert grouped[lo] == d.first && grouped[hi] == d.last;
    after := before;
    for p := lo + 1 to hi + 1
      invariant forall p' :: p' in after <==> p' in before || lo < p' < p
    {
      after := after + {p};
    }
  }

  /** The cuts some dependency spans. */
  method SpannedCuts(grouped: seq<nat>, deps: seq<Dependency>) returns (spanned: set<nat>)
    requires Increasing(grouped)
    requires forall d :: d in deps ==> d.first in grouped && d.last in grouped && d.first <= d.last
    ensures forall p :: p in spanned <==> exists d :: d in deps && Spans(grouped, d, p)
  {
    var position := Positions(grouped);
    spanned := {};
    for t := 0 to |deps|
      invariant forall p :: p in spanned <==> exists s :: 0 <= s < t && Spans(grouped, deps[s], p)
    {
      spanned := AddSpan(grouped, position, deps[t], spanned);
    }
  }

  /** Permits the cuts before marked chunks again. */
  method DropAllowed(chunks: seq<Chunk>, spanned: set<nat>) returns (forbidden: set<nat>)
    requires forall p :: p in spanned ==> p < |Grouped(chunks)|
    ensures forall p :: p in forbidden <==> p in spanned && !chunks[Grouped(chunks)[p]].allowCut
  {
    var grouped := Grouped(chunks);
    forbidden := spanned;
    for p := 0 to |grouped|
      invariant forall p' :: p' in forbidden <==> p' in spanned && (p' < p ==> !chunks[grouped[p']].allowCut)
    {
      if chunks[grouped[p]].allowCut {
        forbidden := forbidden - {p};
      }
    }
  }

  method ForbiddenCuts(chunks: seq<Chunk>, extra: seq<Dependency>, deps: seq<Dependency>) returns (forbidden: set<nat>)
    requires forall d :: d in extra ==> WellFormed(chunks, d)
    requires forall d :: d in deps <==> IsDependency(chunks, extra, d)
    ensures forall p :: p in forbidden <==> Forbidden(chunks, extra, p)
  {
    assert forall d :: IsDependency(chunks, extra, d) ==> WellFormed(chunks, d);
    var spanned := SpannedCuts(Grouped(chunks), deps);
    forbidden := DropAllowed(chunks, spanned);
  }

  // ---------------------------------------------------------------------------
  // Blocks
  // ---------------------------------------------------------------------------

  /** A split of n positions that makes none of the forbidden cuts. */
  ghost predicate IsAllowedSplit(forbidden: set<nat>, starts: seq<nat>, n: nat) {
    IsSplit(starts, n) && forall k :: 0 < k < |starts| ==> starts[k] !in forbidden
  }

  /** The positions below n a range may start at, in order. */
  function BlockStartsUpTo(forbidden: set<nat>, n: nat): (blocks: seq<nat>)
    ensures forall p :: p in blocks <==> 0 <= p < n && (p == 0 || p !in forbidden)
    ensures forall b :: 0 <= b < |blocks| ==> blocks[b] < n
    ensures Increasing(blocks)
    ensures n > 0 ==> blocks != [] && blocks[0] == 0
  {
    if n == 0 then []
    else if n == 1 || n - 1 !in forbidden then BlockStartsUpTo(forbidden, n - 1) + [n - 1]
    else BlockStartsUpTo(forbidden, n - 1)
  }

  /** Where block b starts; the end of the last block is n. */
  function BlockAt(blocks: seq<nat>, n: nat, b: nat): nat {
    if b < |blocks| then blocks[b] else n
  }

  ghost predicate AreBlocks(blocks: seq<nat>, n: nat) {
    && Increasing(blocks)
    && (forall b :: 0 <= b < |blocks| ==> blocks[b] < n)
    && (n > 0 ==> blocks != [] && blocks[0] == 0)
  }

  lemma BlockAtIncreases(blocks: seq<nat>, n: nat, a: nat, b: nat)
    requires AreBlocks(blocks, n) && a < b <= |blocks|
    ensures BlockAt(blocks, n, a) < BlockAt(blocks, n, b) <= n
  {
  }

  function BlockCosts(costs: seq<real>, blocks: seq<nat>): (totals: seq<real>)
    requires AreBlocks(blocks, |costs|)
  {
    seq(|blocks|, b requires 0 <= b < |blocks| =>
      RangeSum(costs, blocks[b], BlockAt(blocks, |costs|, b + 1)))
  }

  lemma {:induction false} BlockRangeSum(costs: seq<real>, blocks: seq<nat>, a: nat, b: nat)
    requires AreBlocks(blocks, |costs|) && a <= b <= |blocks|
    ensures BlockAt(blocks, |costs|, a) <= BlockAt(blocks, |costs|, b) <= |costs|
    ensures RangeSum(BlockCosts(costs, blocks), a, b) ==
            RangeSum(costs, BlockAt(blocks, |costs|, a), BlockAt(blocks, |costs|, b))
    decreases b
  {
    if a < b {
      var n := |costs|;
      BlockRangeSum(costs, blocks, a, b - 1);
      assert BlockAt(blocks, n, b - 1) <= BlockAt(blocks, n, b) <= n;
      RangeSumSplits(costs, BlockAt(blocks, n, a), BlockAt(blocks, n, b - 1), BlockAt(blocks, n, b));
    }
  }

  /** The positions at which the chosen blocks start. */
  function Positioned(blocks: seq<nat>, chosen: seq<nat>): (starts: seq<nat>)
    requires forall k :: 0 <= k < |chosen| ==> chosen[k] < |blocks|
    ensures |starts| == |chosen|
    ensures forall k :: 0 <= k < |chosen| ==> starts[k] == blocks[chosen[k]]
  {
    if chosen == [] then []
    else Positioned(blocks, chosen[..|chosen| - 1]) + [blocks[chosen[|chosen| - 1]]]
  }

  /** The two splits have the same range sums. */
  ghost predicate SameSums(costs: seq<real>, starts: seq<nat>, n: nat, totals: seq<real>, chosen: seq<nat>, b: nat) {
    && IsSplit(starts, n) && n <= |costs| && IsSplit(chosen, b) && b <= |totals|
    && Largest(costs, starts, n) == Largest(totals, chosen, b)
    && SumOfSquares(costs, starts, n) == SumOfSquares(totals, chosen, b)
  }

  lemma ExtendSameSums(costs: seq<real>, starts: seq<nat>, j: nat, n: nat, totals: seq<real>, chosen: seq<nat>,
                       c: nat, b: nat)
    requires SameSums(costs, starts, j, totals, chosen, c)
    requires j < n <= |costs| && c < b <= |totals|
    requires RangeSum(costs, j, n) == RangeSum(totals, c, b)
    ensures SameSums(costs, starts + [j], n, totals, chosen + [c], b)
  {
    ExtendSplit(costs, starts, j, n);
    ExtendSplit(totals, chosen, c, b);
  }

  /** A split of the first b blocks is, position by position, a split of the chunks with the same range sums. */
  lemma {:induction false} BlockSplitIsChunkSplit(costs: seq<real>, blocks: seq<nat>, chosen: seq<nat>, b: nat)
    requires AreBlocks(blocks, |costs|) && b <= |blocks| && IsSplit(chosen, b)
    requires forall k :: 0 <= k < |chosen| ==> chosen[k] < |blocks|
    ensures SameSums(costs, Positioned(blocks, chosen), BlockAt(blocks, |costs|, b), BlockCosts(costs, blocks), chosen, b)
    decreases |chosen|
  {
    if chosen != [] {
      var last := |chosen| - 1;
      var shorter, j := chosen[..last], chosen[last];
      BlockSplitIsChunkSplit(costs, blocks, shorter, j);
      BlockRangeSum(costs, blocks, j, b);
      BlockAtIncreases(blocks, |costs|, j, b);
      ExtendSameSums(costs, Positioned(blocks, shorter), blocks[j], BlockAt(blocks, |costs|, b),
                     BlockCosts(costs, blocks), shorter, j, b);
      assert chosen == shorter + [j];
    }
  }

  lemma BlockIndex(blocks: seq<nat>, n: nat, p: nat, b: nat) returns (j: nat)
    requires AreBlocks(blocks, n) && p in blocks && b <= |blocks| && p < BlockAt(blocks, n, b)
    ensures j < b && blocks[j] == p
  {
    j :| 0 <= j < |blocks| && blocks[j] == p;
  }

  lemma ExtendPositioned(blocks: seq<nat>, shorter: seq<nat>, j: nat, b: nat)
    requires j < b <= |blocks| && IsSplit(shorter, j)
    requires forall k :: 0 <= k < |shorter| ==> shorter[k] < |blocks|
    ensures IsSplit(shorter + [j], b)
    ensures forall k :: 0 <= k <= |shorter| ==> (shorter + [j])[k] < |blocks|
    ensures Positioned(blocks, shorter + [j]) == Positioned(blocks, shorter) + [blocks[j]]
  {
    assert (shorter + [j])[..|shorter|] == shorter;
  }

  /** Conversely, a split that starts only at block starts is a split of the blocks. */
  lemma {:induction false} ChunkSplitIsBlockSplit(blocks: seq<nat>, n: nat, starts: seq<nat>,
                                                  b: nat) returns (chosen: seq<nat>)
    requires AreBlocks(blocks, n) && b <= |blocks| && IsSplit(starts, BlockAt(blocks, n, b))
    requires forall k :: 0 <= k < |starts| ==> starts[k] in blocks
    ensures IsSplit(chosen, b) && (forall k :: 0 <= k < |chosen| ==> chosen[k] < |blocks|)
    ensures Positioned(blocks, chosen) == starts
    decreases |starts|
  {
    if starts == [] {
      chosen := [];
      assert b == 0 by { if b > 0 { BlockAtIncreases(blocks, n, 0, b); } }
      return;
    }
    var last := |starts| - 1;
    var front, p := starts[..last], starts[last];
    assert starts == front + [p];
    var j := BlockIndex(blocks, n, p, b);
    var shorter := ChunkSplitIsBlockSplit(blocks, n, front, j);
    ExtendPositioned(blocks, shorter, j, b);
    chosen := shorter + [j];
  }

  lemma BlockSplitIsAllowed(costs: seq<real>, forbidden: set<nat>, chosen: seq<nat>)
    requires IsSplit(chosen, |BlockStartsUpTo(forbidden, |costs|)|)
    ensures var blocks := BlockStartsUpTo(forbidden, |costs|);
            && (forall k :: 0 <= k < |chosen| ==> chosen[k] < |blocks|)
            && IsAllowedSplit(forbidden, Positioned(blocks, chosen), |costs|)
            && SameSums(costs, Positioned(blocks, chosen), |costs|, BlockCosts(costs, blocks), chosen, |blocks|)
  {
    var blocks := BlockStartsUpTo(forbidden, |costs|);
    forall k | 0 <= k < |chosen| ensures chosen[k] < |blocks| { SplitElementBelow(chosen, |blocks|, k); }
    BlockSplitIsChunkSplit(costs, blocks, chosen, |blocks|);
    var starts := Positioned(blocks, chosen);
    forall k | 0 < k < |starts| ensures starts[k] !in forbidden {
      SplitElementPositive(starts, |costs|, k);
      assert starts[k] in blocks;
    }
  }

  lemma {:induction false} SplitElementBelow(starts: seq<nat>, n: nat, k: nat)
    requires IsSplit(starts, n) && k < |starts|
    ensures starts[k] < n
    decreases |starts|
  {
    if k < |starts| - 1 {
      SplitElementBelow(starts[..|starts| - 1], starts[|starts| - 1], k);
    }
  }

  lemma SplitElementPositive(starts: seq<nat>, n: nat, k: nat)
    requires IsSplit(starts, n) && 0 < k < |starts|
    ensures 0 < starts[k]
  {
    assert starts[k - 1] < starts[k];
  }

  lemma AllowedSplitIsBlockSplit(costs: seq<real>, forbidden: set<nat>, starts: seq<nat>) returns (chosen: seq<nat>)
    requires IsAllowedSplit(forbidden, starts, |costs|)
    ensures IsSplit(chosen, |BlockStartsUpTo(forbidden, |costs|)|) && |chosen| == |starts|
    ensures var blocks := BlockStartsUpTo(forbidden, |costs|);
            SameSums(costs, starts, |costs|, BlockCosts(costs, blocks), chosen, |blocks|)
  {
    var blocks := BlockStartsUpTo(forbidden, |costs|);
    forall k | 0 <= k < |starts| ensures starts[k] in blocks { SplitElementBelow(starts, |costs|, k); }
    chosen := ChunkSplitIsBlockSplit(blocks, |costs|, starts, |blocks|);
    BlockSplitIsChunkSplit(costs, blocks, chosen, |blocks|);
  }

  // ---------------------------------------------------------------------------
  // Optimality over chunks
  // ---------------------------------------------------------------------------

  ghost predicate IsSmallestAllowed(costs: seq<real>, forbidden: set<nat>, parts: nat, m: real) {
    && (exists t :: |t| == parts && IsAllowedSplit(forbidden, t, |costs|) && Largest(costs, t, |costs|) == m)
    && (forall t :: |t| == parts && IsAllowedSplit(forbidden, t, |costs|) ==> m <= Largest(costs, t, |costs|))
  }

  ghost predicate SquaresMinimalAllowed(costs: seq<real>, forbidden: set<nat>, starts: seq<nat>, bound: real)
    requires IsSplit(starts, |costs|)
  {
    forall t :: |t| == |starts| && IsAllowedSplit(forbidden, t, |costs|) && Largest(costs, t, |costs|) <= bound ==>
      SumOfSquares(costs, starts, |costs|) <= SumOfSquares(costs, t, |costs|)
  }

  /** Among all chunk splits that make no forbidden cut, `starts` has the smallest largest sum up to a
      millionth, and the smallest sum of squares among those within that bound. */
  ghost predicate IsBestAllowed(costs: seq<real>, forbidden: set<nat>, starts: seq<nat>) {
    && IsAllowedSplit(forbidden, starts, |costs|)
    && exists m :: IsSmallestAllowed(costs, forbidden, |starts|, m) && Largest(costs, starts, |costs|) <= m + 0.000001 &&
                   SquaresMinimalAllowed(costs, forbidden, starts, m + 0.000001)
  }

  lemma SmallestOverBlocks(costs: seq<real>, forbidden: set<nat>, parts: nat, m: real)
    requires var blocks := BlockStartsUpTo(forbidden, |costs|);
             IsSmallestLargest(BlockCosts(costs, blocks), parts, m)
    ensures IsSmallestAllowed(costs, forbidden, parts, m)
  {
    var blocks := BlockStartsUpTo(forbidden, |costs|);
    var totals := BlockCosts(costs, blocks);
    var best :| |best| == parts && IsSplit(best, |totals|) && Largest(totals, best, |totals|) == m;
    BlockSplitIsAllowed(costs, forbidden, best);
    assert |Positioned(blocks, best)| == parts;
    forall t | |t| == parts && IsAllowedSplit(forbidden, t, |costs|)
      ensures m <= Largest(costs, t, |costs|)
    {
      var chosen := AllowedSplitIsBlockSplit(costs, forbidden, t);
    }
  }

  lemma SquaresOverBlocks(costs: seq<real>, forbidden: set<nat>, chosen: seq<nat>, starts: seq<nat>, bound: real)
    requires var blocks := BlockStartsUpTo(forbidden, |costs|);
             && SameSums(costs, starts, |costs|, BlockCosts(costs, blocks), chosen, |blocks|)
             && SquaresMinimalWithin(BlockCosts(costs, blocks), chosen, bound)
             && |starts| == |chosen|
    ensures SquaresMinimalAllowed(costs, forbidden, starts, bound)
  {
    forall t | |t| == |starts| && IsAllowedSplit(forbidden, t, |costs|) && Largest(costs, t, |costs|) <= bound
      ensures SumOfSquares(costs, starts, |costs|) <= SumOfSquares(costs, t, |costs|)
    {
      var c := AllowedSplitIsBlockSplit(costs, forbidden, t);
    }
  }

  /** Solving over the blocks solves the problem over the chunks. */
  lemma BlocksRefineChunks(costs: seq<real>, forbidden: set<nat>, chosen: seq<nat>)
    requires IsBalanced(BlockCosts(costs, BlockStartsUpTo(forbidden, |costs|)), chosen)
    ensures forall k :: 0 <= k < |chosen| ==> chosen[k] < |BlockStartsUpTo(forbidden, |costs|)|
    ensures IsBestAllowed(costs, forbidden, Positioned(BlockStartsUpTo(forbidden, |costs|), chosen))
  {
    var blocks := BlockStartsUpTo(forbidden, |costs|);
    var totals := BlockCosts(costs, blocks);
    BlockSplitIsAllowed(costs, forbidden, chosen);
    var m :| IsSmallestLargest(totals, |chosen|, m) && Largest(totals, chosen, |totals|) <= m + TOLERANCE &&
             SquaresMinimalWithin(totals, chosen, m + TOLERANCE);
    SmallestOverBlocks(costs, forbidden, |chosen|, m);
    SquaresOverBlocks(costs, forbidden, chosen, Positioned(blocks, chosen), m + TOLERANCE);
  }

  /** N groups are possible exactly when there are at least N blocks. */
  lemma AllowedSplitFitsBlocks(costs: seq<real>, forbidden: set<nat>, starts: seq<nat>)
    requires IsAllowedSplit(forbidden, starts, |costs|)
    ensures |starts| <= |BlockStartsUpTo(forbidden, |costs|)|
  {
    var chosen := AllowedSplitIsBlockSplit(costs, forbidden, starts);
    SplitFits(chosen, |BlockStartsUpTo(forbidden, |costs|)|);
  }

  lemma BlocksAllowSplit(costs: seq<real>, forbidden: set<nat>, parts: nat) returns (starts: seq<nat>)
    requires 1 <= parts <= |BlockStartsUpTo(forbidden, |costs|)|
    ensures |starts| == parts && IsAllowedSplit(forbidden, starts, |costs|)
  {
    var chosen: seq<nat> := seq(parts, k => k);
    BlockSplitIsAllowed(costs, forbidden, chosen);
    starts := Positioned(BlockStartsUpTo(forbidden, |costs|), chosen);
  }

  // ---------------------------------------------------------------------------
  // Groups
  // ---------------------------------------------------------------------------

  /** The group of position p: the number of ranges that start at or before it. */
  ghost function GroupAt(starts: seq<nat>, p: nat): nat {
    if starts == [] then 0
    else if starts[|starts| - 1] <= p then |starts|
    else GroupAt(starts[..|starts| - 1], p)
  }

  /** Groups are numbered from 1, in file order, and group g holds exactly the positions of range g - 1. */
  lemma {:induction false} GroupAtIsRange(starts: seq<nat>, n: nat, p: nat)
    requires IsSplit(starts, n) && p < n
    ensures 1 <= GroupAt(starts, p) <= |starts|
    ensures var k := GroupAt(starts, p) - 1; starts[k] <= p < RangeEnd(starts, n, k)
    decreases |starts|
  {
    var last := |starts| - 1;
    if p < starts[last] {
      GroupAtIsRange(starts[..last], starts[last], p);
    }
  }

  lemma {:induction false} RangeIsGroupAt(starts: seq<nat>, n: nat, k: nat, p: nat)
    requires IsSplit(starts, n) && k < |starts| && starts[k] <= p < RangeEnd(starts, n, k)
    ensures GroupAt(starts, p) == k + 1
    decreases |starts|
  {
    var last := |starts| - 1;
    if k < last {
      RangeEndFits(starts, n, k);
      RangeIsGroupAt(starts[..last], starts[last], k, p);
    }
  }

  lemma {:induction false} RangeEndFits(starts: seq<nat>, n: nat, k: nat)
    requires IsSplit(starts, n) && k < |starts| - 1
    ensures RangeEnd(starts, n, k) <= starts[|starts| - 1]
    decreases |starts|
  {
    var last := |starts| - 1;
    if k < last - 1 {
      RangeEndFits(starts[..last], starts[last], k);
    }
  }

  /** The group changes between p - 1 and p only where a range starts. */
  lemma {:induction false} GroupChangesAtStarts(starts: seq<nat>, n: nat, p: nat)
    requires IsSplit(starts, n) && 0 < p < n
    ensures GroupAt(starts, p - 1) <= GroupAt(starts, p)
    ensures GroupAt(starts, p - 1) != GroupAt(starts, p) <==> p in starts
    decreases |starts|
  {
    var last := |starts| - 1;
    assert starts == starts[..last] + [starts[last]];
    if p < starts[last] {
      GroupChangesAtStarts(starts[..last], starts[last], p);
    } else if p == starts[last] {
      GroupAtIsRange(starts[..last], starts[last], p - 1);
    } else if p in starts[..last] {
      var k :| 0 <= k < last && starts[k] == p;
      SplitElementBelow(starts[..last], starts[last], k);
    }
  }

  /** `groups` gives the chunks at the first `count` grouped positions, and only them, their position's group. */
  ghost predicate IsAssignment(grouped: seq<nat>, starts: seq<nat>, groups: map<nat, nat>, count: nat)
    requires count <= |grouped|
  {
    && (forall p :: 0 <= p < count ==> grouped[p] in groups && groups[grouped[p]] == GroupAt(starts, p))
    && (forall i :: i in groups ==> exists p :: 0 <= p < count && grouped[p] == i)
  }

  method AssignGroups(grouped: seq<nat>, starts: seq<nat>) returns (newGroup: map<nat, nat>)
    requires Increasing(grouped) && IsSplit(starts, |grouped|)
    ensures IsAssignment(grouped, starts, newGroup, |grouped|)
  {
    hide GroupAt, Largest, RangeSum;
    newGroup := map[];
    var next := 0;
    for k := 0 to |starts|
      invariant next == if k < |starts| then starts[k] else |grouped|
      invariant next <= |grouped| && IsAssignment(grouped, starts, newGroup, next)
    {
      var end := if k + 1 < |starts| then starts[k + 1] else |grouped|;
      assert end == RangeEnd(starts, |grouped|, k);
      LargestBounds(seq(|grouped|, _ => 0.0), starts, |grouped|, k);
      for p := starts[k] to end
        invariant IsAssignment(grouped, starts, newGroup, p)
      {
        RangeIsGroupAt(starts, |grouped|, k, p);
        newGroup := newGroup[grouped[p] := k + 1];
      }
      next := end;
    }
  }

  // ---------------------------------------------------------------------------
  // The pipeline
  // ---------------------------------------------------------------------------

  ghost function ForbiddenSet(chunks: seq<Chunk>, extra: seq<Dependency>): set<nat> {
    set p | 0 <= p < |Grouped(chunks)| && Forbidden(chunks, extra, p)
  }

  /** The cost at each grouped position; a chunk without a timing counts as 0. */
  function PositionCosts(chunks: seq<Chunk>, times: seq<Option<real>>): (costs: seq<real>)
    requires |times| == |chunks|
    ensures |costs| == |Grouped(chunks)|
  {
    var grouped := Grouped(chunks);
    seq(|grouped|, p requires 0 <= p < |grouped| =>
      if times[grouped[p]].Some? then times[grouped[p]].value else 0.0)
  }

  predicate AllUntimed(times: seq<Option<real>>) {
    forall i :: 0 <= i < |times| ==> times[i].None?
  }

  ghost predicate SplitExists(chunks: seq<Chunk>, extra: seq<Dependency>, groups: int) {
    exists t :: |t| == groups && IsAllowedSplit(ForbiddenSet(chunks, extra), t, |Grouped(chunks)|)
  }

  /** The groups of the chunks at the first `count` grouped positions. */
  ghost function Assignment(grouped: seq<nat>, starts: seq<nat>, count: nat): map<nat, nat>
    requires count <= |grouped|
  {
    if count == 0 then map[] else Assignment(grouped, starts, count - 1)[grouped[count - 1] := GroupAt(starts, count - 1)]
  }

  lemma {:induction false} AssignmentIsOne(grouped: seq<nat>, starts: seq<nat>, count: nat)
    requires count <= |grouped| && Increasing(grouped)
    ensures IsAssignment(grouped, starts, Assignment(grouped, starts, count), count)
  {
    if count > 0 {
      AssignmentIsOne(grouped, starts, count - 1);
    }
  }

  /** There is only one assignment for given starts. */
  lemma AssignmentIsUnique(grouped: seq<nat>, starts: seq<nat>, groups: map<nat, nat>)
    requires Increasing(grouped) && IsAssignment(grouped, starts, groups, |grouped|)
    ensures groups == Assignment(grouped, starts, |grouped|)
  {
    AssignmentIsOne(grouped, starts, |grouped|);
  }

  /** The starts over the blocks, as positions. */
  ghost function BestStarts(costs: seq<real>, forbidden: set<nat>, groups: nat): (starts: seq<nat>)
    requires 1 <= groups <= |BlockStartsUpTo(forbidden, |costs|)|
    ensures |starts| == groups && IsBestAllowed(costs, forbidden, starts)
  {
    var blocks := BlockStartsUpTo(forbidden, |costs|);
    var chosen := Starts(BlockCosts(costs, blocks), groups);
    StartsAreBalanced(BlockCosts(costs, blocks), groups);
    BlocksRefineChunks(costs, forbidden, chosen);
    Positioned(blocks, chosen)
  }

  // ---------------------------------------------------------------------------
  // What the groups take
  // ---------------------------------------------------------------------------

  /** The time that the first n chunks add to a group; a chunk without a timing takes no time. */
  ghost function GroupTime(times: seq<Option<real>>, newGroup: map<nat, nat>, g: nat, n: nat): real
    requires n <= |times|
  {
    if n == 0 then 0.0
    else GroupTime(times, newGroup, g, n - 1) +
         if n - 1 in newGroup && newGroup[n - 1] == g && times[n - 1].Some? then times[n - 1].value else 0.0
  }

  /** The time of the slowest of the first `count` groups. */
  ghost function SlowestGroup(times: seq<Option<real>>, newGroup: map<nat, nat>, count: nat): real {
    if count == 0 then 0.0
    else
      var before, time := SlowestGroup(times, newGroup, count - 1), GroupTime(times, newGroup, count, |times|);
      if before < time then time else before
  }

  /** The sum of the squared times of the first `count` groups. */
  ghost function SquaredTimes(times: seq<Option<real>>, newGroup: map<nat, nat>, count: nat): real {
    if count == 0 then 0.0
    else
      var time := GroupTime(times, newGroup, count, |times|);
      SquaredTimes(times, newGroup, count - 1) + time * time
  }

  /** The chunks are in the groups of some split that makes no forbidden cut. */
  ghost predicate IsGroupingInto(chunks: seq<Chunk>, extra: seq<Dependency>, newGroup: map<nat, nat>, groups: nat) {
    exists starts :: |starts| == groups && IsAllowedSplit(ForbiddenSet(chunks, extra), starts, |Grouped(chunks)|) &&
      IsAssignment(Grouped(chunks), starts, newGroup, |Grouped(chunks)|)
  }

  /** No grouping has a slowest group that takes less than m. */
  ghost predicate IsLeastTime(chunks: seq<Chunk>, extra: seq<Dependency>, times: seq<Option<real>>, groups: nat, m: real) {
    && (exists other :: IsGroupingInto(chunks, extra, other, groups) && SlowestGroup(times, other, groups) == m)
    && (forall other :: IsGroupingInto(chunks, extra, other, groups) ==> m <= SlowestGroup(times, other, groups))
  }

  /** Of all groupings, this one has the slowest group with the least time, but for a millionth, and the least squared times
      among those that have that. */
  ghost predicate IsBestGrouping(chunks: seq<Chunk>, extra: seq<Dependency>, times: seq<Option<real>>, newGroup: map<nat, nat>,
                                 groups: nat) {
    && IsGroupingInto(chunks, extra, newGroup, groups)
    && exists m :: IsLeastTime(chunks, extra, times, groups, m) && SlowestGroup(times, newGroup, groups) <= m + 0.000001 &&
         forall other :: IsGroupingInto(chunks, extra, other, groups) && SlowestGroup(times, other, groups) <= m + 0.000001 ==>
           SquaredTimes(times, newGroup, groups) <= SquaredTimes(times, other, groups)
  }

  /** The part of a group's cost that is below position p. */
  ghost function PositionTime(costs: seq<real>, starts: seq<nat>, g: nat, p: nat): real
    requires p <= |costs|
  {
    if p == 0 then 0.0
    else PositionTime(costs, starts, g, p - 1) + if GroupAt(starts, p - 1) == g then costs[p - 1] else 0.0
  }

  /** The grouped chunks among the first n are at the first grouped positions. */
  lemma {:induction false} GroupedIsPrefix(chunks: seq<Chunk>, n: nat)
    requires n <= |chunks|
    ensures |GroupedUpTo(chunks, n)| <= |Grouped(chunks)| && GroupedUpTo(chunks, n) == Grouped(chunks)[..|GroupedUpTo(chunks, n)|]
    decreases |chunks| - n
  {
    if n < |chunks| {
      GroupedIsPrefix(chunks, n + 1);
      var shorter, longer := GroupedUpTo(chunks, n), GroupedUpTo(chunks, n + 1);
      assert shorter == longer[..|shorter|];
    }
  }

  lemma OneMoreGrouped(chunks: seq<Chunk>, n: nat)
    requires n < |chunks|
    ensures var p := |GroupedUpTo(chunks, n)|;
            if chunks[n].grouped then |GroupedUpTo(chunks, n + 1)| == p + 1 <= |Grouped(chunks)| && Grouped(chunks)[p] == n
            else |GroupedUpTo(chunks, n + 1)| == p <= |Grouped(chunks)|
  {
    GroupedIsPrefix(chunks, n);
    GroupedIsPrefix(chunks, n + 1);
    if chunks[n].grouped {
      assert GroupedUpTo(chunks, n + 1)[|GroupedUpTo(chunks, n)|] == n;
    }
  }

  /** One more chunk, at one more position if it is grouped. */
  lemma OneMoreChunk(times: seq<Option<real>>, costs: seq<real>, starts: seq<nat>, newGroup: map<nat, nat>, g: nat, n: nat, p: nat,
                     isGrouped: bool)
    requires n < |times| && p <= |costs| && GroupTime(times, newGroup, g, n) == PositionTime(costs, starts, g, p)
    requires isGrouped ==> p < |costs| && n in newGroup && newGroup[n] == GroupAt(starts, p) &&
                           costs[p] == if times[n].Some? then times[n].value else 0.0
    requires !isGrouped ==> n !in newGroup
    ensures GroupTime(times, newGroup, g, n + 1) == PositionTime(costs, starts, g, if isGrouped then p + 1 else p)
  {
    hide GroupAt;
  }

  /** Summing over chunks is summing over the positions of the grouped ones. */
  lemma {:induction false} GroupTimeIsPositionTime(chunks: seq<Chunk>, times: seq<Option<real>>, starts: seq<nat>,
                                                   newGroup: map<nat, nat>, g: nat, n: nat)
    requires n <= |chunks| == |times| && IsAssignment(Grouped(chunks), starts, newGroup, |Grouped(chunks)|)
    ensures |GroupedUpTo(chunks, n)| <= |Grouped(chunks)|
    ensures GroupTime(times, newGroup, g, n) == PositionTime(PositionCosts(chunks, times), starts, g, |GroupedUpTo(chunks, n)|)
  {
    hide GroupedUpTo, GroupAt, GroupTime, PositionTime, IsAssignment;
    var costs := PositionCosts(chunks, times);
    if n == 0 {
      NothingGrouped(chunks);
      NoTime(times, costs, starts, newGroup, g);
    } else {
      GroupTimeIsPositionTime(chunks, times, starts, newGroup, g, n - 1);
      OneMoreGrouped(chunks, n - 1);
      var p := |GroupedUpTo(chunks, n - 1)|;
      GroupOfChunk(chunks, starts, newGroup, n - 1, p);
      OneMoreChunk(times, costs, starts, newGroup, g, n - 1, p, chunks[n - 1].grouped);
    }
  }

  lemma GroupOfChunk(chunks: seq<Chunk>, starts: seq<nat>, newGroup: map<nat, nat>, i: nat, p: nat)
    requires IsAssignment(Grouped(chunks), starts, newGroup, |Grouped(chunks)|) && i < |chunks|
    ensures !chunks[i].grouped ==> i !in newGroup
    ensures p < |Grouped(chunks)| && Grouped(chunks)[p] == i ==> i in newGroup && newGroup[i] == GroupAt(starts, p)
  {
    hide GroupAt;
  }

  lemma NoTime(times: seq<Option<real>>, costs: seq<real>, starts: seq<nat>, newGroup: map<nat, nat>, g: nat)
    ensures GroupTime(times, newGroup, g, 0) == 0.0 && PositionTime(costs, starts, g, 0) == 0.0
  {
  }

  lemma NothingGrouped(chunks: seq<Chunk>)
    ensures GroupedUpTo(chunks, 0) == []
  {
  }

  /** A group takes the sum of its range. */
  lemma {:induction false} PositionTimeIsRangeSum(costs: seq<real>, starts: seq<nat>, k: nat, p: nat)
    requires IsSplit(starts, |costs|) && k < |starts| && p <= |costs|
    ensures starts[k] <= RangeEnd(starts, |costs|, k) <= |costs|
    ensures var end := RangeEnd(starts, |costs|, k);
            PositionTime(costs, starts, k + 1, p) ==
            if p <= starts[k] then 0.0 else if p <= end then RangeSum(costs, starts[k], p) else RangeSum(costs, starts[k], end)
  {
    LargestBounds(costs, starts, |costs|, k);
    if p > 0 {
      PositionTimeIsRangeSum(costs, starts, k, p - 1);
      if starts[k] <= p - 1 < RangeEnd(starts, |costs|, k) {
        RangeIsGroupAt(starts, |costs|, k, p - 1);
      } else {
        GroupAtIsRange(starts, |costs|, p - 1);
      }
    }
  }

  lemma GroupTimeIsRangeSum(chunks: seq<Chunk>, times: seq<Option<real>>, starts: seq<nat>, newGroup: map<nat, nat>, k: nat)
    requires |chunks| == |times| && IsAssignment(Grouped(chunks), starts, newGroup, |Grouped(chunks)|)
    requires IsSplit(starts, |Grouped(chunks)|) && k < |starts|
    ensures var costs := PositionCosts(chunks, times);
            && starts[k] <= RangeEnd(starts, |costs|, k) <= |costs|
            && GroupTime(times, newGroup, k + 1, |times|) == RangeSum(costs, starts[k], RangeEnd(starts, |costs|, k))
  {
    hide GroupedUpTo, GroupAt, GroupTime, PositionTime, RangeSum, IsAssignment;
    var costs := PositionCosts(chunks, times);
    GroupTimeIsPositionTime(chunks, times, starts, newGroup, k + 1, |times|);
    PositionTimeIsRangeSum(costs, starts, k, |costs|);
  }

  /** One more range of a split. */
  lemma OneMoreRange(costs: seq<real>, starts: seq<nat>, k: nat, end: nat)
    requires 0 < k <= |starts| && end <= |costs| && IsSplit(starts[..k], end)
    ensures IsSplit(starts[..k - 1], starts[k - 1]) && starts[k - 1] <= end
    ensures Largest(costs, starts[..k], end) ==
            MaxReal(Largest(costs, starts[..k - 1], starts[k - 1]), RangeSum(costs, starts[k - 1], end))
    ensures SumOfSquares(costs, starts[..k], end) ==
            SumOfSquares(costs, starts[..k - 1], starts[k - 1]) + Square(RangeSum(costs, starts[k - 1], end))
  {
    assert starts[..k][..k - 1] == starts[..k - 1];
  }

  /** The times of the groups, taken over chunks, are the sums of the split's ranges. */
  lemma {:induction false} TimesOfGroups(chunks: seq<Chunk>, times: seq<Option<real>>, starts: seq<nat>, newGroup: map<nat, nat>, k: nat)
    requires |chunks| == |times| && IsAssignment(Grouped(chunks), starts, newGroup, |Grouped(chunks)|)
    requires IsSplit(starts, |Grouped(chunks)|) && k <= |starts|
    ensures var costs, end := PositionCosts(chunks, times), if k < |starts| then starts[k] else |Grouped(chunks)|;
            && end <= |costs| && IsSplit(starts[..k], end)
            && SlowestGroup(times, newGroup, k) == Largest(costs, starts[..k], end)
            && SquaredTimes(times, newGroup, k) == SumOfSquares(costs, starts[..k], end)
  {
    hide GroupedUpTo, GroupAt, GroupTime, RangeSum, IsAssignment, Largest, SumOfSquares, SlowestGroup, SquaredTimes, Square;
    var costs := PositionCosts(chunks, times);
    var end := if k < |starts| then starts[k] else |Grouped(chunks)|;
    if k < |starts| {
      SplitElementBelow(starts, |costs|, k);
    }
    if k == 0 {
      NoGroups(costs, starts[..k], end, times, newGroup);
    } else {
      TimesOfGroups(chunks, times, starts, newGroup, k - 1);
      GroupTimeIsRangeSum(chunks, times, starts, newGroup, k - 1);
      OneMoreRange(costs, starts, k, end);
      OneMoreGroup(times, newGroup, k);
    }
  }

  lemma NoGroups(costs: seq<real>, starts: seq<nat>, n: nat, times: seq<Option<real>>, newGroup: map<nat, nat>)
    requires starts == [] && IsSplit(starts, n)
    ensures Largest(costs, starts, n) == SlowestGroup(times, newGroup, 0) && SumOfSquares(costs, starts, n) == SquaredTimes(times, newGroup, 0)
  {
  }

  lemma OneMoreGroup(times: seq<Option<real>>, newGroup: map<nat, nat>, k: nat)
    requires 0 < k
    ensures var time := GroupTime(times, newGroup, k, |times|);
            && SlowestGroup(times, newGroup, k) == MaxReal(SlowestGroup(times, newGroup, k - 1), time)
            && SquaredTimes(times, newGroup, k) == SquaredTimes(times, newGroup, k - 1) + Square(time)
  {
    hide GroupTime;
  }

  lemma TimesOfGrouping(chunks: seq<Chunk>, times: seq<Option<real>>, starts: seq<nat>, newGroup: map<nat, nat>)
    requires |chunks| == |times| && IsAssignment(Grouped(chunks), starts, newGroup, |Grouped(chunks)|)
    requires IsSplit(starts, |Grouped(chunks)|)
    ensures var costs := PositionCosts(chunks, times);
            && SlowestGroup(times, newGroup, |starts|) == Largest(costs, starts, |costs|)
            && SquaredTimes(times, newGroup, |starts|) == SumOfSquares(costs, starts, |costs|)
  {
    TimesOfGroups(chunks, times, starts, newGroup, |starts|);
    assert starts[..|starts|] == starts;
  }

  /** No other grouping is better than that of the best split. */
  lemma OtherGroupingIsNoBetter(chunks: seq<Chunk>, extra: seq<Dependency>, times: seq<Option<real>>, starts: seq<nat>,
                                newGroup: map<nat, nat>, m: real, other: map<nat, nat>)
    requires |chunks| == |times| && IsAssignment(Grouped(chunks), starts, newGroup, |Grouped(chunks)|)
    requires var costs, forbidden := PositionCosts(chunks, times), ForbiddenSet(chunks, extra);
             && IsSmallestAllowed(costs, forbidden, |starts|, m) && IsSplit(starts, |costs|)
             && SquaresMinimalAllowed(costs, forbidden, starts, m + TOLERANCE)
    requires IsGroupingInto(chunks, extra, other, |starts|)
    ensures m <= SlowestGroup(times, other, |starts|)
    ensures SlowestGroup(times, other, |starts|) <= m + TOLERANCE ==>
              SquaredTimes(times, newGroup, |starts|) <= SquaredTimes(times, other, |starts|)
  {
    hide Largest, SumOfSquares, SlowestGroup, SquaredTimes, GroupedUpTo, ForbiddenSet, GroupAt;
    var n := |Grouped(chunks)|;
    var t :| |t| == |starts| && IsAllowedSplit(ForbiddenSet(chunks, extra), t, n) && IsAssignment(Grouped(chunks), t, other, n);
    TimesOfGrouping(chunks, times, starts, newGroup);
    TimesOfGrouping(chunks, times, t, other);
  }

  /** The least largest sum is the least time of a slowest group. */
  lemma SmallestIsLeastTime(chunks: seq<Chunk>, extra: seq<Dependency>, times: seq<Option<real>>, starts: seq<nat>,
                            newGroup: map<nat, nat>, m: real)
    requires |chunks| == |times| && IsAssignment(Grouped(chunks), starts, newGroup, |Grouped(chunks)|)
    requires var costs, forbidden := PositionCosts(chunks, times), ForbiddenSet(chunks, extra);
             && IsSmallestAllowed(costs, forbidden, |starts|, m) && IsSplit(starts, |costs|)
             && SquaresMinimalAllowed(costs, forbidden, starts, m + TOLERANCE)
    ensures IsLeastTime(chunks, extra, times, |starts|, m)
  {
    hide Largest, SlowestGroup, GroupedUpTo, ForbiddenSet, GroupAt, SquaresMinimalAllowed, IsAssignment, Assignment;
    var costs, groups := PositionCosts(chunks, times), |starts|;
    var best :| |best| == groups && IsAllowedSplit(ForbiddenSet(chunks, extra), best, |costs|) && Largest(costs, best, |costs|) == m;
    var other := Assignment(Grouped(chunks), best, |costs|);
    AssignmentIsOne(Grouped(chunks), best, |costs|);
    TimesOfGrouping(chunks, times, best, other);
    assert IsGroupingInto(chunks, extra, other, groups);
    forall other | IsGroupingInto(chunks, extra, other, groups) ensures m <= SlowestGroup(times, other, groups) {
      OtherGroupingIsNoBetter(chunks, extra, times, starts, newGroup, m, other);
    }
  }

  /** The best split of the positions gives the best grouping of the chunks. */
  lemma BestSplitIsBestGrouping(chunks: seq<Chunk>, extra: seq<Dependency>, times: seq<Option<real>>, starts: seq<nat>,
                                newGroup: map<nat, nat>)
    requires |chunks| == |times| && IsAssignment(Grouped(chunks), starts, newGroup, |Grouped(chunks)|)
    requires IsBestAllowed(PositionCosts(chunks, times), ForbiddenSet(chunks, extra), starts)
    ensures IsBestGrouping(chunks, extra, times, newGroup, |starts|)
  {
    hide Largest, SumOfSquares, SlowestGroup, SquaredTimes, GroupedUpTo, ForbiddenSet, IsAssignment, IsSmallestAllowed, IsLeastTime,
         SquaresMinimalAllowed;
    var costs, forbidden, groups := PositionCosts(chunks, times), ForbiddenSet(chunks, extra), |starts|;
    var m :| IsSmallestAllowed(costs, forbidden, groups, m) && Largest(costs, starts, |costs|) <= m + TOLERANCE &&
             SquaresMinimalAllowed(costs, forbidden, starts, m + TOLERANCE);
    TimesOfGrouping(chunks, times, starts, newGroup);
    SmallestIsLeastTime(chunks, extra, times, starts, newGroup, m);
    forall other | IsGroupingInto(chunks, extra, other, groups) && SlowestGroup(times, other, groups) <= m + 0.000001
      ensures SquaredTimes(times, newGroup, groups) <= SquaredTimes(times, other, groups)
    {
      OtherGroupingIsNoBetter(chunks, extra, times, starts, newGroup, m, other);
    }
  }

  /** The outcome as a function of what is balanced. */
  ghost function Result(chunks: seq<Chunk>, extra: seq<Dependency>, times: seq<Option<real>>, groups: int): Outcome
    requires |times| == |chunks|
  {
    var grouped, forbidden := Grouped(chunks), ForbiddenSet(chunks, extra);
    if |grouped| < groups then Refused(TooFewChunks)
    else if AllUntimed(times) then Refused(NoTimings)
    else if |BlockStartsUpTo(forbidden, |grouped|)| < groups then Refused(TooFewBlocks)
    else if groups < 0 then Refused(InvalidGroupCount)
    else if groups == 0 then Balanced([], map[])
    else
      var starts := BestStarts(PositionCosts(chunks, times), forbidden, groups);
      Balanced(starts, Assignment(grouped, starts, |grouped|))
  }

  method Balance(chunks: seq<Chunk>, extra: seq<Dependency>, times: seq<Option<real>>, groups: int) returns (r: Outcome)
    requires |times| == |chunks|
    requires forall d :: d in extra ==> WellFormed(chunks, d)
    ensures r == Refused(TooFewChunks) <==> |Grouped(chunks)| < groups
    ensures r == Refused(NoTimings) <==> groups <= |Grouped(chunks)| && forall i :: 0 <= i < |times| ==> times[i].None?
    ensures r == Refused(InvalidGroupCount) <==> groups < 0 && exists i :: 0 <= i < |times| && times[i].Some?
    ensures r == Refused(TooFewBlocks) <==>
            && 1 <= groups <= |Grouped(chunks)| && !SplitExists(chunks, extra, groups)
            && exists i :: 0 <= i < |times| && times[i].Some?
    ensures r.Balanced? ==> |r.groupStarts| == groups
    ensures r.Balanced? && groups == 0 ==> r.newGroup == map[]
    ensures r.Balanced? && groups >= 1 ==>
              && IsBestAllowed(PositionCosts(chunks, times), ForbiddenSet(chunks, extra), r.groupStarts)
              && IsAssignment(Grouped(chunks), r.groupStarts, r.newGroup, |Grouped(chunks)|)
    ensures r.Balanced? && groups >= 1 ==> IsBestGrouping(chunks, extra, times, r.newGroup, groups)
    ensures r == Result(chunks, extra, times, groups)
  {
    var grouped := Grouped(chunks);
    if |grouped| < groups {
      return Refused(TooFewChunks);
    }
    if AllUntimed(times) {
      return Refused(NoTimings);
    }
    var costs := PositionCosts(chunks, times);
    var nameDeps := FindNameDependencies(chunks);
    var forbidden := ForbiddenCuts(chunks, extra, nameDeps + extra);
    assert forbidden == ForbiddenSet(chunks, extra);
    var blocks := BlockStartsUpTo(forbidden, |grouped|);
    if |blocks| < groups {
      forall t | |t| == groups && IsAllowedSplit(forbidden, t, |costs|) ensures false {
        AllowedSplitFitsBlocks(costs, forbidden, t);
      }
      return Refused(TooFewBlocks);
    }
    if groups < 0 {
      return Refused(InvalidGroupCount);
    }
    var totals := BlockCosts(costs, blocks);
    var chosen := Compute(totals, groups);
    if groups == 0 {
      return Balanced([], map[]);
    }
    BlocksRefineChunks(costs, forbidden, chosen);
    var starts := Positioned(blocks, chosen);
    var newGroup := AssignGroups(grouped, starts);
    AssignmentIsUnique(grouped, starts, newGroup);
    BestSplitIsBestGrouping(chunks, extra, times, starts, newGroup);
    r := Balanced(starts, newGroup);
  }
}
