/**
 * The balancer on a script: finding the chunks, balancing them and rewriting their headers.
 */
module ScriptBalancing {
  import opened Options
  import opened ChunkHeaders
  import ChunkBalancer

  /** What the heuristics and the timing file say about the chunks of a script. */
  datatype Reading = Reading(chunks: seq<ChunkBalancer.Chunk>, extra: seq<ChunkBalancer.Dependency>, times: seq<Option<real>>)

  /** They judge a chunk by its id, its code and whether it is grouped. */
  type Reader = seq<Outline> -> Reading

  ghost predicate IsReading(outlines: seq<Outline>, reading: Reading) {
    && |reading.chunks| == |reading.times| == |outlines|
    && (forall i :: 0 <= i < |outlines| ==> reading.chunks[i].grouped == outlines[i].grouped)
    && forall d :: d in reading.extra ==> ChunkBalancer.WellFormed(reading.chunks, d)
  }

  ghost predicate IsReader(reader: Reader) {
    forall outlines :: IsReading(outlines, reader(outlines))
  }

  /** The new group of every chunk that gets one. */
  function NewGroups(outcome: ChunkBalancer.Outcome, count: nat): (groups: seq<Option<nat>>)
    ensures |groups| == count
  {
    seq(count, i => if outcome.Balanced? && i in outcome.newGroup then Some(outcome.newGroup[i]) else None)
  }

  /** The balancer as a function of the outlines. */
  ghost function BalancerOf(reader: Reader, groups: int): Balancer
    requires IsReader(reader)
  {
    (outlines: seq<Outline>) =>
      assert IsReading(outlines, reader(outlines));
      var reading := reader(outlines);
      NewGroups(ChunkBalancer.Result(reading.chunks, reading.extra, reading.times, groups), |outlines|)
  }

  /** Every chunk that is meant to be grouped has a number in its header. */
  ghost predicate AllNumbered(lines: seq<string>, token: string) {
    forall i :: 0 <= i < |ParseChunks(lines, token)| ==>
      var chunk := ParseChunks(lines, token)[i];
      chunk.group.Some? ==>
        chunk.header < |lines| && IsHeader(lines[chunk.header], token) && IsNumbered(HeaderText(lines[chunk.header], token))
  }

  /** Only grouped chunks get a group. */
  lemma OnlyGroupedAreAssigned(chunks: seq<ChunkBalancer.Chunk>, extra: seq<ChunkBalancer.Dependency>, times: seq<Option<real>>,
                               groups: int, i: nat)
    requires |times| == |chunks|
    ensures var outcome := ChunkBalancer.Result(chunks, extra, times, groups);
            outcome.Balanced? && i in outcome.newGroup ==> i < |chunks| && chunks[i].grouped
  {
    var outcome := ChunkBalancer.Result(chunks, extra, times, groups);
    if outcome.Balanced? && groups != 0 {
      var grouped := ChunkBalancer.Grouped(chunks);
      ChunkBalancer.AssignmentIsOne(grouped, outcome.groupStarts, |grouped|);
    }
  }

  lemma NumberedScriptFits(lines: seq<string>, token: string, reader: Reader, groups: int)
    requires IsReader(reader) && AllNumbered(lines, token)
    ensures IsFitting(lines, token, BalancerOf(reader, groups))
  {
    var chunks := ParseChunks(lines, token);
    var outlines := Outlines(chunks);
    var reading := reader(outlines);
    assert IsReading(outlines, reading);
    forall i | 0 <= i < |chunks| && BalancerOf(reader, groups)(outlines)[i].Some? ensures chunks[i].group.Some? {
      OnlyGroupedAreAssigned(reading.chunks, reading.extra, reading.times, groups, i);
      assert outlines[i].grouped == chunks[i].group.Some?;
    }
  }

  /** The header lines of the chunks with a new group have it, and all other lines are as before. */
  ghost predicate HasNewGroups(lines: seq<string>, chunks: seq<Chunk>, newGroup: map<nat, nat>, after: seq<string>) {
    && |after| == |lines|
    && (forall i :: 0 <= i < |chunks| && i in newGroup && chunks[i].header < |lines| ==>
          after[chunks[i].header] == RewriteLine(lines[chunks[i].header], newGroup[i]))
    && forall n :: 0 <= n < |lines| && (forall i :: 0 <= i < |chunks| && i in newGroup ==> chunks[i].header != n) ==>
         after[n] == lines[n]
  }

  lemma RewrittenHasNewGroups(lines: seq<string>, chunks: seq<Chunk>, outcome: ChunkBalancer.Outcome)
    requires AreIncreasing(chunks, |lines|) && outcome.Balanced?
    ensures HasNewGroups(lines, chunks, outcome.newGroup, Rewritten(lines, chunks, NewGroups(outcome, |chunks|)))
  {
    var groups := NewGroups(outcome, |chunks|);
    forall i | 0 <= i < |chunks| && i in outcome.newGroup
      ensures GroupOfLine(chunks, groups, chunks[i].header) == Some(outcome.newGroup[i])
    {
      GroupOfLineIs(chunks, groups, |lines|, chunks[i].header, i);
    }
    forall n | 0 <= n < |lines| && forall i :: 0 <= i < |chunks| && i in outcome.newGroup ==> chunks[i].header != n
      ensures GroupOfLine(chunks, groups, n).None?
    {
      if GroupOfLine(chunks, groups, n).Some? {
        var i := GroupedLineIsHeader(chunks, groups, n);
      }
    }
  }

  /** Read back, the chunks have their new groups, and are as before otherwise. */
  ghost predicate AreRegrouped(chunks: seq<Chunk>, newGroup: map<nat, nat>, again: seq<Chunk>) {
    |again| == |chunks| &&
    forall i :: 0 <= i < |chunks| ==>
      again[i].id == chunks[i].id && again[i].code == chunks[i].code &&
      again[i].group == if i in newGroup then Some(newGroup[i]) else chunks[i].group
  }

  lemma BalancedIsRegrouped(lines: seq<string>, token: string, reader: Reader, groups: int)
    requires IsReader(reader) && IsToken(token) && AllNumbered(lines, token)
    ensures var chunks := ParseChunks(lines, token);
            var reading := reader(Outlines(chunks));
            && |reading.times| == |reading.chunks|
            && var outcome := ChunkBalancer.Result(reading.chunks, reading.extra, reading.times, groups);
            outcome.Balanced? ==>
              AreRegrouped(chunks, outcome.newGroup, ParseChunks(Rewritten(lines, chunks, NewGroups(outcome, |chunks|)), token))
  {
    var chunks := ParseChunks(lines, token);
    assert IsReading(Outlines(chunks), reader(Outlines(chunks)));
    NumberedScriptFits(lines, token, reader, groups);
    var balancer := BalancerOf(reader, groups);
    forall i | 0 <= i < |chunks|
      ensures var again := ParseChunks(Balanced(lines, token, balancer), token);
              && |again| == |chunks| && OutlineOf(again[i]) == OutlineOf(chunks[i])
              && again[i].group == if balancer(Outlines(chunks))[i].Some? then balancer(Outlines(chunks))[i] else chunks[i].group
    {
      BalancedHasGroups(lines, token, balancer, i);
    }
    if chunks == [] {
      BalancedKeepsOutlines(lines, token, balancer);
    }
  }

  /** Balances a script.  A refusal leaves it as it is. */
  method BalanceScript(lines: seq<string>, token: string, reader: Reader, groups: int)
    returns (outcome: ChunkBalancer.Outcome, after: seq<string>)
    requires IsReader(reader)
    ensures var chunks := ParseChunks(lines, token);
            && |BalancerOf(reader, groups)(Outlines(chunks))| == |chunks|
            && after == Rewritten(lines, chunks, BalancerOf(reader, groups)(Outlines(chunks)))
    ensures var reading := reader(Outlines(ParseChunks(lines, token)));
            |reading.times| == |reading.chunks| && outcome == ChunkBalancer.Result(reading.chunks, reading.extra, reading.times, groups)
    ensures outcome.Refused? ==> after == lines
    ensures outcome.Balanced? ==> HasNewGroups(lines, ParseChunks(lines, token), outcome.newGroup, after)
    ensures outcome.Balanced? && IsToken(token) && AllNumbered(lines, token) ==>
              AreRegrouped(ParseChunks(lines, token), outcome.newGroup, ParseChunks(after, token))
    ensures var reading := reader(Outlines(ParseChunks(lines, token)));
            outcome.Balanced? && groups >= 1 ==>
              && |reading.times| == |reading.chunks|
              && ChunkBalancer.IsBestGrouping(reading.chunks, reading.extra, reading.times, outcome.newGroup, groups)
  {
    var chunks := FindChunks(lines, token);
    var outlines := Outlines(chunks);
    var reading := reader(outlines);
    assert IsReading(outlines, reading);
    outcome := ChunkBalancer.Balance(reading.chunks, reading.extra, reading.times, groups);
    HeadersIncrease(lines, token);
    after := RewriteHeaders(lines, chunks, NewGroups(outcome, |chunks|));
    if outcome.Refused? {
      NothingRewritten(lines, chunks, NewGroups(outcome, |chunks|));
    } else {
      RewrittenHasNewGroups(lines, chunks, outcome);
      if IsToken(token) && AllNumbered(lines, token) {
        BalancedIsRegrouped(lines, token, reader, groups);
      }
    }
  }

  lemma NothingRewritten(lines: seq<string>, chunks: seq<Chunk>, groups: seq<Option<nat>>)
    requires |groups| == |chunks| && forall i :: 0 <= i < |groups| ==> groups[i].None?
    ensures Rewritten(lines, chunks, groups) == lines
  {
    forall n: nat | n < |lines| ensures GroupOfLine(chunks, groups, n).None? {
      NoGroup(chunks, groups, n);
    }
  }

  lemma {:induction false} NoGroup(chunks: seq<Chunk>, groups: seq<Option<nat>>, n: nat)
    requires |groups| == |chunks| && forall i :: 0 <= i < |groups| ==> groups[i].None?
    ensures GroupOfLine(chunks, groups, n).None?
  {
    if chunks != [] {
      NoGroup(chunks[..|chunks| - 1], groups[..|groups| - 1], n);
    }
  }

  /** Balancing a balanced script again, with the same heuristics and times, changes nothing. */
  lemma BalancedScriptIsStable(lines: seq<string>, token: string, reader: Reader, groups: int)
    requires IsReader(reader) && IsToken(token) && AllNumbered(lines, token)
    ensures IsFitting(lines, token, BalancerOf(reader, groups))
    ensures var after := Balanced(lines, token, BalancerOf(reader, groups));
            var again := ParseChunks(after, token);
            && |BalancerOf(reader, groups)(Outlines(again))| == |again|
            && Rewritten(after, again, BalancerOf(reader, groups)(Outlines(again))) == after
  {
    NumberedScriptFits(lines, token, reader, groups);
    BalancingIsStable(lines, token, BalancerOf(reader, groups));
  }
}
