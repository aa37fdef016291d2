/**
 * Which of several good splits the linear partition returns, and when its tolerance makes a difference.
 */
module PartitionOrder {
  import opened LinearPartition

  // ---------------------------------------------------------------------------
  // When the tolerance makes no difference
  // ---------------------------------------------------------------------------

  /** The starts of a second pass without the tolerance. */
  ghost function StrictStarts(costs: seq<real>, parts: nat): seq<nat> {
    Walk(costs, BestMax(costs, parts, |costs|), parts, |costs|)
  }

  /** A last cut j within the bound is worse than v, so it does not displace v. */
  ghost predicate IsWorse(costs: seq<real>, bound: Extended, k: nat, i: nat, j: int, v: Extended) {
    1 <= k && 0 <= j <= i <= |costs| && Finite(RangeSum(costs, j, i)).AtMost(bound) ==>
      v.Less(SquaresCandidate(costs, bound, k, i, j))
  }

  /** The recorded choice is the first of the best last cuts. */
  lemma {:induction false} ChoiceIsFirst(costs: seq<real>, bound: Extended, k: nat, i: nat, hi: nat, j: nat)
    requires 1 <= k && hi <= i <= |costs|
    ensures var cell := BestSquaresOver(costs, bound, k, i, hi);
            cell.squares.Finite? && k - 1 <= j < cell.choice ==> IsWorse(costs, bound, k, i, j, cell.squares)
  {
    if hi >= k {
      ChoiceIsFirst(costs, bound, k, i, hi - 1, j);
      if k - 1 <= j < hi - 1 && Finite(RangeSum(costs, j, i)).AtMost(bound) {
        BestSquaresOverIsMinimum(costs, bound, k, i, hi - 1, j);
      }
    }
  }

  lemma {:induction false} AllWorse(costs: seq<real>, bound: Extended, k: nat, i: nat, hi: nat, v: Extended)
    requires 1 <= k && hi <= i <= |costs| && v.Finite?
    requires forall j :: k - 1 <= j < hi ==> IsWorse(costs, bound, k, i, j, v)
    ensures v.Less(BestSquaresOver(costs, bound, k, i, hi).squares)
  {
    if hi >= k {
      assert IsWorse(costs, bound, k, i, hi - 1, v);
      AllWorse(costs, bound, k, i, hi - 1, v);
    }
  }

  /** The first of the best last cuts is the recorded choice. */
  lemma {:induction false} FirstIsChoice(costs: seq<real>, bound: Extended, k: nat, i: nat, hi: nat, j: nat, v: Extended)
    requires 1 <= k && k - 1 <= j < hi <= i <= |costs| && v.Finite?
    requires Finite(RangeSum(costs, j, i)).AtMost(bound) && SquaresCandidate(costs, bound, k, i, j) == v
    requires forall h :: k - 1 <= h < j ==> IsWorse(costs, bound, k, i, h, v)
    requires forall h :: j < h < hi && Finite(RangeSum(costs, h, i)).AtMost(bound) ==>
               v.AtMost(SquaresCandidate(costs, bound, k, i, h))
    ensures BestSquaresOver(costs, bound, k, i, hi) == Cell(v, j)
  {
    if j == hi - 1 {
      AllWorse(costs, bound, k, i, j, v);
    } else {
      FirstIsChoice(costs, bound, k, i, hi - 1, j, v);
    }
  }

  /** A wider bound allows squares at most as large. */
  lemma {:induction false} WiderBoundIsBetter(costs: seq<real>, low: Extended, high: Extended, k: nat, i: nat)
    requires i <= |costs| && low.AtMost(high)
    ensures BestSquares(costs, high, k, i).squares.AtMost(BestSquares(costs, low, k, i).squares)
    decreases k
  {
    if k > 0 && BestSquares(costs, low, k, i).squares.Finite? {
      ChoiceAttainsCell(costs, low, k, i);
      var j := BestSquares(costs, low, k, i).choice;
      WiderBoundIsBetter(costs, low, high, k - 1, j);
      BestSquaresOverIsMinimum(costs, high, k, i, i, j);
    }
  }

  lemma CandidateIsBetter(costs: seq<real>, low: Extended, high: Extended, k: nat, i: nat, h: nat)
    requires 1 <= k && h <= i <= |costs| && low.AtMost(high)
    ensures SquaresCandidate(costs, high, k, i, h).AtMost(SquaresCandidate(costs, low, k, i, h))
  {
    WiderBoundIsBetter(costs, low, high, k - 1, h);
  }

  /** If the choice under the wider bound is as good under the narrower one, it is the choice there. */
  lemma SameChoice(costs: seq<real>, low: Extended, high: Extended, k: nat, i: nat)
    requires 1 <= k && i <= |costs| && low.AtMost(high) && BestSquares(costs, high, k, i).squares.Finite?
    requires var cell := BestSquares(costs, high, k, i);
             && Finite(RangeSum(costs, cell.choice, i)).AtMost(low)
             && BestSquares(costs, low, k - 1, cell.choice).squares == BestSquares(costs, high, k - 1, cell.choice).squares
    ensures BestSquares(costs, low, k, i) == BestSquares(costs, high, k, i)
  {
    var cell := BestSquares(costs, high, k, i);
    ChoiceAttainsCell(costs, high, k, i);
    forall h | k - 1 <= h < cell.choice ensures IsWorse(costs, low, k, i, h, cell.squares) {
      ChoiceIsFirst(costs, high, k, i, i, h);
      CandidateIsBetter(costs, low, high, k, i, h);
    }
    forall h | cell.choice < h < i && Finite(RangeSum(costs, h, i)).AtMost(low)
      ensures cell.squares.AtMost(SquaresCandidate(costs, low, k, i, h))
    {
      BestSquaresOverIsMinimum(costs, high, k, i, i, h);
      CandidateIsBetter(costs, low, high, k, i, h);
    }
    FirstIsChoice(costs, low, k, i, i, cell.choice, cell.squares);
  }

  /** A walk that stays within a narrower bound is the walk under that bound. */
  lemma {:induction false} NarrowerBoundSameWalk(costs: seq<real>, low: Extended, high: Extended, k: nat, i: nat)
    requires i <= |costs| && Finite(0.0).AtMost(low) && low.AtMost(high) && BestSquares(costs, high, k, i).squares.Finite?
    requires IsSplit(Walk(costs, high, k, i), i) && Finite(Largest(costs, Walk(costs, high, k, i), i)).AtMost(low)
    ensures Walk(costs, low, k, i) == Walk(costs, high, k, i)
    ensures BestSquares(costs, low, k, i).squares == BestSquares(costs, high, k, i).squares
    decreases k
  {
    if k > 0 {
      var j := BestSquares(costs, high, k, i).choice;
      ChoiceAttainsCell(costs, high, k, i);
      WalkAttainsCell(costs, high, k - 1, j);
      ExtendSplit(costs, Walk(costs, high, k - 1, j), j, i);
      NarrowerBoundSameWalk(costs, low, high, k - 1, j);
      SameChoice(costs, low, high, k, i);
    }
  }

  lemma StrictStartsAreExact(costs: seq<real>, parts: nat)
    requires 1 <= parts <= |costs|
    ensures IsExactlyBalanced(costs, StrictStarts(costs, parts))
  {
    var n := |costs|;
    BestMaxIsFinite(costs, parts);
    var bound := BestMax(costs, parts, n);
    var best := BestMaxIsAttained(costs, parts, n);
    var _ := LargestIsARange(costs, best, n);
    BestSquaresIsLowerBound(costs, bound, best, n);
    WalkAttainsCell(costs, bound, parts, n);
    forall t | |t| == parts && IsSplit(t, n) ensures bound.value <= Largest(costs, t, n) {
      BestMaxIsLowerBound(costs, t, n);
    }
    forall t | |t| == parts && IsSplit(t, n) && Largest(costs, t, n) <= bound.value
      ensures SumOfSquares(costs, StrictStarts(costs, parts), n) <= SumOfSquares(costs, t, n)
    {
      BestSquaresIsLowerBound(costs, bound, t, n);
    }
  }

  /** The starts are exactly minimal if and only if the second pass would give the same ones without the tolerance. */
  lemma StartsAreStrictIff(costs: seq<real>, parts: nat)
    requires 1 <= parts <= |costs|
    ensures IsExactlyBalanced(costs, Starts(costs, parts)) <==> Starts(costs, parts) == StrictStarts(costs, parts)
  {
    StrictStartsAreExact(costs, parts);
    if IsExactlyBalanced(costs, Starts(costs, parts)) {
      var n := |costs|;
      BestMaxIsFinite(costs, parts);
      var low := BestMax(costs, parts, n);
      var best := BestMaxIsAttained(costs, parts, n);
      var _ := LargestIsARange(costs, best, n);
      assert Largest(costs, Starts(costs, parts), n) <= low.value;
      BestSquaresIsLowerBound(costs, low.Plus(TOLERANCE), best, n);
      NarrowerBoundSameWalk(costs, low, low.Plus(TOLERANCE), parts, n);
    }
  }

  // ---------------------------------------------------------------------------
  // Which of several best splits is returned
  // ---------------------------------------------------------------------------

  /** Compares starts from the last to the first. */
  ghost predicate StartsEarlier(s: seq<nat>, t: seq<nat>)
    requires |s| == |t|
  {
    s != [] &&
    var last := |s| - 1;
    s[last] < t[last] || (s[last] == t[last] && StartsEarlier(s[..last], t[..last]))
  }

  lemma LastStartDecides(s: seq<nat>, x: nat, t: seq<nat>, y: nat)
    requires |s| == |t|
    ensures StartsEarlier(s + [x], t + [y]) <==> x < y || (x == y && StartsEarlier(s, t))
  {
    assert (s + [x])[..|s|] == s && (t + [y])[..|t|] == t;
  }

  /** Fewer squares, or as many and earlier starts. */
  ghost predicate Precedes(costs: seq<real>, s: seq<nat>, t: seq<nat>, n: nat)
    requires |s| == |t| && IsSplit(s, n) && IsSplit(t, n) && n <= |costs|
  {
    || SumOfSquares(costs, s, n) < SumOfSquares(costs, t, n)
    || (SumOfSquares(costs, s, n) == SumOfSquares(costs, t, n) && StartsEarlier(s, t))
  }

  lemma {:induction false} StartsEarlierIsStrict(s: seq<nat>, t: seq<nat>)
    requires |s| == |t| && StartsEarlier(s, t)
    ensures !StartsEarlier(t, s)
  {
    var last := |s| - 1;
    if s[last] == t[last] {
      StartsEarlierIsStrict(s[..last], t[..last]);
    }
  }

  /** A split with the squares of cell (k, i) ends no earlier than the choice of that cell, and its front attains its own cell. */
  lemma EqualSplitEndsLater(costs: seq<real>, bound: Extended, t: seq<nat>, i: nat)
    requires t != [] && IsSplit(t, i) && i <= |costs| && Finite(Largest(costs, t, i)).AtMost(bound)
    requires BestSquares(costs, bound, |t|, i).squares == Finite(SumOfSquares(costs, t, i))
    ensures var k, h := |t|, t[|t| - 1];
            && BestSquares(costs, bound, k, i).choice <= h
            && IsSplit(t[..k - 1], h) && Finite(Largest(costs, t[..k - 1], h)).AtMost(bound)
            && BestSquares(costs, bound, k - 1, h).squares == Finite(SumOfSquares(costs, t[..k - 1], h))
  {
    var k, h := |t|, t[|t| - 1];
    BestSquaresIsLowerBound(costs, bound, t[..k - 1], h);
    SplitFits(t[..k - 1], h);
    BestSquaresOverIsMinimum(costs, bound, k, i, i, h);
    ChoiceIsFirst(costs, bound, k, i, i, h);
  }

  /** Among the splits with the squares of cell (k, i) the walk gives the earliest one. */
  lemma {:induction false} WalkIsEarliest(costs: seq<real>, bound: Extended, t: seq<nat>, i: nat)
    requires IsSplit(t, i) && i <= |costs| && Finite(Largest(costs, t, i)).AtMost(bound)
    requires BestSquares(costs, bound, |t|, i).squares == Finite(SumOfSquares(costs, t, i))
    ensures t == Walk(costs, bound, |t|, i) || StartsEarlier(Walk(costs, bound, |t|, i), t)
    decreases |t|
  {
    if t != [] {
      var front, h, j := t[..|t| - 1], t[|t| - 1], BestSquares(costs, bound, |t|, i).choice;
      EqualSplitEndsLater(costs, bound, t, i);
      if h == j {
        WalkIsEarliest(costs, bound, front, h);
      }
      LastStartDecides(Walk(costs, bound, |front|, j), j, front, h);
      assert t == front + [h];
    }
  }

  /** Among all splits within the bound the walk gives the first one. */
  lemma WalkIsFirst(costs: seq<real>, bound: Extended, t: seq<nat>, i: nat)
    requires IsSplit(t, i) && i <= |costs| && Finite(Largest(costs, t, i)).AtMost(bound) && Finite(0.0).AtMost(bound)
    ensures IsSplit(Walk(costs, bound, |t|, i), i)
    ensures t == Walk(costs, bound, |t|, i) || Precedes(costs, Walk(costs, bound, |t|, i), t, i)
  {
    BestSquaresIsLowerBound(costs, bound, t, i);
    WalkAttainsCell(costs, bound, |t|, i);
    if BestSquares(costs, bound, |t|, i).squares.value == SumOfSquares(costs, t, i) {
      WalkIsEarliest(costs, bound, t, i);
    }
  }

  /** A split that is within a millionth of m but above it, and precedes every split whose largest sum is m. */
  ghost predicate IsNearMiss(costs: seq<real>, t: seq<nat>, m: real) {
    && IsSplit(t, |costs|) && m < Largest(costs, t, |costs|) <= m + 0.000001
    && forall u :: |u| == |t| && IsSplit(u, |costs|) && Largest(costs, u, |costs|) == m ==> Precedes(costs, t, u, |costs|)
  }

  lemma StartsAreFirst(costs: seq<real>, parts: nat, m: real, t: seq<nat>)
    requires 1 <= parts <= |costs| && IsSmallestLargest(costs, parts, m)
    requires |t| == parts && IsSplit(t, |costs|) && Largest(costs, t, |costs|) <= m + TOLERANCE
    ensures IsSplit(Starts(costs, parts), |costs|)
    ensures t == Starts(costs, parts) || Precedes(costs, Starts(costs, parts), t, |costs|)
  {
    SmallestIsBestMax(costs, parts, m);
    var bound := Finite(m + TOLERANCE);
    assert Starts(costs, parts) == Walk(costs, bound, parts, |costs|);
    var _ := LargestIsARange(costs, t, |costs|);
    WalkIsFirst(costs, bound, t, |costs|);
  }

  lemma SmallestIsBestMax(costs: seq<real>, parts: nat, m: real)
    requires 1 <= parts <= |costs| && IsSmallestLargest(costs, parts, m)
    ensures BestMax(costs, parts, |costs|) == Finite(m)
  {
    BestMaxIsFinite(costs, parts);
    var best := BestMaxIsAttained(costs, parts, |costs|);
    var t :| |t| == parts && IsSplit(t, |costs|) && Largest(costs, t, |costs|) == m;
    BestMaxIsLowerBound(costs, t, |costs|);
  }

  /** The starts are exactly minimal if and only if the costs have no near miss. */
  lemma StartsAreExactIff(costs: seq<real>, parts: nat, m: real)
    requires 1 <= parts <= |costs| && IsSmallestLargest(costs, parts, m)
    ensures IsExactlyBalanced(costs, Starts(costs, parts)) <==> !exists t :: |t| == parts && IsNearMiss(costs, t, m)
  {
    var n, starts := |costs|, Starts(costs, parts);
    StartsAreBalanced(costs, parts);
    SmallestIsBestMax(costs, parts, m);
    BalancedWithin(costs, starts, m);
    if Largest(costs, starts, n) == m {
      forall t | |t| == parts && IsNearMiss(costs, t, m) ensures false {
        StartsAreFirst(costs, parts, m, t);
        if StartsEarlier(starts, t) {
          StartsEarlierIsStrict(starts, t);
        }
      }
    } else {
      forall u | |u| == parts && IsSplit(u, n) && Largest(costs, u, n) == m ensures Precedes(costs, starts, u, n) {
        StartsAreFirst(costs, parts, m, u);
      }
      assert IsNearMiss(costs, starts, m);
    }
  }
}
