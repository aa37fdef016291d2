/** The two-pass dynamic program that cuts a list of costs into contiguous,
    non-empty ranges: first the smallest possible largest range sum, then, with
    every range kept within a tolerance of it, the smallest sum of squares.

    The tables are specified by recursive functions over cells (`BestMax`,
    `BestSquares`, `Walk`).  The lemmas relate those cells to *all* splits of the
    list, and the method `Compute` fills the tables in place.
 */
module LinearPartition {

  /** Slack added to the optimal largest sum before the second pass. */
  const TOLERANCE: real := 0.000001

  /** A float that may be positive infinity. */
  datatype Extended = Finite(value: real) | Infinite {
    predicate Less(other: Extended) {
      Finite? && (other.Infinite? || value < other.value)
    }

    predicate AtMost(other: Extended) {
      other.Infinite? || (Finite? && value <= other.value)
    }

    function Plus(x: real): Extended {
      if Finite? then Finite(value + x) else Infinite
    }
  }

  function MaxOf(a: Extended, b: Extended): Extended {
    if a.Less(b) then b else a
  }

  function MinOf(a: Extended, b: Extended): Extended {
    if b.Less(a) then b else a
  }

  function MaxReal(a: real, b: real): real {
    if a < b then b else a
  }

  function Square(x: real): real {
    x * x
  }

  // ---------------------------------------------------------------------------
  // Splits
  // ---------------------------------------------------------------------------

  /** The sum of costs[a..b]. */
  function RangeSum(costs: seq<real>, a: nat, b: nat): real
    requires a <= b <= |costs|
  {
    if a == b then 0.0 else RangeSum(costs, a, b - 1) + costs[b - 1]
  }

  lemma {:induction false} RangeSumSplits(costs: seq<real>, a: nat, m: nat, b: nat)
    requires a <= m <= b <= |costs|
    ensures RangeSum(costs, a, m) + RangeSum(costs, m, b) == RangeSum(costs, a, b)
  {
    if m < b {
      RangeSumSplits(costs, a, m, b - 1);
    }
  }

  /** `starts` are the start indices of contiguous non-empty ranges covering [0, n). */
  ghost predicate IsSplit(starts: seq<nat>, n: nat) {
    && (starts == [] ==> n == 0)
    && (starts != [] ==> starts[0] == 0 && starts[|starts| - 1] < n)
    && forall k :: 0 < k < |starts| ==> starts[k - 1] < starts[k]
  }

  /** Where range k of a split of [0, n) ends. */
  ghost function RangeEnd(starts: seq<nat>, n: nat, k: nat): nat
    requires k < |starts|
  {
    if k + 1 < |starts| then starts[k + 1] else n
  }

  /** The largest range sum of a split, never below 0 (the value of the empty split). */
  ghost function Largest(costs: seq<real>, starts: seq<nat>, n: nat): real
    requires IsSplit(starts, n) && n <= |costs|
  {
    if starts == [] then 0.0
    else
      var last := |starts| - 1;
      MaxReal(Largest(costs, starts[..last], starts[last]), RangeSum(costs, starts[last], n))
  }

  /** The sum of the squared range sums of a split. */
  ghost function SumOfSquares(costs: seq<real>, starts: seq<nat>, n: nat): real
    requires IsSplit(starts, n) && n <= |costs|
  {
    if starts == [] then 0.0
    else
      var last := |starts| - 1;
      SumOfSquares(costs, starts[..last], starts[last]) + Square(RangeSum(costs, starts[last], n))
  }

  /** Largest bounds every range sum... */
  lemma {:induction false} LargestBounds(costs: seq<real>, starts: seq<nat>, n: nat, k: nat)
    requires IsSplit(starts, n) && n <= |costs| && k < |starts|
    ensures starts[k] < RangeEnd(starts, n, k) <= n
    ensures RangeSum(costs, starts[k], RangeEnd(starts, n, k)) <= Largest(costs, starts, n)
  {
    var last := |starts| - 1;
    if k < last {
      var shorter := starts[..last];
      LargestBounds(costs, shorter, starts[last], k);
      assert RangeEnd(starts, n, k) == RangeEnd(shorter, starts[last], k);
    }
  }

  /** ... and it is one of them, unless every range sum is negative. */
  lemma {:induction false} LargestIsARange(costs: seq<real>, starts: seq<nat>, n: nat) returns (k: nat)
    requires IsSplit(starts, n) && n <= |costs|
    ensures 0.0 <= Largest(costs, starts, n)
    ensures Largest(costs, starts, n) == 0.0 ||
            (k < |starts| && starts[k] <= RangeEnd(starts, n, k) <= n &&
             RangeSum(costs, starts[k], RangeEnd(starts, n, k)) == Largest(costs, starts, n))
  {
    k := 0;
    if starts != [] {
      var last := |starts| - 1;
      var shorter := starts[..last];
      k := LargestIsARange(costs, shorter, starts[last]);
      if k < last && starts[k] <= RangeEnd(shorter, starts[last], k) <= n {
        assert RangeEnd(starts, n, k) == RangeEnd(shorter, starts[last], k);
      }
      if Largest(costs, starts, n) == RangeSum(costs, starts[last], n) {
        k := last;
      }
    }
  }

  lemma ExtendSplit(costs: seq<real>, shorter: seq<nat>, j: nat, n: nat)
    requires IsSplit(shorter, j) && j < n <= |costs|
    ensures IsSplit(shorter + [j], n)
    ensures Largest(costs, shorter + [j], n) == MaxReal(Largest(costs, shorter, j), RangeSum(costs, j, n))
    ensures SumOfSquares(costs, shorter + [j], n) == SumOfSquares(costs, shorter, j) + Square(RangeSum(costs, j, n))
  {
    assert (shorter + [j])[..|shorter|] == shorter;
  }

  lemma {:induction false} SplitFits(starts: seq<nat>, n: nat)
    requires IsSplit(starts, n)
    ensures |starts| <= n
  {
    if starts != [] {
      SplitFits(starts[..|starts| - 1], starts[|starts| - 1]);
    }
  }

  // ---------------------------------------------------------------------------
  // First pass: the smallest largest sum
  // ---------------------------------------------------------------------------

  /** Cell (k, i) of the first table. */
  ghost function BestMax(costs: seq<real>, k: nat, i: nat): Extended
    requires i <= |costs|
    decreases k, |costs| + 1
  {
    if k == 0 then (if i == 0 then Finite(0.0) else Infinite)
    else BestMaxOver(costs, k, i, i)
  }

  /** The minimum of cell (k, i) over last cuts j with k - 1 <= j < hi. */
  ghost function BestMaxOver(costs: seq<real>, k: nat, i: nat, hi: nat): Extended
    requires 1 <= k && hi <= i <= |costs|
    decreases k, hi
  {
    if hi < k then Infinite
    else MinOf(BestMaxOver(costs, k, i, hi - 1), MaxCandidate(costs, k, i, hi - 1))
  }

  ghost function MaxCandidate(costs: seq<real>, k: nat, i: nat, j: nat): Extended
    requires 1 <= k && j <= i <= |costs|
    decreases k, 0
  {
    MaxOf(BestMax(costs, k - 1, j), Finite(RangeSum(costs, j, i)))
  }

  lemma {:induction false} BestMaxOverIsMinimum(costs: seq<real>, k: nat, i: nat, hi: nat, j: nat)
    requires 1 <= k && k - 1 <= j < hi <= i <= |costs|
    ensures BestMaxOver(costs, k, i, hi).AtMost(MaxCandidate(costs, k, i, j))
  {
    if j < hi - 1 {
      BestMaxOverIsMinimum(costs, k, i, hi - 1, j);
    }
  }

  lemma {:induction false} BestMaxOverIsAttained(costs: seq<real>, k: nat, i: nat, hi: nat) returns (j: nat)
    requires 1 <= k && hi <= i <= |costs| && BestMaxOver(costs, k, i, hi).Finite?
    ensures k - 1 <= j < hi && BestMaxOver(costs, k, i, hi) == MaxCandidate(costs, k, i, j)
  {
    if BestMaxOver(costs, k, i, hi) == MaxCandidate(costs, k, i, hi - 1) {
      j := hi - 1;
    } else {
      j := BestMaxOverIsAttained(costs, k, i, hi - 1);
    }
  }

  /** No split of the first i costs into k ranges beats cell (k, i). */
  lemma {:induction false} BestMaxIsLowerBound(costs: seq<real>, starts: seq<nat>, i: nat)
    requires IsSplit(starts, i) && i <= |costs|
    ensures BestMax(costs, |starts|, i).Finite?
    ensures BestMax(costs, |starts|, i).value <= Largest(costs, starts, i)
  {
    if starts != [] {
      var k, j := |starts|, starts[|starts| - 1];
      BestMaxIsLowerBound(costs, starts[..k - 1], j);
      SplitFits(starts[..k - 1], j);
      BestMaxOverIsMinimum(costs, k, i, i, j);
    }
  }

  /** A finite cell (k, i) is the largest sum of some split into k ranges. */
  lemma {:induction false} BestMaxIsAttained(costs: seq<real>, k: nat, i: nat) returns (starts: seq<nat>)
    requires i <= |costs| && BestMax(costs, k, i).Finite?
    ensures IsSplit(starts, i) && |starts| == k
    ensures Largest(costs, starts, i) == BestMax(costs, k, i).value
    decreases k
  {
    if k == 0 {
      starts := [];
    } else {
      var j := BestMaxOverIsAttained(costs, k, i, i);
      var shorter := BestMaxIsAttained(costs, k - 1, j);
      starts := shorter + [j];
      ExtendSplit(costs, shorter, j, i);
    }
  }

  lemma BestMaxIsFinite(costs: seq<real>, parts: nat)
    requires 1 <= parts <= |costs|
    ensures BestMax(costs, parts, |costs|).Finite?
  {
    BestMaxIsLowerBound(costs, seq(parts, k => k), |costs|);
  }

  // ---------------------------------------------------------------------------
  // Second pass: the smallest sum of squares within the bound
  // ---------------------------------------------------------------------------

  /** Cell (k, i) of the second table, with the last cut recorded for it. */
  datatype Cell = Cell(squares: Extended, choice: nat)

  ghost function BestSquares(costs: seq<real>, bound: Extended, k: nat, i: nat): (cell: Cell)
    requires i <= |costs|
    ensures cell.choice <= i
    decreases k, |costs| + 1
  {
    if k == 0 then Cell(if i == 0 then Finite(0.0) else Infinite, 0)
    else BestSquaresOver(costs, bound, k, i, i)
  }

  /** Cell (k, i) once the last cuts j with k - 1 <= j < hi have been tried in order. */
  ghost function BestSquaresOver(costs: seq<real>, bound: Extended, k: nat, i: nat, hi: nat): (cell: Cell)
    requires 1 <= k && hi <= i <= |costs|
    ensures cell.choice <= hi
    decreases k, hi
  {
    if hi < k then Cell(Infinite, 0)
    else
      var before := BestSquaresOver(costs, bound, k, i, hi - 1);
      var candidate := SquaresCandidate(costs, bound, k, i, hi - 1);
      if Finite(RangeSum(costs, hi - 1, i)).AtMost(bound) && candidate.Less(before.squares)
      then Cell(candidate, hi - 1)
      else before
  }

  ghost function SquaresCandidate(costs: seq<real>, bound: Extended, k: nat, i: nat, j: nat): Extended
    requires 1 <= k && j <= i <= |costs|
    decreases k, 0
  {
    BestSquares(costs, bound, k - 1, j).squares.Plus(Square(RangeSum(costs, j, i)))
  }

  lemma {:induction false} BestSquaresOverIsMinimum(costs: seq<real>, bound: Extended, k: nat, i: nat, hi: nat, j: nat)
    requires 1 <= k && k - 1 <= j < hi <= i <= |costs|
    requires Finite(RangeSum(costs, j, i)).AtMost(bound)
    ensures BestSquaresOver(costs, bound, k, i, hi).squares.AtMost(SquaresCandidate(costs, bound, k, i, j))
  {
    if j < hi - 1 {
      BestSquaresOverIsMinimum(costs, bound, k, i, hi - 1, j);
    }
  }

  /** A finite cell's recorded choice is a last cut that attains it. */
  lemma {:induction false} BestSquaresOverIsAttained(costs: seq<real>, bound: Extended, k: nat, i: nat, hi: nat)
    requires 1 <= k && hi <= i <= |costs|
    requires BestSquaresOver(costs, bound, k, i, hi).squares.Finite?
    ensures var cell := BestSquaresOver(costs, bound, k, i, hi);
            && k - 1 <= cell.choice < hi
            && Finite(RangeSum(costs, cell.choice, i)).AtMost(bound)
            && cell.squares == SquaresCandidate(costs, bound, k, i, cell.choice)
  {
    if BestSquaresOver(costs, bound, k, i, hi) == BestSquaresOver(costs, bound, k, i, hi - 1) {
      BestSquaresOverIsAttained(costs, bound, k, i, hi - 1);
    }
  }

  /** A finite cell (k, i) extends the finite cell its choice points to. */
  lemma ChoiceAttainsCell(costs: seq<real>, bound: Extended, k: nat, i: nat)
    requires 1 <= k && i <= |costs| && BestSquares(costs, bound, k, i).squares.Finite?
    ensures var cell := BestSquares(costs, bound, k, i);
            var previous := BestSquares(costs, bound, k - 1, cell.choice);
            && k - 1 <= cell.choice < i
            && Finite(RangeSum(costs, cell.choice, i)).AtMost(bound)
            && previous.squares.Finite?
            && cell.squares.value == previous.squares.value + Square(RangeSum(costs, cell.choice, i))
  {
    BestSquaresOverIsAttained(costs, bound, k, i, i);
  }

  /** No split within the bound beats cell (k, i). */
  lemma {:induction false} BestSquaresIsLowerBound(costs: seq<real>, bound: Extended, starts: seq<nat>, i: nat)
    requires IsSplit(starts, i) && i <= |costs|
    requires Finite(Largest(costs, starts, i)).AtMost(bound)
    ensures BestSquares(costs, bound, |starts|, i).squares.Finite?
    ensures BestSquares(costs, bound, |starts|, i).squares.value <= SumOfSquares(costs, starts, i)
  {
    if starts != [] {
      var k, j := |starts|, starts[|starts| - 1];
      BestSquaresIsLowerBound(costs, bound, starts[..k - 1], j);
      SplitFits(starts[..k - 1], j);
      BestSquaresOverIsMinimum(costs, bound, k, i, i, j);
    }
  }

  /** The back-pointer walk from cell (k, i), earliest start first. */
  ghost function Walk(costs: seq<real>, bound: Extended, k: nat, i: nat): (starts: seq<nat>)
    requires i <= |costs|
    ensures |starts| == k
    decreases k
  {
    if k == 0 then []
    else
      var j := BestSquares(costs, bound, k, i).choice;
      Walk(costs, bound, k - 1, j) + [j]
  }

  /** From a finite cell the walk recovers a split that attains that cell within the bound. */
  lemma {:induction false} WalkAttainsCell(costs: seq<real>, bound: Extended, k: nat, i: nat)
    requires i <= |costs| && BestSquares(costs, bound, k, i).squares.Finite?
    requires Finite(0.0).AtMost(bound)
    ensures var starts := Walk(costs, bound, k, i);
            && IsSplit(starts, i)
            && SumOfSquares(costs, starts, i) == BestSquares(costs, bound, k, i).squares.value
            && Finite(Largest(costs, starts, i)).AtMost(bound)
    decreases k
  {
    if k > 0 {
      ChoiceAttainsCell(costs, bound, k, i);
      var j := BestSquares(costs, bound, k, i).choice;
      WalkAttainsCell(costs, bound, k - 1, j);
      ExtendSplit(costs, Walk(costs, bound, k - 1, j), j, i);
    }
  }

  /** From a finite cell the walk never visits an unreached one: before each start, that many ranges fit. */
  lemma {:induction false} WalkVisitsReachedCells(costs: seq<real>, bound: Extended, k: nat, i: nat, t: nat)
    requires i <= |costs| && BestSquares(costs, bound, k, i).squares.Finite?
    requires t < k
    ensures var j := Walk(costs, bound, k, i)[t];
            j <= |costs| && BestSquares(costs, bound, t, j).squares.Finite?
    decreases k
  {
    ChoiceAttainsCell(costs, bound, k, i);
    if t < k - 1 {
      WalkVisitsReachedCells(costs, bound, k - 1, BestSquares(costs, bound, k, i).choice, t);
    }
  }

  /** From an unreachable cell the walk follows the zeros the table was initialised with. */
  lemma {:induction false} WalkFromUnreachedCell(costs: seq<real>, bound: Extended, k: nat, i: nat)
    requires i <= |costs| && i < k
    ensures Walk(costs, bound, k, i) == seq(k, _ => 0)
    decreases k
  {
    assert BestSquares(costs, bound, k, i).choice == 0;
    if k > 1 {
      WalkFromUnreachedCell(costs, bound, k - 1, 0);
    }
  }

  // ---------------------------------------------------------------------------
  // What the returned starts guarantee
  // ---------------------------------------------------------------------------

  ghost function Starts(costs: seq<real>, parts: nat): seq<nat> {
    Walk(costs, BestMax(costs, parts, |costs|).Plus(TOLERANCE), parts, |costs|)
  }

  /** m is the smallest largest sum over all splits into `parts` ranges. */
  ghost predicate IsSmallestLargest(costs: seq<real>, parts: nat, m: real) {
    && (exists t :: |t| == parts && IsSplit(t, |costs|) && Largest(costs, t, |costs|) == m)
    && (forall t :: |t| == parts && IsSplit(t, |costs|) ==> m <= Largest(costs, t, |costs|))
  }

  /** `starts` is a split whose largest sum is within a millionth of the smallest possible one, and
      whose sum of squares is minimal among all splits meeting that bound. */
  ghost predicate IsBalanced(costs: seq<real>, starts: seq<nat>) {
    && IsSplit(starts, |costs|)
    && exists m :: IsSmallestLargest(costs, |starts|, m) && Largest(costs, starts, |costs|) <= m + 0.000001 &&
                   SquaresMinimalWithin(costs, starts, m + 0.000001)
  }

  ghost predicate SquaresMinimalWithin(costs: seq<real>, starts: seq<nat>, bound: real)
    requires IsSplit(starts, |costs|)
  {
    forall t :: |t| == |starts| && IsSplit(t, |costs|) && Largest(costs, t, |costs|) <= bound ==>
      SumOfSquares(costs, starts, |costs|) <= SumOfSquares(costs, t, |costs|)
  }

  lemma StartsAreBalanced(costs: seq<real>, parts: nat)
    requires 1 <= parts <= |costs|
    ensures IsBalanced(costs, Starts(costs, parts))
  {
    var n := |costs|;
    BestMaxIsFinite(costs, parts);
    var m := BestMax(costs, parts, n).value;
    var bound := Finite(m + TOLERANCE);
    var best := BestMaxIsAttained(costs, parts, n);
    var _ := LargestIsARange(costs, best, n);
    BestSquaresIsLowerBound(costs, bound, best, n);
    WalkAttainsCell(costs, bound, parts, n);
    var starts := Starts(costs, parts);
    forall t | |t| == parts && IsSplit(t, n)
      ensures m <= Largest(costs, t, n)
    {
      BestMaxIsLowerBound(costs, t, n);
    }
    assert IsSmallestLargest(costs, |starts|, m);
    forall t | |t| == parts && IsSplit(t, n) && Largest(costs, t, n) <= m + TOLERANCE
      ensures SumOfSquares(costs, starts, n) <= SumOfSquares(costs, t, n)
    {
      BestSquaresIsLowerBound(costs, bound, t, n);
    }
    assert SquaresMinimalWithin(costs, starts, m + TOLERANCE);
  }

  /** The smallest largest sum is unique. */
  lemma BalancedWithin(costs: seq<real>, starts: seq<nat>, m: real)
    requires IsBalanced(costs, starts) && IsSmallestLargest(costs, |starts|, m)
    ensures m <= Largest(costs, starts, |costs|) <= m + TOLERANCE && SquaresMinimalWithin(costs, starts, m + TOLERANCE)
  {
    var x :| IsSmallestLargest(costs, |starts|, x) && Largest(costs, starts, |costs|) <= x + TOLERANCE &&
             SquaresMinimalWithin(costs, starts, x + TOLERANCE);
    var t :| |t| == |starts| && IsSplit(t, |costs|) && Largest(costs, t, |costs|) == m;
    var u :| |u| == |starts| && IsSplit(u, |costs|) && Largest(costs, u, |costs|) == x;
    assert x == m;
  }

  /** `starts` minimises the largest sum exactly, and the sum of squares among the splits that do. */
  ghost predicate IsExactlyBalanced(costs: seq<real>, starts: seq<nat>) {
    && IsSplit(starts, |costs|)
    && IsSmallestLargest(costs, |starts|, Largest(costs, starts, |costs|))
    && SquaresMinimalWithin(costs, starts, Largest(costs, starts, |costs|))
  }

  /** The tolerance is visible: here a split with largest sum 10 exists, yet the returned one exceeds it. */
  lemma ToleranceCanMissTheOptimum()
    ensures IsSmallestLargest(NEAR_MISS, 3, 10.0) && IsSplit(Starts(NEAR_MISS, 3), 5)
    ensures Largest(NEAR_MISS, Starts(NEAR_MISS, 3), 5) > 10.0
    ensures !IsExactlyBalanced(NEAR_MISS, Starts(NEAR_MISS, 3))
  {
    StartsAreBalanced(NEAR_MISS, 3);
    BalancedIsNotExact(Starts(NEAR_MISS, 3));
  }

  lemma BalancedIsNotExact(starts: seq<nat>)
    requires |starts| == 3 && IsBalanced(NEAR_MISS, starts)
    ensures IsSmallestLargest(NEAR_MISS, 3, 10.0) && Largest(NEAR_MISS, starts, 5) > 10.0
    ensures !IsExactlyBalanced(NEAR_MISS, starts)
  {
    hide Largest, SumOfSquares;
    var best, near := [0, 1, 3], [0, 2, 4];
    NearMissSmallest(best);
    BalancedWithin(NEAR_MISS, starts, 10.0);
    NearMissSplits(starts);
    NearMissSplits(best);
    NearMissSplits(near);
    assert SumOfSquares(NEAR_MISS, starts, 5) <= SumOfSquares(NEAR_MISS, near, 5);
    assert Largest(NEAR_MISS, best, 5) < Largest(NEAR_MISS, starts, 5);
  }

  lemma NearMissSmallest(best: seq<nat>)
    requires best == [0, 1, 3]
    ensures IsSmallestLargest(NEAR_MISS, 3, 10.0)
  {
    NearMissSplits(best);
    forall t | |t| == 3 && IsSplit(t, |NEAR_MISS|) ensures 10.0 <= Largest(NEAR_MISS, t, |NEAR_MISS|) {
      NearMissSplits(t);
    }
  }

  ghost const NEAR_MISS: seq<real> := [1.0, 9.0000005, 0.9999995, 5.0, 5.0]

  lemma NearMissRange(a: nat, b: nat)
    requires a <= b <= 5
    ensures var prefix := [0.0, 1.0, 10.0000005, 11.0, 16.0, 21.0];
            RangeSum(NEAR_MISS, a, b) == prefix[b] - prefix[a]
  {
    if a < b {
      NearMissRange(a, b - 1);
    }
  }

  /** Of the six splits into three, only [0, 1, 3] has largest sum 10, and [0, 2, 4] has fewer squares. */
  lemma NearMissSplits(starts: seq<nat>)
    requires |starts| == 3 && IsSplit(starts, 5)
    ensures 10.0 <= Largest(NEAR_MISS, starts, 5)
    ensures Largest(NEAR_MISS, starts, 5) == 10.0 <==> starts == [0, 1, 3]
    ensures starts == [0, 1, 3] ==> SumOfSquares(NEAR_MISS, starts, 5) > 200.0
    ensures starts == [0, 2, 4] ==> SumOfSquares(NEAR_MISS, starts, 5) < 200.0 && Largest(NEAR_MISS, starts, 5) < 10.000001
  {
    var a, b := starts[1], starts[2];
    assert starts == [0, a, b];
    SmallCase(NEAR_MISS, starts, a, b);
    NearMissRange(0, a);
    NearMissRange(a, b);
    NearMissRange(b, 5);
  }

  lemma SmallCase(costs: seq<real>, starts: seq<nat>, a: nat, b: nat)
    requires |costs| == 5 && 0 < a < b < 5 && starts == [0, a, b]
    ensures IsSplit(starts, 5)
    ensures Largest(costs, starts, 5) ==
            MaxReal(MaxReal(MaxReal(0.0, RangeSum(costs, 0, a)), RangeSum(costs, a, b)), RangeSum(costs, b, 5))
    ensures SumOfSquares(costs, starts, 5) ==
            Square(RangeSum(costs, 0, a)) + Square(RangeSum(costs, a, b)) + Square(RangeSum(costs, b, 5))
  {
    var none: seq<nat> := [];
    ExtendSplit(costs, none, 0, a);
    var one := none + [0];
    ExtendSplit(costs, one, a, b);
    var two := one + [a];
    ExtendSplit(costs, two, b, 5);
    assert starts == two + [b];
  }

  ghost function Multiple(z: int, unit: real): real {
    z as real * unit
  }

  /** Integer multiples of a unit, such as the hundredths of a millisecond the timing file records. */
  ghost function Scaled(units: seq<int>, unit: real): seq<real> {
    seq(|units|, i requires 0 <= i < |units| => Multiple(units[i], unit))
  }

  lemma {:induction false} RangeSumIsScaled(units: seq<int>, unit: real, a: nat, b: nat) returns (z: int)
    requires a <= b <= |units|
    ensures RangeSum(Scaled(units, unit), a, b) == Multiple(z, unit)
  {
    if a == b {
      z := 0;
    } else {
      var y := RangeSumIsScaled(units, unit, a, b - 1);
      z := y + units[b - 1];
    }
  }

  lemma {:induction false} LargestIsScaled(units: seq<int>, unit: real, starts: seq<nat>, n: nat) returns (z: int)
    requires IsSplit(starts, n) && n <= |units|
    ensures Largest(Scaled(units, unit), starts, n) == Multiple(z, unit)
  {
    if starts == [] {
      z := 0;
    } else {
      var last := |starts| - 1;
      var x := LargestIsScaled(units, unit, starts[..last], starts[last]);
      var y := RangeSumIsScaled(units, unit, starts[last], n);
      z := if Largest(Scaled(units, unit), starts, n) == Multiple(x, unit) then x else y;
    }
  }

  lemma GridGap(x: int, y: int, unit: real, slack: real)
    requires 0.0 <= slack < unit && Multiple(x, unit) <= Multiple(y, unit) + slack
    ensures Multiple(x, unit) <= Multiple(y, unit)
  {
    var d := x - y;
    assert d as real * unit == x as real * unit - y as real * unit;
    if d >= 1 {
      assert false;
    }
    assert d as real * unit <= 0.0;
  }

  /** When no two largest sums are apart by less than the tolerance, "balanced" is exact. */
  lemma BalancedWithoutNearMisses(costs: seq<real>, starts: seq<nat>)
    requires IsBalanced(costs, starts)
    requires forall t :: |t| == |starts| && IsSplit(t, |costs|) &&
                         Largest(costs, starts, |costs|) <= Largest(costs, t, |costs|) + TOLERANCE ==>
                           Largest(costs, starts, |costs|) <= Largest(costs, t, |costs|)
    ensures IsExactlyBalanced(costs, starts)
  {
    var m :| IsSmallestLargest(costs, |starts|, m) && Largest(costs, starts, |costs|) <= m + TOLERANCE &&
             SquaresMinimalWithin(costs, starts, m + TOLERANCE);
    var best :| |best| == |starts| && IsSplit(best, |costs|) && Largest(costs, best, |costs|) == m;
    assert Largest(costs, starts, |costs|) == m;
  }

  /** Costs that are multiples of a unit above a millionth are balanced exactly. */
  lemma StartsAreExactOnAGrid(units: seq<int>, unit: real, parts: nat)
    requires 1 <= parts <= |units| && 0.000001 < unit
    ensures IsExactlyBalanced(Scaled(units, unit), Starts(Scaled(units, unit), parts))
  {
    var costs, n := Scaled(units, unit), |units|;
    StartsAreBalanced(costs, parts);
    var starts := Starts(costs, parts);
    var x := LargestIsScaled(units, unit, starts, n);
    forall t | |t| == |starts| && IsSplit(t, n) && Largest(costs, starts, n) <= Largest(costs, t, n) + TOLERANCE
      ensures Largest(costs, starts, n) <= Largest(costs, t, n)
    {
      var y := LargestIsScaled(units, unit, t, n);
      GridGap(x, y, unit, TOLERANCE);
    }
    BalancedWithoutNearMisses(costs, starts);
  }

  /** Times in hundredths of a millisecond, as timing files record them, are balanced exactly. */
  lemma HundredthsAreBalancedExactly(units: seq<int>, parts: nat)
    requires 1 <= parts <= |units|
    ensures IsExactlyBalanced(Scaled(units, 0.01), Starts(Scaled(units, 0.01), parts))
  {
    StartsAreExactOnAGrid(units, 0.01, parts);
  }

  // ---------------------------------------------------------------------------
  // The tables, filled in place
  // ---------------------------------------------------------------------------

  method PrefixSums(costs: seq<real>) returns (prefix: array<real>)
    ensures fresh(prefix) && prefix.Length == |costs| + 1
    ensures forall i :: 0 <= i <= |costs| ==> prefix[i] == RangeSum(costs, 0, i)
  {
    prefix := new real[|costs| + 1];
    prefix[0] := 0.0;
    for i := 0 to |costs|
      invariant forall j :: 0 <= j <= i ==> prefix[j] == RangeSum(costs, 0, j)
    {
      prefix[i + 1] := prefix[i] + costs[i];
    }
  }

  ghost predicate Prefixes(prefix: array<real>, costs: seq<real>)
    reads prefix
  {
    prefix.Length == |costs| + 1 && forall i :: 0 <= i <= |costs| ==> prefix[i] == RangeSum(costs, 0, i)
  }

  /** The first table, filled row by row up to but not including cell (k, i). */
  ghost predicate MaxFilled(table: array2<Extended>, costs: seq<real>, k: nat, i: nat)
    reads table
  {
    && table.Length1 == |costs| + 1
    && forall k', i' :: 0 <= k' < table.Length0 && 0 <= i' <= |costs| ==>
         table[k', i'] == if k' < k || (k' == k && i' < i) then BestMax(costs, k', i') else Infinite
  }

  method MaxCell(costs: seq<real>, prefix: array<real>, table: array2<Extended>, k: nat, i: nat)
    returns (best: Extended)
    requires Prefixes(prefix, costs)
    requires 1 <= k < table.Length0 && k <= i <= |costs| && MaxFilled(table, costs, k, i)
    ensures best == BestMax(costs, k, i)
  {
    best := Infinite;
    for j := k - 1 to i
      invariant best == BestMaxOver(costs, k, i, j)
    {
      RangeSumSplits(costs, 0, j, i);
      best := MinOf(best, MaxOf(table[k - 1, j], Finite(prefix[i] - prefix[j])));
    }
  }

  method FillBestMax(costs: seq<real>, prefix: array<real>, parts: nat) returns (table: array2<Extended>)
    requires Prefixes(prefix, costs)
    ensures fresh(table) && table.Length0 == parts + 1 && MaxFilled(table, costs, parts + 1, 0)
  {
    var n := |costs|;
    table := new Extended[parts + 1, n + 1]((_, _) => Infinite);
    table[0, 0] := Finite(0.0);
    for k := 1 to parts + 1
      invariant MaxFilled(table, costs, k, 0)
    {
      assert forall i :: 0 <= i < k && i <= n ==> BestMax(costs, k, i) == Infinite;
      var i := k;
      while i <= n
        invariant MaxFilled(table, costs, k, i)
      {
        var best := MaxCell(costs, prefix, table, k, i);
        table[k, i] := best;
        i := i + 1;
      }
    }
  }

  /** The second tables, filled row by row up to but not including cell (k, i). */
  ghost predicate SquaresFilled(sq: array2<Extended>, choice: array2<nat>, costs: seq<real>, bound: Extended, k: nat,
                                i: nat)
    reads sq, choice
  {
    && sq.Length0 == choice.Length0 && sq.Length1 == choice.Length1 == |costs| + 1
    && forall k', i' :: 0 <= k' < sq.Length0 && 0 <= i' <= |costs| ==>
         Cell(sq[k', i'], choice[k', i']) ==
         if k' < k || (k' == k && i' < i) then BestSquares(costs, bound, k', i') else Cell(Infinite, 0)
  }

  method FillSquaresCell(costs: seq<real>, prefix: array<real>, bound: Extended,
                         sq: array2<Extended>, choice: array2<nat>, k: nat, i: nat)
    requires Prefixes(prefix, costs)
    requires SquaresFilled(sq, choice, costs, bound, k, i) && 1 <= k < sq.Length0 && k <= i <= |costs|
    modifies sq, choice
    ensures SquaresFilled(sq, choice, costs, bound, k, i + 1)
  {
    for j := k - 1 to i
      invariant Cell(sq[k, i], choice[k, i]) == BestSquaresOver(costs, bound, k, i, j)
      invariant forall k', i' :: 0 <= k' < sq.Length0 && 0 <= i' <= |costs| && (k' != k || i' != i) ==>
                  sq[k', i'] == old(sq[k', i']) && choice[k', i'] == old(choice[k', i'])
    {
      RangeSumSplits(costs, 0, j, i);
      assert Cell(sq[k - 1, j], choice[k - 1, j]) == BestSquares(costs, bound, k - 1, j);
      var s := prefix[i] - prefix[j];
      var candidate := sq[k - 1, j].Plus(Square(s));
      if Finite(s).AtMost(bound) && candidate.Less(sq[k, i]) {
        sq[k, i] := candidate;
        choice[k, i] := j;
      }
    }
  }

  method FillBestSquares(costs: seq<real>, prefix: array<real>, parts: nat, bound: Extended)
    returns (sq: array2<Extended>, choice: array2<nat>)
    requires Prefixes(prefix, costs)
    ensures fresh(sq) && fresh(choice) && sq.Length0 == parts + 1
    ensures SquaresFilled(sq, choice, costs, bound, parts + 1, 0)
  {
    var n := |costs|;
    sq := new Extended[parts + 1, n + 1]((_, _) => Infinite);
    choice := new nat[parts + 1, n + 1]((_, _) => 0);
    sq[0, 0] := Finite(0.0);
    for k := 1 to parts + 1
      invariant SquaresFilled(sq, choice, costs, bound, k, 0)
    {
      assert forall i :: 0 <= i < k && i <= n ==> BestSquares(costs, bound, k, i) == Cell(Infinite, 0);
      var i := k;
      while i <= n
        invariant SquaresFilled(sq, choice, costs, bound, k, i)
      {
        FillSquaresCell(costs, prefix, bound, sq, choice, k, i);
        i := i + 1;
      }
    }
  }

  /** The whole computation.  Its result is a split exactly when `parts` ranges can be non-empty. */
  method Compute(costs: seq<real>, parts: nat) returns (starts: seq<nat>)
    ensures starts == Starts(costs, parts)
    ensures |starts| == parts
    ensures IsSplit(starts, |costs|) <==> (parts <= |costs| && (parts == 0 ==> |costs| == 0))
    ensures 1 <= parts <= |costs| ==> IsBalanced(costs, starts)
  {
    hide IsBalanced;
    var n := |costs|;
    var prefix := PrefixSums(costs);
    var bestMax := FillBestMax(costs, prefix, parts);
    var bound := bestMax[parts, n].Plus(TOLERANCE);
    var sq, choice := FillBestSquares(costs, prefix, parts, bound);

    starts := [];
    var i, k := n, parts;
    while k > 0
      invariant 0 <= k <= parts && 0 <= i <= n
      invariant Walk(costs, bound, parts, n) == Walk(costs, bound, k, i) + starts
    {
      i := choice[k, i];
      starts := [i] + starts;
      k := k - 1;
    }
    if 1 <= parts <= n {
      StartsAreBalanced(costs, parts);
    } else if parts > n {
      WalkFromUnreachedCell(costs, bound, parts, n);
      if IsSplit(starts, n) { SplitFits(starts, n); }
    }
  }
}
