/** Graham's bound cannot be lowered: for every number of workers there are tasks on which the greedy phase attains it.
 */
module LptTightness {
  import opened LptScheduler

  /** The duration of task i for m workers: 2m - 1 and every number down to m, each twice, and m once more. */
  function Length(m: nat, i: nat): int {
    if i == 2 * m then m else 2 * m - 1 - i / 2
  }

  function Timing(length: int): Task {
    Task("t", length as real, 0)
  }

  function Tight(m: nat): (tasks: seq<Task>)
    ensures |tasks| == 2 * m + 1
  {
    seq(2 * m + 1, (i: nat) => Timing(Length(m, i)))
  }

  // ---------------------------------------------------------------------------
  // The greedy run
  // ---------------------------------------------------------------------------

  predicate IsOdd(r: nat) {
    r > 0 && !IsOdd(r - 1)
  }

  lemma {:induction false} OddHasRemainder(r: nat)
    ensures IsOdd(r) <==> r % 2 == 1
  {
    if r > 0 {
      OddHasRemainder(r - 1);
    }
  }

  /** Of the queues with a single task, r are left, and this is one of them. */
  predicate IsOpen(m: nat, r: nat, q: nat) {
    1 <= r && (q < r - 1 || q == if IsOdd(r) && r < m then r else r - 1)
  }

  /** The total of queue q after n tasks: at first one task each, then the queues are filled up to 3m - 1. */
  function Load(m: nat, n: nat, q: nat): int
    requires n <= 2 * m
  {
    if n <= m then if q < n then Length(m, q) else 0
    else if IsOpen(m, 2 * m - n, q) then Length(m, q)
    else 3 * m - 1
  }

  /** The queue that gets task n. */
  function Choice(m: nat, n: nat): nat
    requires n < 2 * m
  {
    var r := 2 * m - n;
    if n < m then n else if !IsOdd(r) then assert !IsOdd(0) && IsOdd(1); r - 2 else if r == m then r - 1 else r
  }

  /** Task n goes to the first least loaded queue. */
  lemma ChoiceIsFirstLeast(m: nat, n: nat)
    requires n < 2 * m
    ensures Choice(m, n) < m
    ensures forall q :: 0 <= q < m ==> Load(m, n, Choice(m, n)) <= Load(m, n, q)
    ensures forall q :: 0 <= q < Choice(m, n) ==> Load(m, n, Choice(m, n)) < Load(m, n, q)
  {
    var c := Choice(m, n);
    OddHasRemainder(2 * m - n);
    forall q | 0 <= q < m ensures Load(m, n, c) <= Load(m, n, q) && (q < c ==> Load(m, n, c) < Load(m, n, q)) {
    }
  }

  /** And changes the loads accordingly. */
  lemma LoadStep(m: nat, n: nat, q: nat)
    requires n < 2 * m && q < m
    ensures Load(m, n + 1, q) == Load(m, n, q) + if q == Choice(m, n) then Length(m, n) else 0
  {
    if m <= n {
      hide Length;
      OneLessOpen(m, n, q);
      FilledUp(m, n);
    }
  }

  lemma OneLessOpen(m: nat, n: nat, q: nat)
    requires m <= n < 2 * m && q < m
    ensures IsOpen(m, 2 * m - n, q) <==> IsOpen(m, 2 * m - n - 1, q) || q == Choice(m, n)
    ensures IsOpen(m, 2 * m - n - 1, q) ==> q != Choice(m, n)
    ensures n == m ==> IsOpen(m, 2 * m - n, q)
  {
  }

  /** Tasks n and 2m - 1 - n, or one as long as that, take 3m - 1 together. */
  lemma FilledUp(m: nat, n: nat)
    requires m <= n < 2 * m
    ensures Length(m, n) + Length(m, Choice(m, n)) == 3 * m - 1
  {
    var r := 2 * m - n;
    var h := (r - 1) / 2;
    OddHasRemainder(r);
    HalfIs(n, m - h - 1);
    HalfIs(Choice(m, n), h);
  }

  lemma HalfIs(x: int, h: int)
    requires x == 2 * h || x == 2 * h + 1
    ensures x / 2 == h
  {
  }

  /** A greedy step, when the first least loaded queue is known. */
  lemma GreedyStepTo(tasks: seq<Task>, n: nat, m: nat, c: nat)
    requires n < |tasks| && c < m
    requires forall q :: 0 <= q < m ==> Total(Lpt(tasks[..n], m)[c]) <= Total(Lpt(tasks[..n], m)[q])
    requires forall q :: 0 <= q < c ==> Total(Lpt(tasks[..n], m)[c]) < Total(Lpt(tasks[..n], m)[q])
    ensures Lpt(tasks[..n + 1], m) == Place(Lpt(tasks[..n], m), c, tasks[n])
    ensures forall q :: 0 <= q < m ==>
              Total(Lpt(tasks[..n + 1], m)[q]) == Total(Lpt(tasks[..n], m)[q]) + if q == c then tasks[n].duration else 0.0
  {
    hide Total;
    var before := Lpt(tasks[..n], m);
    assert tasks[..n + 1][..n] == tasks[..n];
    assert forall q :: 0 <= q < m ==> Totals(before)[q] == Total(before[q]);
    assert FirstMin(Totals(before)) == c;
    TotalOfOneMore(before[c], tasks[n]);
  }

  lemma {:induction false} LoadsOfGreedyRun(m: nat, n: nat)
    requires 1 <= m && n <= 2 * m
    ensures forall q :: 0 <= q < m ==> Total(Lpt(Tight(m)[..n], m)[q]) == Load(m, n, q) as real
  {
    hide Length, Load, Choice, Total;
    if n == 0 {
      forall q | 0 <= q < m ensures Total(Lpt(Tight(m)[..n], m)[q]) == Load(m, n, q) as real {
        NothingLoaded(m, q);
      }
    } else {
      LoadsOfGreedyRun(m, n - 1);
      ChoiceIsFirstLeast(m, n - 1);
      GreedyStepTo(Tight(m), n - 1, m, Choice(m, n - 1));
      forall q | 0 <= q < m ensures Total(Lpt(Tight(m)[..n], m)[q]) == Load(m, n, q) as real {
        LoadStep(m, n - 1, q);
      }
    }
  }

  lemma NothingLoaded(m: nat, q: nat)
    requires 1 <= m && q < m
    ensures Load(m, 0, q) == 0 && Total([]) == 0.0
  {
  }

  /** In the end all queues are at 3m - 1, and the last task of length m comes on top of one. */
  lemma SlowestOfGreedyRun(m: nat)
    requires 1 <= m
    ensures Slowest(Lpt(Tight(m), m)) == (4 * m - 1) as real
  {
    hide Total, Lpt;
    var n := 2 * m;
    LoadsOfGreedyRun(m, n);
    GreedyStepTo(Tight(m), n, m, 0);
    assert Tight(m)[..n + 1] == Tight(m);
  }

  // ---------------------------------------------------------------------------
  // A better distribution
  // ---------------------------------------------------------------------------

  /** Pairs of tasks that take 3m together, and the three shortest tasks. */
  function Even(m: nat): (queues: seq<seq<Task>>)
    requires 1 <= m
    ensures |queues| == m
  {
    seq(m - 1, k => [Timing(2 * m - 1 - k), Timing(m + 1 + k)]) + [[Timing(m), Timing(m), Timing(m)]]
  }

  lemma SlowestOfEven(m: nat)
    requires 1 <= m
    ensures Slowest(Even(m)) == (3 * m) as real
  {
    hide Total;
    forall q | 0 <= q < m ensures Total(Even(m)[q]) == (3 * m) as real {
      if q < m - 1 {
        TotalOfPair(Timing(2 * m - 1 - q), Timing(m + 1 + q));
      } else {
        TotalOfPair(Timing(m), Timing(m));
        TotalOfOneMore([Timing(m), Timing(m)], Timing(m));
        assert [Timing(m), Timing(m)] + [Timing(m)] == Even(m)[q];
      }
    }
  }

  lemma TotalOfPair(a: Task, b: Task)
    ensures Total([a, b]) == a.duration + b.duration
  {
    TotalOfOneMore([], a);
    TotalOfOneMore([a], b);
    assert [] + [a] == [a] && [a] + [b] == [a, b];
  }

  /** One task each of the lengths from lo up to hi. */
  function Span(lo: int, hi: int): seq<Task>
    decreases hi - lo
  {
    if hi <= lo then [] else Span(lo, hi - 1) + [Timing(hi - 1)]
  }

  lemma NoSpan(lo: int)
    ensures Span(lo, lo) == []
  {
  }

  lemma SpanFromAbove(lo: int, hi: int)
    requires lo < hi
    ensures multiset(Span(lo, hi)) == multiset{Timing(hi - 1)} + multiset(Span(lo, hi - 1))
  {
  }

  lemma {:induction false} SpanFromBelow(lo: int, hi: int)
    requires lo < hi
    ensures multiset(Span(lo, hi)) == multiset{Timing(lo)} + multiset(Span(lo + 1, hi))
    decreases hi - lo
  {
    hide Span, Timing;
    SpanFromAbove(lo, hi);
    if lo == hi - 1 {
      NoSpan(lo);
      NoSpan(hi);
    } else {
      SpanFromBelow(lo, hi - 1);
      SpanFromAbove(lo + 1, hi);
    }
  }

  lemma {:induction false} TightIsTwoSpans(m: nat, k: nat)
    requires k < m
    ensures multiset(Tight(m)[..2 * k]) == multiset(Span(2 * m - k, 2 * m)) + multiset(Span(2 * m - k, 2 * m))
  {
    hide Timing, Tight, Span;
    if k == 0 {
      NoSpan(2 * m);
    } else {
      TightIsTwoSpans(m, k - 1);
      var lo := 2 * m - k;
      SpanFromBelow(lo, 2 * m);
      NextTwo(m, k);
      AddTwo(Tight(m)[..2 * (k - 1)], Tight(m)[..2 * k], Span(lo + 1, 2 * m), Span(lo + 1, 2 * m), Timing(lo), Timing(lo),
             Span(lo, 2 * m), Span(lo, 2 * m));
    }
  }

  lemma AddTwo(front: seq<Task>, longer: seq<Task>, a: seq<Task>, b: seq<Task>, x: Task, y: Task, c: seq<Task>, d: seq<Task>)
    requires multiset(front) == multiset(a) + multiset(b) && longer == front + [x, y]
    requires multiset(c) == multiset{x} + multiset(a) && multiset(d) == multiset{y} + multiset(b)
    ensures multiset(longer) == multiset(c) + multiset(d)
  {
  }

  lemma NextTwo(m: nat, k: nat)
    requires 0 < k < m
    ensures Tight(m)[..2 * k] == Tight(m)[..2 * (k - 1)] + [Timing(2 * m - k), Timing(2 * m - k)]
  {
    var front := Tight(m)[..2 * (k - 1)];
    assert Length(m, 2 * k - 2) == 2 * m - k && Length(m, 2 * k - 1) == 2 * m - k;
    assert Tight(m)[2 * k - 2] == Timing(2 * m - k) && Tight(m)[2 * k - 1] == Timing(2 * m - k);
  }

  lemma {:induction false} EvenIsTwoSpans(m: nat, k: nat)
    requires k < m
    ensures multiset(Flatten(Even(m)[..k])) == multiset(Span(2 * m - k, 2 * m)) + multiset(Span(m + 1, m + 1 + k))
  {
    hide Timing, Even, Span, Flatten;
    if k == 0 {
      NoQueues(Even(m)[..0]);
      NoSpan(2 * m);
      NoSpan(m + 1);
    } else {
      EvenIsTwoSpans(m, k - 1);
      var lo, hi := 2 * m - k, m + k;
      SpanFromBelow(lo, 2 * m);
      SpanFromAbove(m + 1, hi + 1);
      NextPair(m, k);
      AddTwo(Flatten(Even(m)[..k - 1]), Flatten(Even(m)[..k]), Span(lo + 1, 2 * m), Span(m + 1, hi), Timing(lo), Timing(hi),
             Span(lo, 2 * m), Span(m + 1, hi + 1));
    }
  }

  lemma NoQueues(queues: seq<seq<Task>>)
    requires queues == []
    ensures Flatten(queues) == []
  {
  }

  lemma NextPair(m: nat, k: nat)
    requires 0 < k < m
    ensures Flatten(Even(m)[..k]) == Flatten(Even(m)[..k - 1]) + [Timing(2 * m - k), Timing(m + k)]
  {
    hide Timing;
    assert Even(m)[..k][..k - 1] == Even(m)[..k - 1];
    assert Even(m)[k - 1] == [Timing(2 * m - 1 - (k - 1)), Timing(m + 1 + (k - 1))];
  }

  lemma EvenDistributes(m: nat)
    requires 1 <= m
    ensures Distributes(Even(m), Tight(m), [])
  {
    hide Timing, Span, Flatten, Tight, Even;
    TightIsTwoSpans(m, m - 1);
    EvenIsTwoSpans(m, m - 1);
    LastThree(m);
    SameThreeMore(Tight(m)[..2 * (m - 1)], Flatten(Even(m)[..m - 1]), Timing(m));
  }

  lemma SameThreeMore(a: seq<Task>, b: seq<Task>, t: Task)
    requires multiset(a) == multiset(b)
    ensures multiset(a + [t, t, t]) == multiset(b + [t, t, t])
  {
  }

  lemma LastThree(m: nat)
    requires 1 <= m
    ensures Tight(m) == Tight(m)[..2 * (m - 1)] + [Timing(m), Timing(m), Timing(m)]
    ensures Flatten(Even(m)) == Flatten(Even(m)[..m - 1]) + [Timing(m), Timing(m), Timing(m)]
  {
    assert Length(m, 2 * m - 2) == m && Length(m, 2 * m - 1) == m && Length(m, 2 * m) == m;
    assert |Even(m)| == m && Even(m)[m - 1] == [Timing(m), Timing(m), Timing(m)];
  }

  lemma TightIsDescending(m: nat)
    requires 1 <= m
    ensures Descending(Tight(m)) && Positive(Tight(m))
  {
    forall i, j | 0 <= i < j < 2 * m + 1 ensures Length(m, i) >= Length(m, j) {
    }
    forall i | 0 <= i < 2 * m + 1 ensures Length(m, i) >= 1 {
    }
  }

  /** For every m the greedy run on these 2m + 1 tasks takes exactly 4/3 - 1/(3m) times as long as another distribution. */
  lemma GrahamBoundIsAttained(m: nat)
    requires 1 <= m
    ensures Descending(Tight(m)) && Positive(Tight(m)) && |Even(m)| == m && Distributes(Even(m), Tight(m), [])
    ensures 3.0 * (m as real * Slowest(Lpt(Tight(m), m))) == 4.0 * (m as real * Slowest(Even(m))) - Slowest(Even(m))
  {
    hide Tight, Distributes, Slowest, Lpt, Descending, Positive;
    TightIsDescending(m);
    EvenDistributes(m);
    SlowestOfGreedyRun(m);
    SlowestOfEven(m);
    BoundAsProduct(m as real);
  }

  lemma BoundAsProduct(x: real)
    ensures 3.0 * (x * (4.0 * x - 1.0)) == 4.0 * (x * (3.0 * x)) - 3.0 * x
  {
    assert x * (4.0 * x - 1.0) == 4.0 * (x * x) - x;
    assert x * (3.0 * x) == 3.0 * (x * x);
  }
}
