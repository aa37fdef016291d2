/** Distribution of test tasks over worker queues: timed tasks by longest processing time first, then
    untimed tasks round-robin from the least loaded queue.

    The main result is Graham's bound: the slowest queue takes at most 4/3 - 1/(3m) times as long as the
    slowest queue of any other distribution of the same tasks over m workers.
 */
module LptScheduler {

  datatype Task = Task(spec: string, duration: real, group: nat)

  // ---------------------------------------------------------------------------
  // Sums over tasks
  // ---------------------------------------------------------------------------

  ghost function Sum(f: Task -> real, tasks: seq<Task>): real {
    if tasks == [] then 0.0 else Sum(f, tasks[..|tasks| - 1]) + f(tasks[|tasks| - 1])
  }

  lemma SumOfOneMore(f: Task -> real, tasks: seq<Task>, t: Task)
    ensures Sum(f, tasks + [t]) == Sum(f, tasks) + f(t)
  {
    assert (tasks + [t])[..|tasks|] == tasks;
  }

  lemma {:induction false} SumOfConcatenation(f: Task -> real, a: seq<Task>, b: seq<Task>)
    ensures Sum(f, a + b) == Sum(f, a) + Sum(f, b)
    decreases |b|
  {
    if b == [] {
      assert a + b == a;
    } else {
      var front, t := b[..|b| - 1], b[|b| - 1];
      SumOfConcatenation(f, a, front);
      SumOfOneMore(f, a + front, t);
      assert a + b == (a + front) + [t];
    }
  }

  lemma CancelOne(a: multiset<Task>, b: multiset<Task>, t: Task)
    requires a + multiset{t} == b + multiset{t}
    ensures a == b
  {
    assert a == (a + multiset{t}) - multiset{t};
    assert b == (b + multiset{t}) - multiset{t};
  }

  /** A sum depends only on which tasks there are. */
  lemma {:induction false} SumOfPermutation(f: Task -> real, a: seq<Task>, b: seq<Task>)
    requires multiset(a) == multiset(b)
    ensures Sum(f, a) == Sum(f, b)
    decreases |a|
  {
    if a == [] {
      assert |multiset(b)| == |b| == 0;
    } else {
      var front, t := a[..|a| - 1], a[|a| - 1];
      assert a == front + [t];
      assert t in multiset(b);
      var k :| 0 <= k < |b| && b[k] == t;
      var left, right := b[..k], b[k + 1..];
      assert b == left + [t] + right;
      CancelOne(multiset(front), multiset(left + right), t);
      SumOfPermutation(f, front, left + right);
      SumOfConcatenation(f, left + [t], right);
      SumOfOneMore(f, left, t);
      SumOfConcatenation(f, left, right);
    }
  }

  ghost function Flatten(queues: seq<seq<Task>>): seq<Task> {
    if queues == [] then [] else Flatten(queues[..|queues| - 1]) + queues[|queues| - 1]
  }

  /** n times x, without the solver's multiplication. */
  ghost function Times(n: nat, x: real): real {
    if n == 0 then 0.0 else Times(n - 1, x) + x
  }

  lemma {:induction false} TimesIsProduct(n: nat, x: real)
    ensures Times(n, x) == n as real * x
  {
    if n > 0 {
      TimesIsProduct(n - 1, x);
      assert n as real * x == (n - 1) as real * x + x;
    }
  }

  /** Sums over all queues add up: m queues of at least x each hold at least m * x... */
  lemma {:induction false} SumOverQueuesAtLeast(f: Task -> real, queues: seq<seq<Task>>, low: real)
    requires forall q :: 0 <= q < |queues| ==> low <= Sum(f, queues[q])
    ensures Times(|queues|, low) <= Sum(f, Flatten(queues))
    decreases |queues|
  {
    if queues != [] {
      var last := |queues| - 1;
      SumOverQueuesAtLeast(f, queues[..last], low);
      SumOfConcatenation(f, Flatten(queues[..last]), queues[last]);
    }
  }

  /** ... and m queues of at most x each hold at most m * x. */
  lemma {:induction false} SumOverQueuesAtMost(f: Task -> real, queues: seq<seq<Task>>, high: real)
    requires forall q :: 0 <= q < |queues| ==> Sum(f, queues[q]) <= high
    ensures Sum(f, Flatten(queues)) <= Times(|queues|, high)
    decreases |queues|
  {
    if queues != [] {
      var last := |queues| - 1;
      SumOverQueuesAtMost(f, queues[..last], high);
      SumOfConcatenation(f, Flatten(queues[..last]), queues[last]);
    }
  }

  const DURATION: Task -> real := (t: Task) => t.duration

  ghost function Total(queue: seq<Task>): real {
    Sum(DURATION, queue)
  }

  lemma TotalOfOneMore(queue: seq<Task>, t: Task)
    ensures Total(queue + [t]) == Total(queue) + t.duration
  {
    SumOfOneMore(DURATION, queue, t);
  }

  /** The total of the slowest queue. */
  ghost function Slowest(queues: seq<seq<Task>>): (r: real)
    requires queues != []
    ensures forall q :: 0 <= q < |queues| ==> Total(queues[q]) <= r
    ensures exists q :: 0 <= q < |queues| && Total(queues[q]) == r
  {
    var last := |queues| - 1;
    if last == 0 then Total(queues[0])
    else
      var r := Slowest(queues[..last]);
      assert forall q :: 0 <= q < last ==> queues[..last][q] == queues[q];
      if r < Total(queues[last]) then Total(queues[last]) else r
  }

  lemma {:induction false} TotalIsNonNegative(queue: seq<Task>)
    requires forall i :: 0 <= i < |queue| ==> queue[i].duration >= 0.0
    ensures Total(queue) >= 0.0
    ensures forall i :: 0 <= i < |queue| ==> queue[i].duration <= Total(queue)
    decreases |queue|
  {
    if queue != [] {
      TotalIsNonNegative(queue[..|queue| - 1]);
    }
  }

  // ---------------------------------------------------------------------------
  // The greedy phase
  // ---------------------------------------------------------------------------

  /** The index of the first smallest element. */
  function FirstMin(totals: seq<real>): (r: nat)
    requires totals != []
    ensures r < |totals|
    ensures forall q :: 0 <= q < |totals| ==> totals[r] <= totals[q]
    ensures forall q :: 0 <= q < r ==> totals[r] < totals[q]
  {
    var last := |totals| - 1;
    if last == 0 then 0
    else
      var r := FirstMin(totals[..last]);
      if totals[last] < totals[r] then last else r
  }

  ghost function Totals(queues: seq<seq<Task>>): seq<real> {
    seq(|queues|, q requires 0 <= q < |queues| => Total(queues[q]))
  }

  function Place(queues: seq<seq<Task>>, q: nat, t: Task): seq<seq<Task>>
    requires q < |queues|
  {
    queues[q := queues[q] + [t]]
  }

  /** The queues after each task in turn went to the first least loaded queue. */
  ghost function Lpt(tasks: seq<Task>, m: nat): (queues: seq<seq<Task>>)
    requires 1 <= m
    ensures |queues| == m
  {
    if tasks == [] then seq(m, _ => [])
    else
      var before := Lpt(tasks[..|tasks| - 1], m);
      Place(before, FirstMin(Totals(before)), tasks[|tasks| - 1])
  }

  lemma {:induction false} PlaceAddsOneTask(queues: seq<seq<Task>>, q: nat, t: Task)
    requires q < |queues|
    ensures multiset(Flatten(Place(queues, q, t))) == multiset(Flatten(queues)) + multiset{t}
    decreases |queues|
  {
    var last := |queues| - 1;
    if q < last {
      PlaceAddsOneTask(queues[..last], q, t);
      assert Place(queues, q, t)[..last] == Place(queues[..last], q, t);
    } else {
      assert Place(queues, q, t)[..last] == queues[..last];
    }
  }

  lemma {:induction false} EmptyQueuesAreEmpty(m: nat)
    ensures Flatten(seq(m, _ => [])) == []
  {
    if m > 0 {
      var empty: seq<seq<Task>> := seq(m, _ => []);
      EmptyQueuesAreEmpty(m - 1);
      assert empty[..m - 1] == seq(m - 1, _ => []);
    }
  }

  lemma {:induction false} LptKeepsTasks(tasks: seq<Task>, m: nat)
    requires 1 <= m
    ensures multiset(Flatten(Lpt(tasks, m))) == multiset(tasks)
    decreases |tasks|
  {
    if tasks == [] {
      EmptyQueuesAreEmpty(m);
    } else {
      var front, t := tasks[..|tasks| - 1], tasks[|tasks| - 1];
      LptKeepsTasks(front, m);
      assert multiset(tasks) == multiset(front) + multiset{t} by { assert tasks == front + [t]; }
      PlaceAddsOneTask(Lpt(front, m), FirstMin(Totals(Lpt(front, m))), t);
    }
  }

  /** When the last task of a queue was placed, that queue was least loaded. */
  lemma {:induction false} LastPlacement(tasks: seq<Task>, m: nat, q: nat) returns (n: nat)
    requires 1 <= m && q < m && Lpt(tasks, m)[q] != []
    ensures n < |tasks|
    ensures Lpt(tasks, m)[q] == Lpt(tasks[..n], m)[q] + [tasks[n]]
    ensures forall p :: 0 <= p < m ==> Total(Lpt(tasks[..n], m)[q]) <= Total(Lpt(tasks[..n], m)[p])
    decreases |tasks|
  {
    var last := |tasks| - 1;
    var before := Lpt(tasks[..last], m);
    var chosen := FirstMin(Totals(before));
    if chosen == q {
      n := last;
      forall p | 0 <= p < m ensures Total(before[q]) <= Total(before[p]) {
        assert Totals(before)[q] <= Totals(before)[p];
      }
    } else {
      n := LastPlacement(tasks[..last], m, q);
      assert tasks[..last][..n] == tasks[..n];
    }
  }

  // ---------------------------------------------------------------------------
  // Graham's bound
  // ---------------------------------------------------------------------------

  /** A task counts 0 if shorter than d, 2 if no task of length d fits beside it within opt, and 1 otherwise. */
  ghost function Weight(d: real, opt: real): Task -> real {
    (t: Task) => if t.duration < d then 0.0 else if t.duration > opt - d then 2.0 else 1.0
  }

  /** When three tasks of length d exceed opt, a queue heavier than 2 exceeds opt as well. */
  lemma {:induction false} HeavyQueuesAreSlow(queue: seq<Task>, d: real, opt: real)
    requires opt < 3.0 * d && 0.0 < d
    requires forall i :: 0 <= i < |queue| ==> queue[i].duration >= 0.0
    ensures var weight := Sum(Weight(d, opt), queue);
            && (weight > 0.0 ==> Total(queue) >= d)
            && (weight > 1.0 ==> Total(queue) > opt - d)
            && (weight > 2.0 ==> Total(queue) > opt)
            && 0.0 <= weight
    decreases |queue|
  {
    if queue != [] {
      var front := queue[..|queue| - 1];
      HeavyQueuesAreSlow(front, d, opt);
      TotalIsNonNegative(front);
    }
  }

  lemma {:induction false} WeightOfLongTasks(queue: seq<Task>, d: real, opt: real)
    requires forall i :: 0 <= i < |queue| ==> queue[i].duration >= d
    ensures Sum(Weight(d, opt), queue) >= |queue| as real
    decreases |queue|
  {
    if queue != [] {
      WeightOfLongTasks(queue[..|queue| - 1], d, opt);
    }
  }

  /** A queue of long tasks that no further one fits into weighs at least 2. */
  lemma FullQueuesAreHeavy(queue: seq<Task>, d: real, opt: real)
    requires forall i :: 0 <= i < |queue| ==> queue[i].duration >= d
    requires 0.0 <= opt - d < Total(queue)
    ensures Sum(Weight(d, opt), queue) >= 2.0
  {
    WeightOfLongTasks(queue, d, opt);
    if |queue| == 1 {
      assert queue[..0] == [];
    }
  }

  ghost predicate Descending(tasks: seq<Task>) {
    forall i, j :: 0 <= i < j < |tasks| ==> tasks[i].duration >= tasks[j].duration
  }

  ghost predicate Positive(tasks: seq<Task>) {
    forall i :: 0 <= i < |tasks| ==> tasks[i].duration > 0.0
  }

  /** The other distribution holds the timed tasks and any number of tasks of duration 0. */
  ghost predicate Distributes(other: seq<seq<Task>>, timed: seq<Task>, untimed: seq<Task>) {
    && multiset(Flatten(other)) == multiset(timed) + multiset(untimed)
    && forall i :: 0 <= i < |untimed| ==> untimed[i].duration == 0.0
  }

  lemma {:induction false} SumOfNothing(f: Task -> real, tasks: seq<Task>)
    requires forall i :: 0 <= i < |tasks| ==> f(tasks[i]) == 0.0
    ensures Sum(f, tasks) == 0.0
    decreases |tasks|
  {
    if tasks != [] {
      SumOfNothing(f, tasks[..|tasks| - 1]);
    }
  }

  /** A sum that ignores untimed tasks can be taken over the timed tasks or over the other distribution. */
  lemma SumOfDistribution(f: Task -> real, other: seq<seq<Task>>, timed: seq<Task>, untimed: seq<Task>)
    requires Distributes(other, timed, untimed)
    requires forall i :: 0 <= i < |untimed| ==> f(untimed[i]) == 0.0
    ensures Sum(f, Flatten(other)) == Sum(f, timed)
  {
    SumOfPermutation(f, Flatten(other), timed + untimed);
    SumOfConcatenation(f, timed, untimed);
    SumOfNothing(f, untimed);
  }

  lemma {:induction false} SumIsMonotone(f: Task -> real, tasks: seq<Task>, n: nat)
    requires n <= |tasks| && forall i :: 0 <= i < |tasks| ==> f(tasks[i]) >= 0.0
    ensures Sum(f, tasks[..n]) <= Sum(f, tasks)
    decreases |tasks|
  {
    if n == |tasks| {
      assert tasks[..n] == tasks;
    } else {
      SumIsMonotone(f, tasks[..|tasks| - 1], n);
      assert tasks[..|tasks| - 1][..n] == tasks[..n];
    }
  }

  lemma SumExceedsPrefix(f: Task -> real, tasks: seq<Task>, n: nat)
    requires n < |tasks| && forall i :: 0 <= i < |tasks| ==> f(tasks[i]) >= 0.0
    ensures Sum(f, tasks[..n]) + f(tasks[n]) <= Sum(f, tasks)
  {
    SumOfOneMore(f, tasks[..n], tasks[n]);
    assert tasks[..n] + [tasks[n]] == tasks[..n + 1];
    SumIsMonotone(f, tasks, n + 1);
  }

  /** Every task of the other distribution sits in one of its queues. */
  lemma {:induction false} TaskIsInSomeQueue(queues: seq<seq<Task>>, t: Task) returns (q: nat)
    requires t in Flatten(queues)
    ensures q < |queues| && t in queues[q]
    decreases |queues|
  {
    var last := |queues| - 1;
    if t in queues[last] {
      q := last;
    } else {
      q := TaskIsInSomeQueue(queues[..last], t);
    }
  }

  lemma {:induction false} QueuesHoldOnly(queues: seq<seq<Task>>, q: nat, t: Task)
    requires q < |queues| && t in queues[q]
    ensures t in Flatten(queues)
    decreases |queues|
  {
    var last := |queues| - 1;
    if q < last {
      QueuesHoldOnly(queues[..last], q, t);
    }
  }

  lemma DistributionIsNonNegative(other: seq<seq<Task>>, timed: seq<Task>, untimed: seq<Task>, q: nat)
    requires Distributes(other, timed, untimed) && Positive(timed) && q < |other|
    ensures forall i :: 0 <= i < |other[q]| ==> other[q][i].duration >= 0.0
  {
    forall i | 0 <= i < |other[q]| ensures other[q][i].duration >= 0.0 {
      QueuesHoldOnly(other, q, other[q][i]);
      assert other[q][i] in multiset(Flatten(other));
    }
  }

  /** The averaging argument: the task placed last on a queue found it at most averagely loaded. */
  lemma AverageBound(before: seq<seq<Task>>, q: nat, tasks: seq<Task>, n: nat,
                     other: seq<seq<Task>>, untimed: seq<Task>, opt: real)
    requires n < |tasks| && Positive(tasks) && Distributes(other, tasks, untimed)
    requires multiset(Flatten(before)) == multiset(tasks[..n])
    requires q < |before| == |other|
    requires forall p :: 0 <= p < |before| ==> Total(before[q]) <= Total(before[p])
    requires forall p :: 0 <= p < |other| ==> Total(other[p]) <= opt
    ensures Times(|before|, Total(before[q])) + tasks[n].duration <= Times(|before|, opt)
  {
    SumOverQueuesAtLeast(DURATION, before, Total(before[q]));
    SumOfPermutation(DURATION, Flatten(before), tasks[..n]);
    SumExceedsPrefix(DURATION, tasks, n);
    SumOfDistribution(DURATION, other, tasks, untimed);
    SumOverQueuesAtMost(DURATION, other, opt);
  }

  lemma LongestTaskFits(other: seq<seq<Task>>, tasks: seq<Task>, n: nat, untimed: seq<Task>, opt: real)
    requires n < |tasks| && Positive(tasks) && Distributes(other, tasks, untimed)
    requires forall p :: 0 <= p < |other| ==> Total(other[p]) <= opt
    ensures tasks[n].duration <= opt
  {
    assert tasks[n] in multiset(Flatten(other));
    var p := TaskIsInSomeQueue(other, tasks[n]);
    DistributionIsNonNegative(other, tasks, untimed, p);
    TotalIsNonNegative(other[p]);
  }

  /** In the other distribution every queue weighs at most 2. */
  lemma WeightOfDistribution(other: seq<seq<Task>>, tasks: seq<Task>, d: real, untimed: seq<Task>, opt: real)
    requires Positive(tasks) && Distributes(other, tasks, untimed) && 0.0 < d && opt < 3.0 * d
    requires forall p :: 0 <= p < |other| ==> Total(other[p]) <= opt
    ensures Sum(Weight(d, opt), tasks) <= Times(|other|, 2.0)
  {
    var w := Weight(d, opt);
    forall p | 0 <= p < |other| ensures Sum(w, other[p]) <= 2.0 {
      DistributionIsNonNegative(other, tasks, untimed, p);
      HeavyQueuesAreSlow(other[p], d, opt);
    }
    SumOverQueuesAtMost(w, other, 2.0);
    SumOfDistribution(w, other, tasks, untimed);
  }

  lemma PlacedTasksAreLonger(before: seq<seq<Task>>, p: nat, tasks: seq<Task>, n: nat)
    requires n < |tasks| && Descending(tasks)
    requires p < |before| && multiset(Flatten(before)) == multiset(tasks[..n])
    ensures forall i :: 0 <= i < |before[p]| ==> before[p][i].duration >= tasks[n].duration
  {
    forall i | 0 <= i < |before[p]| ensures before[p][i].duration >= tasks[n].duration {
      QueuesHoldOnly(before, p, before[p][i]);
      assert before[p][i] in multiset(tasks[..n]);
    }
  }

  /** If every queue is too full for task n, all of them weigh at least 2 already. */
  lemma WeightOfPrefix(before: seq<seq<Task>>, tasks: seq<Task>, n: nat, opt: real)
    requires n < |tasks| && Descending(tasks) && multiset(Flatten(before)) == multiset(tasks[..n])
    requires forall p :: 0 <= p < |before| ==> 0.0 <= opt - tasks[n].duration < Total(before[p])
    ensures Times(|before|, 2.0) + 1.0 <= Sum(Weight(tasks[n].duration, opt), tasks)
  {
    var d := tasks[n].duration;
    var w := Weight(d, opt);
    forall p | 0 <= p < |before| ensures 2.0 <= Sum(w, before[p]) {
      PlacedTasksAreLonger(before, p, tasks, n);
      FullQueuesAreHeavy(before[p], d, opt);
    }
    SumOverQueuesAtLeast(w, before, 2.0);
    SumOfPermutation(w, Flatten(before), tasks[..n]);
    SumExceedsPrefix(w, tasks, n);
  }

  /** The counting argument: if three tasks as long as the last one exceed opt, the queue stays within opt. */
  lemma CountingBound(before: seq<seq<Task>>, q: nat, tasks: seq<Task>, n: nat,
                      other: seq<seq<Task>>, untimed: seq<Task>, opt: real)
    requires n < |tasks| && Descending(tasks) && Positive(tasks) && Distributes(other, tasks, untimed)
    requires multiset(Flatten(before)) == multiset(tasks[..n])
    requires q < |before| == |other|
    requires forall p :: 0 <= p < |before| ==> Total(before[q]) <= Total(before[p])
    requires forall p :: 0 <= p < |other| ==> Total(other[p]) <= opt
    requires opt < 3.0 * tasks[n].duration
    ensures Total(before[q]) + tasks[n].duration <= opt
  {
    if Total(before[q]) + tasks[n].duration > opt {
      LongestTaskFits(other, tasks, n, untimed, opt);
      WeightOfDistribution(other, tasks, tasks[n].duration, untimed, opt);
      WeightOfPrefix(before, tasks, n, opt);
      assert false;
    }
  }

  /** total <= (4/3 - 1/(3m)) * opt, multiplied out. */
  ghost predicate WithinGraham(m: nat, total: real, opt: real) {
    3.0 * (m as real * total) <= 4.0 * (m as real * opt) - opt
  }

  lemma {:induction false} TimesIsLinear(n: nat, a: real, b: real)
    ensures Times(n, a + b) == Times(n, a) + Times(n, b)
    ensures a <= b ==> Times(n, a) <= Times(n, b)
  {
    if n > 0 {
      TimesIsLinear(n - 1, a, b);
    }
  }

  lemma GrahamArithmetic(m: nat, load: real, d: real, opt: real)
    requires 1 <= m && 0.0 <= opt
    requires Times(m, load) + d <= Times(m, opt)
    requires opt < 3.0 * d ==> load + d <= opt
    ensures 3.0 * Times(m, load + d) <= 4.0 * Times(m, opt) - opt
  {
    TimesIsLinear(m, load, d);
    TimesIsLinear(m - 1, 0.0, opt);
    TimesIsLinear(m, load + d, opt);
    TimesIsLinear(m - 1, d, d);
    TimesIsLinear(m - 1, d, d + d);
    TimesIsLinear(m - 1, d + (d + d), opt);
    assert Times(m - 1, 0.0) == 0.0 by { TimesIsProduct(m - 1, 0.0); }
  }

  lemma GrahamProduct(m: nat, total: real, opt: real)
    requires 3.0 * Times(m, total) <= 4.0 * Times(m, opt) - opt
    ensures WithinGraham(m, total, opt)
  {
    TimesIsProduct(m, total);
    TimesIsProduct(m, opt);
  }

  lemma IdleQueueIsWithinGraham(m: nat, opt: real)
    requires 1 <= m && 0.0 <= opt
    ensures WithinGraham(m, 0.0, opt)
  {
    TimesIsLinear(m - 1, 0.0, opt);
    TimesIsProduct(m, opt);
    TimesIsProduct(m - 1, 0.0);
  }

  /** Graham's bound: no queue takes more than 4/3 - 1/(3m) times the slowest queue of any other distribution. */
  lemma GrahamBound(tasks: seq<Task>, m: nat, other: seq<seq<Task>>, untimed: seq<Task>, q: nat)
    requires 1 <= m == |other| && q < m
    requires Descending(tasks) && Positive(tasks) && Distributes(other, tasks, untimed)
    ensures WithinGraham(m, Total(Lpt(tasks, m)[q]), Slowest(other))
  {
    var opt := Slowest(other);
    DistributionIsNonNegative(other, tasks, untimed, 0);
    TotalIsNonNegative(other[0]);
    if Lpt(tasks, m)[q] == [] {
      IdleQueueIsWithinGraham(m, opt);
    } else {
      var n := LastPlacement(tasks, m, q);
      LptKeepsTasks(tasks[..n], m);
      GrahamBoundForPlacement(Lpt(tasks[..n], m), q, tasks, n, other, untimed, opt);
    }
  }

  lemma GrahamBoundForPlacement(before: seq<seq<Task>>, q: nat, tasks: seq<Task>, n: nat,
                                other: seq<seq<Task>>, untimed: seq<Task>, opt: real)
    requires n < |tasks| && Descending(tasks) && Positive(tasks) && Distributes(other, tasks, untimed)
    requires multiset(Flatten(before)) == multiset(tasks[..n])
    requires q < |before| == |other| && 0.0 <= opt
    requires forall p :: 0 <= p < |before| ==> Total(before[q]) <= Total(before[p])
    requires forall p :: 0 <= p < |other| ==> Total(other[p]) <= opt
    ensures WithinGraham(|before|, Total(before[q] + [tasks[n]]), opt)
  {
    hide Total, Flatten, WithinGraham, Times;
    AverageBound(before, q, tasks, n, other, untimed, opt);
    if opt < 3.0 * tasks[n].duration {
      CountingBound(before, q, tasks, n, other, untimed, opt);
    }
    TotalOfOneMore(before[q], tasks[n]);
    GrahamArithmetic(|before|, Total(before[q]), tasks[n].duration, opt);
    GrahamProduct(|before|, Total(before[q] + [tasks[n]]), opt);
  }

  // ---------------------------------------------------------------------------
  // The round-robin phase
  // ---------------------------------------------------------------------------

  /** The queues after the untimed tasks went round-robin, starting at queue `start`. */
  ghost function RoundRobin(queues: seq<seq<Task>>, start: nat, untimed: seq<Task>): (dealt: seq<seq<Task>>)
    requires start < |queues|
    ensures |dealt| == |queues|
  {
    if untimed == [] then queues
    else
      var last := |untimed| - 1;
      Place(RoundRobin(queues, start, untimed[..last]), Target(|queues|, start, last), untimed[last])
  }

  /** The queue after q, going round. */
  ghost function Next(m: nat, q: nat): (r: nat)
    requires q < m
    ensures r < m
  {
    if q + 1 == m then 0 else q + 1
  }

  /** The queue that is k places after `start`, going round. */
  ghost function Target(m: nat, start: nat, k: nat): (r: nat)
    requires start < m
    ensures r < m
  {
    if k == 0 then start else Next(m, Target(m, start, k - 1))
  }

  lemma {:induction false} Multiples(m: nat, a: int, b: int)
    requires a < b
    ensures a * m + m <= b * m
    decreases b - a
  {
    assert b * m == (b - 1) * m + m;
    if a < b - 1 {
      Multiples(m, a, b - 1);
    }
  }

  lemma QuotientIsUnique(m: nat, a: int, r: nat, b: int, s: nat)
    requires r < m && s < m && a * m + r == b * m + s
    ensures r == s
  {
    if a < b {
      Multiples(m, a, b);
    } else if b < a {
      Multiples(m, b, a);
    }
  }

  lemma NextIsModulo(m: nat, x: nat)
    requires 1 <= m
    ensures (x + 1) % m == Next(m, x % m)
  {
    var a, b := x / m, (x + 1) / m;
    if x % m + 1 == m {
      assert a * m + m == (a + 1) * m;
      QuotientIsUnique(m, a + 1, 0, b, (x + 1) % m);
    } else {
      QuotientIsUnique(m, a, x % m + 1, b, (x + 1) % m);
    }
  }

  lemma {:induction false} TargetIsModulo(m: nat, start: nat, k: nat)
    requires start < m
    ensures Target(m, start, k) == (start + k) % m
  {
    if k > 0 {
      TargetIsModulo(m, start, k - 1);
      NextIsModulo(m, start + k - 1);
    }
  }

  /** Every queue keeps its timed tasks in front, and its total. */
  lemma {:induction false} RoundRobinExtends(queues: seq<seq<Task>>, start: nat, untimed: seq<Task>, q: nat)
    requires start < |queues| && q < |queues|
    requires forall i :: 0 <= i < |untimed| ==> untimed[i].duration == 0.0
    ensures queues[q] <= RoundRobin(queues, start, untimed)[q]
    ensures Total(RoundRobin(queues, start, untimed)[q]) == Total(queues[q])
    decreases |untimed|
  {
    if untimed != [] {
      var last := |untimed| - 1;
      RoundRobinExtends(queues, start, untimed[..last], q);
      SumOfOneMore(DURATION, RoundRobin(queues, start, untimed[..last])[q], untimed[last]);
    }
  }

  lemma {:induction false} RoundRobinKeepsTasks(queues: seq<seq<Task>>, start: nat, untimed: seq<Task>)
    requires start < |queues|
    ensures multiset(Flatten(RoundRobin(queues, start, untimed))) == multiset(Flatten(queues)) + multiset(untimed)
    decreases |untimed|
  {
    if untimed != [] {
      var last := |untimed| - 1;
      RoundRobinKeepsTasks(queues, start, untimed[..last]);
      PlaceAddsOneTask(RoundRobin(queues, start, untimed[..last]), Target(|queues|, start, last), untimed[last]);
      assert untimed == untimed[..last] + [untimed[last]];
    }
  }

  /** Going round: from `start` up to but not including `next`, wrapping at the end. */
  ghost predicate Between(start: nat, next: nat, q: nat) {
    if start <= next then start <= q < next else start <= q || q < next
  }

  /** Each queue received `level` untimed tasks, and one more between `start` and the next queue. */
  lemma {:induction false} RoundRobinIsEven(queues: seq<seq<Task>>, start: nat, untimed: seq<Task>) returns (level: nat)
    requires start < |queues|
    ensures var m := |queues|;
            forall q :: 0 <= q < m ==>
              |RoundRobin(queues, start, untimed)[q]| ==
              |queues[q]| + level + if Between(start, Target(m, start, |untimed|), q) then 1 else 0
    decreases |untimed|
  {
    var m := |queues|;
    if untimed == [] {
      level := 0;
    } else {
      var last := |untimed| - 1;
      level := RoundRobinIsEven(queues, start, untimed[..last]);
      if Target(m, start, |untimed|) == start {
        level := level + 1;
      }
    }
  }

  /** The k-th untimed task opens or joins queue start + k, modulo the number of queues. */
  lemma {:induction false} RoundRobinReaches(queues: seq<seq<Task>>, start: nat, untimed: seq<Task>, k: nat)
    requires start < |queues| && k < |untimed|
    ensures untimed[k] in RoundRobin(queues, start, untimed)[Target(|queues|, start, k)]
    decreases |untimed|
  {
    var last := |untimed| - 1;
    if k < last {
      RoundRobinReaches(queues, start, untimed[..last], k);
    }
  }

  // ---------------------------------------------------------------------------
  // No worker is left idle
  // ---------------------------------------------------------------------------

  lemma TotalIsPositive(queue: seq<Task>)
    requires queue != [] && Positive(queue)
    ensures Total(queue) > 0.0
  {
    TotalIsNonNegative(queue);
    assert queue[0].duration > 0.0;
  }

  /** Positive tasks fill the queues in order: after n tasks exactly the first n queues are in use. */
  lemma {:induction false} LptFillsInOrder(tasks: seq<Task>, m: nat)
    requires 1 <= m && Positive(tasks)
    ensures forall q :: 0 <= q < m ==> (Lpt(tasks, m)[q] != [] <==> q < |tasks|)
    ensures forall q :: 0 <= q < m ==> Positive(Lpt(tasks, m)[q])
    decreases |tasks|
  {
    hide Total, FirstMin;
    if tasks != [] {
      var last := |tasks| - 1;
      var before := Lpt(tasks[..last], m);
      LptFillsInOrder(tasks[..last], m);
      if last < m {
        FirstEmptyIsFirstMin(before, last);
      }
      var q := FirstMin(Totals(before));
      assert Lpt(tasks, m) == before[q := before[q] + [tasks[last]]];
    }
  }

  /** If exactly the first n queues are in use, the first least loaded one is queue n. */
  lemma FirstEmptyIsFirstMin(queues: seq<seq<Task>>, n: nat)
    requires n < |queues|
    requires forall q :: 0 <= q < |queues| ==> (queues[q] != [] <==> q < n)
    requires forall q :: 0 <= q < |queues| ==> Positive(queues[q])
    ensures FirstMin(Totals(queues)) == n
  {
    var totals := Totals(queues);
    forall q | 0 <= q < n ensures totals[q] > 0.0 {
      TotalIsPositive(queues[q]);
    }
    assert forall q :: n <= q < |queues| ==> totals[q] == 0.0;
    var r := FirstMin(totals);
    assert totals[r] <= totals[n];
  }

  /** With at least as many tasks as workers, every queue gets one. */
  lemma NoQueueIsEmpty(timed: seq<Task>, untimed: seq<Task>, m: nat, q: nat)
    requires 1 <= m <= |timed| + |untimed| && q < m && Positive(timed)
    requires forall i :: 0 <= i < |untimed| ==> untimed[i].duration == 0.0
    ensures Deal(timed, untimed, m)[q] != []
  {
    var greedy := Lpt(timed, m);
    LptFillsInOrder(timed, m);
    var start := FirstMin(Totals(greedy));
    RoundRobinExtends(greedy, start, untimed, q);
    if |timed| <= q {
      FirstEmptyIsFirstMin(greedy, |timed|);
      TargetBeforeWrapping(m, start, q - start);
      RoundRobinReaches(greedy, start, untimed, q - start);
    }
  }

  lemma {:induction false} TargetBeforeWrapping(m: nat, start: nat, k: nat)
    requires start + k < m
    ensures Target(m, start, k) == start + k
  {
    if k > 0 {
      TargetBeforeWrapping(m, start, k - 1);
    }
  }

  // ---------------------------------------------------------------------------
  // The distribution
  // ---------------------------------------------------------------------------

  /** Both phases. */
  ghost function Deal(timed: seq<Task>, untimed: seq<Task>, m: nat): (queues: seq<seq<Task>>)
    requires 1 <= m
    ensures |queues| == m
  {
    var greedy := Lpt(timed, m);
    RoundRobin(greedy, FirstMin(Totals(greedy)), untimed)
  }

  /** The number of the first n tasks that are picked. */
  ghost function Count(tasks: seq<Task>, picks: Task -> bool, n: nat): nat
    requires n <= |tasks|
  {
    if n == 0 then 0 else Count(tasks, picks, n - 1) + if picks(tasks[n - 1]) then 1 else 0
  }

  /** The selected tasks are the ones picked, in input order. */
  ghost predicate IsSelection(selected: seq<Task>, tasks: seq<Task>, picks: Task -> bool) {
    && |selected| == Count(tasks, picks, |tasks|)
    && forall i :: 0 <= i < |tasks| && picks(tasks[i]) ==>
         Count(tasks, picks, i) < |selected| && selected[Count(tasks, picks, i)] == tasks[i]
  }

  lemma {:induction false} CountOfFront(tasks: seq<Task>, picks: Task -> bool, n: nat)
    requires n < |tasks|
    ensures Count(tasks[..|tasks| - 1], picks, n) == Count(tasks, picks, n)
  {
    if n > 0 {
      CountOfFront(tasks, picks, n - 1);
    }
  }

  lemma OneMoreSelected(selected: seq<Task>, tasks: seq<Task>, picks: Task -> bool)
    requires tasks != [] && IsSelection(selected, tasks[..|tasks| - 1], picks)
    ensures IsSelection(if picks(tasks[|tasks| - 1]) then selected + [tasks[|tasks| - 1]] else selected, tasks, picks)
  {
    var last := |tasks| - 1;
    forall n | 0 <= n <= last ensures Count(tasks[..last], picks, n) == Count(tasks, picks, n) {
      CountOfFront(tasks, picks, n);
    }
  }

  ghost const TIMED: Task -> bool := (t: Task) => t.duration > 0.0
  ghost const UNTIMED: Task -> bool := (t: Task) => t.duration == 0.0

  /** The tasks with a timing, and those without one, in input order. */
  lemma {:induction false} FiltersKeepOrder(tasks: seq<Task>)
    ensures IsSelection(Timed(tasks), tasks, TIMED) && IsSelection(Untimed(tasks), tasks, UNTIMED)
    decreases |tasks|
  {
    if tasks != [] {
      var front := tasks[..|tasks| - 1];
      FiltersKeepOrder(front);
      OneMoreSelected(Timed(front), tasks, TIMED);
      OneMoreSelected(Untimed(front), tasks, UNTIMED);
    }
  }

  function Timed(tasks: seq<Task>): (r: seq<Task>)
    ensures Positive(r)
  {
    if tasks == [] then []
    else
      var front, t := Timed(tasks[..|tasks| - 1]), tasks[|tasks| - 1];
      if t.duration > 0.0 then front + [t] else front
  }

  function Untimed(tasks: seq<Task>): (r: seq<Task>)
    ensures forall i :: 0 <= i < |r| ==> r[i].duration == 0.0
  {
    if tasks == [] then []
    else
      var front, t := Untimed(tasks[..|tasks| - 1]), tasks[|tasks| - 1];
      if t.duration == 0.0 then front + [t] else front
  }

  ghost predicate NonNegative(tasks: seq<Task>) {
    forall i :: 0 <= i < |tasks| ==> tasks[i].duration >= 0.0
  }

  /** Tasks of negative duration are in neither list. */
  lemma {:induction false} FiltersDropNegative(tasks: seq<Task>)
    ensures |Timed(tasks)| + |Untimed(tasks)| <= |tasks|
    ensures |Timed(tasks)| + |Untimed(tasks)| == |tasks| <==> NonNegative(tasks)
    decreases |tasks|
  {
    if tasks != [] {
      FiltersDropNegative(tasks[..|tasks| - 1]);
    }
  }

  lemma {:induction false} FiltersKeepNonNegative(tasks: seq<Task>)
    requires NonNegative(tasks)
    ensures multiset(Timed(tasks)) + multiset(Untimed(tasks)) == multiset(tasks)
    decreases |tasks|
  {
    if tasks != [] {
      var front, t := tasks[..|tasks| - 1], tasks[|tasks| - 1];
      FiltersKeepNonNegative(front);
      assert tasks == front + [t];
    }
  }

  /** Puts a task behind all tasks that are at least as long. */
  function Insert(sorted: seq<Task>, t: Task): (r: seq<Task>)
    requires Descending(sorted)
    ensures Descending(r) && multiset(r) == multiset(sorted) + multiset{t}
    ensures forall i :: 0 <= i < |r| ==> r[i] == t || r[i] in sorted
  {
    var last := |sorted| - 1;
    if sorted == [] || sorted[last].duration >= t.duration then sorted + [t]
    else
      var r := Insert(sorted[..last], t);
      PutBack(sorted[..last], sorted[last], t, r);
      assert sorted == sorted[..last] + [sorted[last]];
      r + [sorted[last]]
  }

  lemma PutBack(front: seq<Task>, x: Task, t: Task, r: seq<Task>)
    requires Descending(r) && multiset(r) == multiset(front) + multiset{t}
    requires Descending(front + [x]) && x.duration < t.duration && forall i :: 0 <= i < |r| ==> r[i] == t || r[i] in front
    ensures Descending(r + [x]) && multiset(r + [x]) == multiset(front + [x]) + multiset{t}
  {
    forall i | 0 <= i < |r| ensures r[i].duration >= x.duration {
      if r[i] != t {
        var k :| 0 <= k < |front| && front[k] == r[i];
        assert (front + [x])[k].duration >= (front + [x])[|front|].duration;
      }
    }
  }

  /** The stable descending sort. */
  function SortDescending(tasks: seq<Task>): (r: seq<Task>)
    ensures Descending(r) && multiset(r) == multiset(tasks)
  {
    if tasks == [] then []
    else
      assert tasks == tasks[..|tasks| - 1] + [tasks[|tasks| - 1]];
      Insert(SortDescending(tasks[..|tasks| - 1]), tasks[|tasks| - 1])
  }

  /** The tasks that last d, in order. */
  ghost function Lasting(tasks: seq<Task>, d: real): seq<Task> {
    if tasks == [] then []
    else
      var front, t := Lasting(tasks[..|tasks| - 1], d), tasks[|tasks| - 1];
      if t.duration == d then front + [t] else front
  }

  lemma LastingOneMore(tasks: seq<Task>, t: Task, d: real)
    ensures Lasting(tasks + [t], d) == if t.duration == d then Lasting(tasks, d) + [t] else Lasting(tasks, d)
  {
    assert (tasks + [t])[..|tasks|] == tasks;
  }

  lemma {:induction false} InsertIsStable(sorted: seq<Task>, t: Task, d: real)
    requires Descending(sorted)
    ensures Lasting(Insert(sorted, t), d) == Lasting(sorted + [t], d)
    decreases |sorted|
  {
    LastingOneMore(sorted, t, d);
    var last := |sorted| - 1;
    if sorted != [] && sorted[last].duration < t.duration {
      var front := sorted[..last];
      InsertIsStable(front, t, d);
      LastingOneMore(Insert(front, t), sorted[last], d);
      LastingOneMore(front, t, d);
    }
  }

  /** Tasks that last equally long stay in input order. */
  lemma {:induction false} SortIsStable(tasks: seq<Task>, d: real)
    ensures Lasting(SortDescending(tasks), d) == Lasting(tasks, d)
    decreases |tasks|
  {
    if tasks != [] {
      var front, t := tasks[..|tasks| - 1], tasks[|tasks| - 1];
      SortIsStable(front, d);
      InsertIsStable(SortDescending(front), t, d);
      LastingOneMore(SortDescending(front), t, d);
    }
  }

  /** Every task goes behind what the first least loaded queue holds so far, and stays there. */
  lemma {:induction false} TimedTaskIsAt(tasks: seq<Task>, m: nat, n: nat)
    requires 1 <= m && n < |tasks|
    ensures var before := Lpt(tasks[..n], m);
            var q := FirstMin(Totals(before));
            |before[q]| < |Lpt(tasks, m)[q]| && Lpt(tasks, m)[q][|before[q]|] == tasks[n]
    decreases |tasks|
  {
    hide Total, FirstMin;
    var last := |tasks| - 1;
    if n < last {
      TimedTaskIsAt(tasks[..last], m, n);
      assert tasks[..last][..n] == tasks[..n];
    }
  }

  /** How many of the first k tasks that are dealt go to queue q. */
  ghost function DealtTo(m: nat, start: nat, k: nat, q: nat): nat
    requires start < m
  {
    if k == 0 then 0 else DealtTo(m, start, k - 1, q) + if Target(m, start, k - 1) == q then 1 else 0
  }

  lemma {:induction false} QueueAfterDealing(queues: seq<seq<Task>>, start: nat, untimed: seq<Task>, q: nat)
    requires start < |queues| && q < |queues|
    ensures |RoundRobin(queues, start, untimed)[q]| == |queues[q]| + DealtTo(|queues|, start, |untimed|, q)
    decreases |untimed|
  {
    if untimed != [] {
      QueueAfterDealing(queues, start, untimed[..|untimed| - 1], q);
    }
  }

  /** The task was dealt as the k-th one from queue `start` on, behind those that were dealt to the same queue before. */
  ghost predicate IsDealt(queues: seq<seq<Task>>, start: nat, result: seq<seq<Task>>, k: nat, t: Task)
    requires start < |queues| == |result|
  {
    var q := Target(|queues|, start, k);
    var p := |queues[q]| + DealtTo(|queues|, start, k, q);
    p < |result[q]| && result[q][p] == t
  }

  lemma {:induction false} DealtTaskIsAt(queues: seq<seq<Task>>, start: nat, untimed: seq<Task>, k: nat)
    requires start < |queues| && k < |untimed|
    ensures IsDealt(queues, start, RoundRobin(queues, start, untimed), k, untimed[k])
    decreases |untimed|
  {
    hide DealtTo, Target;
    var last := |untimed| - 1;
    if k < last {
      DealtTaskIsAt(queues, start, untimed[..last], k);
    } else {
      QueueAfterDealing(queues, start, untimed[..last], Target(|queues|, start, k));
    }
  }

  /** The untimed tasks of the input are dealt in input order, from the first least loaded queue on. */
  lemma UntimedTaskIsAt(tasks: seq<Task>, m: nat, i: nat)
    requires 1 <= m && i < |tasks| && tasks[i].duration == 0.0
    ensures var timed := SortDescending(Timed(tasks));
            var greedy := Lpt(timed, m);
            IsDealt(greedy, FirstMin(Totals(greedy)), Deal(timed, Untimed(tasks), m), Count(tasks, UNTIMED, i), tasks[i])
  {
    hide Lpt, Timed, Untimed, SortDescending, RoundRobin, IsDealt, Count;
    var greedy := Lpt(SortDescending(Timed(tasks)), m);
    FiltersKeepOrder(tasks);
    DealtTaskIsAt(greedy, FirstMin(Totals(greedy)), Untimed(tasks), Count(tasks, UNTIMED, i));
  }

  lemma TotalsAfterPlacing(queues: seq<seq<Task>>, q: nat, t: Task)
    requires q < |queues|
    ensures Totals(Place(queues, q, t)) == Totals(queues)[q := Totals(queues)[q] + t.duration]
  {
    SumOfOneMore(DURATION, queues[q], t);
  }

  method GreedyStep(queues: array<seq<Task>>, totals: array<real>, t: Task)
    requires queues.Length == totals.Length >= 1 && totals[..] == Totals(queues[..])
    modifies queues, totals
    ensures queues[..] == Place(old(queues[..]), FirstMin(Totals(old(queues[..]))), t)
    ensures totals[..] == Totals(queues[..])
  {
    ghost var before := queues[..];
    var q := FirstMin(totals[..]);
    TotalsAfterPlacing(before, q, t);
    queues[q] := queues[q] + [t];
    totals[q] := totals[q] + t.duration;
    assert queues[..] == Place(before, q, t);
  }

  /** The timed tasks, in order, each to the first least loaded queue. */
  method GreedyPhase(queues: array<seq<Task>>, totals: array<real>, timed: seq<Task>)
    requires queues.Length == totals.Length >= 1
    requires queues[..] == Lpt([], queues.Length) && totals[..] == Totals(queues[..])
    modifies queues, totals
    ensures queues[..] == Lpt(timed, queues.Length)
    ensures totals[..] == Totals(queues[..])
  {
    for n := 0 to |timed|
      invariant queues[..] == Lpt(timed[..n], queues.Length)
      invariant totals[..] == Totals(queues[..])
    {
      GreedyStep(queues, totals, timed[n]);
      assert timed[..n + 1][..n] == timed[..n];
    }
    assert timed[..|timed|] == timed;
  }

  /** The untimed tasks, round-robin from queue `start`. */
  method RoundRobinPhase(queues: array<seq<Task>>, start: nat, untimed: seq<Task>)
    requires start < queues.Length
    modifies queues
    ensures queues[..] == RoundRobin(old(queues[..]), start, untimed)
  {
    ghost var greedy := queues[..];
    for offset := 0 to |untimed|
      invariant queues[..] == RoundRobin(greedy, start, untimed[..offset])
    {
      ghost var before := queues[..];
      var q := (start + offset) % queues.Length;
      TargetIsModulo(queues.Length, start, offset);
      queues[q] := queues[q] + [untimed[offset]];
      assert queues[..] == Place(before, q, untimed[offset]);
      assert untimed[..offset + 1][..offset] == untimed[..offset];
    }
    assert untimed[..|untimed|] == untimed;
  }

  /** Distributes the tasks over m queues. */
  method PartitionTasks(tasks: seq<Task>, m: nat) returns (result: seq<seq<Task>>)
    requires 1 <= m
    ensures result == Deal(SortDescending(Timed(tasks)), Untimed(tasks), m)
    ensures multiset(Flatten(result)) == multiset(tasks) <==> NonNegative(tasks)
    ensures NonNegative(tasks) && m <= |tasks| ==> forall q :: 0 <= q < m ==> result[q] != []
    ensures |result| == m && forall i :: 0 <= i < |tasks| && tasks[i].duration == 0.0 ==>
              var greedy := Lpt(SortDescending(Timed(tasks)), m);
              IsDealt(greedy, FirstMin(Totals(greedy)), result, Count(tasks, UNTIMED, i), tasks[i])
  {
    var queues := new seq<Task>[m](_ => []);
    var totals := new real[m](_ => 0.0);
    var timed, untimed := SortDescending(Timed(tasks)), Untimed(tasks);
    assert queues[..] == seq(m, _ => []);
    GreedyPhase(queues, totals, timed);
    if untimed != [] {
      var start := FirstMin(totals[..]);
      RoundRobinPhase(queues, start, untimed);
    }
    result := queues[..];
    DistributionIsComplete(tasks, m);
    forall i | 0 <= i < |tasks| && tasks[i].duration == 0.0
      ensures IsDealt(Lpt(timed, m), FirstMin(Totals(Lpt(timed, m))), result, Count(tasks, UNTIMED, i), tasks[i])
    {
      UntimedTaskIsAt(tasks, m, i);
    }
    if NonNegative(tasks) && m <= |tasks| {
      forall q | 0 <= q < m ensures result[q] != [] {
        DistributionLeavesNoWorkerIdle(tasks, m, q);
      }
    }
  }

  /** What the distribution of a run guarantees about the tasks it was given. */
  lemma DistributionIsComplete(tasks: seq<Task>, m: nat)
    requires 1 <= m
    ensures var queues := Deal(SortDescending(Timed(tasks)), Untimed(tasks), m);
            multiset(Flatten(queues)) == multiset(tasks) <==> NonNegative(tasks)
  {
    var timed, untimed := SortDescending(Timed(tasks)), Untimed(tasks);
    var greedy := Lpt(timed, m);
    LptKeepsTasks(timed, m);
    RoundRobinKeepsTasks(greedy, FirstMin(Totals(greedy)), untimed);
    FiltersDropNegative(tasks);
    if NonNegative(tasks) {
      FiltersKeepNonNegative(tasks);
    } else {
      assert |multiset(timed) + multiset(untimed)| == |multiset(Timed(tasks))| + |untimed|;
    }
  }

  lemma SortKeepsPositive(tasks: seq<Task>)
    requires Positive(tasks)
    ensures Positive(SortDescending(tasks))
  {
    var sorted := SortDescending(tasks);
    forall i | 0 <= i < |sorted| ensures sorted[i].duration > 0.0 {
      assert sorted[i] in multiset(tasks);
    }
  }

  /** Whatever else the same tasks could be distributed as, the slowest queue is within Graham's factor of it. */
  lemma DistributionIsNearOptimal(tasks: seq<Task>, m: nat, other: seq<seq<Task>>)
    requires 1 <= m == |other| && NonNegative(tasks) && multiset(Flatten(other)) == multiset(tasks)
    ensures var queues := Deal(SortDescending(Timed(tasks)), Untimed(tasks), m);
            WithinGraham(m, Slowest(queues), Slowest(other))
  {
    var timed, untimed := SortDescending(Timed(tasks)), Untimed(tasks);
    var queues := Deal(timed, untimed, m);
    var greedy := Lpt(timed, m);
    var q :| 0 <= q < m && Total(queues[q]) == Slowest(queues);
    RoundRobinExtends(greedy, FirstMin(Totals(greedy)), untimed, q);
    FiltersKeepNonNegative(tasks);
    SortKeepsPositive(Timed(tasks));
    GrahamBound(timed, m, other, untimed, q);
  }

  /** Never more workers than tasks: then every worker has something to run. */
  lemma DistributionLeavesNoWorkerIdle(tasks: seq<Task>, m: nat, q: nat)
    requires 1 <= m <= |tasks| && q < m && NonNegative(tasks)
    ensures Deal(SortDescending(Timed(tasks)), Untimed(tasks), m)[q] != []
  {
    var sorted := SortDescending(Timed(tasks));
    SortKeepsPositive(Timed(tasks));
    FiltersDropNegative(tasks);
    assert |multiset(sorted)| == |multiset(Timed(tasks))|;
    NoQueueIsEmpty(sorted, Untimed(tasks), m, q);
  }

  /** The untimed tasks of any two queues differ by at most one. */
  lemma UntimedAreSpreadEvenly(tasks: seq<Task>, m: nat, p: nat, q: nat)
    requires 1 <= m && p < m && q < m
    ensures var queues := Deal(SortDescending(Timed(tasks)), Untimed(tasks), m);
            |Untimed(queues[p])| <= |Untimed(queues[q])| + 1
  {
    var timed, untimed := SortDescending(Timed(tasks)), Untimed(tasks);
    var greedy := Lpt(timed, m);
    var start := FirstMin(Totals(greedy));
    var level := RoundRobinIsEven(greedy, start, untimed);
    SortKeepsPositive(Timed(tasks));
    LptFillsInOrder(timed, m);
    UntimedBehindTimed(greedy, start, untimed, p);
    UntimedBehindTimed(greedy, start, untimed, q);
  }

  /** The untimed tasks of a queue are the ones dealt in the second phase. */
  lemma {:induction false} UntimedBehindTimed(queues: seq<seq<Task>>, start: nat, untimed: seq<Task>, q: nat)
    requires start < |queues| && q < |queues| && Positive(queues[q])
    requires forall i :: 0 <= i < |untimed| ==> untimed[i].duration == 0.0
    ensures |RoundRobin(queues, start, untimed)[q]| == |queues[q]| + |Untimed(RoundRobin(queues, start, untimed)[q])|
    decreases |untimed|
  {
    if untimed == [] {
      PositiveAreNotUntimed(queues[q]);
    } else {
      var last := |untimed| - 1;
      var before := RoundRobin(queues, start, untimed[..last])[q];
      UntimedBehindTimed(queues, start, untimed[..last], q);
      assert (before + [untimed[last]])[..|before|] == before;
    }
  }

  lemma {:induction false} PositiveAreNotUntimed(queue: seq<Task>)
    requires Positive(queue)
    ensures Untimed(queue) == []
    decreases |queue|
  {
    if queue != [] {
      PositiveAreNotUntimed(queue[..|queue| - 1]);
    }
  }
}
