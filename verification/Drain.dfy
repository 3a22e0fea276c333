/** How fast exponential pacing drains a group: rounds of one reconcile pass, however its evictions
    and readmissions interleave, and of everything that started becoming ready. */
module Drain {
  import opened Pods
  import opened Pacers
  import opened Composite
  import opened SharedOrder
  import opened Standing
  import opened Admission
  import opened PacingProtocol
  import opened Rounds

  function Quiet(pods: set<Pod>): Cluster {
    Cluster(pods, multiset{}, multiset{})
  }

  ghost predicate OneBecomesReady(pods: set<Pod>, pods': set<Pod>) {
    exists p :: BecomeReady(Quiet(pods), Quiet(pods'), p)
  }

  /** Starting pods become ready one after the other until none is left. */
  ghost predicate AllBecomeReady(steps: seq<set<Pod>>) {
    && steps != []
    && (forall t :: 0 <= t < |steps| - 1 ==> OneBecomesReady(steps[t], steps[t + 1]))
    && Count(IsStarting, steps[|steps| - 1]) == 0
  }

  /** A round whose pass had at least `quota` evictions accepted, or all it asked for. */
  ghost predicate Round(pacers: seq<Pacer>, quota: nat, pods: set<Pod>, pods': set<Pod>) {
    exists middle, steps ::
      PassLeadsTo(pacers, quota, pods, middle) && AllBecomeReady(steps) && steps[0] == middle && steps[|steps| - 1] == pods'
  }

  ghost predicate DistinctBlockedTimes(pods: set<Pod>) {
    forall p, q :: p in pods && q in pods && p.blocked && q.blocked && p.created == q.created ==> p == q
  }

  /** Ties do not matter: there are none, or at most one pacer still sorts. A lone pacer and a
      composite that no longer paces never need distinct creation times. */
  ghost predicate TiesAreHarmless(pacers: seq<Pacer>, pods: set<Pod>) {
    DistinctBlockedTimes(pods) || OneSorts(pacers, Count(IsReady, pods))
  }

  ghost function Size(pods: set<Pod>): nat {
    Count(IsReady, pods) + Count(IsStarting, pods) + Count(IsBlocked, pods)
  }

  /** Rounds from any pods: some may be ready, some starting. */
  ghost predicate DrainRun(pacers: seq<Pacer>, quota: nat, run: seq<set<Pod>>) {
    && run != []
    && Identified(run[0])
    && TiesAreHarmless(pacers, run[0])
    && forall k :: 0 <= k < |run| - 1 ==> Round(pacers, quota, run[k], run[k + 1])
  }

  /** Every pacer of the composite is at least as generous as (least, m). */
  ghost predicate AtLeast(pacers: seq<Pacer>, least: int, m: real) {
    && pacers != []
    && forall i :: 0 <= i < |pacers| ==>
         pacers[i].Exponential? && pacers[i].exponential.minInitial >= least && pacers[i].exponential.multiplier >= m
  }

  lemma {:induction false} BecomingReadyCounts(steps: seq<set<Pod>>, t: nat)
    requires AllBecomeReady(steps) && Identified(steps[0]) && t < |steps|
    ensures Identified(steps[t])
    ensures Count(IsReady, steps[t]) + Count(IsStarting, steps[t]) == Count(IsReady, steps[0]) + Count(IsStarting, steps[0])
    ensures Count(IsBlocked, steps[t]) == Count(IsBlocked, steps[0])
  {
    hide Identified, Count, BecomeReady;
    if t > 0 {
      BecomingReadyCounts(steps, t - 1);
      assert OneBecomesReady(steps[t - 1], steps[t - 1 + 1]);
      var p :| BecomeReady(Quiet(steps[t - 1]), Quiet(steps[t]), p);
      BecomeReadyCounts(Quiet(steps[t - 1]), Quiet(steps[t]), p);
    }
  }

  lemma BlockedTimesAreDistinct(items: seq<Pod>, pods: set<Pod>)
    requires Lists(items, pods) && DistinctBlockedTimes(pods)
    ensures DistinctCreation(multiset(Filter(IsBlocked, items)))
  {
    var blocked := Filter(IsBlocked, items);
    FilterLists(IsBlocked, items, pods);
    forall p | p in multiset(blocked) ensures p in pods && p.blocked && multiset(blocked)[p] == 1 {
      assert p in blocked;
    }
  }

  /** A pass selects exactly the smallest inner count. */
  lemma SelectedIsMinimum(pacers: seq<Pacer>, pods: set<Pod>, items: seq<Pod>, selected: seq<Pod>)
    requires Identified(pods) && Lists(items, pods) && Selects(pacers, items, selected)
    requires pacers != [] && AllExponential(pacers) && TiesAreHarmless(pacers, pods)
    ensures AllCanPace(pacers)
    ensures var c := CountsOf(pods);
            |selected| == MinCount(pacers, c.ready, c.starting, c.blocked)
  {
    var r, s, blocked := |Filter(IsReady, items)|, |Filter(IsStarting, items)|, Filter(IsBlocked, items);
    SelectedAreBlocked(pacers, pods, items, selected);
    FilterLists(IsReady, items, pods);
    FilterLists(IsStarting, items, pods);
    FilterLists(IsBlocked, items, pods);
    var lists: seq<seq<Pod>>, results: seq<seq<Pod>> :|
      && Passes(pacers, r, s, lists, results)
      && lists[0] == blocked
      && selected == Chosen(lists[|pacers|], results);
    if DistinctBlockedTimes(pods) {
      BlockedTimesAreDistinct(items, pods);
    }
    hide Count, DistinctUids, DistinctCreation, Passes, Lists, Identified, DistinctBlockedTimes, OneSorts;
    PrefixMinimum(pacers, r, s, lists, results);
  }

  // ----- blocked pods never change -----

  /** The blocked pods of a later set were blocked already. */
  ghost predicate NoNewBlocked(pods: set<Pod>, later: set<Pod>) {
    forall p :: p in later && p.blocked ==> p in pods
  }

  lemma ReadmissionBlocksNone(pacers: seq<Pacer>, pods: set<Pod>, pods': set<Pod>)
    requires Identified(pods) && Readmits(pacers, pods, pods') && Count(IsBlocked, pods') == Count(IsBlocked, pods)
    ensures NoNewBlocked(pods, pods')
  {
    hide Identified, Count, Lists, Decides;
    var items, newPod, stored, approved :| Readmit(pacers, pods, pods', items, newPod, stored, approved);
    StoringKeepsIdentified(pods, stored, approved);
  }

  lemma {:induction false} PassBlocksNone(pacers: seq<Pacer>, pods: set<Pod>, items: seq<Pod>, selected: seq<Pod>, trace: seq<Progress>, j: nat)
    requires pacers != [] && AllExponential(pacers) && Identified(pods)
    requires ReconcilePass(pacers, pods, items, selected, trace) && j < |trace|
    ensures NoNewBlocked(pods, trace[j].pods)
  {
    if j > 0 {
      hide Identified, Count, Selects, Lists, Readmits;
      PassBlocksNone(pacers, pods, items, selected, trace, j - 1);
      assert PassStep(pacers, selected, trace[j - 1], trace[j - 1 + 1]);
      if Returns(pacers, trace[j - 1], trace[j]) {
        NoBounce(pacers, pods, items, selected, trace, j - 1);
        NoBounce(pacers, pods, items, selected, trace, j);
        assert Identified(trace[j - 1].pods) by { PassCounts(pacers, pods, items, selected, trace, j - 1); }
        ReadmissionBlocksNone(pacers, trace[j - 1].pods, trace[j].pods);
      }
    }
  }

  lemma {:induction false} BecomingReadyBlocksNone(steps: seq<set<Pod>>, t: nat)
    requires AllBecomeReady(steps) && t < |steps|
    ensures NoNewBlocked(steps[0], steps[t])
  {
    if t > 0 {
      BecomingReadyBlocksNone(steps, t - 1);
      assert OneBecomesReady(steps[t - 1], steps[t - 1 + 1]);
    }
  }

  /** A round never blocks a pod that was not blocked before it. */
  lemma RoundBlocksNone(pacers: seq<Pacer>, quota: nat, pods: set<Pod>, pods': set<Pod>)
    requires pacers != [] && AllExponential(pacers) && Identified(pods) && Round(pacers, quota, pods, pods')
    ensures NoNewBlocked(pods, pods')
  {
    var middle, steps :| PassLeadsTo(pacers, quota, pods, middle) && AllBecomeReady(steps) && steps[0] == middle && steps[|steps| - 1] == pods';
    var items, selected, trace :| ReconcilePass(pacers, pods, items, selected, trace) && middle == Last(trace).pods;
    hide Identified, PassStep, Selects, Lists, OneBecomesReady;
    PassBlocksNone(pacers, pods, items, selected, trace, |trace| - 1);
    BecomingReadyBlocksNone(steps, |steps| - 1);
  }

  lemma PassCountsOfRound(pacers: seq<Pacer>, quota: nat, pods: set<Pod>, middle: set<Pod>)
    requires pacers != [] && AllExponential(pacers) && Identified(pods) && TiesAreHarmless(pacers, pods)
    requires PassLeadsTo(pacers, quota, pods, middle)
    ensures Identified(middle) && AllCanPace(pacers)
    ensures var c, c' := CountsOf(pods), CountsOf(middle);
            var n := MinCount(pacers, c.ready, c.starting, c.blocked);
            var gone := c.blocked - c'.blocked;
            && Min(quota, n) <= gone <= n <= c.blocked
            && c'.ready == c.ready && c'.starting == c.starting + gone
  {
    var items, selected, trace :|
      && ReconcilePass(pacers, pods, items, selected, trace)
      && Last(trace).gone >= Min(quota, |selected|)
      && middle == Last(trace).pods;
    hide Count, Identified, PassStep, Selects, Lists, DistinctBlockedTimes, OneSorts, AllowedCount;
    SelectedIsMinimum(pacers, pods, items, selected);
    NoBounce(pacers, pods, items, selected, trace, |trace| - 1);
    PassCounts(pacers, pods, items, selected, trace, |trace| - 1);
    SelectionCounts(pacers, pods, items, selected);
    assert |selected| <= AllowedCount(pacers[0], Count(IsReady, pods), Count(IsStarting, pods), Count(IsBlocked, pods));
  }

  /** What a round does to the counts. */
  lemma RoundCounts(pacers: seq<Pacer>, quota: nat, pods: set<Pod>, pods': set<Pod>)
    requires pacers != [] && AllExponential(pacers) && Identified(pods) && TiesAreHarmless(pacers, pods)
    requires Round(pacers, quota, pods, pods')
    ensures Identified(pods') && AllCanPace(pacers)
    ensures var c, c' := CountsOf(pods), CountsOf(pods');
            var n := MinCount(pacers, c.ready, c.starting, c.blocked);
            var gone := c.blocked - c'.blocked;
            && Min(quota, n) <= gone <= n <= c.blocked
            && c'.ready == c.ready + c.starting + gone && c'.starting == 0
  {
    var middle, steps :| PassLeadsTo(pacers, quota, pods, middle) && AllBecomeReady(steps) && steps[0] == middle && steps[|steps| - 1] == pods';
    hide Count, Identified, PassLeadsTo, OneBecomesReady, DistinctBlockedTimes;
    PassCountsOfRound(pacers, quota, pods, middle);
    BecomingReadyCounts(steps, |steps| - 1);
  }

  /** Harmless ties stay harmless: no pod is newly blocked, and as ready grows no pacer that had
      stopped sorting starts again. */
  lemma TiesStayHarmless(pacers: seq<Pacer>, pods: set<Pod>, pods': set<Pod>)
    requires TiesAreHarmless(pacers, pods) && NoNewBlocked(pods, pods')
    requires Count(IsReady, pods) <= Count(IsReady, pods')
    ensures TiesAreHarmless(pacers, pods')
  {
    hide Count;
    if OneSorts(pacers, Count(IsReady, pods)) {
      assert forall i :: 0 <= i < |pacers| && Sorts(pacers[i], Count(IsReady, pods')) ==> Sorts(pacers[i], Count(IsReady, pods));
    }
  }

  // ----- arithmetic of one round -----

  lemma MinCountAtLeast(pacers: seq<Pacer>, ready: nat, starting: nat, blocked: nat, n: nat)
    requires AllCanPace(pacers) && n <= blocked
    requires forall i :: 0 <= i < |pacers| ==> n <= AllowedCount(pacers[i], ready, starting, blocked)
    ensures n <= MinCount(pacers, ready, starting, blocked)
  {
    if n > 0 {
      BelowMinCount(pacers, ready, starting, blocked, n - 1);
    }
  }

  /** How many pods a round starts or has starting: `least` from nothing, a factor m of what is
      ready otherwise. */
  function Floor(least: int, m: real, ready: nat): int {
    if ready == 0 then least else Ceil(ready as real * m)
  }

  lemma FloorIsPositive(least: int, m: real, ready: nat)
    requires least >= 1 && m > 0.0
    ensures Floor(least, m, ready) >= 1
  {
    if ready > 0 {
      assert ready as real * m > 0.0;
      CeilBounds(ready as real * m);
    }
  }

  lemma ProductMonotone(ready: nat, m: real, multiplier: real)
    requires m <= multiplier
    ensures ready as real * m <= ready as real * multiplier
  {
  }

  lemma AllowedAtLeast(p: Pacer, least: int, m: real, ready: nat, starting: nat, blocked: nat)
    requires p.Exponential? && p.exponential.minInitial >= least && p.exponential.multiplier >= m
    ensures Min(blocked, Max(0, Floor(least, m, ready) - starting)) <= AllowedCount(p, ready, starting, blocked)
  {
    ProductMonotone(ready, m, p.exponential.multiplier);
    CeilMonotone(ready as real * m, ready as real * p.exponential.multiplier);
  }

  /** What a pass releases, together with what is starting already. */
  lemma ReleasedAtLeast(pacers: seq<Pacer>, least: int, m: real, ready: nat, starting: nat, blocked: nat)
    requires AtLeast(pacers, least, m) && AllCanPace(pacers) && least >= 1 && m > 0.0
    ensures var n := MinCount(pacers, ready, starting, blocked);
            && starting + n >= Min(starting + blocked, Floor(least, m, ready))
            && (starting == 0 ==> n >= Min(blocked, 1))
  {
    hide Floor, AllowedCount;
    FloorIsPositive(least, m, ready);
    var n := Min(blocked, Max(0, Floor(least, m, ready) - starting));
    forall i | 0 <= i < |pacers| ensures n <= AllowedCount(pacers[i], ready, starting, blocked) {
      AllowedAtLeast(pacers[i], least, m, ready, starting, blocked);
    }
    MinCountAtLeast(pacers, ready, starting, blocked, n);
  }

  function Pow(x: real, k: nat): real {
    if k == 0 then 1.0 else x * Pow(x, k - 1)
  }

  function RealMin(a: real, b: real): real { if a < b then a else b }

  /** What the exponential schedule promises after `k` more rounds. */
  function Goal(least: int, m: real, k: nat): real {
    least as real * Pow(1.0 + m, k)
  }

  lemma GoalGrows(least: int, m: real, k: nat)
    requires least >= 1 && m > 0.0
    ensures Goal(least, m, 0) == least as real
    ensures Goal(least, m, k) > 0.0
    ensures Goal(least, m, k + 1) == (1.0 + m) * Goal(least, m, k)
  {
    PowPositive(1.0 + m, k);
    var x, a := Pow(1.0 + m, k), least as real;
    assert a * x > 0.0;
    assert a * ((1.0 + m) * x) == (1.0 + m) * (a * x);
  }

  lemma PowPositive(x: real, k: nat)
    requires x > 0.0
    ensures Pow(x, k) > 0.0
  {
  }

  lemma GrowMonotone(m: real, a: real, b: real)
    requires m > 0.0 && a <= b
    ensures (1.0 + m) * a <= b + b * m
  {
  }

  /** One round multiplies the ready pods by 1 + m at least, until all n pods are ready. */
  lemma GrowthStep(n: nat, m: real, goal: real, ready: nat, released: nat)
    requires m > 0.0 && goal > 0.0 && 0 < ready <= n
    requires ready as real >= RealMin(n as real, goal)
    requires released >= Min(n - ready, Ceil(ready as real * m))
    ensures (ready + released) as real >= RealMin(n as real, (1.0 + m) * goal)
  {
    if released < n - ready {
      CeilBounds(ready as real * m);
      GrowMonotone(m, goal, ready as real);
    }
  }

  /** What is promised to be ready after k rounds when `ready` pods are ready at the start. */
  function Promise(least: int, m: real, ready: nat, k: nat): real {
    if ready > 0 then Goal(ready, m, k) else if k == 0 then 0.0 else Goal(least, m, k - 1)
  }

  /** The schedule over one round: from nothing to the first goal, and from a goal to the next. */
  lemma GrowthRound(least: int, m: real, n: nat, first: nat, k: nat, ready: nat, released: nat)
    requires least >= 1 && m > 0.0 && ready + released <= n && first <= ready && (k == 0 ==> ready == first)
    requires ready as real >= RealMin(n as real, Promise(least, m, first, k))
    requires released >= Min(n - ready, Floor(least, m, ready))
    ensures (ready + released) as real >= RealMin(n as real, Promise(least, m, first, k + 1))
  {
    hide Goal;
    if ready == 0 {
      if k > 0 {
        PromiseIsPositive(least, m, first, k);
        PromiseIsPositive(least, m, first, k + 1);
      }
      GoalGrows(least, m, 0);
    } else if first > 0 {
      GoalGrows(first, m, k);
      GrowthStep(n, m, Goal(first, m, k), ready, released);
    } else {
      GoalGrows(least, m, k - 1);
      GrowthStep(n, m, Goal(least, m, k - 1), ready, released);
    }
  }

  lemma PromiseIsPositive(least: int, m: real, first: nat, k: nat)
    requires least >= 1 && m > 0.0 && (first > 0 || k > 0)
    ensures Promise(least, m, first, k) > 0.0
  {
    hide Goal;
    if first > 0 {
      GoalGrows(first, m, k);
    } else {
      GoalGrows(least, m, k - 1);
    }
  }

  // ----- the run -----

  lemma AtLeastIsExponential(pacers: seq<Pacer>, least: int, m: real)
    requires AtLeast(pacers, least, m)
    ensures pacers != [] && AllExponential(pacers)
  {
  }

  /** One round of a drain run: no pod is lost, and what was starting together with what the pass
      released is as much as the pacers want, unless evictions were refused. */
  lemma DrainRound(pacers: seq<Pacer>, quota: nat, pods: set<Pod>, pods': set<Pod>, least: int, m: real)
    requires Identified(pods) && TiesAreHarmless(pacers, pods) && Round(pacers, quota, pods, pods')
    requires AtLeast(pacers, least, m) && least >= 1 && m > 0.0
    ensures Identified(pods') && TiesAreHarmless(pacers, pods')
    ensures Count(IsStarting, pods') == 0 && Size(pods') == Size(pods) && Count(IsReady, pods) <= Count(IsReady, pods')
    ensures var b, b' := Count(IsBlocked, pods), Count(IsBlocked, pods');
            && b' <= b
            && (quota >= 1 && Count(IsStarting, pods) == 0 ==> b - b' >= Min(b, 1))
            && (quota >= b ==> Count(IsReady, pods') - Count(IsReady, pods)
                                >= Min(Count(IsStarting, pods) + b, Floor(least, m, Count(IsReady, pods))))
  {
    hide Count, Identified, Round, TiesAreHarmless, AtLeast, Floor;
    AtLeastIsExponential(pacers, least, m);
    RoundCounts(pacers, quota, pods, pods');
    RoundBlocksNone(pacers, quota, pods, pods');
    TiesStayHarmless(pacers, pods, pods');
    ReleasedAtLeast(pacers, least, m, Count(IsReady, pods), Count(IsStarting, pods), Count(IsBlocked, pods));
  }

  /** The state of a drain run after k rounds in each of which an eviction is accepted, if any is
      asked for: no pod lost, and one fewer blocked per round, the first one aside if pods were
      starting already and may have filled it. */
  lemma {:induction false} DrainProgress(pacers: seq<Pacer>, quota: nat, run: seq<set<Pod>>, least: int, m: real, k: nat)
    requires DrainRun(pacers, quota, run) && quota >= 1 && AtLeast(pacers, least, m) && least >= 1 && m > 0.0 && k < |run|
    ensures Identified(run[k]) && TiesAreHarmless(pacers, run[k])
    ensures Size(run[k]) == Size(run[0]) && Count(IsReady, run[0]) <= Count(IsReady, run[k])
    ensures k > 0 ==> Count(IsStarting, run[k]) == 0
    ensures Count(IsBlocked, run[k]) <= Count(IsBlocked, run[0])
    ensures Count(IsBlocked, run[k]) <= Max(0, Count(IsBlocked, run[0]) + Min(Count(IsStarting, run[0]), 1) - k)
  {
    hide Count, Identified, Round, TiesAreHarmless, AtLeast, Size, Floor;
    if k > 0 {
      DrainProgress(pacers, quota, run, least, m, k - 1);
      assert Round(pacers, quota, run[k - 1], run[k - 1 + 1]);
      DrainRound(pacers, quota, run[k - 1], run[k], least, m);
    }
  }

  /** Draining terminates: after as many rounds as there were blocked pods, and one more if pods
      were starting, every pod is ready, refused evictions or not. */
  lemma DrainTerminates(pacers: seq<Pacer>, quota: nat, run: seq<set<Pod>>, least: int, m: real, k: nat)
    requires DrainRun(pacers, quota, run) && quota >= 1 && AtLeast(pacers, least, m) && least >= 1 && m > 0.0
    requires Count(IsBlocked, run[0]) + Min(Count(IsStarting, run[0]), 1) <= k < |run|
    ensures Count(IsBlocked, run[k]) == 0 && Count(IsReady, run[k]) == Size(run[0])
  {
    DrainProgress(pacers, quota, run, least, m, k);
  }

  /** Logarithmic bound, with no eviction refused: after k rounds at least
      min(N, ready * (1 + m)^k) of the N pods are ready, and from none ready, after k >= 1 rounds,
      at least min(N, least * (1 + m)^(k - 1)). */
  lemma {:induction false} DrainIsExponential(pacers: seq<Pacer>, quota: nat, run: seq<set<Pod>>, least: int, m: real, k: nat)
    requires DrainRun(pacers, quota, run) && quota >= 1 && quota >= Count(IsBlocked, run[0])
    requires AtLeast(pacers, least, m) && least >= 1 && m > 0.0 && k < |run|
    ensures Count(IsReady, run[k]) as real
         >= RealMin(Size(run[0]) as real, Promise(least, m, Count(IsReady, run[0]), k))
  {
    hide *;
    if k == 0 {
      PromisedAtStart(least, m, Count(IsReady, run[0]));
    } else {
      DrainIsExponential(pacers, quota, run, least, m, k - 1);
      var r, r' := GrowthOfRound(pacers, quota, run, least, m, k - 1);
      GrowthRound(least, m, Size(run[0]), Count(IsReady, run[0]), k - 1, r, r' - r);
    }
  }

  lemma PromisedAtStart(least: int, m: real, ready: nat)
    ensures Promise(least, m, ready, 0) == ready as real
    ensures forall n: real :: RealMin(n, Promise(least, m, ready, 0)) <= ready as real
  {
  }

  /** What round k adds to the ready pods of a drain run. */
  lemma GrowthOfRound(pacers: seq<Pacer>, quota: nat, run: seq<set<Pod>>, least: int, m: real, k: nat) returns (r: nat, r': nat)
    requires DrainRun(pacers, quota, run) && quota >= 1 && quota >= Count(IsBlocked, run[0])
    requires AtLeast(pacers, least, m) && least >= 1 && m > 0.0 && k + 1 < |run|
    ensures r == Count(IsReady, run[k]) && r' == Count(IsReady, run[k + 1])
    ensures Count(IsReady, run[0]) <= r <= r' <= Size(run[0])
    ensures k == 0 ==> r == Count(IsReady, run[0])
    ensures r' - r >= Min(Size(run[0]) - r, Floor(least, m, r))
  {
    hide Count, Identified, Round, TiesAreHarmless, AtLeast, Floor;
    r, r' := Count(IsReady, run[k]), Count(IsReady, run[k + 1]);
    DrainProgress(pacers, quota, run, least, m, k);
    assert Round(pacers, quota, run[k], run[k + 1]);
    DrainRound(pacers, quota, run[k], run[k + 1], least, m);
  }

  /** One round after every pacer has reached MaxStagger, with no eviction refused, every pod is
      ready, whatever the creation times. */
  lemma SaturatedRoundReleasesAll(pacers: seq<Pacer>, quota: nat, pods: set<Pod>, pods': set<Pod>)
    requires pacers != [] && AllExponential(pacers)
    requires Identified(pods) && Round(pacers, quota, pods, pods') && quota >= Count(IsBlocked, pods)
    requires forall i :: 0 <= i < |pacers| ==> Count(IsReady, pods) >= pacers[i].exponential.maxStagger
    ensures Count(IsReady, pods') == Size(pods) && Count(IsStarting, pods') == 0 && Count(IsBlocked, pods') == 0
  {
    assert OneSorts(pacers, Count(IsReady, pods));
    hide Count, Round, Identified, OneSorts;
    RoundCounts(pacers, quota, pods, pods');
    MinCountAtLeast(pacers, Count(IsReady, pods), Count(IsStarting, pods), Count(IsBlocked, pods), Count(IsBlocked, pods));
  }
}
