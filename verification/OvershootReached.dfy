/** The overshoot bound is sharp: for every K and every number of ready pods some run reaches it. */
module OvershootReached {
  import opened Pods
  import opened Pacers
  import opened Composite
  import opened Standing
  import opened Admission
  import opened PacingProtocol

  lemma LonePasses(p: Pacer, ready: nat, starting: nat, newPod: Pod)
    requires CanPace(p) && AllowedCount(p, ready, starting, 1) == 1
    ensures Passes([p], ready, starting, [[newPod], [newPod]], [[newPod]])
  {
    assert [newPod][..1] == [newPod];
    assert PaceOutcome(p, ready, starting, [newPod], [newPod], [newPod]);
  }

  lemma DecidesWitness(pacers: seq<Pacer>, items: seq<Pod>, newPod: Pod, lists: seq<seq<Pod>>, results: seq<seq<Pod>>)
    requires Passes(pacers, |Filter(IsReady, items)|, |Filter(IsStarting, items)|, lists, results)
    requires lists[0] == Filter(IsBlocked, items) + [newPod]
    requires newPod in Chosen(lists[|pacers|], results)
    ensures Decides(pacers, items, newPod, true)
  {
    assert SameObject(newPod, newPod);
  }

  lemma LoneDecision(p: Pacer, items: seq<Pod>, newPod: Pod)
    requires CanPace(p) && Filter(IsBlocked, items) == []
    requires AllowedCount(p, |Filter(IsReady, items)|, |Filter(IsStarting, items)|, 1) == 1
    ensures Decides([p], items, newPod, true)
  {
    hide *;
    var pacers, lists, results := [p], [[newPod], [newPod]], [[newPod]];
    LonePasses(p, |Filter(IsReady, items)|, |Filter(IsStarting, items)|, newPod);
    VoteOfOne(newPod);
    assert |pacers| == 1 && lists[1] == [newPod];
    assert lists[0] == Filter(IsBlocked, items) + [newPod];
    DecidesWitness(pacers, items, newPod, lists, results);
  }

  /** How many pods a lone pacer lets start while `ready` are ready. */
  function Cap(p: Pacer, ready: nat): int
    requires CanPace(p)
  {
    if p.Exponential? then Desired(p.exponential.minInitial, p.exponential.multiplier, ready) else p.linear.step - ready % p.linear.step
  }

  /** The pacer lets something start, and paces until more than `ready` pods are ready. */
  predicate Starts(p: Pacer, ready: nat) {
    && CanPace(p) && !Saturated(p, ready) && Cap(p, 0) >= 1
    && (p.Exponential? && ready > 0 ==> p.exponential.multiplier > 0.0)
  }

  lemma CapIsPositive(p: Pacer, ready: nat, r: nat)
    requires Starts(p, ready) && r <= ready
    ensures !Saturated(p, r) && Cap(p, r) >= 1
  {
    if p.Exponential? && r > 0 {
      assert r as real * p.exponential.multiplier > 0.0;
      CeilBounds(r as real * p.exponential.multiplier);
    }
  }

  /** With nothing blocked, a lone pacer with room approves. */
  lemma ApprovesWithRoom(p: Pacer, pods: set<Pod>, newPod: Pod) returns (items: seq<Pod>)
    requires CanPace(p) && !Saturated(p, Count(IsReady, pods)) && Count(IsBlocked, pods) == 0
    requires Count(IsStarting, pods) < Cap(p, Count(IsReady, pods))
    ensures Lists(items, pods) && Decides([p], items, newPod, true)
  {
    items := SomeListing(pods);
    hide Count, Filter, Lists;
    FilterLists(IsReady, items, pods);
    FilterLists(IsStarting, items, pods);
    FilterLists(IsBlocked, items, pods);
    LoneDecision(p, items, newPod);
  }

  lemma VoteOfOne(pod: Pod)
    ensures Chosen([pod], [[pod]]) == [pod]
  {
    assert [pod][..0] == [] && [[pod]][..0] == [];
    assert Occurrences([pod], pod.uid) == 1;
    assert Votes([[pod]], pod.uid) == 1;
    assert Chosen([], [[pod]]) == [];
  }

  const REQUESTED := Pod("", "web-", "default", "", 0, map[], "", false, [])

  function Stored(n: nat): Pod {
    Pod("", "web-", "default", Tally(n + 1), 1, map[], "", false, [])
  }

  /** r pods ready, n starting, nothing else, nothing in flight. */
  ghost predicate OnlyRunning(c: Cluster, r: nat, n: nat) {
    && c.approved == multiset{} && c.denied == multiset{}
    && Identified(c.pods) && (forall p :: p in c.pods ==> |p.uid| <= r + n)
    && Ready(c) == r && Blocked(c) == 0 && Starting(c) == n
  }

  lemma RunExtends(pacers: seq<Pacer>, K: nat, trace: seq<Cluster>, c: Cluster)
    requires Run(pacers, K, trace) && Next(pacers, K, trace[|trace| - 1], c)
    ensures Run(pacers, K, trace + [c])
  {
    var longer := trace + [c];
    forall t | 0 <= t < |longer| - 1 ensures Next(pacers, K, longer[t], longer[t + 1]) {
      assert t < |trace| - 1 ==> longer[t + 1] == trace[t + 1];
    }
  }

  lemma OneMoreApproved(p: Pacer, K: nat, c: Cluster, r: nat, n: nat) returns (c': Cluster)
    requires CanPace(p) && !Saturated(p, r) && n < Cap(p, r) && OnlyRunning(c.(approved := multiset{}), r, n) && |c.approved| < K
    ensures Next([p], K, c, c') && c' == c.(approved := c.approved + multiset{REQUESTED})
  {
    var items := ApprovesWithRoom(p, c.pods, REQUESTED);
    c' := c.(approved := c.approved + multiset{REQUESTED});
    assert Decide([p], K, c, c', items, REQUESTED, true);
  }

  lemma OneIsStored(pacers: seq<Pacer>, K: nat, mid: Cluster, r: nat, n: nat) returns (c': Cluster)
    requires OnlyRunning(mid.(approved := multiset{}), r, n) && mid.approved == multiset{REQUESTED}
    ensures Next(pacers, K, mid, c') && OnlyRunning(c', r, n + 1)
  {
    var stored := Stored(r + n);
    assert StoredAs(mid.pods, stored, true);
    hide Count;
    StoringKeepsIdentified(mid.pods, stored, true);
    c' := Cluster(mid.pods + {stored}, multiset{}, multiset{});
    assert mid.approved - multiset{REQUESTED} == multiset{};
    assert Commit(mid, c', REQUESTED, stored);
  }

  lemma OneMoreStarts(p: Pacer, K: nat, c: Cluster, r: nat, n: nat) returns (mid: Cluster, c': Cluster)
    requires CanPace(p) && !Saturated(p, r) && K >= 1 && n < Cap(p, r) && OnlyRunning(c, r, n)
    ensures Next([p], K, c, mid) && Next([p], K, mid, c') && OnlyRunning(c', r, n + 1)
  {
    hide Next, OnlyRunning, Saturated, Cap;
    NothingApproved(c, r, n);
    assert c.(approved := multiset{}) == c;
    mid := OneMoreApproved(p, K, c, r, n);
    c' := OneIsStored([p], K, mid, r, n);
  }

  /** One starting pod becomes ready, whatever is approved. */
  lemma OneMoreReady(pacers: seq<Pacer>, K: nat, c: Cluster, r: nat, n: nat) returns (c': Cluster)
    requires OnlyRunning(c.(approved := multiset{}), r, n) && n > 0
    ensures Next(pacers, K, c, c') && OnlyRunning(c'.(approved := multiset{}), r + 1, n - 1) && c'.approved == c.approved
  {
    var p :| p in (set q | q in c.pods && IsStarting(q));
    c' := c.(pods := c.pods - {p} + {p.(conditions := p.conditions + [READY])});
    assert BecomeReady(c, c', p);
    hide Count;
    BecomeReadyCounts(c, c', p);
  }

  lemma NothingRuns(c: Cluster)
    requires c == Cluster({}, multiset{}, multiset{})
    ensures OnlyRunning(c, 0, 0)
  {
    assert (set q | q in c.pods && IsReady(q)) == {};
    assert (set q | q in c.pods && IsStarting(q)) == {};
    assert (set q | q in c.pods && IsBlocked(q)) == {};
  }

  /** Admitted one at a time, r pods can get ready and n more start. */
  lemma {:induction false} SomeRunning(p: Pacer, K: nat, ready: nat, r: nat, n: nat) returns (trace: seq<Cluster>)
    requires Starts(p, ready) && r <= ready && K >= 1 && n <= Cap(p, r)
    ensures Run([p], K, trace) && OnlyRunning(trace[|trace| - 1], r, n)
    decreases r, n
  {
    CapIsPositive(p, ready, r);
    hide Next, OnlyRunning, Saturated, Cap;
    if n > 0 {
      trace := SomeRunning(p, K, ready, r, n - 1);
      var mid, c' := OneMoreStarts(p, K, trace[|trace| - 1], r, n - 1);
      RunExtends([p], K, trace, mid);
      RunExtends([p], K, trace + [mid], c');
      trace := trace + [mid] + [c'];
    } else if r > 0 {
      CapIsPositive(p, ready, r - 1);
      trace := SomeRunning(p, K, ready, r - 1, 1);
      var c := trace[|trace| - 1];
      assert c.(approved := multiset{}) == c by { NothingApproved(c, r - 1, 1); }
      var c' := OneMoreReady([p], K, c, r - 1, 1);
      RunExtends([p], K, trace, c');
      trace := trace + [c'];
      assert c'.(approved := multiset{}) == c';
    } else {
      trace := [Cluster({}, multiset{}, multiset{})];
      NothingRuns(trace[0]);
    }
  }

  lemma NothingApproved(c: Cluster, r: nat, n: nat)
    requires OnlyRunning(c, r, n)
    ensures c.approved == multiset{}
  {
  }

  /** k overlapping admissions all see the same pods, and all are approved. */
  lemma {:induction false} SomeOverlap(p: Pacer, K: nat, ready: nat, r: nat, n: nat, k: nat) returns (trace: seq<Cluster>)
    requires Starts(p, ready) && r <= ready && K >= 1 && n < Cap(p, r) && k <= K
    ensures Run([p], K, trace)
    ensures var c := trace[|trace| - 1]; OnlyRunning(c.(approved := multiset{}), r, n) && |c.approved| == k
  {
    hide Next, OnlyRunning, Saturated, Cap;
    if k == 0 {
      trace := SomeRunning(p, K, ready, r, n);
      var c := trace[|trace| - 1];
      NothingApproved(c, r, n);
      assert c.(approved := multiset{}) == c;
    } else {
      CapIsPositive(p, ready, r);
      trace := SomeOverlap(p, K, ready, r, n, k - 1);
      var c' := OneMoreApproved(p, K, trace[|trace| - 1], r, n);
      RunExtends([p], K, trace, c');
      trace := trace + [c'];
    }
  }

  /** While the approved ones are under way, r of the starting pods become ready. */
  lemma {:induction false} SomeOverlapThenReady(p: Pacer, K: nat, n: nat, r: nat) returns (trace: seq<Cluster>)
    requires Starts(p, 0) && K >= 1 && r <= n < Cap(p, 0)
    ensures Run([p], K, trace)
    ensures var c := trace[|trace| - 1]; OnlyRunning(c.(approved := multiset{}), r, n - r) && |c.approved| == K
  {
    hide Next, OnlyRunning, Saturated, Cap;
    if r == 0 {
      trace := SomeOverlap(p, K, 0, 0, n, K);
    } else {
      trace := SomeOverlapThenReady(p, K, n, r - 1);
      var c' := OneMoreReady([p], K, trace[|trace| - 1], r - 1, n - r + 1);
      RunExtends([p], K, trace, c');
      trace := trace + [c'];
    }
  }

  /** A pacer's boundary for pods starting or approved while `ready` are ready. */
  function Boundary(p: Pacer, ready: nat): int
    requires CanPace(p)
  {
    if p.Exponential? then ExponentialBoundary(p.exponential.minInitial, p.exponential.multiplier, ready)
    else LinearBoundary(p.linear.step, ready) - ready
  }

  /** The bound is sharp at every number of ready pods. For every pacer that lets something start,
      every number it still paces at and every K, some run with overlap at most K has K - 1 pods
      more starting or approved than the pacer's boundary. */
  lemma OvershootIsReached(p: Pacer, K: nat, ready: nat) returns (trace: seq<Cluster>)
    requires Starts(p, ready) && K >= 1
    ensures Run([p], K, trace)
    ensures var c := trace[|trace| - 1];
            Ready(c) == ready && Starting(c) + |c.approved| == Boundary(p, ready) + K - 1
  {
    CapIsPositive(p, ready, ready);
    if p.Linear? {
      LinearBoundaryGrows(p.linear.step, ready);
    }
    if Boundary(p, ready) == Cap(p, ready) {
      trace := SomeOverlap(p, K, ready, ready, Cap(p, ready) - 1, K);
    } else {
      assert Boundary(p, ready) == p.exponential.minInitial - ready && ready < p.exponential.minInitial;
      CapIsPositive(p, ready, 0);
      trace := SomeOverlapThenReady(p, K, p.exponential.minInitial - 1, ready);
    }
  }
}
