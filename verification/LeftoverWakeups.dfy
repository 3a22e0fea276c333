/** How leftover wake-ups carry a pacer past its boundary: a run of tracker and pacing loop together
    in which, with no wait given up and no flight landed by force, any number of admissions are
    approved at once. */
module LeftoverWakeups {
  import opened Pods
  import opened Pacers
  import opened Standing
  import opened PacingProtocol
  import opened OvershootReached
  import opened FlightTracker
  import opened FlightOverlap
  import opened TrackedPacing

  const NOTHING := Cluster({}, multiset{}, multiset{})

  lemma JointExtends(pacers: seq<Pacer>, key: string, maxFlight: nat, trace: seq<Joint>, j: Joint)
    requires JointRun(pacers, key, maxFlight, trace) && JointNext(pacers, key, maxFlight, trace[|trace| - 1], j)
    ensures JointRun(pacers, key, maxFlight, trace + [j])
  {
    hide JointNext;
    var longer := trace + [j];
    forall t | 0 <= t < |longer| - 1 ensures JointNext(pacers, key, maxFlight, longer[t], longer[t + 1]) {
      assert t < |trace| - 1 ==> longer[t + 1] == trace[t + 1];
    }
  }

  lemma NothingCounts()
    ensures Ready(NOTHING) == 0 && Starting(NOTHING) == 0 && PacingProtocol.Blocked(NOTHING) == 0
  {
    NothingRuns(NOTHING);
  }

  // ----- one admission after another, each leaving a wake-up -----

  /** n wake-ups are left over, and nothing else is going on. */
  ghost predicate Banked(key: string, n: nat, j: Joint) {
    && (Idle(j.tracker, key, n) || (n == 0 && j.tracker == EMPTY))
    && j == Joint(NOTHING, j.tracker, 0, 0, 0, Record(n, 0, 0, 0))
  }

  lemma Arrives(pacers: seq<Pacer>, key: string, name: string, maxFlight: nat, n: nat, j: Joint) returns (j': Joint)
    requires name != "" && Banked(key, n, j)
    ensures JointNext(pacers, key, maxFlight, j, j')
    ensures j' == Joint(NOTHING, j'.tracker, 1, 0, 0, Record(n + 1, 0, 0, 0))
    ensures key in j'.tracker.lists
         && j'.tracker.lists[key] == FlightList([Flight(NamespacedName("", name), 0)], {}, Channel(n, 0, n + 1, 0))
  {
    var op := WaitOne(key, "", name, "", 0);
    j' := Joint(NOTHING, FlightTracker.Next(j.tracker, op, maxFlight), 1, 0, 0, Record(n + 1, 0, 0, 0));
    assert FindsEmpty(j.tracker, op, key);
    assert TracksOne(key, maxFlight, j, j', op);
  }

  lemma IsApproved(p: Pacer, key: string, maxFlight: nat, j: Joint) returns (j': Joint)
    requires Starts(p, 0) && j.cluster.pods == {} && j.undecided > 0
    ensures JointNext([p], key, maxFlight, j, j')
    ensures j' == j.(cluster := j.cluster.(approved := j.cluster.approved + multiset{REQUESTED}), undecided := j.undecided - 1)
  {
    NothingCounts();
    assert Count(IsReady, j.cluster.pods) == 0 && Count(IsStarting, j.cluster.pods) == 0 && Count(IsBlocked, j.cluster.pods) == 0;
    CapIsPositive(p, 0, 0);
    hide Count;
    var items := ApprovesWithRoom(p, j.cluster.pods, REQUESTED);
    j' := j.(cluster := j.cluster.(approved := j.cluster.approved + multiset{REQUESTED}), undecided := j.undecided - 1);
    assert Decide([p], Overlap(j.cluster) + 1, j.cluster, j'.cluster, items, REQUESTED, true);
    assert DecidesOne([p], j, j');
  }

  const STORED := Cluster({Stored(0)}, multiset{}, multiset{})

  lemma IsStored(pacers: seq<Pacer>, key: string, maxFlight: nat, j: Joint) returns (j': Joint)
    requires j.cluster == NOTHING.(approved := multiset{REQUESTED})
    ensures JointNext(pacers, key, maxFlight, j, j')
    ensures j' == j.(cluster := STORED, unlanded := j.unlanded + 1)
  {
    j' := j.(cluster := STORED, unlanded := j.unlanded + 1);
    assert StoredAs({}, Stored(0), true);
    assert multiset{REQUESTED} - multiset{REQUESTED} == multiset{};
    assert {} + {Stored(0)} == {Stored(0)};
    assert Commit(j.cluster, j'.cluster, REQUESTED, Stored(0));
    assert CommitsOne(j, j');
  }

  lemma HasLanded(pacers: seq<Pacer>, key: string, name: string, maxFlight: nat, n: nat, j: Joint) returns (j': Joint)
    requires name != "" && j.unlanded > 0 && key in j.tracker.lists
    requires j.tracker.lists[key] == FlightList([Flight(NamespacedName("", name), 0)], {}, Channel(n, 0, n + 1, 0))
    ensures JointNext(pacers, key, maxFlight, j, j')
    ensures j' == j.(tracker := j'.tracker, unlanded := j.unlanded - 1)
    ensures key in j'.tracker.lists && j'.tracker.seenKeys == j.tracker.seenKeys[NamespacedName("", name) := key]
    ensures j'.tracker.lists[key] == FlightList([], {NamespacedName("", name)}, Channel(n + 1, 0, n + 1, 0))
  {
    var pod := NamespacedName("", name);
    var op := Reconcile(pod, Found(name, "", "", Some(key)));
    assert Newest([Flight(pod, 0)], pod) == 0;
    hide Newest;
    assert LandsOne(j.tracker, op, key);
    j' := j.(tracker := FlightTracker.Next(j.tracker, op, maxFlight), unlanded := j.unlanded - 1);
    assert TracksOne(key, maxFlight, j, j', op);
  }

  lemma IsDeleted(pacers: seq<Pacer>, key: string, maxFlight: nat, j: Joint) returns (j': Joint)
    requires j.cluster == STORED
    ensures JointNext(pacers, key, maxFlight, j, j') && j' == j.(cluster := NOTHING)
  {
    j' := j.(cluster := NOTHING);
    assert {Stored(0)} - {Stored(0)} == {};
    assert Remove(j.cluster, j'.cluster, Stored(0));
    assert Moves(j, j');
  }

  lemma IsForgotten(pacers: seq<Pacer>, key: string, name: string, maxFlight: nat, n: nat, j: Joint) returns (j': Joint)
    requires key in j.tracker.lists && j.tracker.lists[key] == FlightList([], {NamespacedName("", name)}, Channel(n, 0, n, 0))
    requires NamespacedName("", name) in j.tracker.seenKeys && j.tracker.seenKeys[NamespacedName("", name)] == key
    ensures JointNext(pacers, key, maxFlight, j, j') && j' == j.(tracker := j'.tracker) && Idle(j'.tracker, key, n)
  {
    var op := Reconcile(NamespacedName("", name), NotFound);
    j' := j.(tracker := FlightTracker.Next(j.tracker, op, maxFlight));
    assert {NamespacedName("", name)} - {NamespacedName("", name)} == {};
    assert TracksOne(key, maxFlight, j, j', op);
  }

  lemma BankOne(p: Pacer, key: string, name: string, maxFlight: nat, n: nat, trace: seq<Joint>) returns (trace': seq<Joint>)
    requires Starts(p, 0) && name != "" && JointRun([p], key, maxFlight, trace) && Banked(key, n, trace[|trace| - 1])
    ensures JointRun([p], key, maxFlight, trace') && Banked(key, n + 1, trace'[|trace'| - 1])
  {
    hide JointNext, Idle;
    assert trace != [];
    var pacers := [p];
    var a := Arrives(pacers, key, name, maxFlight, n, trace[|trace| - 1]);
    var b := IsApproved(p, key, maxFlight, a);
    var c := IsStored(pacers, key, maxFlight, b);
    var d := HasLanded(pacers, key, name, maxFlight, n, c);
    var e := IsDeleted(pacers, key, maxFlight, d);
    var f := IsForgotten(pacers, key, name, maxFlight, n + 1, e);
    hide JointRun, Banked;
    assert Banked(key, n + 1, f) by { BankedFinally(key, n + 1, f); }
    JointExtends(pacers, key, maxFlight, trace, a);
    JointExtends(pacers, key, maxFlight, trace + [a], b);
    JointExtends(pacers, key, maxFlight, trace + [a] + [b], c);
    JointExtends(pacers, key, maxFlight, trace + [a] + [b] + [c], d);
    JointExtends(pacers, key, maxFlight, trace + [a] + [b] + [c] + [d], e);
    JointExtends(pacers, key, maxFlight, trace + [a] + [b] + [c] + [d] + [e], f);
    trace' := trace + [a] + [b] + [c] + [d] + [e] + [f];
  }

  lemma BankedFinally(key: string, n: nat, j: Joint)
    requires Idle(j.tracker, key, n) && j == Joint(NOTHING, j.tracker, 0, 0, 0, Record(n, 0, 0, 0))
    ensures Banked(key, n, j)
  {
  }

  lemma {:induction false} SomeBank(p: Pacer, key: string, name: string, maxFlight: nat, n: nat) returns (trace: seq<Joint>)
    requires Starts(p, 0) && name != ""
    ensures JointRun([p], key, maxFlight, trace) && Banked(key, n, trace[|trace| - 1])
  {
    if n == 0 {
      trace := [START];
    } else {
      trace := SomeBank(p, key, name, maxFlight, n - 1);
      trace := BankOne(p, key, name, maxFlight, n - 1, trace);
    }
  }

  // ----- a crowd that takes them -----

  /** m admissions were let go, all but the first by a wake-up left over from n. */
  ghost predicate Crowded(key: string, n: nat, m: nat, j: Joint) {
    && key in j.tracker.lists && |j.tracker.lists[key].flights| == m
    && j.tracker.lists[key].channel.senders == n + 1 - m && j.tracker.lists[key].channel.waiters == 0
    && j == Joint(NOTHING, j.tracker, m, 0, 0, Record(n + 1, 0, 0, 0))
  }

  lemma OneMoreInCrowd(pacers: seq<Pacer>, key: string, name: string, maxFlight: nat, n: nat, m: nat, j: Joint) returns (mid: Joint, j': Joint)
    requires name != "" && 0 < m <= n && Crowded(key, n, m, j)
    ensures JointNext(pacers, key, maxFlight, j, mid) && JointNext(pacers, key, maxFlight, mid, j') && Crowded(key, n, m + 1, j')
  {
    var op, op' := WaitOne(key, "", name, "", 0), Deliver(Live(key));
    mid := j.(tracker := FlightTracker.Next(j.tracker, op, maxFlight));
    assert TracksOne(key, maxFlight, j, mid, op);
    j' := mid.(tracker := FlightTracker.Next(mid.tracker, op', maxFlight), undecided := m + 1);
    assert WakesOne(mid.tracker, op', key);
    assert TracksOne(key, maxFlight, mid, j', op');
  }

  lemma {:induction false} SomeCrowd(p: Pacer, key: string, name: string, maxFlight: nat, n: nat, m: nat) returns (trace: seq<Joint>)
    requires Starts(p, 0) && name != "" && 0 < m <= n + 1
    ensures JointRun([p], key, maxFlight, trace) && Crowded(key, n, m, trace[|trace| - 1])
  {
    hide JointNext;
    if m == 1 {
      trace := SomeBank(p, key, name, maxFlight, n);
      var j := Arrives([p], key, name, maxFlight, n, trace[|trace| - 1]);
      JointExtends([p], key, maxFlight, trace, j);
      trace := trace + [j];
    } else {
      hide Crowded;
      trace := SomeCrowd(p, key, name, maxFlight, n, m - 1);
      var mid, j := OneMoreInCrowd([p], key, name, maxFlight, n, m - 1, trace[|trace| - 1]);
      JointExtends([p], key, maxFlight, trace, mid);
      JointExtends([p], key, maxFlight, trace + [mid], j);
      trace := trace + [mid] + [j];
    }
  }

  /** k of the crowd are approved, none stored yet. */
  lemma {:induction false} SomeApprovals(p: Pacer, key: string, name: string, maxFlight: nat, n: nat, k: nat) returns (trace: seq<Joint>)
    requires Starts(p, 0) && name != "" && k <= n + 1
    ensures JointRun([p], key, maxFlight, trace)
    ensures var j := trace[|trace| - 1];
            && j.cluster.pods == {} && |j.cluster.approved| == k
            && j.undecided == n + 1 - k && j.record == Record(n + 1, 0, 0, 0)
  {
    if k == 0 {
      trace := SomeCrowd(p, key, name, maxFlight, n, n + 1);
    } else {
      hide JointNext;
      trace := SomeApprovals(p, key, name, maxFlight, n, k - 1);
      var j := IsApproved(p, key, maxFlight, trace[|trace| - 1]);
      JointExtends([p], key, maxFlight, trace, j);
      trace := trace + [j];
    }
  }

  /** For every pacer that lets something start and every n > 0, some run of tracker and loop has n
      admissions approved at once while nothing is ready or starting, although nobody gave up
      waiting and no flight was landed by force. With n beyond the pacer's boundary the boundary
      is passed by as much as one likes. */
  lemma LeftoversOvershoot(p: Pacer, key: string, name: string, maxFlight: nat, n: nat) returns (trace: seq<Joint>)
    requires Starts(p, 0) && name != "" && n > 0
    ensures JointRun([p], key, maxFlight, trace)
    ensures var j := trace[|trace| - 1];
            && Ready(j.cluster) == 0 && Starting(j.cluster) == 0 && |j.cluster.approved| == n
            && j.record == Record(n, 0, 0, 0)
            && (WithinBoundary(p, 1, 0, n) <==> n <= Boundary(p, 0))
  {
    trace := SomeApprovals(p, key, name, maxFlight, n - 1, n);
    NothingCounts();
    if p.Linear? {
      LinearBoundaryGrows(p.linear.step, 0);
    }
  }
}
