/** The flight tracker and the pacing loop together: an admission decides only once WaitOne has let
    it go, and its flight lands only once its pod can be seen. The tracker's half of every step is
    a step of the flight tracker itself, whatever groups it serves besides. */
module TrackedPacing {
  import opened Pods
  import opened Pacers
  import opened Standing
  import opened Admission
  import opened PacingProtocol
  import opened FlightTracker
  import opened FlightProperties
  import opened FlightOverlap

  /** How often, for the group, an admission found no flight outstanding, gave up waiting or had
      no name to track, and how many flights were landed by force. */
  datatype Record = Record(foundEmpty: nat, gaveUp: nat, unnamed: nat, forced: nat)

  /** `undecided` admissions are past WaitOne, `unlanded` pods are stored but not yet observed by
      the tracker, `abandoned` requests never were stored. */
  datatype Joint = Joint(cluster: Cluster, tracker: Tracker, undecided: nat, unlanded: nat, abandoned: nat, record: Record)

  const START := Joint(Cluster({}, multiset{}, multiset{}), EMPTY, 0, 0, 0, Record(0, 0, 0, 0))

  function Total(r: Record): nat {
    r.foundEmpty + r.gaveUp + r.unnamed + r.forced
  }

  // ----- what a tracker step means for the group -----

  function Bit(b: bool): nat {
    if b then 1 else 0
  }

  /** WaitOne reports a missing name as an error, which admission only logs. */
  predicate Unnamed(op: Op, key: string) {
    op.WaitOne? && op.key == key && TrackedName(op.name, op.generateName) == ""
  }

  predicate WakesOne(t: Tracker, op: Op, key: string) {
    op.Deliver? && op.slot.key == key && Wakes(t, op, op.slot)
  }

  predicate OneGivesUp(t: Tracker, op: Op, key: string) {
    op.TimeOut? && op.slot.key == key && GivesUp(t, op, op.slot)
  }

  predicate LandsOne(t: Tracker, op: Op, key: string) {
    op.Reconcile? && Lands(t, op, key, op.request)
  }

  function Forced(t: Tracker, op: Op, key: string, maxFlight: nat): nat {
    if op.EvictPass? && key in t.lists then |t.lists[key].flights| - |Kept(t.lists[key].flights, op.now, maxFlight)| else 0
  }

  function Recorded(r: Record, t: Tracker, op: Op, key: string, maxFlight: nat): Record {
    Record(r.foundEmpty + Bit(FindsEmpty(t, op, key)),
           r.gaveUp + Bit(OneGivesUp(t, op, key)),
           r.unnamed + Bit(Unnamed(op, key)),
           r.forced + Forced(t, op, key, maxFlight))
  }

  /** Admissions the step lets out of WaitOne. */
  function Released(t: Tracker, op: Op, key: string): nat {
    Bit(FindsEmpty(t, op, key)) + Bit(OneGivesUp(t, op, key)) + Bit(Unnamed(op, key)) + Bit(WakesOne(t, op, key))
  }

  // ----- the joint machine -----

  ghost predicate TracksOne(key: string, maxFlight: nat, j: Joint, j': Joint, op: Op) {
    && (LandsOne(j.tracker, op, key) ==> j.unlanded > 0)
    && j' == Joint(
         j.cluster,
         FlightTracker.Next(j.tracker, op, maxFlight),
         j.undecided + Released(j.tracker, op, key),
         if LandsOne(j.tracker, op, key) then j.unlanded - 1 else j.unlanded,
         j.abandoned,
         Recorded(j.record, j.tracker, op, key, maxFlight))
  }

  ghost predicate DecidesOne(pacers: seq<Pacer>, j: Joint, j': Joint) {
    && j.undecided > 0
    && SomeDecision(pacers, Overlap(j.cluster) + 1, j.cluster, j'.cluster)
    && j' == j.(cluster := j'.cluster, undecided := j.undecided - 1)
  }

  ghost predicate CommitsOne(j: Joint, j': Joint) {
    && (exists newPod, stored :: Commit(j.cluster, j'.cluster, newPod, stored))
    && j' == j.(cluster := j'.cluster, unlanded := j.unlanded + 1)
  }

  ghost predicate AbandonsOne(j: Joint, j': Joint) {
    && (exists newPod :: Abandon(j.cluster, j'.cluster, newPod))
    && j' == j.(cluster := j'.cluster, abandoned := j.abandoned + 1)
  }

  ghost predicate Moves(j: Joint, j': Joint) {
    && ((exists p :: BecomeReady(j.cluster, j'.cluster, p)) || (exists p :: Remove(j.cluster, j'.cluster, p)))
    && j' == j.(cluster := j'.cluster)
  }

  ghost predicate JointNext(pacers: seq<Pacer>, key: string, maxFlight: nat, j: Joint, j': Joint) {
    || (exists op :: TracksOne(key, maxFlight, j, j', op))
    || DecidesOne(pacers, j, j')
    || CommitsOne(j, j')
    || AbandonsOne(j, j')
    || Moves(j, j')
  }

  ghost predicate JointRun(pacers: seq<Pacer>, key: string, maxFlight: nat, trace: seq<Joint>) {
    && trace != [] && trace[0] == START
    && forall t :: 0 <= t < |trace| - 1 ==> JointNext(pacers, key, maxFlight, trace[t], trace[t + 1])
  }

  // ----- wake-ups under way -----

  function SendersOf(channels: seq<Channel>): nat {
    if channels == [] then 0
    else SendersOf(channels[..|channels| - 1]) + channels[|channels| - 1].senders
  }

  /** Wake-ups on their way for the group, on its list's channel or on those of dropped lists. */
  function Pending(t: Tracker, key: string): nat {
    (if key in t.lists then t.lists[key].channel.senders else 0) + SendersOf(RetiredFor(t, key))
  }

  lemma {:induction false} SendersUpdate(channels: seq<Channel>, i: nat, c: Channel)
    requires i < |channels|
    ensures SendersOf(channels[i := c]) == SendersOf(channels) - channels[i].senders + c.senders
  {
    var n := |channels| - 1;
    if i < n {
      SendersUpdate(channels[..n], i, c);
      assert channels[i := c][..n] == channels[..n][i := c];
    } else {
      assert channels[i := c][..n] == channels[..n];
    }
  }

  lemma PendingAtSlot(t: Tracker, slot: Slot, c: Channel, key: string)
    requires Used(t, slot)
    ensures Pending(WithChannel(t, slot, c), key)
         == Pending(t, key) + if slot.key == key then c.senders - ChannelAt(t, slot).senders else 0
  {
    if slot.Retired? && slot.key == key {
      SendersUpdate(t.retired[key], slot.i, c);
    }
  }

  lemma PendingAfterPass(t: Tracker, now: nat, key: string, maxFlight: nat)
    ensures Pending(AfterPass(t, now, maxFlight), key) == Pending(t, key) + Forced(t, EvictPass(now), key, maxFlight)
  {
    var keys := UnusedKeys(t);
    var d := Dropped(t, keys);
    if key in keys {
      var channels := RetiredFor(t, key) + [t.lists[key].channel];
      assert d.retired[key] == channels && channels[..|channels| - 1] == RetiredFor(t, key);
    } else {
      assert RetiredFor(d, key) == RetiredFor(t, key);
    }
  }

  lemma PendingAfterStep(t: Tracker, op: Op, key: string, maxFlight: nat)
    ensures Pending(FlightTracker.Next(t, op, maxFlight), key)
         == Pending(t, key) + Bit(LandsOne(t, op, key)) + Forced(t, op, key, maxFlight) - Bit(WakesOne(t, op, key))
  {
    hide Landing, AfterPass, WithChannel, SendersOf;
    match op
    case WaitOne(_, _, _, _, _) =>
    case Deliver(slot) =>
      if Wakes(t, op, slot) {
        var c := ChannelAt(t, slot);
        PendingAtSlot(t, slot, c.(senders := c.senders - 1, waiters := c.waiters - 1), key);
      }
    case TimeOut(slot) =>
      if GivesUp(t, op, slot) {
        var c := ChannelAt(t, slot);
        PendingAtSlot(t, slot, c.(waiters := c.waiters - 1, timedOut := c.timedOut + 1), key);
      }
    case Reconcile(_, _) =>
    case EvictPass(now) => PendingAfterPass(t, now, key, maxFlight);
  }

  // ----- accounts -----

  /** Admissions past WaitOne whose pod the tracker has not observed. */
  function Outstanding(j: Joint): nat {
    j.undecided + Overlap(j.cluster) + j.unlanded + j.abandoned
  }

  /** Every admission past WaitOne is undecided, in flight to the API server, stored and not yet
      observed, or lost. With the wake-ups under way they are as many as admissions that did not
      wait for one, and flights landed by force. */
  ghost predicate Accounted(key: string, j: Joint) {
    Outstanding(j) + Pending(j.tracker, key) == Total(j.record)
  }

  lemma DecisionOverlaps(pacers: seq<Pacer>, K: nat, c: Cluster, c': Cluster)
    requires SomeDecision(pacers, K, c, c')
    ensures Overlap(c') == Overlap(c) + 1 <= K
  {
    var items, newPod, approve :| Decide(pacers, K, c, c', items, newPod, approve);
    assert |c'.approved| + |c'.denied| == |c.approved| + |c.denied| + 1;
  }

  lemma SettledOverlapsLess(c: Cluster, c': Cluster)
    requires (exists newPod, stored :: Commit(c, c', newPod, stored)) || (exists newPod :: Abandon(c, c', newPod))
    ensures Overlap(c') == Overlap(c) - 1
  {
    hide StoredAs, Overlap;
    if newPod, stored :| Commit(c, c', newPod, stored) {
      OneLessOverlaps(c, c', newPod);
    } else {
      var newPod :| Abandon(c, c', newPod);
      OneLessOverlaps(c, c', newPod);
    }
  }

  lemma OneLessOverlaps(c: Cluster, c': Cluster, newPod: Pod)
    requires || (newPod in c.approved && c'.approved == c.approved - multiset{newPod} && c'.denied == c.denied)
             || (newPod in c.denied && c'.denied == c.denied - multiset{newPod} && c'.approved == c.approved)
    ensures Overlap(c') == Overlap(c) - 1
  {
  }

  lemma MovesKeepOverlap(c: Cluster, c': Cluster)
    requires (exists p :: BecomeReady(c, c', p)) || (exists p :: Remove(c, c', p))
    ensures Overlap(c') == Overlap(c)
  {
  }

  lemma ClusterStepsKeepOutstanding(pacers: seq<Pacer>, j: Joint, j': Joint)
    requires DecidesOne(pacers, j, j') || CommitsOne(j, j') || AbandonsOne(j, j') || Moves(j, j')
    ensures Outstanding(j') == Outstanding(j) && j'.tracker == j.tracker && j'.record == j.record
  {
    hide SomeDecision, Commit, Abandon, BecomeReady, Remove, Overlap;
    if DecidesOne(pacers, j, j') {
      DecisionOverlaps(pacers, Overlap(j.cluster) + 1, j.cluster, j'.cluster);
    } else if CommitsOne(j, j') || AbandonsOne(j, j') {
      SettledOverlapsLess(j.cluster, j'.cluster);
    } else {
      MovesKeepOverlap(j.cluster, j'.cluster);
    }
  }

  /** The tracker's steps and the loop's keep the accounts, and the record never shrinks. */
  lemma NextKeepsAccounts(pacers: seq<Pacer>, key: string, maxFlight: nat, j: Joint, j': Joint)
    requires Accounted(key, j) && JointNext(pacers, key, maxFlight, j, j')
    ensures Accounted(key, j') && Total(j.record) <= Total(j'.record)
  {
    hide DecidesOne, CommitsOne, AbandonsOne, Moves, FlightTracker.Next, Overlap, Forced, Pending, LandsOne, WakesOne, OneGivesUp, FindsEmpty;
    if op :| TracksOne(key, maxFlight, j, j', op) {
      PendingAfterStep(j.tracker, op, key, maxFlight);
    } else {
      ClusterStepsKeepOutstanding(pacers, j, j');
    }
  }

  /** The cluster's part of a joint step is a step of the pacing protocol, with an overlap of as
      many admissions as are past WaitOne. */
  lemma ProjectsToProtocol(pacers: seq<Pacer>, K: nat, key: string, maxFlight: nat, j: Joint, j': Joint)
    requires Outstanding(j) <= K && JointNext(pacers, key, maxFlight, j, j')
    ensures j'.cluster == j.cluster || PacingProtocol.Next(pacers, K, j.cluster, j'.cluster)
  {
    hide Decide, Commit, Abandon, BecomeReady, Remove, Overlap, Recorded, FlightTracker.Next, Pending;
    if DecidesOne(pacers, j, j') {
      DecideWithin(pacers, Overlap(j.cluster) + 1, K, j.cluster, j'.cluster);
    }
  }

  lemma DecideWithin(pacers: seq<Pacer>, k: nat, K: nat, c: Cluster, c': Cluster)
    requires SomeDecision(pacers, k, c, c') && k <= K
    ensures SomeDecision(pacers, K, c, c')
  {
    hide Decides, Lists;
    var items, newPod, approve :| Decide(pacers, k, c, c', items, newPod, approve);
    assert Decide(pacers, K, c, c', items, newPod, approve);
  }

  lemma JointStepKeepsInv(pacers: seq<Pacer>, K: nat, key: string, maxFlight: nat, j: Joint, j': Joint)
    requires Inv(pacers, K, j.cluster) && Outstanding(j) <= K && JointNext(pacers, key, maxFlight, j, j')
    ensures Inv(pacers, K, j'.cluster)
  {
    hide JointNext, Outstanding, Inv, PacingProtocol.Next;
    ProjectsToProtocol(pacers, K, key, maxFlight, j, j');
    if j'.cluster != j.cluster {
      NextKeepsInv(pacers, K, j.cluster, j'.cluster);
    }
  }

  lemma StartIsAccounted(key: string)
    ensures Accounted(key, START) && Total(START.record) == 0
  {
    assert RetiredFor(EMPTY, key) == [];
    assert Overlap(START.cluster) == 0;
  }

  lemma {:induction false} RunKeepsAccounts(pacers: seq<Pacer>, key: string, maxFlight: nat, trace: seq<Joint>, t: nat)
    requires JointRun(pacers, key, maxFlight, trace) && t < |trace|
    ensures Accounted(key, trace[t])
    ensures t > 0 ==> Total(trace[t - 1].record) <= Total(trace[t].record)
  {
    hide JointNext, Total, Accounted;
    if t == 0 {
      StartIsAccounted(key);
    } else {
      RunKeepsAccounts(pacers, key, maxFlight, trace, t - 1);
      assert JointNext(pacers, key, maxFlight, trace[t - 1], trace[t - 1 + 1]);
      NextKeepsAccounts(pacers, key, maxFlight, trace[t - 1], trace[t]);
    }
  }

  // ----- the lifetime of a list -----

  /** A moment at which nothing of the group is outstanding, its list was dropped or never made,
      and nobody waits on the channels of its dropped lists: wake-ups left on them are lost. */
  ghost predicate Quiet(key: string, j: Joint) {
    && Outstanding(j) == 0
    && key !in j.tracker.lists
    && forall i :: 0 <= i < |RetiredFor(j.tracker, key)| ==> RetiredFor(j.tracker, key)[i].waiters == 0
  }

  lemma {:induction false} SendersOfPrefix(channels: seq<Channel>, n: nat)
    requires n <= |channels|
    ensures SendersOf(channels[..n]) <= SendersOf(channels)
  {
    if n < |channels| {
      SendersOfPrefix(channels[..|channels| - 1], n);
      assert channels[..|channels| - 1][..n] == channels[..n];
    } else {
      assert channels[..n] == channels;
    }
  }

  /** The channels of dropped lists that nobody waits on stay as they are. */
  lemma SilentChannelsStay(t: Tracker, op: Op, key: string, maxFlight: nat, n: nat)
    requires n <= |RetiredFor(t, key)| && forall i :: 0 <= i < n ==> RetiredFor(t, key)[i].waiters == 0
    ensures n <= |RetiredFor(FlightTracker.Next(t, op, maxFlight), key)|
    ensures RetiredFor(FlightTracker.Next(t, op, maxFlight), key)[..n] == RetiredFor(t, key)[..n]
  {
    hide Landing;
    var t' := FlightTracker.Next(t, op, maxFlight);
    match op
    case WaitOne(_, _, _, _, _) =>
    case Deliver(slot) => assert slot.Retired? && slot.key == key && Wakes(t, op, slot) ==> slot.i >= n;
    case TimeOut(slot) => assert slot.Retired? && slot.key == key && GivesUp(t, op, slot) ==> slot.i >= n;
    case Reconcile(_, _) =>
    case EvictPass(now) =>
      assert RetiredFor(t', key) == RetiredFor(t, key) || RetiredFor(t', key) == RetiredFor(t, key) + [t.lists[key].channel];
  }

  /** These channels of dropped lists are there, and nobody waits on them. */
  ghost predicate Silent(channels: seq<Channel>, key: string, j: Joint) {
    && channels <= RetiredFor(j.tracker, key)
    && forall i :: 0 <= i < |channels| ==> channels[i].waiters == 0
  }

  lemma NextKeepsSilent(pacers: seq<Pacer>, channels: seq<Channel>, key: string, maxFlight: nat, j: Joint, j': Joint)
    requires Silent(channels, key, j) && JointNext(pacers, key, maxFlight, j, j')
    ensures Silent(channels, key, j')
  {
    hide DecidesOne, CommitsOne, AbandonsOne, Moves, FlightTracker.Next, RetiredFor, Recorded, Outstanding, Released, LandsOne;
    if op: Op :| TracksOne(key, maxFlight, j, j', op) {
      SilentChannelsStay(j.tracker, op, key, maxFlight, |channels|);
    } else {
      ClusterStepsKeepOutstanding(pacers, j, j');
    }
  }

  lemma {:induction false} QuietChannelsStay(pacers: seq<Pacer>, key: string, maxFlight: nat, trace: seq<Joint>, u: nat, t: nat)
    requires JointRun(pacers, key, maxFlight, trace) && u <= t < |trace| && Quiet(key, trace[u])
    ensures Silent(RetiredFor(trace[u].tracker, key), key, trace[t])
  {
    hide JointNext, Outstanding;
    if u < t {
      hide Silent, Quiet, RetiredFor;
      QuietChannelsStay(pacers, key, maxFlight, trace, u, t - 1);
      assert JointNext(pacers, key, maxFlight, trace[t - 1], trace[t - 1 + 1]);
      NextKeepsSilent(pacers, RetiredFor(trace[u].tracker, key), key, maxFlight, trace[t - 1], trace[t]);
    }
  }

  /** Since a quiet moment no more admissions are outstanding than events were recorded. */
  lemma OutstandingSince(pacers: seq<Pacer>, key: string, maxFlight: nat, trace: seq<Joint>, u: nat, t: nat)
    requires JointRun(pacers, key, maxFlight, trace) && u <= t < |trace| && Quiet(key, trace[u])
    ensures Outstanding(trace[t]) <= Total(trace[t].record) - Total(trace[u].record)
  {
    hide JointRun, Outstanding, Total, SendersOf;
    RunKeepsAccounts(pacers, key, maxFlight, trace, u);
    RunKeepsAccounts(pacers, key, maxFlight, trace, t);
    QuietChannelsStay(pacers, key, maxFlight, trace, u, t);
    var was, now := RetiredFor(trace[u].tracker, key), RetiredFor(trace[t].tracker, key);
    SendersOfPrefix(now, |was|);
    assert now[..|was|] == was;
  }

  lemma {:induction false} LifetimeKeepsInv(pacers: seq<Pacer>, K: nat, key: string, maxFlight: nat, trace: seq<Joint>, u: nat, t: nat)
    requires JointRun(pacers, key, maxFlight, trace) && u <= t < |trace| && Quiet(key, trace[u])
    requires Inv(pacers, K, trace[u].cluster) && Total(trace[t].record) - Total(trace[u].record) <= K
    ensures Inv(pacers, K, trace[t].cluster)
  {
    if u < t {
      hide Inv, JointNext, Total, Outstanding, Quiet;
      RunKeepsAccounts(pacers, key, maxFlight, trace, t);
      LifetimeKeepsInv(pacers, K, key, maxFlight, trace, u, t - 1);
      OutstandingSince(pacers, key, maxFlight, trace, u, t - 1);
      assert JointNext(pacers, key, maxFlight, trace[t - 1], trace[t - 1 + 1]);
      JointStepKeepsInv(pacers, K, key, maxFlight, trace[t - 1], trace[t]);
    }
  }

  lemma RunIsIdentified(pacers: seq<Pacer>, key: string, maxFlight: nat, trace: seq<Joint>, t: nat)
    requires AllCanPace(pacers) && JointRun(pacers, key, maxFlight, trace) && t < |trace|
    ensures Identified(trace[t].cluster.pods)
  {
    hide JointNext, Quiet, Total;
    var K := Total(trace[t].record) + 1;
    StartIsQuiet(key);
    StartsWithin(pacers, K, START.cluster);
    LifetimeKeepsInv(pacers, K, key, maxFlight, trace, 0, t);
  }

  lemma StartIsQuiet(key: string)
    ensures Quiet(key, START) && Total(START.record) == 0
  {
    assert RetiredFor(EMPTY, key) == [];
    assert Overlap(START.cluster) == 0;
  }

  /** Tracker and pacing together, over each lifetime of a group's list. From a quiet moment at
      which every pacer is within its boundary, the admissions that overlap are no more than the
      times since then that an admission found no flight outstanding, gave up waiting or had no
      name, and the flights landed by force. If those are K at most, no inner pacer that still
      paces has more than K - 1 pods starting or approved beyond its boundary. */
  lemma LifetimeOvershoot(pacers: seq<Pacer>, K: nat, key: string, maxFlight: nat, trace: seq<Joint>, u: nat, t: nat, i: nat)
    requires AllCanPace(pacers) && K >= 1 && JointRun(pacers, key, maxFlight, trace) && u <= t < |trace| && i < |pacers|
    requires Quiet(key, trace[u])
    requires AllWithin(pacers, K, Ready(trace[u].cluster), Starting(trace[u].cluster))
    ensures Overlap(trace[t].cluster) <= Total(trace[t].record) - Total(trace[u].record)
    ensures Total(trace[t].record) - Total(trace[u].record) <= K ==>
              var c := trace[t].cluster; WithinBoundary(pacers[i], K, Ready(c), Starting(c) + |c.approved|)
  {
    OutstandingSince(pacers, key, maxFlight, trace, u, t);
    hide JointRun, Total, WithinBoundary, Count, Identified;
    if Total(trace[t].record) - Total(trace[u].record) <= K {
      RunIsIdentified(pacers, key, maxFlight, trace, u);
      LifetimeKeepsInv(pacers, K, key, maxFlight, trace, u, t);
    }
  }

  /** The start of the world is a quiet moment, so the same holds of whole runs. */
  lemma TrackedOvershoot(pacers: seq<Pacer>, K: nat, key: string, maxFlight: nat, trace: seq<Joint>, t: nat, i: nat)
    requires AllCanPace(pacers) && K >= 1 && JointRun(pacers, key, maxFlight, trace) && t < |trace| && i < |pacers|
    ensures Overlap(trace[t].cluster) <= Total(trace[t].record)
    ensures Total(trace[t].record) <= K ==>
              var c := trace[t].cluster; WithinBoundary(pacers[i], K, Ready(c), Starting(c) + |c.approved|)
  {
    hide JointNext, Quiet, Total, WithinBoundary, Overlap, Count;
    StartIsQuiet(key);
    StartsWithin(pacers, K, START.cluster);
    LifetimeOvershoot(pacers, K, key, maxFlight, trace, 0, t, i);
  }

  lemma NothingStartingIsWithin(pacers: seq<Pacer>, K: nat, ready: nat)
    requires AllCanPace(pacers) && K >= 1
    ensures AllWithin(pacers, K, ready, 0)
  {
    forall i | 0 <= i < |pacers| ensures WithinBoundary(pacers[i], K, ready, 0) {
      if pacers[i].Linear? {
        LinearBoundaryGrows(pacers[i].linear.step, ready);
      }
    }
  }

  /** A burst is paced exactly: since a quiet moment at which nothing was starting, as long as one
      admission only found no flight outstanding, nobody gave up and nothing was landed by force,
      no boundary is passed at all. */
  lemma OneBurstIsExact(pacers: seq<Pacer>, key: string, maxFlight: nat, trace: seq<Joint>, u: nat, t: nat, i: nat)
    requires AllCanPace(pacers) && JointRun(pacers, key, maxFlight, trace) && u <= t < |trace| && i < |pacers|
    requires Quiet(key, trace[u]) && Starting(trace[u].cluster) == 0
    requires trace[t].record == trace[u].record.(foundEmpty := trace[u].record.foundEmpty + 1)
    ensures var c, p := trace[t].cluster, pacers[i];
            && (p.Exponential? && Ready(c) < p.exponential.maxStagger ==>
                  Starting(c) + |c.approved|
                    <= Max(0, Max(p.exponential.minInitial - Ready(c), Ceil(Ready(c) as real * p.exponential.multiplier))))
            && (p.Linear? && Ready(c) < p.linear.maxStagger && p.linear.step > 0 ==>
                  Ready(c) + Starting(c) + |c.approved| <= p.linear.step * (Ready(c) / p.linear.step + 1))
  {
    assert Total(trace[t].record) - Total(trace[u].record) == 1;
    hide JointNext, Quiet, Total, Count, AllWithin;
    NothingStartingIsWithin(pacers, 1, Ready(trace[u].cluster));
    LifetimeOvershoot(pacers, 1, key, maxFlight, trace, u, t, i);
    hide JointRun, Overlap;
  }
}
