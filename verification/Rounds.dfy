/** Evict and readmit: what one reconcile pass really sets free once the evicted pods have come
    back through admission, however evictions and readmissions interleave. */
module Rounds {
  import opened Pods
  import opened Pacers
  import opened Composite
  import opened SharedOrder
  import opened Standing
  import opened Admission
  import opened PacingProtocol

  /** The pods a reconcile pass over this listing chooses to evict. */
  ghost predicate Selects(pacers: seq<Pacer>, items: seq<Pod>, evicted: seq<Pod>) {
    exists lists, results ::
      && Passes(pacers, |Filter(IsReady, items)|, |Filter(IsStarting, items)|, lists, results)
      && lists[0] == Filter(IsBlocked, items)
      && evicted == Chosen(lists[|pacers|], results)
  }

  /** A recreated pod is decided on a listing of the current pods and stored before the next. */
  ghost predicate Readmit(pacers: seq<Pacer>, pods: set<Pod>, pods': set<Pod>, items: seq<Pod>, newPod: Pod, stored: Pod, approved: bool) {
    && Lists(items, pods)
    && newPod.uid == "" && newPod.created == 0
    && (forall p :: p in pods ==> !SameObject(p, newPod))
    && Decides(pacers, items, newPod, approved)
    && StoredAs(pods, stored, approved)
    && pods' == pods + {stored}
  }

  ghost predicate Readmits(pacers: seq<Pacer>, pods: set<Pod>, pods': set<Pod>) {
    exists items, newPod, stored, approved :: Readmit(pacers, pods, pods', items, newPod, stored, approved)
  }

  datatype Counts = Counts(ready: nat, starting: nat, blocked: nat)

  ghost function CountsOf(pods: set<Pod>): Counts {
    Counts(Count(IsReady, pods), Count(IsStarting, pods), Count(IsBlocked, pods))
  }

  /** A pass under way: the next selected pod to evict, how many evictions were accepted so far,
      and how many of the evicted pods are back. */
  datatype Progress = Progress(pods: set<Pod>, next: nat, gone: nat, back: nat)

  ghost predicate Evicts(selected: seq<Pod>, s: Progress, s': Progress) {
    s.next < |selected| && s' == Progress(s.pods - {selected[s.next]}, s.next + 1, s.gone + 1, s.back)
  }

  /** The eviction API turned the request down; the pass goes on with the next pod. */
  ghost predicate Refuses(selected: seq<Pod>, s: Progress, s': Progress) {
    s.next < |selected| && s' == s.(next := s.next + 1)
  }

  /** The owner recreates a pod that is gone, and admission decides on it. */
  ghost predicate Returns(pacers: seq<Pacer>, s: Progress, s': Progress) {
    s.back < s.gone && Readmits(pacers, s.pods, s'.pods) && s' == Progress(s'.pods, s.next, s.gone, s.back + 1)
  }

  ghost predicate PassStep(pacers: seq<Pacer>, selected: seq<Pod>, s: Progress, s': Progress) {
    Evicts(selected, s, s') || Refuses(selected, s, s') || Returns(pacers, s, s')
  }

  /** Steps of a pass over `pods`: evictions in the order of the selection, each accepted or not,
      and readmissions in between. */
  ghost predicate PassSteps(pacers: seq<Pacer>, pods: set<Pod>, selected: seq<Pod>, trace: seq<Progress>) {
    && trace != []
    && trace[0] == Progress(pods, 0, 0, 0)
    && forall j :: 0 <= j < |trace| - 1 ==> PassStep(pacers, selected, trace[j], trace[j + 1])
  }

  /** One reconcile pass and its aftermath: every pod the listing selects is dealt with, and every
      evicted one is back. */
  ghost predicate ReconcilePass(pacers: seq<Pacer>, pods: set<Pod>, items: seq<Pod>, selected: seq<Pod>, trace: seq<Progress>) {
    && Lists(items, pods)
    && Selects(pacers, items, selected)
    && PassSteps(pacers, pods, selected, trace)
    && Last(trace).next == |selected|
    && Last(trace).back == Last(trace).gone
  }

  function Last(trace: seq<Progress>): Progress
    requires trace != []
  {
    trace[|trace| - 1]
  }

  /** A readmission is two steps of the pacing protocol without overlap. */
  lemma ReadmitIsProtocolSteps(pacers: seq<Pacer>, pods: set<Pod>, pods': set<Pod>, items: seq<Pod>, newPod: Pod, stored: Pod, approved: bool)
    returns (mid: Cluster)
    requires Readmit(pacers, pods, pods', items, newPod, stored, approved)
    ensures Decide(pacers, 1, Cluster(pods, multiset{}, multiset{}), mid, items, newPod, approved)
    ensures Commit(mid, Cluster(pods', multiset{}, multiset{}), newPod, stored)
  {
    hide Decides, StoredAs, Lists;
    if approved {
      mid := Cluster(pods, multiset{newPod}, multiset{});
      assert mid.approved - multiset{newPod} == multiset{};
    } else {
      mid := Cluster(pods, multiset{}, multiset{newPod});
      assert mid.denied - multiset{newPod} == multiset{};
    }
  }

  /** A pass took the pods from one set to the other, with at least `quota` of its evictions
      accepted, or all of them. */
  ghost predicate PassLeadsTo(pacers: seq<Pacer>, quota: nat, pods: set<Pod>, pods': set<Pod>) {
    exists items, selected, trace ::
      && ReconcilePass(pacers, pods, items, selected, trace)
      && Last(trace).gone >= Min(quota, |selected|)
      && pods' == Last(trace).pods
  }

  ghost predicate NoneRefused(trace: seq<Progress>)
    requires trace != []
  {
    Last(trace).gone == Last(trace).next
  }

  /** Every pod is back before the next one is evicted. */
  ghost predicate OneByOne(trace: seq<Progress>) {
    forall j :: 0 <= j < |trace| - 1 && trace[j + 1].next > trace[j].next ==> trace[j].back == trace[j].gone
  }

  /** No pod is back before every eviction was asked for. */
  ghost predicate EvictsFirst(selected: seq<Pod>, trace: seq<Progress>) {
    forall j :: 0 <= j < |trace| - 1 && trace[j + 1].back > trace[j].back ==> trace[j].next == |selected|
  }

  // ----- eviction -----

  lemma {:induction false} ChosenIsPart(pods: seq<Pod>, results: seq<seq<Pod>>)
    ensures multiset(Chosen(pods, results)) <= multiset(pods)
  {
    if pods != [] {
      ChosenIsPart(pods[..|pods| - 1], results);
      assert pods == pods[..|pods| - 1] + [pods[|pods| - 1]];
    }
  }

  /** A pass never evicts more pods than any inner pacer allows. */
  lemma ChosenWithinEveryCount(pacers: seq<Pacer>, ready: nat, starting: nat, lists: seq<seq<Pod>>, results: seq<seq<Pod>>, i: nat)
    requires Passes(pacers, ready, starting, lists, results) && i < |pacers|
    requires DistinctUids(multiset(lists[0]))
    ensures |Chosen(lists[|pacers|], results)| <= AllowedCount(pacers[i], ready, starting, |lists[0]|)
  {
    var chosen := Chosen(lists[|pacers|], results);
    PassesKeepPods(pacers, ready, starting, lists, results, i);
    PassesKeepPods(pacers, ready, starting, lists, results, |pacers|);
    ChosenIsPart(lists[|pacers|], results);
    assert PaceOutcome(pacers[i], ready, starting, lists[i], lists[i + 1], results[i]);
    forall p ensures multiset(chosen)[p] <= multiset(results[i])[p] {
      if p in multiset(chosen) {
        ExactIntersection(pacers, ready, starting, lists, results, p);
        assert p in lists[0] && p in results[i];
        assert multiset(chosen)[p] <= multiset(lists[0])[p] == 1;
        assert p in multiset(results[i]);
      }
    }
    PartIsSmaller(multiset(chosen), multiset(results[i]));
  }

  lemma SelectedAreBlocked(pacers: seq<Pacer>, pods: set<Pod>, items: seq<Pod>, evicted: seq<Pod>)
    requires Identified(pods) && Lists(items, pods) && Selects(pacers, items, evicted)
    ensures DistinctUids(multiset(Filter(IsBlocked, items)))
    ensures multiset(evicted) <= multiset(Filter(IsBlocked, items))
    ensures forall p :: p in evicted ==> p in pods && p.blocked
  {
    var blocked := Filter(IsBlocked, items);
    var lists: seq<seq<Pod>>, results: seq<seq<Pod>> :|
      && Passes(pacers, |Filter(IsReady, items)|, |Filter(IsStarting, items)|, lists, results)
      && lists[0] == blocked
      && evicted == Chosen(lists[|pacers|], results);
    var somePod := Pod("", "", "", "", 0, map[], "", false, []);
    BlockedAreFresh(items, pods, somePod);
    ChosenIsPart(lists[|pacers|], results);
    PassesKeepPods(pacers, |Filter(IsReady, items)|, |Filter(IsStarting, items)|, lists, results, |pacers|);
    forall p | p in evicted ensures p in blocked {
      assert p in multiset(evicted);
      assert p in multiset(blocked);
    }
  }

  /** Evicting one blocked pod more. */
  lemma EvictOne(pods: set<Pod>, p: Pod)
    requires p in pods && p.blocked
    ensures Count(IsBlocked, pods) >= 1
    ensures CountsOf(pods - {p}) == CountsOf(pods).(blocked := Count(IsBlocked, pods) - 1)
  {
    CountRemove(IsReady, pods, p);
    CountRemove(IsStarting, pods, p);
    CountRemove(IsBlocked, pods, p);
  }

  ghost predicate NoCopies(pods: seq<Pod>) {
    forall i, j :: 0 <= i < j < |pods| ==> pods[i] != pods[j]
  }

  lemma PartOfDistinctHasNoCopies(pods: seq<Pod>)
    requires DistinctUids(multiset(pods))
    ensures NoCopies(pods)
  {
    forall i, j | 0 <= i < j < |pods| ensures pods[i] != pods[j] {
      PrefixIsDistinct(pods, j);
      assert pods[..j][i] == pods[i];
    }
  }

  lemma SelectionSize(pacers: seq<Pacer>, items: seq<Pod>, evicted: seq<Pod>)
    requires Selects(pacers, items, evicted) && DistinctUids(multiset(Filter(IsBlocked, items)))
    ensures AllCanPace(pacers)
    ensures var r, s, b := |Filter(IsReady, items)|, |Filter(IsStarting, items)|, |Filter(IsBlocked, items)|;
            && (forall i :: 0 <= i < |pacers| ==> |evicted| <= AllowedCount(pacers[i], r, s, b))
            && (|pacers| == 1 ==> |evicted| == AllowedCount(pacers[0], r, s, b))
  {
    var r, s := |Filter(IsReady, items)|, |Filter(IsStarting, items)|;
    var lists: seq<seq<Pod>>, results: seq<seq<Pod>> :|
      && Passes(pacers, r, s, lists, results)
      && lists[0] == Filter(IsBlocked, items)
      && evicted == Chosen(lists[|pacers|], results);
    forall i | 0 <= i < |pacers| ensures |evicted| <= AllowedCount(pacers[i], r, s, |lists[0]|) {
      ChosenWithinEveryCount(pacers, r, s, lists, results, i);
    }
    if |pacers| == 1 {
      assert pacers == [pacers[0]];
      LonePacer(pacers[0], r, s, lists, results);
    }
  }

  /** What a group of one pacer selects is what the pacer allows on the blocked pods as listed. */
  lemma LoneSelection(p: Pacer, items: seq<Pod>, selected: seq<Pod>) returns (after: seq<Pod>)
    requires Selects([p], items, selected) && DistinctUids(multiset(Filter(IsBlocked, items)))
    ensures CanPace(p)
    ensures PaceOutcome(p, |Filter(IsReady, items)|, |Filter(IsStarting, items)|, Filter(IsBlocked, items), after, selected)
  {
    var r, s := |Filter(IsReady, items)|, |Filter(IsStarting, items)|;
    var lists: seq<seq<Pod>>, results: seq<seq<Pod>> :|
      && Passes([p], r, s, lists, results)
      && lists[0] == Filter(IsBlocked, items)
      && selected == Chosen(lists[|[p]|], results);
    LonePacer(p, r, s, lists, results);
    hide Filter, Chosen, DistinctUids, PaceOutcome;
    assert PaceOutcome([p][0], r, s, lists[0], lists[0 + 1], results[0]);
    after := lists[1];
  }

  /** A lone linear pacer selects the first of the blocked pods as they were listed, up to the next
      multiple of the step. */
  lemma LinearSelection(key: string, config: LinearConfig, items: seq<Pod>, selected: seq<Pod>, steps: int)
    requires Selects([Linear(key, config)], items, selected) && DistinctUids(multiset(Filter(IsBlocked, items)))
    requires config.step > 0 && config.step * (steps - 1) <= |Filter(IsReady, items)| < config.step * steps
    ensures var ready, starting, blocked := |Filter(IsReady, items)|, |Filter(IsStarting, items)|, Filter(IsBlocked, items);
            var gap := config.step * steps - ready;
            && |selected| <= |blocked| && selected == blocked[..|selected|]
            && |selected| == if ready >= config.maxStagger then |blocked| else if gap <= starting then 0 else if gap < |blocked| then gap else |blocked|
  {
    hide Selects, DistinctUids, Filter, PaceOutcome;
    var after := LoneSelection(Linear(key, config), items, selected);
    LinearInNumbers(key, config, |Filter(IsReady, items)|, |Filter(IsStarting, items)|, Filter(IsBlocked, items), after, selected, steps);
  }

  /** A lone exponential pacer selects the oldest: no selected pod is newer than one that stays. */
  lemma ExponentialSelection(key: string, config: ExponentialConfig, items: seq<Pod>, selected: seq<Pod>, wanted: int)
    requires Selects([Exponential(key, config)], items, selected) && DistinctUids(multiset(Filter(IsBlocked, items)))
    requires var ready := |Filter(IsReady, items)|;
             if ready == 0 then wanted == config.minInitial
             else wanted as real - 1.0 < ready as real * config.multiplier <= wanted as real
    ensures var ready, starting, blocked := |Filter(IsReady, items)|, |Filter(IsStarting, items)|, Filter(IsBlocked, items);
            && (ready >= config.maxStagger ==> selected == blocked)
            && (ready < config.maxStagger ==>
                 && |selected| == (if wanted <= starting then 0 else if wanted - starting < |blocked| then wanted - starting else |blocked|)
                 && forall p, q :: p in selected && q in blocked && q !in selected ==> p.created <= q.created)
  {
    hide Selects, DistinctUids, Filter, PaceOutcome;
    var p, r, s, blocked := Exponential(key, config), |Filter(IsReady, items)|, |Filter(IsStarting, items)|, Filter(IsBlocked, items);
    var after := LoneSelection(p, items, selected);
    ExponentialInNumbers(key, config, r, s, blocked, after, selected, wanted);
    if r < config.maxStagger {
      OldestGo(p, r, s, blocked, after, selected);
    }
  }

  /** What a selection is, in terms of the counts. */
  lemma SelectionCounts(pacers: seq<Pacer>, pods: set<Pod>, items: seq<Pod>, selected: seq<Pod>)
    requires Identified(pods) && Lists(items, pods) && Selects(pacers, items, selected)
    ensures NoCopies(selected) && (forall p :: p in selected ==> p in pods && p.blocked)
    ensures AllCanPace(pacers)
    ensures var c := CountsOf(pods);
            && (forall i :: 0 <= i < |pacers| ==> |selected| <= AllowedCount(pacers[i], c.ready, c.starting, c.blocked))
            && (|pacers| == 1 ==> |selected| == AllowedCount(pacers[0], c.ready, c.starting, c.blocked))
  {
    hide Selects, Filter, Count, DistinctUids;
    SelectedAreBlocked(pacers, pods, items, selected);
    SelectionSize(pacers, items, selected);
    SubIsDistinct(multiset(selected), multiset(Filter(IsBlocked, items)));
    PartOfDistinctHasNoCopies(selected);
    FilterLists(IsReady, items, pods);
    FilterLists(IsStarting, items, pods);
    FilterLists(IsBlocked, items, pods);
  }

  // ----- readmission -----

  ghost predicate FreshApproved(pacers: seq<Pacer>, c: Counts)
    requires AllCanPace(pacers)
  {
    pacers != [] && forall i :: 0 <= i < |pacers| ==>
      AllowsFresh(pacers[i], c.ready, c.starting, c.blocked, SortsBefore(pacers, c.ready, i))
  }

  ghost function AfterReadmission(pacers: seq<Pacer>, c: Counts): Counts
    requires AllCanPace(pacers)
  {
    if FreshApproved(pacers, c) then c.(starting := c.starting + 1) else c.(blocked := c.blocked + 1)
  }

  /** What one readmission does to the counts is decided by the counts alone. */
  lemma ReadmissionCounts(pacers: seq<Pacer>, pods: set<Pod>, pods': set<Pod>)
    requires Identified(pods) && Readmits(pacers, pods, pods') && AllCanPace(pacers)
    ensures Identified(pods')
    ensures CountsOf(pods') == AfterReadmission(pacers, CountsOf(pods))
  {
    var items, newPod, stored, approved :| Readmit(pacers, pods, pods', items, newPod, stored, approved);
    BlockedAreFresh(items, pods, newPod);
    FilterLists(IsReady, items, pods);
    FilterLists(IsStarting, items, pods);
    FilterLists(IsBlocked, items, pods);
    StoringKeepsIdentified(pods, stored, approved);
    hide Count, DistinctUids, Lists;
    DecisionIsThreshold(pacers, items, newPod, approved);
  }

  // ----- a pass in counts -----

  datatype Kind = Eviction | Refusal | Return

  function KindOf(s: Progress, s': Progress): Kind {
    if s'.back > s.back then Return else if s'.gone > s.gone then Eviction else Refusal
  }

  ghost function AfterStep(pacers: seq<Pacer>, c: Counts, kind: Kind): Counts
    requires AllCanPace(pacers)
  {
    match kind
    case Eviction => if c.blocked == 0 then c else c.(blocked := c.blocked - 1)
    case Refusal => c
    case Return => AfterReadmission(pacers, c)
  }

  /** What every state of a pass looks like: the pods still to be evicted are there, blocked. */
  ghost predicate InPass(selected: seq<Pod>, s: Progress) {
    && Identified(s.pods)
    && s.back <= s.gone <= s.next <= |selected|
    && forall i :: s.next <= i < |selected| ==> selected[i] in s.pods && selected[i].blocked
  }

  lemma EvictionCounts(pacers: seq<Pacer>, selected: seq<Pod>, s: Progress, s': Progress)
    requires NoCopies(selected) && InPass(selected, s) && Evicts(selected, s, s')
    ensures InPass(selected, s') && Count(IsBlocked, s.pods) >= 1
    ensures CountsOf(s'.pods) == CountsOf(s.pods).(blocked := Count(IsBlocked, s.pods) - 1)
  {
    EvictOne(s.pods, selected[s.next]);
    RemovingKeepsIdentified(s.pods, selected[s.next]);
  }

  lemma ReturnCounts(pacers: seq<Pacer>, selected: seq<Pod>, s: Progress, s': Progress)
    requires AllCanPace(pacers) && InPass(selected, s) && Returns(pacers, s, s')
    ensures InPass(selected, s')
    ensures CountsOf(s'.pods) == AfterReadmission(pacers, CountsOf(s.pods))
  {
    hide Identified, Readmit, AfterReadmission, CountsOf;
    ReadmissionCounts(pacers, s.pods, s'.pods);
    ReadmittingAddsOnly(pacers, s.pods, s'.pods);
  }

  lemma ReadmittingAddsOnly(pacers: seq<Pacer>, pods: set<Pod>, pods': set<Pod>)
    requires Readmits(pacers, pods, pods')
    ensures pods <= pods'
  {
  }

  lemma RefusalKeepsPass(selected: seq<Pod>, s: Progress, s': Progress)
    requires InPass(selected, s) && Refuses(selected, s, s')
    ensures InPass(selected, s')
  {
  }

  lemma StepCounts(pacers: seq<Pacer>, selected: seq<Pod>, s: Progress, s': Progress)
    requires AllCanPace(pacers) && NoCopies(selected) && InPass(selected, s) && PassStep(pacers, selected, s, s')
    ensures InPass(selected, s')
    ensures CountsOf(s'.pods) == AfterStep(pacers, CountsOf(s.pods), KindOf(s, s'))
  {
    hide InPass, Count, AfterReadmission, Readmits, NoCopies;
    if Evicts(selected, s, s') {
      EvictionCounts(pacers, selected, s, s');
    } else if Returns(pacers, s, s') {
      ReturnCounts(pacers, selected, s, s');
    } else {
      RefusalKeepsPass(selected, s, s');
    }
  }

  /** The schedule of a pass: what happened in its first j steps. */
  function Schedule(trace: seq<Progress>, j: nat): seq<Kind>
    requires j < |trace|
  {
    if j == 0 then [] else Schedule(trace, j - 1) + [KindOf(trace[j - 1], trace[j])]
  }

  ghost function AfterSchedule(pacers: seq<Pacer>, c: Counts, schedule: seq<Kind>): Counts
    requires AllCanPace(pacers)
  {
    if schedule == [] then c
    else AfterStep(pacers, AfterSchedule(pacers, c, schedule[..|schedule| - 1]), schedule[|schedule| - 1])
  }

  /** However listings, ties and names fall out, the counts along a pass are determined by the
      counts before it and the schedule of its evictions, refusals and readmissions. */
  lemma {:induction false} PassCounts(pacers: seq<Pacer>, pods: set<Pod>, items: seq<Pod>, selected: seq<Pod>, trace: seq<Progress>, j: nat)
    requires Identified(pods) && ReconcilePass(pacers, pods, items, selected, trace) && j < |trace|
    ensures AllCanPace(pacers) && InPass(selected, trace[j])
    ensures CountsOf(trace[j].pods) == AfterSchedule(pacers, CountsOf(pods), Schedule(trace, j))
  {
    SelectionCounts(pacers, pods, items, selected);
    hide Identified, CountsOf, Selects, Lists, PassStep, AfterStep, NoCopies;
    if j > 0 {
      hide InPass;
      PassCounts(pacers, pods, items, selected, trace, j - 1);
      assert PassStep(pacers, selected, trace[j - 1], trace[j - 1 + 1]);
      StepCounts(pacers, selected, trace[j - 1], trace[j]);
      assert Schedule(trace, j)[..|Schedule(trace, j)| - 1] == Schedule(trace, j - 1);
    }
  }

  predicate AllExponential(pacers: seq<Pacer>) {
    forall i :: 0 <= i < |pacers| ==> pacers[i].Exponential?
  }

  /** A fresh pod is approved as long as fewer pods are back than every inner pacer allowed. */
  lemma ExponentialApproval(pacers: seq<Pacer>, c: Counts, n: nat, back: nat, blocked: nat)
    requires pacers != [] && AllExponential(pacers) && AllCanPace(pacers) && back < n
    requires forall i :: 0 <= i < |pacers| ==> n <= AllowedCount(pacers[i], c.ready, c.starting, c.blocked)
    ensures FreshApproved(pacers, Counts(c.ready, c.starting + back, blocked))
  {
    forall i | 0 <= i < |pacers|
      ensures AllowsFresh(pacers[i], c.ready, c.starting + back, blocked, SortsBefore(pacers, c.ready, i))
    {
      assert n <= AllowedCount(pacers[i], c.ready, c.starting, c.blocked);
    }
  }

  /** No bounce: with exponential pacers every evicted pod is admitted when it comes back. At any
      moment of a pass blocked has fallen by exactly the number gone and starting has risen by
      the number back, whatever the order of evictions, refusals and readmissions, of the
      listings and of ties. */
  lemma {:induction false} NoBounce(pacers: seq<Pacer>, pods: set<Pod>, items: seq<Pod>, selected: seq<Pod>, trace: seq<Progress>, j: nat)
    requires pacers != [] && AllExponential(pacers) && Identified(pods)
    requires ReconcilePass(pacers, pods, items, selected, trace) && j < |trace|
    ensures trace[j].back <= trace[j].gone <= |selected| && trace[j].gone <= Count(IsBlocked, pods)
    ensures CountsOf(trace[j].pods)
         == Counts(Count(IsReady, pods), Count(IsStarting, pods) + trace[j].back, Count(IsBlocked, pods) - trace[j].gone)
  {
    SelectionCounts(pacers, pods, items, selected);
    PassCounts(pacers, pods, items, selected, trace, j);
    hide Identified, Count, Selects, Lists, Readmits, AfterSchedule, NoCopies;
    if j > 0 {
      NoBounce(pacers, pods, items, selected, trace, j - 1);
      PassCounts(pacers, pods, items, selected, trace, j - 1);
      assert PassStep(pacers, selected, trace[j - 1], trace[j - 1 + 1]);
      NoBounceStep(pacers, CountsOf(pods), selected, trace[j - 1], trace[j]);
    }
  }

  lemma NoBounceStep(pacers: seq<Pacer>, c: Counts, selected: seq<Pod>, s: Progress, s': Progress)
    requires pacers != [] && AllExponential(pacers) && AllCanPace(pacers) && NoCopies(selected)
    requires InPass(selected, s) && PassStep(pacers, selected, s, s')
    requires forall i :: 0 <= i < |pacers| ==> |selected| <= AllowedCount(pacers[i], c.ready, c.starting, c.blocked)
    requires s.gone <= c.blocked && CountsOf(s.pods) == Counts(c.ready, c.starting + s.back, c.blocked - s.gone)
    ensures s'.gone <= c.blocked && CountsOf(s'.pods) == Counts(c.ready, c.starting + s'.back, c.blocked - s'.gone)
  {
    hide Count, Identified, Readmits, FreshApproved, NoCopies;
    StepCounts(pacers, selected, s, s');
    if Returns(pacers, s, s') {
      ExponentialApproval(pacers, c, |selected|, s.back, c.blocked - s.gone);
    } else if Evicts(selected, s, s') {
      EvictionCounts(pacers, selected, s, s');
    }
  }
}
