/** The reconciler: which pods a request evicts and when it asks to be called again. */
module Reconciler {
  import opened Pods
  import opened Pacers
  import opened Composite
  import opened Standing
  import opened Rounds
  import opened ControllerTypes
  import opened Classifier

  datatype Lookup = Found(pod: Pod) | NotFound | Failed

  datatype Outcome = Done | Requeue(after: int) | Error

  /** The eviction API: true if it accepted the eviction or the pod is gone already. */
  type Evictions = Pod -> bool

  const DEFAULT_RESYNC := 60_000_000_000

  /** Asks for the eviction of every pod in turn; the names of those that are gone are returned. */
  method EvictAll(pods: seq<Pod>, evict: Evictions) returns (gone: set<NamespacedName>)
    ensures forall key :: key in gone <==> exists p :: p in pods && p.namespace == key.namespace && p.name == key.name && evict(p)
  {
    gone := {};
    for i := 0 to |pods|
      invariant forall key :: key in gone <==> exists p :: p in pods[..i] && p.namespace == key.namespace && p.name == key.name && evict(p)
    {
      assert pods[..i + 1] == pods[..i] + [pods[i]];
      if evict(pods[i]) {
        gone := gone + {ObjectKey(pods[i])};
      }
    }
    assert pods[..|pods|] == pods;
  }

  /** The part of Reconcile that follows the group lookup. `selected` is what the pacers let go,
      `evicted` lists the evictions asked for, in order. */
  method ReconcileGroup(pod: Pod, group: Classification, items: seq<Pod>, evict: Evictions, now: int, resyncDuration: int)
    returns (outcome: Outcome, evicted: seq<Pod>, selected: seq<Pod>)
    requires AllCanPace(group.pacers)
    ensures Selects(group.pacers, items, selected)
    ensures var deadline := group.maxBlockedDuration > 0 && pod.created != 0;
            var left := pod.created + group.maxBlockedDuration - now;
            var unblocked := exists p :: p in selected && p.name == pod.name && p.namespace == pod.namespace && evict(p);
            var expired := !unblocked && deadline && left <= 0;
            && evicted == selected + (if expired then [pod] else [])
            && (outcome == Done <==> unblocked || (expired && evict(pod)))
            && outcome != Error
            && (outcome.Requeue? ==> outcome.after <= resyncDuration)
            && (outcome.Requeue? && deadline && left > 0 ==> outcome.after <= left && (outcome.after == left || outcome.after == resyncDuration))
            && (outcome.Requeue? && !(deadline && left > 0) ==> outcome.after == resyncDuration)
  {
    var ready, starting, blocked := ClassifyPodGroup(items);
    var composite := new CompositePacer(group.id, group.pacers);
    var slice := new Pod[|blocked|](i requires 0 <= i < |blocked| => blocked[i]);
    assert slice[..] == blocked;
    var unblocked, lists, results := composite.Pace(PodClassification(ready, starting, slice));
    selected := unblocked;
    assert Selects(group.pacers, items, selected) by {
      assert lists[0] == Filter(IsBlocked, items);
    }
    var unblockedPods := EvictAll(unblocked, evict);
    evicted := unblocked;
    if ObjectKey(pod) in unblockedPods {
      return Done, evicted, selected;
    }
    var policyMaxDuration := group.maxBlockedDuration;
    var durationUntilUnblock := 0;
    if policyMaxDuration > 0 && pod.created != 0 {
      var timeSinceCreation := now - pod.created;
      durationUntilUnblock := policyMaxDuration - timeSinceCreation;
      if durationUntilUnblock <= 0 {
        evicted := evicted + [pod];
        if evict(pod) {
          return Done, evicted, selected;
        }
      }
    }
    var resync := resyncDuration;
    if group.maxBlockedDuration > 0 && durationUntilUnblock > 0 {
      resync := Min(resync, durationUntilUnblock);
    }
    outcome := Requeue(resync);
  }

  /** The reconciler looks further only at staggered or ready pods that carry a group label. */
  predicate Interesting(pod: Pod) {
    && Enabled(pod.labels)
    && (STAGGERED_POD_LABEL in pod.labels || HasReadyCondition(pod))
    && GROUP_ID_LABEL in pod.labels && pod.labels[GROUP_ID_LABEL] != ""
  }

  /** The pods it looks at, label by label: enabled, in a group, and either staggered or ready,
      for only ready pods make room. */
  lemma InterestingInFields(pod: Pod)
    ensures Interesting(pod) <==>
            && "v1.straggler.technicianted/enable" in pod.labels && pod.labels["v1.straggler.technicianted/enable"] == "1"
            && "v1.straggler.technicianted/group" in pod.labels && pod.labels["v1.straggler.technicianted/group"] != ""
            && ("v1.straggler.technicianted/staggered" in pod.labels
                || exists c :: c in pod.conditions && c.kind == "Ready" && c.status == "True")
  {
    assert forall c :: c in pod.conditions && c.kind == "Ready" && c.status == "True" ==> c == READY;
  }

  /** Reconcile composed with the real classifier. Only pods the pacers let go are evicted: the
      lookup by group id never carries a MaxBlockedDuration, so no deadline is ever enforced. */
  method Reconcile(lookup: Lookup, classifier: PodClassifier, listed: Result<seq<Pod>>, evict: Evictions, now: int)
    returns (outcome: Outcome, evicted: seq<Pod>)
    requires forall id :: id in classifier.groupsByID ==> AllCanPace(classifier.groupsByID[id].pacers)
    ensures !(lookup.Found? && Interesting(lookup.pod)) ==> evicted == [] && outcome == (if lookup.Failed? then Error else Done)
    ensures lookup.Found? && Interesting(lookup.pod) ==>
              var id := lookup.pod.labels["v1.straggler.technicianted/group"];
              if id !in classifier.groupsByID || listed.Err? then
                evicted == [] && outcome == Error
              else
                && Selects(classifier.groupsByID[id].pacers, listed.value, evicted)
                && outcome == (if exists p :: p in evicted && p.name == lookup.pod.name && p.namespace == lookup.pod.namespace && evict(p)
                               then Done else Requeue(60 * 1_000_000_000))
  {
    evicted := [];
    if lookup.Failed? {
      return Error, [];
    }
    if lookup.NotFound? {
      return Done, [];
    }
    var pod := lookup.pod;
    if !Enabled(pod.labels) {
      return Done, [];
    }
    if STAGGERED_POD_LABEL !in pod.labels {
      var ready := IsPodReady(pod);
      if !ready {
        return Done, [];
      }
    }
    if GROUP_ID_LABEL !in pod.labels || |pod.labels[GROUP_ID_LABEL]| == 0 {
      return Done, [];
    }
    var group := classifier.ClassifyByGroupID(pod.labels[GROUP_ID_LABEL]);
    if group.None? || listed.Err? {
      return Error, [];
    }
    var selected;
    outcome, evicted, selected := ReconcileGroup(pod, group.value, listed.value, evict, now, DEFAULT_RESYNC);
    assert evicted == selected;
  }

  /** What a selection is: blocked pods of the listing, none twice. */
  lemma SelectionIsSafe(pacers: seq<Pacer>, items: seq<Pod>, evicted: seq<Pod>)
    requires Selects(pacers, items, evicted)
    requires DistinctUids(multiset(items))
    ensures forall p :: p in evicted ==> p in items && p.blocked
    ensures forall i, j :: 0 <= i < j < |evicted| ==> evicted[i].uid != evicted[j].uid
  {
    var blocked := Filter(IsBlocked, items);
    var lists: seq<seq<Pod>>, results: seq<seq<Pod>> :|
      && Passes(pacers, |Filter(IsReady, items)|, |Filter(IsStarting, items)|, lists, results)
      && lists[0] == blocked
      && evicted == Chosen(lists[|pacers|], results);
    ChosenIsPart(lists[|pacers|], results);
    PassesKeepPods(pacers, |Filter(IsReady, items)|, |Filter(IsStarting, items)|, lists, results, |pacers|);
    StandingsPartition(items);
    assert multiset(evicted) <= multiset(blocked) <= multiset(items);
    SubIsDistinct(multiset(evicted), multiset(items));
    PartOfDistinctHasNoCopies(evicted);
    forall p | p in evicted ensures p in items && p.blocked {
      assert p in multiset(evicted);
      assert p in multiset(blocked);
      assert p in blocked;
    }
    forall i, j | 0 <= i < j < |evicted| ensures evicted[i].uid != evicted[j].uid {
      assert evicted[i] in multiset(evicted) && evicted[j] in multiset(evicted);
    }
  }
}
