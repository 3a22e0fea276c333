/** The admission controller's handling of a pod. */
module Admission {
  import opened Pods
  import opened Pacers
  import opened Composite
  import opened SharedOrder
  import opened Standing
  import opened ControllerTypes

  /** The pod object the webhook mutates in place. */
  class PodObject {
    var pod: Pod

    constructor (pod: Pod)
      ensures this.pod == pod
    {
      this.pod := pod;
    }
  }

  predicate SameObject(a: Pod, b: Pod) {
    a.name == b.name && a.namespace == b.namespace && a.generateName == b.generateName
  }

  /** One possible decision: the new pod is paced behind the listed blocked pods and approved
      if something that looks like it is among the pods let go. */
  ghost predicate Decides(pacers: seq<Pacer>, items: seq<Pod>, newPod: Pod, approved: bool) {
    exists lists, results ::
      && Passes(pacers, |Filter(IsReady, items)|, |Filter(IsStarting, items)|, lists, results)
      && lists[0] == Filter(IsBlocked, items) + [newPod]
      && (approved <==> exists q :: q in Chosen(lists[|pacers|], results) && SameObject(q, newPod))
  }

  function WithLabel(pod: Pod, labelName: string, value: string): Pod {
    pod.(labels := pod.labels[labelName := value])
  }

  /** What admission makes of a pod, given how the classifier answered and what the client
      listed for the group. */
  ghost predicate Handled(was: Pod, now: Pod, classified: Result<Option<Classification>>, listed: Result<seq<Pod>>, err: Option<string>)
  {
    if !Enabled(was.labels) then
      now == was && err == None
    else if JOB_POD_LABEL in was.labels then
      now == was.(blocked := true) && err == None
    else if classified.Err? then
      now == was && err.Some?
    else if classified.value.None? then
      now == was && err == None
    else
      var labelled := WithLabel(was, GROUP_ID_LABEL, classified.value.value.id);
      if listed.Err? then
        now == labelled && err.Some?
      else
        && err == None
        && (|| (now == labelled && Decides(classified.value.value.pacers, listed.value, labelled, true))
            || (now == WithLabel(labelled, STAGGERED_POD_LABEL, "1").(blocked := true)
                && Decides(classified.value.value.pacers, listed.value, labelled, false)))
  }

  method HandlePodAdmission(obj: PodObject, classified: Result<Option<Classification>>, listed: Result<seq<Pod>>)
    returns (err: Option<string>)
    requires classified.Ok? && classified.value.Some? ==> AllCanPace(classified.value.value.pacers)
    modifies obj
    ensures Handled(old(obj.pod), obj.pod, classified, listed, err)
  {
    if !Enabled(obj.pod.labels) {
      return None;
    }
    if JOB_POD_LABEL in obj.pod.labels {
      obj.pod := obj.pod.(blocked := true);
      return None;
    }
    if classified.Err? {
      return Some("failed to classify group: " + classified.error);
    }
    if classified.value.None? {
      return None;
    }
    var group := classified.value.value;
    obj.pod := WithLabel(obj.pod, GROUP_ID_LABEL, group.id);
    if listed.Err? {
      return Some("failed to classify pod group: " + listed.error);
    }
    var approved := PaceOne(group, listed.value, obj.pod);
    if !approved {
      obj.pod := WithLabel(obj.pod, STAGGERED_POD_LABEL, "1").(blocked := true);
    }
    return None;
  }

  method PaceOne(group: Classification, items: seq<Pod>, newPod: Pod) returns (approved: bool)
    requires AllCanPace(group.pacers)
    ensures Decides(group.pacers, items, newPod, approved)
  {
    var ready, starting, blocked := ClassifyPodGroup(items);
    var composite := new CompositePacer(group.id, group.pacers);
    var queue := blocked + [newPod];
    var slice := new Pod[|queue|](i requires 0 <= i < |queue| => queue[i]);
    assert slice[..] == queue;
    var unblocked, lists, results := composite.Pace(PodClassification(ready, starting, slice));
    approved := FindObject(unblocked, newPod);
  }

  /** The search loop over the pods the composite let go. */
  method FindObject(unblocked: seq<Pod>, newPod: Pod) returns (found: bool)
    ensures found <==> exists q :: q in unblocked && SameObject(q, newPod)
  {
    for i := 0 to |unblocked|
      invariant forall q :: q in unblocked[..i] ==> !SameObject(q, newPod)
    {
      if SameObject(unblocked[i], newPod) {
        return true;
      }
    }
    assert unblocked[..|unblocked|] == unblocked;
    return false;
  }

  /** Every listing admits a decision. */
  lemma SomeVerdict(pacers: seq<Pacer>, items: seq<Pod>, newPod: Pod) returns (approved: bool)
    requires AllCanPace(pacers)
    ensures Decides(pacers, items, newPod, approved)
  {
    var r, s := |Filter(IsReady, items)|, |Filter(IsStarting, items)|;
    var lists, results := SomePasses(pacers, r, s, Filter(IsBlocked, items) + [newPod]);
    approved := exists q :: q in Chosen(lists[|pacers|], results) && SameObject(q, newPod);
  }

  /** Admission with bypassFailures set swallows the error and nothing else: the pod goes through
      as far as it was handled, unblocked if the failure came before the pacing decision. */
  method Default(obj: PodObject, classified: Result<Option<Classification>>, listed: Result<seq<Pod>>, bypassFailures: bool)
    returns (err: Option<string>)
    requires classified.Ok? && classified.value.Some? ==> AllCanPace(classified.value.value.pacers)
    modifies obj
    ensures exists e :: Handled(old(obj.pod), obj.pod, classified, listed, e) && err == if bypassFailures then None else e
  {
    err := HandlePodAdmission(obj, classified, listed);
    assert Handled(old(obj.pod), obj.pod, classified, listed, err);
    if bypassFailures && err.Some? {
      err := None;
    }
  }

  /** The decision is a function of the standings, whichever order the list came in and however
      the unstable sort falls out: the pod is approved exactly when every inner pacer allows it. */
  lemma DecisionIsThreshold(pacers: seq<Pacer>, items: seq<Pod>, newPod: Pod, approved: bool)
    requires Decides(pacers, items, newPod, approved)
    requires DistinctUids(multiset(Filter(IsBlocked, items))) && FreshAmong(newPod, Filter(IsBlocked, items))
    requires forall q :: q in Filter(IsBlocked, items) ==> !SameObject(q, newPod)
    ensures approved <==>
            && AllCanPace(pacers) && pacers != []
            && forall i :: 0 <= i < |pacers| ==>
                 AllowsFresh(pacers[i], |Filter(IsReady, items)|, |Filter(IsStarting, items)|, |Filter(IsBlocked, items)|,
                             SortsBefore(pacers, |Filter(IsReady, items)|, i))
  {
    var ready, starting, blocked := |Filter(IsReady, items)|, |Filter(IsStarting, items)|, Filter(IsBlocked, items);
    var lists, results :|
      && Passes(pacers, ready, starting, lists, results)
      && lists[0] == blocked + [newPod]
      && (approved <==> exists q :: q in Chosen(lists[|pacers|], results) && SameObject(q, newPod));
    AdmissionThreshold(pacers, ready, starting, blocked, newPod, lists, results);
    FreshKeepsUidsDistinct(newPod, blocked);
    if approved {
      var q :| q in Chosen(lists[|pacers|], results) && SameObject(q, newPod);
      ExactIntersection(pacers, ready, starting, lists, results, q);
      assert q == newPod;
    }
  }

  /** An approval alone, with nothing assumed about names, already proves room in every pacer. */
  lemma ApprovalNeedsRoom(pacers: seq<Pacer>, items: seq<Pod>, newPod: Pod, i: nat)
    requires Decides(pacers, items, newPod, true)
    requires DistinctUids(multiset(Filter(IsBlocked, items))) && FreshAmong(newPod, Filter(IsBlocked, items))
    requires i < |pacers|
    ensures CanPace(pacers[i])
    ensures AllowedCount(pacers[i], |Filter(IsReady, items)|, |Filter(IsStarting, items)|, |Filter(IsBlocked, items)| + 1) >= 1
  {
    var ready, starting, blocked := |Filter(IsReady, items)|, |Filter(IsStarting, items)|, Filter(IsBlocked, items);
    var lists, results :|
      && Passes(pacers, ready, starting, lists, results)
      && lists[0] == blocked + [newPod]
      && exists q :: q in Chosen(lists[|pacers|], results) && SameObject(q, newPod);
    FreshKeepsUidsDistinct(newPod, blocked);
    ChosenNeedsRoom(pacers, ready, starting, lists, results, i);
  }

  // ----- what admission leaves, in the pod's own fields -----

  /** Paths that end before the pacing decision. A pod without the enable label "1" passes as it
      is; a job's pod is blocked; an error of the classifier or no group leaves the pod alone; an
      error of the listing leaves it with its group label. */
  lemma HandledWithoutDecision(was: Pod, now: Pod, classified: Result<Option<Classification>>, listed: Result<seq<Pod>>, err: Option<string>)
    requires Handled(was, now, classified, listed, err)
    ensures var enable, job, group := "v1.straggler.technicianted/enable", "v1.straggler.technicianted/jobPod", "v1.straggler.technicianted/group";
            && (enable !in was.labels || was.labels[enable] != "1" ==> now == was && err == None)
            && (enable in was.labels && was.labels[enable] == "1" ==>
                 && (job in was.labels ==> now == was.(blocked := true) && err == None)
                 && (job !in was.labels && classified.Err? ==> now == was && err != None)
                 && (job !in was.labels && classified == Ok(None) ==> now == was && err == None)
                 && (job !in was.labels && classified.Ok? && classified.value.Some? && listed.Err? ==>
                      now == was.(labels := was.labels[group := classified.value.value.id]) && err != None))
  {
  }

  /** A pod of the group, labelled "1" and no job's: it gets the group's id as its label, and is
      either let through, or blocked and labelled as staggered; nothing else of it changes. */
  lemma HandledWithDecision(was: Pod, now: Pod, group: Classification, items: seq<Pod>, err: Option<string>)
    requires Handled(was, now, Ok(Some(group)), Ok(items), err)
    requires "v1.straggler.technicianted/enable" in was.labels && was.labels["v1.straggler.technicianted/enable"] == "1"
    requires "v1.straggler.technicianted/jobPod" !in was.labels && !was.blocked
    ensures err == None && now == was.(labels := now.labels, blocked := now.blocked)
    ensures var groupLabel, staggered := "v1.straggler.technicianted/group", "v1.straggler.technicianted/staggered";
            && groupLabel in now.labels && now.labels[groupLabel] == group.id
            && (now.blocked ==> staggered in now.labels && now.labels[staggered] == "1")
            && (!now.blocked ==> (staggered in now.labels <==> staggered in was.labels))
            && (!now.blocked && staggered in was.labels ==> now.labels[staggered] == was.labels[staggered])
            && forall k :: k != groupLabel && k != staggered ==>
                 (k in now.labels <==> k in was.labels) && (k in was.labels ==> now.labels[k] == was.labels[k])
    ensures Decides(group.pacers, items, was.(labels := was.labels["v1.straggler.technicianted/group" := group.id]), !now.blocked)
  {
  }

  /** The decision as it shows on the pod. Among listed pods the API server gave UIDs and creation
      times, and none of them under the same name, the pod stays unblocked if and only if the
      group has pacers and every one of them has a place for it. */
  lemma UnblockedIffAllowed(was: Pod, now: Pod, group: Classification, items: seq<Pod>, err: Option<string>)
    requires Handled(was, now, Ok(Some(group)), Ok(items), err)
    requires "v1.straggler.technicianted/enable" in was.labels && was.labels["v1.straggler.technicianted/enable"] == "1"
    requires "v1.straggler.technicianted/jobPod" !in was.labels && !was.blocked && was.uid == "" && was.created == 0
    requires DistinctUids(multiset(Filter(IsBlocked, items)))
    requires forall q :: q in items && q.blocked ==> q.uid != "" && q.created > 0
    requires forall q :: q in items && q.blocked ==> q.name != was.name || q.namespace != was.namespace || q.generateName != was.generateName
    ensures !now.blocked <==>
            && AllCanPace(group.pacers) && group.pacers != []
            && forall i :: 0 <= i < |group.pacers| ==>
                 AllowsFresh(group.pacers[i], |Filter(IsReady, items)|, |Filter(IsStarting, items)|, |Filter(IsBlocked, items)|,
                             SortsBefore(group.pacers, |Filter(IsReady, items)|, i))
  {
    HandledWithDecision(was, now, group, items, err);
    var newPod := was.(labels := was.labels["v1.straggler.technicianted/group" := group.id]);
    assert FreshAmong(newPod, Filter(IsBlocked, items));
    assert forall q :: q in Filter(IsBlocked, items) ==> !SameObject(q, newPod);
    hide Handled, Decides;
    DecisionIsThreshold(group.pacers, items, newPod, !now.blocked);
  }
}
