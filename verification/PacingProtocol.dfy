/** The closed pacing loop of one staggering group as a state machine: admissions take a
    snapshot and decide, commit later, and up to K of them overlap; pods become ready, are
    evicted or deleted. Readiness is not lost and no error is bypassed in these runs. */
module PacingProtocol {
  import opened Pods
  import opened Pacers
  import opened Standing
  import opened SharedOrder
  import opened ControllerTypes
  import opened Admission

  /** The pods the snapshots can see, and the admissions decided but not yet visible. */
  datatype Cluster = Cluster(pods: set<Pod>, approved: multiset<Pod>, denied: multiset<Pod>)

  function Overlap(c: Cluster): nat {
    |c.approved| + |c.denied|
  }

  ghost function Ready(c: Cluster): nat { Count(IsReady, c.pods) }

  ghost function Starting(c: Cluster): nat { Count(IsStarting, c.pods) }

  ghost function Blocked(c: Cluster): nat { Count(IsBlocked, c.pods) }

  /** The API server gives every pod a UID of its own and a creation time. */
  ghost predicate Identified(pods: set<Pod>) {
    && (forall p :: p in pods ==> p.uid != "" && p.created > 0)
    && (forall p, q :: p in pods && q in pods && p.uid == q.uid ==> p == q)
  }

  /** A pod as it is stored, blocked or not, for an admission that was decided. */
  ghost predicate StoredAs(pods: set<Pod>, p: Pod, approved: bool) {
    && p.blocked == !approved && !HasReadyCondition(p)
    && p.uid != "" && p.created > 0
    && forall q :: q in pods ==> q.uid != p.uid
  }

  /** An admission sees some listing of the current pods and decides. */
  ghost predicate Decide(pacers: seq<Pacer>, K: nat, c: Cluster, c': Cluster, items: seq<Pod>, newPod: Pod, approve: bool) {
    && Overlap(c) < K
    && Lists(items, c.pods)
    && newPod.uid == "" && newPod.created == 0
    && Decides(pacers, items, newPod, approve)
    && c' == if approve then c.(approved := c.approved + multiset{newPod}) else c.(denied := c.denied + multiset{newPod})
  }

  ghost predicate SomeDecision(pacers: seq<Pacer>, K: nat, c: Cluster, c': Cluster) {
    exists items, newPod, approve :: Decide(pacers, K, c, c', items, newPod, approve)
  }

  ghost predicate Commit(c: Cluster, c': Cluster, newPod: Pod, stored: Pod) {
    || (newPod in c.approved && StoredAs(c.pods, stored, true)
        && c' == c.(pods := c.pods + {stored}, approved := c.approved - multiset{newPod}))
    || (newPod in c.denied && StoredAs(c.pods, stored, false)
        && c' == c.(pods := c.pods + {stored}, denied := c.denied - multiset{newPod}))
  }

  /** The API server drops the request after admission decided it. */
  ghost predicate Abandon(c: Cluster, c': Cluster, newPod: Pod) {
    || (newPod in c.approved && c' == c.(approved := c.approved - multiset{newPod}))
    || (newPod in c.denied && c' == c.(denied := c.denied - multiset{newPod}))
  }

  ghost predicate BecomeReady(c: Cluster, c': Cluster, p: Pod) {
    && p in c.pods && IsStarting(p)
    && c' == c.(pods := c.pods - {p} + {p.(conditions := p.conditions + [READY])})
  }

  /** A pod that is not ready goes away: evicted by the reconciler, or deleted. */
  ghost predicate Remove(c: Cluster, c': Cluster, p: Pod) {
    && p in c.pods && !IsReady(p)
    && c' == c.(pods := c.pods - {p})
  }

  ghost predicate Next(pacers: seq<Pacer>, K: nat, c: Cluster, c': Cluster) {
    || SomeDecision(pacers, K, c, c')
    || (exists newPod, stored :: Commit(c, c', newPod, stored))
    || (exists newPod :: Abandon(c, c', newPod))
    || (exists p :: BecomeReady(c, c', p))
    || (exists p :: Remove(c, c', p))
  }

  /** What a pacer promises about `total` pods approved or starting while `ready` are ready and
      up to K admissions overlap. */
  ghost predicate WithinBoundary(p: Pacer, K: nat, ready: nat, total: int)
    requires CanPace(p)
  {
    if Saturated(p, ready) then true
    else if p.Exponential? then
      total <= ExponentialBoundary(p.exponential.minInitial, p.exponential.multiplier, ready) + K - 1
    else
      ready + total <= LinearBoundary(p.linear.step, ready) + K - 1
  }

  /** The multiple of the ready pods, or what is left of the initial ones. */
  function ExponentialBoundary(minInitial: int, multiplier: real, ready: nat): int {
    Max(0, Max(minInitial - ready, Ceil(ready as real * multiplier)))
  }

  /** The next multiple of the step above `ready`; a negative step lets nothing start. */
  function LinearBoundary(step: int, ready: nat): int
    requires step != 0
  {
    if step > 0 then step * (ready / step + 1) else ready
  }

  ghost predicate AllWithin(pacers: seq<Pacer>, K: nat, ready: nat, total: int)
    requires AllCanPace(pacers)
  {
    forall i :: 0 <= i < |pacers| ==> WithinBoundary(pacers[i], K, ready, total)
  }

  ghost predicate Inv(pacers: seq<Pacer>, K: nat, c: Cluster) {
    && AllCanPace(pacers)
    && Identified(c.pods)
    && Overlap(c) <= K
    && AllWithin(pacers, K, Ready(c), Starting(c) + |c.approved|)
  }

  lemma FewerStayWithin(pacers: seq<Pacer>, K: nat, ready: nat, total: int, fewer: int)
    requires AllCanPace(pacers) && AllWithin(pacers, K, ready, total) && fewer <= total
    ensures AllWithin(pacers, K, ready, fewer)
  {
  }

  lemma QuotientGrows(step: int, a: nat, b: nat)
    requires step > 0 && a <= b
    ensures step * (a / step + 1) <= step * (b / step + 1)
  {
    var x, y := a / step, b / step;
    assert x <= y by {
      if y <= x - 1 {
        MulMonotone(step, y + 1, x);
        assert false;
      }
    }
    MulMonotone(step, x + 1, y + 1);
  }

  lemma LinearBoundaryGrows(step: int, ready: nat)
    requires step != 0
    ensures LinearBoundary(step, ready) <= LinearBoundary(step, ready + 1)
    ensures step > 0 ==> LinearBoundary(step, ready) == ready + (step - ready % step)
  {
    if step > 0 {
      QuotientGrows(step, ready, ready + 1);
      var x := ready / step;
      assert ready == step * x + ready % step;
      assert step * (x + 1) == step * x + step;
    }
  }

  /** One call of a linear pacer below MaxStagger never brings ready plus allowed past the next
      multiple of the step, but it does not count the pods that are starting: with them it
      passes the boundary exactly when some are starting, the step is not filled by them, and
      more pods are blocked than the step has room for. */
  lemma LinearBatchOvershoots(p: Pacer, ready: nat, starting: nat, blocked: nat)
    requires p.Linear? && p.linear.step > 0 && !Saturated(p, ready)
    ensures var boundary := p.linear.step * (ready / p.linear.step + 1);
            var allowed := AllowedCount(p, ready, starting, blocked);
            && ready + allowed <= boundary
            && (allowed > 0 <==> blocked > 0 && ready + starting < boundary)
            && (allowed > 0 && ready + starting + allowed > boundary <==>
                  0 < starting < boundary - ready && blocked > boundary - ready - starting)
  {
    LinearBoundaryGrows(p.linear.step, ready);
  }

  /** An allowance of one or more pods leaves a place below the boundary. */
  lemma RoomIsBelowBoundary(p: Pacer, K: nat, ready: nat, starting: nat, blocked: nat, others: nat)
    requires CanPace(p) && AllowedCount(p, ready, starting, blocked) >= 1
    requires others < K
    ensures WithinBoundary(p, K, ready, starting + others + 1)
  {
    if p.Linear? {
      LinearBoundaryGrows(p.linear.step, ready);
    }
  }

  /** One more ready pod takes the boundary down by that pod at most. */
  lemma ExponentialBoundaryGrows(multiplier: real, minInitial: int, ready: nat)
    ensures ExponentialBoundary(minInitial, multiplier, ready) - 1 <= ExponentialBoundary(minInitial, multiplier, ready + 1)
  {
    var a, b := ready as real * multiplier, (ready + 1) as real * multiplier;
    assert b == a + multiplier;
    if multiplier >= 0.0 {
      CeilMonotone(a, b);
    } else {
      assert a <= 0.0 by { assert ready as real >= 0.0; }
      CeilMonotone(a, 0.0);
    }
  }

  /** A starting pod becoming ready moves one pod across without leaving the boundary. */
  lemma ReadyStaysWithin(p: Pacer, K: nat, ready: nat, total: int)
    requires CanPace(p) && WithinBoundary(p, K, ready, total)
    ensures WithinBoundary(p, K, ready + 1, total - 1)
  {
    if Saturated(p, ready + 1) {
    } else if p.Exponential? {
      ExponentialBoundaryGrows(p.exponential.multiplier, p.exponential.minInitial, ready);
    } else {
      LinearBoundaryGrows(p.linear.step, ready);
    }
  }

  lemma BlockedAreFresh(items: seq<Pod>, pods: set<Pod>, newPod: Pod)
    requires Lists(items, pods) && Identified(pods) && newPod.uid == "" && newPod.created == 0
    ensures DistinctUids(multiset(Filter(IsBlocked, items)))
    ensures FreshAmong(newPod, Filter(IsBlocked, items))
    ensures forall q :: q in Filter(IsBlocked, items) ==> q in pods && q.blocked
  {
    var blocked := Filter(IsBlocked, items);
    FilterLists(IsBlocked, items, pods);
    forall q | q in blocked ensures q in pods && q.blocked {
      assert q in multiset(blocked);
    }
    forall p | p in multiset(blocked) ensures multiset(blocked)[p] == 1 && p in pods {}
  }

  lemma ApprovalStaysWithin(pacers: seq<Pacer>, K: nat, pods: set<Pod>, items: seq<Pod>, newPod: Pod, others: nat)
    requires AllCanPace(pacers) && Identified(pods) && Lists(items, pods)
    requires newPod.uid == "" && newPod.created == 0 && Decides(pacers, items, newPod, true)
    requires others < K
    ensures AllWithin(pacers, K, Count(IsReady, pods), Count(IsStarting, pods) + others + 1)
  {
    BlockedAreFresh(items, pods, newPod);
    FilterLists(IsReady, items, pods);
    FilterLists(IsStarting, items, pods);
    hide Decides, Identified, Lists, Count, FreshAmong, DistinctUids;
    forall i | 0 <= i < |pacers| ensures WithinBoundary(pacers[i], K, Count(IsReady, pods), Count(IsStarting, pods) + others + 1) {
      ApprovalNeedsRoom(pacers, items, newPod, i);
      RoomIsBelowBoundary(pacers[i], K, Count(IsReady, pods), Count(IsStarting, pods), |Filter(IsBlocked, items)| + 1, others);
    }
  }

  lemma DecideKeepsInv(pacers: seq<Pacer>, K: nat, c: Cluster, c': Cluster, items: seq<Pod>, newPod: Pod, approve: bool)
    requires Inv(pacers, K, c) && Decide(pacers, K, c, c', items, newPod, approve)
    ensures Inv(pacers, K, c')
  {
    if approve {
      ApprovalStaysWithin(pacers, K, c.pods, items, newPod, |c.approved|);
    }
    hide Identified, AllWithin, Decides, Lists, Count;
  }

  lemma StoringKeepsIdentified(pods: set<Pod>, stored: Pod, approved: bool)
    requires Identified(pods) && StoredAs(pods, stored, approved)
    ensures Identified(pods + {stored}) && stored !in pods
    ensures Count(IsReady, pods + {stored}) == Count(IsReady, pods)
    ensures Count(IsStarting, pods + {stored}) == Count(IsStarting, pods) + if approved then 1 else 0
    ensures Count(IsBlocked, pods + {stored}) == Count(IsBlocked, pods) + if approved then 0 else 1
  {
    assert stored !in pods;
    CountAdd(IsReady, pods, stored);
    CountAdd(IsStarting, pods, stored);
    CountAdd(IsBlocked, pods, stored);
    hide Count;
  }

  lemma CommitKeepsInv(pacers: seq<Pacer>, K: nat, c: Cluster, c': Cluster, newPod: Pod, stored: Pod)
    requires Inv(pacers, K, c) && Commit(c, c', newPod, stored)
    ensures Inv(pacers, K, c')
  {
    hide Identified, AllWithin, StoredAs, Count;
    if newPod in c.approved && StoredAs(c.pods, stored, true)
        && c' == c.(pods := c.pods + {stored}, approved := c.approved - multiset{newPod}) {
      StoringKeepsIdentified(c.pods, stored, true);
    } else {
      StoringKeepsIdentified(c.pods, stored, false);
    }
    FewerStayWithin(pacers, K, Ready(c), Starting(c) + |c.approved|, Starting(c') + |c'.approved|);
  }

  lemma AbandonKeepsInv(pacers: seq<Pacer>, K: nat, c: Cluster, c': Cluster, newPod: Pod)
    requires Inv(pacers, K, c) && Abandon(c, c', newPod)
    ensures Inv(pacers, K, c')
  {
    hide Identified, AllWithin, Count;
    FewerStayWithin(pacers, K, Ready(c), Starting(c) + |c.approved|, Starting(c') + |c'.approved|);
  }

  lemma BecomeReadyCounts(c: Cluster, c': Cluster, p: Pod)
    requires Identified(c.pods) && BecomeReady(c, c', p)
    ensures Identified(c'.pods)
    ensures Ready(c') == Ready(c) + 1 && Starting(c') == Starting(c) - 1 && Blocked(c') == Blocked(c)
  {
    var q := p.(conditions := p.conditions + [READY]);
    assert HasReadyCondition(q);
    assert q !in c.pods - {p};
    CountRemove(IsReady, c.pods, p);
    CountRemove(IsStarting, c.pods, p);
    CountRemove(IsBlocked, c.pods, p);
    CountAdd(IsReady, c.pods - {p}, q);
    CountAdd(IsStarting, c.pods - {p}, q);
    CountAdd(IsBlocked, c.pods - {p}, q);
  }

  lemma BecomeReadyKeepsInv(pacers: seq<Pacer>, K: nat, c: Cluster, c': Cluster, p: Pod)
    requires Inv(pacers, K, c) && BecomeReady(c, c', p)
    ensures Inv(pacers, K, c')
  {
    BecomeReadyCounts(c, c', p);
    forall i | 0 <= i < |pacers| ensures WithinBoundary(pacers[i], K, Ready(c) + 1, Starting(c) + |c.approved| - 1) {
      ReadyStaysWithin(pacers[i], K, Ready(c), Starting(c) + |c.approved|);
    }
  }

  lemma RemovingKeepsIdentified(pods: set<Pod>, p: Pod)
    requires Identified(pods) && p in pods && !IsReady(p)
    ensures Identified(pods - {p})
    ensures Count(IsReady, pods - {p}) == Count(IsReady, pods)
    ensures Count(IsStarting, pods - {p}) == Count(IsStarting, pods) - if p.blocked then 0 else 1
    ensures Count(IsBlocked, pods - {p}) == Count(IsBlocked, pods) - if p.blocked then 1 else 0
  {
    CountRemove(IsReady, pods, p);
    CountRemove(IsStarting, pods, p);
    CountRemove(IsBlocked, pods, p);
    hide Count;
  }

  lemma RemoveKeepsInv(pacers: seq<Pacer>, K: nat, c: Cluster, c': Cluster, p: Pod)
    requires Inv(pacers, K, c) && Remove(c, c', p)
    ensures Inv(pacers, K, c')
  {
    hide Identified, AllWithin, Count;
    RemovingKeepsIdentified(c.pods, p);
    FewerStayWithin(pacers, K, Ready(c), Starting(c) + |c.approved|, Starting(c') + |c'.approved|);
  }

  lemma NextKeepsInv(pacers: seq<Pacer>, K: nat, c: Cluster, c': Cluster)
    requires Inv(pacers, K, c) && Next(pacers, K, c, c')
    ensures Inv(pacers, K, c')
  {
    if SomeDecision(pacers, K, c, c') {
      var items, newPod, approve :| Decide(pacers, K, c, c', items, newPod, approve);
      DecideKeepsInv(pacers, K, c, c', items, newPod, approve);
    } else if newPod, stored :| Commit(c, c', newPod, stored) {
      CommitKeepsInv(pacers, K, c, c', newPod, stored);
    } else if newPod :| Abandon(c, c', newPod) {
      AbandonKeepsInv(pacers, K, c, c', newPod);
    } else if p :| BecomeReady(c, c', p) {
      BecomeReadyKeepsInv(pacers, K, c, c', p);
    } else {
      var p :| Remove(c, c', p);
      RemoveKeepsInv(pacers, K, c, c', p);
    }
  }

  ghost predicate Run(pacers: seq<Pacer>, K: nat, trace: seq<Cluster>) {
    && trace != []
    && trace[0] == Cluster({}, multiset{}, multiset{})
    && forall t :: 0 <= t < |trace| - 1 ==> Next(pacers, K, trace[t], trace[t + 1])
  }

  lemma {:induction false} RunKeepsInv(pacers: seq<Pacer>, K: nat, trace: seq<Cluster>, t: nat)
    requires AllCanPace(pacers) && K >= 1 && Run(pacers, K, trace) && t < |trace|
    ensures Inv(pacers, K, trace[t])
  {
    if t == 0 {
      StartsWithin(pacers, K, trace[0]);
    } else {
      RunKeepsInv(pacers, K, trace, t - 1);
      NextKeepsInv(pacers, K, trace[t - 1], trace[t - 1 + 1]);
    }
  }

  lemma StartsWithin(pacers: seq<Pacer>, K: nat, c: Cluster)
    requires AllCanPace(pacers) && K >= 1 && c == Cluster({}, multiset{}, multiset{})
    ensures Inv(pacers, K, c)
  {
    forall i | 0 <= i < |pacers| ensures WithinBoundary(pacers[i], K, 0, 0) {
      if pacers[i].Linear? {
        LinearBoundaryGrows(pacers[i].linear.step, 0);
      }
    }
    assert Ready(c) == 0 && Starting(c) == 0 by {
      assert (set p | p in c.pods && IsReady(p)) == {};
      assert (set p | p in c.pods && IsStarting(p)) == {};
    }
  }

  /** Overshoot is bounded over whole runs: at every moment, for every inner pacer that still
      paces, the pods starting or approved exceed its boundary by at most K - 1, however the
      decisions, commits, evictions and readiness changes interleave. With K = 1 the boundary
      is exact. */
  lemma OvershootBound(pacers: seq<Pacer>, K: nat, trace: seq<Cluster>, t: nat, i: nat)
    requires AllCanPace(pacers) && K >= 1 && Run(pacers, K, trace)
    requires t < |trace| && i < |pacers|
    ensures var c, p := trace[t], pacers[i];
            && (p.Exponential? && Ready(c) < p.exponential.maxStagger ==>
                  Starting(c) + |c.approved|
                    <= Max(0, Max(p.exponential.minInitial - Ready(c), Ceil(Ready(c) as real * p.exponential.multiplier))) + K - 1)
            && (p.Linear? && Ready(c) < p.linear.maxStagger && p.linear.step > 0 ==>
                  Ready(c) + Starting(c) + |c.approved| <= p.linear.step * (Ready(c) / p.linear.step + 1) + K - 1)
            && (p.Linear? && Ready(c) < p.linear.maxStagger && p.linear.step < 0 ==> Starting(c) + |c.approved| <= K - 1)
  {
    RunKeepsInv(pacers, K, trace, t);
  }

  /** The admit step is what admission does: from a listing of the cluster's pods, the pod that
      HandlePodAdmission leaves is, once the API server has named it, the pod that the protocol's
      decision and its commit store, blocked exactly if it was denied. */
  lemma AdmissionIsDecideAndCommit(K: nat, c: Cluster, items: seq<Pod>, was: Pod, now: Pod, group: Classification, err: Option<string>,
                                   name: string, uid: string, created: nat) returns (newPod: Pod, mid: Cluster, c': Cluster)
    requires Overlap(c) < K && Lists(items, c.pods) && Handled(was, now, Ok(Some(group)), Ok(items), err)
    requires "v1.straggler.technicianted/enable" in was.labels && was.labels["v1.straggler.technicianted/enable"] == "1"
    requires "v1.straggler.technicianted/jobPod" !in was.labels && !was.blocked && was.uid == "" && was.created == 0
    requires !HasReadyCondition(was) && uid != "" && created > 0 && forall q :: q in c.pods ==> q.uid != uid
    ensures var stored := now.(name := name, uid := uid, created := created);
            && Decide(group.pacers, K, c, mid, items, newPod, !now.blocked)
            && Commit(mid, c', newPod, stored)
            && StoredAs(c.pods, stored, !now.blocked) && c'.pods == c.pods + {stored}
  {
    HandledWithDecision(was, now, group, items, err);
    hide Handled, Decides, Lists;
    newPod := was.(labels := was.labels["v1.straggler.technicianted/group" := group.id]);
    var stored := now.(name := name, uid := uid, created := created);
    if now.blocked {
      mid := c.(denied := c.denied + multiset{newPod});
      c' := Cluster(c.pods + {stored}, mid.approved, mid.denied - multiset{newPod});
    } else {
      mid := c.(approved := c.approved + multiset{newPod});
      c' := Cluster(c.pods + {stored}, mid.approved - multiset{newPod}, mid.denied);
    }
  }
}
