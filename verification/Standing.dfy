/** The pod group standing classifier: the snapshot every pacing decision is made on. */
module Standing {
  import opened Pods

  function Filter(f: Pod -> bool, pods: seq<Pod>): (r: seq<Pod>)
    ensures forall p :: p in r <==> p in pods && f(p)
  {
    if pods == [] then []
    else
      var n := |pods| - 1;
      assert pods == pods[..n] + [pods[n]];
      Filter(f, pods[..n]) + if f(pods[n]) then [pods[n]] else []
  }

  predicate IsBlocked(pod: Pod) { pod.blocked }

  method IsPodReady(pod: Pod) returns (r: bool)
    ensures r == HasReadyCondition(pod)
    ensures r <==> exists c :: c in pod.conditions && c.kind == "Ready" && c.status == "True"
  {
    for i := 0 to |pod.conditions|
      invariant READY !in pod.conditions[..i]
    {
      if pod.conditions[i].kind == "Ready" && pod.conditions[i].status == "True" {
        return true;
      }
    }
    assert pod.conditions == pod.conditions[..|pod.conditions|];
    assert forall c :: c in pod.conditions && c.kind == "Ready" && c.status == "True" ==> c == READY;
    return false;
  }

  /** `items` is what the client listed for the group label. */
  method ClassifyPodGroup(items: seq<Pod>) returns (ready: seq<Pod>, starting: seq<Pod>, blocked: seq<Pod>)
    ensures ready == Filter(IsReady, items)
    ensures starting == Filter(IsStarting, items)
    ensures blocked == Filter(IsBlocked, items)
  {
    ready, starting, blocked := [], [], [];
    for i := 0 to |items|
      invariant ready == Filter(IsReady, items[..i])
      invariant starting == Filter(IsStarting, items[..i])
      invariant blocked == Filter(IsBlocked, items[..i])
    {
      var pod := items[i];
      assert items[..i + 1][..i] == items[..i];
      var isReady := IsPodReady(pod);
      if pod.blocked {
        blocked := blocked + [pod];
      } else if isReady {
        ready := ready + [pod];
      } else {
        starting := starting + [pod];
      }
    }
    assert items[..|items|] == items;
  }

  lemma {:induction false} FilterMultiplicity(f: Pod -> bool, pods: seq<Pod>, p: Pod)
    ensures multiset(Filter(f, pods))[p] == if f(p) then multiset(pods)[p] else 0
  {
    if pods != [] {
      var n := |pods| - 1;
      FilterMultiplicity(f, pods[..n], p);
      assert pods == pods[..n] + [pods[n]];
    }
  }

  /** The three standings partition the listed pods: nothing is counted twice or lost. */
  lemma StandingsPartition(items: seq<Pod>)
    ensures multiset(Filter(IsReady, items)) + multiset(Filter(IsStarting, items)) + multiset(Filter(IsBlocked, items)) == multiset(items)
    ensures |Filter(IsReady, items)| + |Filter(IsStarting, items)| + |Filter(IsBlocked, items)| == |items|
  {
    var r, s, b := Filter(IsReady, items), Filter(IsStarting, items), Filter(IsBlocked, items);
    forall p ensures (multiset(r) + multiset(s) + multiset(b))[p] == multiset(items)[p] {
      FilterMultiplicity(IsReady, items, p);
      FilterMultiplicity(IsStarting, items, p);
      FilterMultiplicity(IsBlocked, items, p);
    }
    assert multiset(r) + multiset(s) + multiset(b) == multiset(items);
    assert |multiset(r) + multiset(s) + multiset(b)| == |r| + |s| + |b|;
    assert |multiset(items)| == |items|;
  }

  /** What the standings mean in the pod's own fields; a blocked pod is blocked whatever its
      conditions say. */
  lemma StandingInFields(pod: Pod)
    ensures IsBlocked(pod) <==> pod.blocked
    ensures IsReady(pod) <==> !pod.blocked && exists c :: c in pod.conditions && c.kind == "Ready" && c.status == "True"
    ensures IsStarting(pod) <==> !pod.blocked && forall c :: c in pod.conditions && c.kind == "Ready" ==> c.status != "True"
  {
    assert forall c :: c in pod.conditions && c.kind == "Ready" && c.status == "True" ==> c == READY;
    assert READY.kind == "Ready" && READY.status == "True";
  }

  /** `kept` is the pods at the positions `at`, which increase. */
  ghost predicate InOrder(kept: seq<Pod>, pods: seq<Pod>, at: seq<nat>) {
    && |at| == |kept|
    && (forall i :: 0 <= i < |at| ==> at[i] < |pods| && kept[i] == pods[at[i]])
    && (forall i, j :: 0 <= i < j < |at| ==> at[i] < at[j])
  }

  lemma InOrderOneMore(kept: seq<Pod>, pods: seq<Pod>, at: seq<nat>, p: Pod)
    requires InOrder(kept, pods, at)
    ensures InOrder(kept, pods + [p], at) && InOrder(kept + [p], pods + [p], at + [|pods|])
  {
  }

  /** A standing's list is in listing order, and complete: its members stand at increasing
      positions of the listing, and every listed pod of the standing is at one of them. */
  lemma {:induction false} FilterInOrder(f: Pod -> bool, pods: seq<Pod>) returns (at: seq<nat>)
    ensures InOrder(Filter(f, pods), pods, at)
    ensures forall k :: 0 <= k < |pods| ==> (k in at <==> f(pods[k]))
  {
    if pods == [] {
      at := [];
    } else {
      var n := |pods| - 1;
      assert pods == pods[..n] + [pods[n]];
      at := FilterInOrder(f, pods[..n]);
      var kept := Filter(f, pods[..n]);
      assert Filter(f, pods) == if f(pods[n]) then kept + [pods[n]] else kept;
      assert forall i :: 0 <= i < |at| ==> at[i] < n;
      InOrderOneMore(kept, pods[..n], at, pods[n]);
      hide Filter, InOrder;
      OnePositionMore(f, pods, at);
      if f(pods[n]) {
        at := at + [n];
      }
    }
  }

  lemma OnePositionMore(f: Pod -> bool, pods: seq<Pod>, at: seq<nat>)
    requires pods != []
    requires var n := |pods| - 1;
             && (forall k :: 0 <= k < n ==> (k in at <==> f(pods[..n][k])))
             && forall i :: 0 <= i < |at| ==> at[i] < n
    ensures var at' := if f(pods[|pods| - 1]) then at + [|pods| - 1] else at;
            forall k :: 0 <= k < |pods| ==> (k in at' <==> f(pods[k]))
  {
    var n := |pods| - 1;
    var at' := if f(pods[n]) then at + [n] else at;
    forall k | 0 <= k < |pods| ensures k in at' <==> f(pods[k]) {
      if k < n {
        assert pods[..n][k] == pods[k];
      }
    }
  }

  /** `items` lists every pod of the set once, in any order. */
  ghost predicate Lists(items: seq<Pod>, pods: set<Pod>) {
    multiset(items) == multiset(pods)
  }

  ghost function Count(f: Pod -> bool, pods: set<Pod>): nat {
    |set p | p in pods && f(p)|
  }

  /** Every set of pods can be listed. */
  lemma {:induction false} SomeListing(pods: set<Pod>) returns (items: seq<Pod>)
    ensures Lists(items, pods)
    decreases |pods|
  {
    if pods == {} {
      items := [];
    } else {
      var p :| p in pods;
      var rest := SomeListing(pods - {p});
      items := rest + [p];
      assert pods == (pods - {p}) + {p};
    }
  }

  lemma FilterLists(f: Pod -> bool, items: seq<Pod>, pods: set<Pod>)
    requires Lists(items, pods)
    ensures multiset(Filter(f, items)) == multiset(set p | p in pods && f(p))
    ensures |Filter(f, items)| == Count(f, pods)
  {
    var some := set p | p in pods && f(p);
    forall p ensures multiset(Filter(f, items))[p] == multiset(some)[p] {
      FilterMultiplicity(f, items, p);
      assert multiset(pods)[p] == if p in pods then 1 else 0;
    }
    assert multiset(Filter(f, items)) == multiset(some);
    assert |multiset(Filter(f, items))| == |Filter(f, items)|;
    assert |multiset(some)| == |some|;
  }

  lemma CountAdd(f: Pod -> bool, pods: set<Pod>, p: Pod)
    requires p !in pods
    ensures Count(f, pods + {p}) == Count(f, pods) + if f(p) then 1 else 0
  {
    var some := set q | q in pods && f(q);
    var more := set q | q in pods + {p} && f(q);
    if f(p) {
      assert more == some + {p};
    } else {
      assert more == some;
    }
  }

  lemma CountRemove(f: Pod -> bool, pods: set<Pod>, p: Pod)
    requires p in pods
    ensures Count(f, pods) == Count(f, pods - {p}) + if f(p) then 1 else 0
  {
    assert pods == (pods - {p}) + {p};
    CountAdd(f, pods - {p}, p);
  }
}
