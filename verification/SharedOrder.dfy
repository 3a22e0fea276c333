/** What sharing one slice does to a composite: prefix-minimum, and who sees a fresh pod where. */
module SharedOrder {
  import opened Pods
  import opened Pacers
  import opened Composite

  ghost predicate SortsBefore(pacers: seq<Pacer>, ready: nat, i: nat)
    requires i <= |pacers|
  {
    exists j :: 0 <= j < i && Sorts(pacers[j], ready)
  }

  /** No linear pacer that still paces takes its prefix before a later pacer sorts the slice
      for the first time. All-linear and all-exponential composites are of this kind. */
  ghost predicate LinearNeverLeadsSort(pacers: seq<Pacer>, ready: nat) {
    forall i, j :: 0 <= i < j < |pacers| && pacers[i].Linear? && !Saturated(pacers[i], ready) && Sorts(pacers[j], ready)
      ==> SortsBefore(pacers, ready, i)
  }

  /** The smallest of the inner counts, `blocked` if there are no pacers. */
  function MinCount(pacers: seq<Pacer>, ready: nat, starting: nat, blocked: nat): nat
    requires AllCanPace(pacers)
  {
    if pacers == [] then blocked
    else
      var n := |pacers| - 1;
      Min(MinCount(pacers[..n], ready, starting, blocked), AllowedCount(pacers[n], ready, starting, blocked))
  }

  lemma {:induction false} BelowMinCount(pacers: seq<Pacer>, ready: nat, starting: nat, blocked: nat, j: nat)
    requires AllCanPace(pacers)
    ensures j < MinCount(pacers, ready, starting, blocked) <==>
            j < blocked && forall i :: 0 <= i < |pacers| ==> j < AllowedCount(pacers[i], ready, starting, blocked)
  {
    if pacers != [] {
      BelowMinCount(pacers[..|pacers| - 1], ready, starting, blocked, j);
      assert forall i :: 0 <= i < |pacers| - 1 ==> pacers[..|pacers| - 1][i] == pacers[i];
    }
  }

  lemma {:induction false} SortedFromHere(pacers: seq<Pacer>, ready: nat, starting: nat, lists: seq<seq<Pod>>, results: seq<seq<Pod>>, j: nat, k: nat)
    requires Passes(pacers, ready, starting, lists, results)
    requires j < k <= |pacers| && Sorts(pacers[j], ready)
    ensures SortedByCreation(lists[k])
  {
    assert PaceOutcome(pacers[k - 1], ready, starting, lists[k - 1], lists[k - 1 + 1], results[k - 1]);
    if j < k - 1 {
      SortedFromHere(pacers, ready, starting, lists, results, j, k - 1);
    }
  }

  lemma {:induction false} UntouchedUntil(pacers: seq<Pacer>, ready: nat, starting: nat, lists: seq<seq<Pod>>, results: seq<seq<Pod>>, i: nat, k: nat)
    requires Passes(pacers, ready, starting, lists, results)
    requires i <= k <= |pacers| && forall j :: i <= j < k ==> !Sorts(pacers[j], ready)
    ensures lists[k] == lists[i]
  {
    if i < k {
      UntouchedUntil(pacers, ready, starting, lists, results, i, k - 1);
      assert PaceOutcome(pacers[k - 1], ready, starting, lists[k - 1], lists[k - 1 + 1], results[k - 1]);
    }
  }

  /** No second pacer sorts, so ties are broken once for all. */
  ghost predicate OneSorts(pacers: seq<Pacer>, ready: nat) {
    forall i, j :: 0 <= i < j < |pacers| ==> !(Sorts(pacers[i], ready) && Sorts(pacers[j], ready))
  }

  /** The final order is fixed once a pacer has sorted: creation times do not tie, or nobody
      sorts again. */
  ghost predicate OrderSettles(pacers: seq<Pacer>, ready: nat, pods: seq<Pod>) {
    DistinctCreation(multiset(pods)) || OneSorts(pacers, ready)
  }

  lemma SortedForGood(pacers: seq<Pacer>, ready: nat, starting: nat, lists: seq<seq<Pod>>, results: seq<seq<Pod>>, i: nat)
    requires Passes(pacers, ready, starting, lists, results) && i < |pacers|
    requires OrderSettles(pacers, ready, lists[0]) && SortsBefore(pacers, ready, i + 1)
    ensures lists[i + 1] == lists[|pacers|]
  {
    var n := |pacers|;
    var j :| 0 <= j < i + 1 && Sorts(pacers[j], ready);
    if OneSorts(pacers, ready) {
      UntouchedUntil(pacers, ready, starting, lists, results, i + 1, n);
    } else {
      SortedFromHere(pacers, ready, starting, lists, results, j, i + 1);
      SortedFromHere(pacers, ready, starting, lists, results, j, n);
      PassesKeepPods(pacers, ready, starting, lists, results, i + 1);
      PassesKeepPods(pacers, ready, starting, lists, results, n);
      SortIsUnique(lists[i + 1], lists[n]);
    }
  }

  /** A pacer that still paces takes its prefix of the order the composite ends with. */
  lemma SeesFinalOrder(pacers: seq<Pacer>, ready: nat, starting: nat, lists: seq<seq<Pod>>, results: seq<seq<Pod>>, i: nat)
    requires Passes(pacers, ready, starting, lists, results) && i < |pacers|
    requires OrderSettles(pacers, ready, lists[0])
    requires LinearNeverLeadsSort(pacers, ready)
    requires !Saturated(pacers[i], ready)
    ensures lists[i + 1] == lists[|pacers|]
  {
    if SortsBefore(pacers, ready, i + 1) {
      SortedForGood(pacers, ready, starting, lists, results, i);
    } else {
      assert !Sorts(pacers[i], ready);
      assert !SortsBefore(pacers, ready, i);
      assert forall j :: i < j < |pacers| ==> !Sorts(pacers[j], ready);
      UntouchedUntil(pacers, ready, starting, lists, results, i + 1, |pacers|);
    }
  }

  lemma {:induction false} ChosenIsPrefix(pods: seq<Pod>, results: seq<seq<Pod>>, m: nat)
    requires results != []
    requires forall j :: 0 <= j < |pods| ==> (Votes(results, pods[j].uid) == |results| <==> j < m)
    ensures Chosen(pods, results) == pods[..Min(m, |pods|)]
  {
    if pods != [] {
      var n := |pods| - 1;
      ChosenIsPrefix(pods[..n], results, m);
      assert pods == pods[..n] + [pods[n]];
      assert pods[..n][..Min(m, n)] == pods[..Min(m, n)];
    }
  }

  lemma InFinalPrefix(pacers: seq<Pacer>, ready: nat, starting: nat, lists: seq<seq<Pod>>, results: seq<seq<Pod>>, i: nat, j: nat)
    requires Passes(pacers, ready, starting, lists, results) && i < |pacers|
    requires DistinctUids(multiset(lists[0])) && OrderSettles(pacers, ready, lists[0])
    requires LinearNeverLeadsSort(pacers, ready)
    requires j < |lists[0]|
    ensures |lists[|pacers|]| == |lists[0]|
    ensures lists[|pacers|][j] in results[i] <==> j < AllowedCount(pacers[i], ready, starting, |lists[0]|)
  {
    var n := |pacers|;
    PassesKeepPods(pacers, ready, starting, lists, results, i);
    PassesKeepPods(pacers, ready, starting, lists, results, i + 1);
    PassesKeepPods(pacers, ready, starting, lists, results, n);
    assert PaceOutcome(pacers[i], ready, starting, lists[i], lists[i + 1], results[i]);
    if Saturated(pacers[i], ready) {
      assert results[i] == lists[i + 1];
      assert lists[n][j] in multiset(lists[n]);
      assert lists[n][j] in multiset(lists[i + 1]);
    } else {
      SeesFinalOrder(pacers, ready, starting, lists, results, i);
      PrefixIsDistinct(lists[n], AllowedCount(pacers[i], ready, starting, |lists[0]|));
    }
  }

  /** With distinct UIDs, a settled order and no linear pacer ahead of the first sort, the
      composite allows exactly the first min-over-the-counts pods of the final order. */
  lemma PrefixMinimum(pacers: seq<Pacer>, ready: nat, starting: nat, lists: seq<seq<Pod>>, results: seq<seq<Pod>>)
    requires Passes(pacers, ready, starting, lists, results) && pacers != []
    requires DistinctUids(multiset(lists[0])) && OrderSettles(pacers, ready, lists[0])
    requires LinearNeverLeadsSort(pacers, ready)
    ensures var m := MinCount(pacers, ready, starting, |lists[0]|);
            && m <= |lists[|pacers|]|
            && Chosen(lists[|pacers|], results) == lists[|pacers|][..m]
  {
    var n, b := |pacers|, |lists[0]|;
    var m := MinCount(pacers, ready, starting, b);
    var after := lists[n];
    PassesKeepPods(pacers, ready, starting, lists, results, n);
    BelowMinCount(pacers, ready, starting, b, b);
    forall j | 0 <= j < |after| ensures Votes(results, after[j].uid) == |results| <==> j < m {
      BelowMinCount(pacers, ready, starting, b, j);
      InChosen(after, results, after[j]);
      ExactIntersection(pacers, ready, starting, lists, results, after[j]);
      assert after[j] in multiset(after);
      forall i | 0 <= i < n ensures after[j] in results[i] <==> j < AllowedCount(pacers[i], ready, starting, b) {
        InFinalPrefix(pacers, ready, starting, lists, results, i, j);
      }
    }
    ChosenIsPrefix(after, results, m);
  }

  /** A lone pacer needs no distinct creation times: its composite allows what it allows. */
  lemma LonePacer(p: Pacer, ready: nat, starting: nat, lists: seq<seq<Pod>>, results: seq<seq<Pod>>)
    requires Passes([p], ready, starting, lists, results)
    requires DistinctUids(multiset(lists[0]))
    ensures CanPace(p) && Chosen(lists[1], results) == results[0]
    ensures |results[0]| == AllowedCount(p, ready, starting, |lists[0]|)
  {
    var pacers := [p];
    assert PaceOutcome(pacers[0], ready, starting, lists[0], lists[0 + 1], results[0]);
    hide Passes, Votes, DistinctUids;
    PrefixMinimum(pacers, ready, starting, lists, results);
    assert pacers[..0] == [];
    assert MinCount(pacers[..0], ready, starting, |lists[0]|) == |lists[0]|;
  }

  /** Hence such a composite makes progress if and only if every inner pacer would alone. */
  lemma ProgressIffAllProgress(pacers: seq<Pacer>, ready: nat, starting: nat, lists: seq<seq<Pod>>, results: seq<seq<Pod>>)
    requires Passes(pacers, ready, starting, lists, results) && pacers != []
    requires DistinctUids(multiset(lists[0])) && OrderSettles(pacers, ready, lists[0])
    requires LinearNeverLeadsSort(pacers, ready)
    ensures Chosen(lists[|pacers|], results) != [] <==>
            forall i :: 0 <= i < |pacers| ==> AllowedCount(pacers[i], ready, starting, |lists[0]|) >= 1
  {
    PrefixMinimum(pacers, ready, starting, lists, results);
    BelowMinCount(pacers, ready, starting, |lists[0]|, 0);
    assert lists[0] == [] ==> AllowedCount(pacers[0], ready, starting, |lists[0]|) == 0;
  }

  // ----- a fresh pod at admission -----

  /** The pod under admission has no UID and no creation time; every listed pod has both. */
  ghost predicate FreshAmong(newPod: Pod, blocked: seq<Pod>) {
    && newPod.uid == "" && newPod.created == 0
    && forall q :: q in blocked ==> q.uid != "" && q.created > 0
  }

  /** When one inner pacer allows the fresh pod: an exponential pacer sorts it to the front, so
      its own count decides; a linear one finds it at the front if the slice was sorted before,
      and otherwise last, behind all `blocked` listed pods. */
  predicate AllowsFresh(p: Pacer, ready: nat, starting: nat, blocked: nat, atFront: bool)
    requires CanPace(p)
  {
    if Saturated(p, ready) then true
    else if p.Exponential? then
      starting < Desired(p.exponential.minInitial, p.exponential.multiplier, ready)
    else
      var boundary := p.linear.step - ready % p.linear.step;
      starting < boundary && (atFront || blocked + 1 <= boundary)
  }

  /** The exponential threshold in numbers; `wanted` is minInitial, or the multiple rounded up. */
  lemma ExponentialThreshold(key: string, config: ExponentialConfig, ready: nat, starting: nat, blocked: nat, atFront: bool, wanted: int)
    requires if ready == 0 then wanted == config.minInitial
             else wanted as real - 1.0 < ready as real * config.multiplier <= wanted as real
    ensures AllowsFresh(Exponential(key, config), ready, starting, blocked, atFront) <==> ready >= config.maxStagger || starting < wanted
  {
    CeilBounds(ready as real * config.multiplier);
  }

  /** The linear threshold in numbers: the fresh pod needs a place below the next multiple of the
      step, and counts as the last of all blocked pods unless an earlier pacer sorted it first. */
  lemma LinearThreshold(key: string, config: LinearConfig, ready: nat, starting: nat, blocked: nat, atFront: bool, steps: int)
    requires config.step > 0 && config.step * (steps - 1) <= ready < config.step * steps
    ensures AllowsFresh(Linear(key, config), ready, starting, blocked, atFront) <==>
            || ready >= config.maxStagger
            || (ready + starting < config.step * steps && (atFront || ready + blocked + 1 <= config.step * steps))
  {
    RemainderIs(ready, config.step, steps - 1);
  }

  /** An earlier pacer sorts exactly if one is exponential and below its MaxStagger. */
  lemma SortsBeforeInNumbers(pacers: seq<Pacer>, ready: nat, i: nat)
    requires i <= |pacers|
    ensures SortsBefore(pacers, ready, i) <==>
            exists j :: 0 <= j < i && pacers[j].Exponential? && ready < pacers[j].exponential.maxStagger
  {
    if j :| 0 <= j < i && pacers[j].Exponential? && ready < pacers[j].exponential.maxStagger {
      assert Sorts(pacers[j], ready);
    }
  }

  lemma FreshKeepsUidsDistinct(newPod: Pod, blocked: seq<Pod>)
    requires FreshAmong(newPod, blocked) && DistinctUids(multiset(blocked))
    ensures DistinctUids(multiset(blocked + [newPod]))
  {
    assert multiset(blocked + [newPod]) == multiset(blocked) + multiset{newPod};
    assert newPod !in blocked;
    assert newPod !in multiset(blocked);
    forall p | p in multiset(blocked) ensures p in blocked {}
  }

  /** A sorted slice that holds the fresh pod starts with it. */
  lemma SortedStartsWithFresh(newPod: Pod, blocked: seq<Pod>, sorted: seq<Pod>)
    requires FreshAmong(newPod, blocked)
    requires multiset(sorted) == multiset(blocked + [newPod]) && SortedByCreation(sorted)
    ensures sorted != [] && sorted[0] == newPod
  {
    assert newPod in multiset(sorted);
    var i :| 0 <= i < |sorted| && sorted[i] == newPod;
    assert sorted[0].created <= sorted[i].created;
    assert sorted[0] in multiset(blocked + [newPod]);
    assert sorted[0] in blocked || sorted[0] == newPod;
  }

  /** Where pacer i finds the fresh pod. */
  lemma FreshPosition(pacers: seq<Pacer>, ready: nat, starting: nat, blocked: seq<Pod>, newPod: Pod,
                      lists: seq<seq<Pod>>, results: seq<seq<Pod>>, i: nat)
    requires Passes(pacers, ready, starting, lists, results) && i <= |pacers|
    requires lists[0] == blocked + [newPod] && FreshAmong(newPod, blocked)
    ensures |lists[i]| == |blocked| + 1
    ensures if SortsBefore(pacers, ready, i) then lists[i][0] == newPod else lists[i] == blocked + [newPod]
  {
    PassesKeepPods(pacers, ready, starting, lists, results, i);
    if SortsBefore(pacers, ready, i) {
      var j :| 0 <= j < i && Sorts(pacers[j], ready);
      SortedFromHere(pacers, ready, starting, lists, results, j, i);
      SortedStartsWithFresh(newPod, blocked, lists[i]);
    } else {
      UntouchedUntil(pacers, ready, starting, lists, results, 0, i);
    }
  }

  lemma InnerAllowsFresh(pacers: seq<Pacer>, ready: nat, starting: nat, blocked: seq<Pod>, newPod: Pod,
                         lists: seq<seq<Pod>>, results: seq<seq<Pod>>, i: nat)
    requires Passes(pacers, ready, starting, lists, results) && i < |pacers|
    requires lists[0] == blocked + [newPod] && FreshAmong(newPod, blocked) && DistinctUids(multiset(blocked))
    ensures newPod in results[i] <==> AllowsFresh(pacers[i], ready, starting, |blocked|, SortsBefore(pacers, ready, i))
  {
    var p := pacers[i];
    var count := AllowedCount(p, ready, starting, |blocked| + 1);
    FreshPosition(pacers, ready, starting, blocked, newPod, lists, results, i);
    FreshPosition(pacers, ready, starting, blocked, newPod, lists, results, i + 1);
    assert PaceOutcome(p, ready, starting, lists[i], lists[i + 1], results[i]);
    FreshKeepsUidsDistinct(newPod, blocked);
    PassesKeepPods(pacers, ready, starting, lists, results, i + 1);
    PrefixIsDistinct(lists[i + 1], count);
    if Sorts(p, ready) {
      assert SortsBefore(pacers, ready, i + 1);
      assert lists[i + 1][0] == newPod;
    } else if SortsBefore(pacers, ready, i) {
      assert lists[i + 1][0] == newPod;
    } else {
      assert lists[i + 1][|blocked|] == newPod;
    }
  }

  /** Admission is a threshold on counts: the order of the listed pods never matters, only how
      many there are and which pacers sort before which. */
  lemma AdmissionThreshold(pacers: seq<Pacer>, ready: nat, starting: nat, blocked: seq<Pod>, newPod: Pod,
                           lists: seq<seq<Pod>>, results: seq<seq<Pod>>)
    requires Passes(pacers, ready, starting, lists, results)
    requires lists[0] == blocked + [newPod] && FreshAmong(newPod, blocked) && DistinctUids(multiset(blocked))
    ensures newPod in Chosen(lists[|pacers|], results) <==>
            pacers != [] && forall i :: 0 <= i < |pacers| ==>
              AllowsFresh(pacers[i], ready, starting, |blocked|, SortsBefore(pacers, ready, i))
  {
    FreshKeepsUidsDistinct(newPod, blocked);
    ExactIntersection(pacers, ready, starting, lists, results, newPod);
    forall i | 0 <= i < |pacers|
      ensures newPod in results[i] <==> AllowsFresh(pacers[i], ready, starting, |blocked|, SortsBefore(pacers, ready, i))
    {
      InnerAllowsFresh(pacers, ready, starting, blocked, newPod, lists, results, i);
    }
  }
}
