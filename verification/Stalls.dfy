/** When a composite can stall although each of its pacers would let something go: a linear pacer
    ahead of the first sort takes its prefix of a different order than the pacers after it. */
module Stalls {
  import opened Pods
  import opened Pacers
  import opened Composite
  import opened SharedOrder

  function Reversed(pods: seq<Pod>): (r: seq<Pod>)
    ensures |r| == |pods|
    ensures forall k :: 0 <= k < |pods| ==> r[k] == pods[|pods| - 1 - k]
  {
    if pods == [] then [] else Reversed(pods[1..]) + [pods[0]]
  }

  lemma {:induction false} ReversedKeepsPods(pods: seq<Pod>)
    ensures multiset(Reversed(pods)) == multiset(pods)
  {
    if pods != [] {
      ReversedKeepsPods(pods[1..]);
      assert pods == [pods[0]] + pods[1..];
    }
  }

  ghost predicate NewestFirst(pods: seq<Pod>) {
    forall i, j :: 0 <= i < j < |pods| ==> pods[i].created > pods[j].created
  }

  lemma SortTurnsNewestFirst(pods: seq<Pod>, sorted: seq<Pod>)
    requires NewestFirst(pods) && DistinctCreation(multiset(pods))
    requires multiset(pods) == multiset(sorted) && SortedByCreation(sorted)
    ensures sorted == Reversed(pods)
  {
    ReversedKeepsPods(pods);
    assert SortedByCreation(Reversed(pods));
    SortIsUnique(Reversed(pods), sorted);
  }

  /** Position of the first pacer that sorts, the number of pacers if none does. */
  function FirstSort(pacers: seq<Pacer>, ready: nat): (i: nat)
    ensures i <= |pacers| && (i < |pacers| ==> Sorts(pacers[i], ready))
    ensures forall j :: 0 <= j < i ==> !Sorts(pacers[j], ready)
  {
    if pacers == [] then 0
    else
      var n := |pacers| - 1;
      var i := FirstSort(pacers[..n], ready);
      assert forall j :: 0 <= j < n ==> pacers[..n][j] == pacers[j];
      if i < n || Sorts(pacers[n], ready) then i else n + 1
  }

  /** The least count ahead of the first sort. */
  function Front(pacers: seq<Pacer>, ready: nat, starting: nat, blocked: nat): nat
    requires AllCanPace(pacers)
  {
    MinCount(pacers[..FirstSort(pacers, ready)], ready, starting, blocked)
  }

  /** The least count from the first sort on. */
  function Back(pacers: seq<Pacer>, ready: nat, starting: nat, blocked: nat): nat
    requires AllCanPace(pacers)
  {
    MinCount(pacers[FirstSort(pacers, ready)..], ready, starting, blocked)
  }

  lemma AllowedInFront(pacers: seq<Pacer>, ready: nat, starting: nat, lists: seq<seq<Pod>>, results: seq<seq<Pod>>, j: nat)
    requires Passes(pacers, ready, starting, lists, results) && DistinctUids(multiset(lists[0])) && j < |lists[0]|
    ensures (forall i :: 0 <= i < FirstSort(pacers, ready) ==> lists[0][j] in results[i]) <==> j < Front(pacers, ready, starting, |lists[0]|)
  {
    var k, b := FirstSort(pacers, ready), |lists[0]|;
    BelowMinCount(pacers[..k], ready, starting, b, j);
    forall i | 0 <= i < k
      ensures pacers[..k][i] == pacers[i]
      ensures lists[0][j] in results[i] <==> j < AllowedCount(pacers[i], ready, starting, b)
    {
      UntouchedUntil(pacers, ready, starting, lists, results, 0, i);
      assert PaceOutcome(pacers[i], ready, starting, lists[i], lists[i + 1], results[i]);
      PrefixIsDistinct(lists[0], AllowedCount(pacers[i], ready, starting, b));
    }
  }

  lemma InSortedPrefix(pacers: seq<Pacer>, ready: nat, starting: nat, lists: seq<seq<Pod>>, results: seq<seq<Pod>>, i: nat, j: nat)
    requires Passes(pacers, ready, starting, lists, results) && i < |pacers|
    requires DistinctUids(multiset(lists[0])) && OrderSettles(pacers, ready, lists[0])
    requires SortsBefore(pacers, ready, i + 1) && j < |lists[0]|
    ensures |lists[|pacers|]| == |lists[0]|
    ensures lists[|pacers|][j] in results[i] <==> j < AllowedCount(pacers[i], ready, starting, |lists[0]|)
  {
    SortedForGood(pacers, ready, starting, lists, results, i);
    PassesKeepPods(pacers, ready, starting, lists, results, i);
    PassesKeepPods(pacers, ready, starting, lists, results, |pacers|);
    assert PaceOutcome(pacers[i], ready, starting, lists[i], lists[i + 1], results[i]);
    PrefixIsDistinct(lists[i + 1], AllowedCount(pacers[i], ready, starting, |lists[0]|));
  }

  lemma AllowedInBack(pacers: seq<Pacer>, ready: nat, starting: nat, lists: seq<seq<Pod>>, results: seq<seq<Pod>>, j: nat)
    requires Passes(pacers, ready, starting, lists, results)
    requires DistinctUids(multiset(lists[0])) && OrderSettles(pacers, ready, lists[0]) && j < |lists[0]|
    ensures |lists[|pacers|]| == |lists[0]|
    ensures (forall i :: FirstSort(pacers, ready) <= i < |pacers| ==> lists[|pacers|][j] in results[i])
            <==> j < Back(pacers, ready, starting, |lists[0]|)
  {
    var n, k, b := |pacers|, FirstSort(pacers, ready), |lists[0]|;
    PassesKeepPods(pacers, ready, starting, lists, results, n);
    BelowMinCount(pacers[k..], ready, starting, b, j);
    forall i | k <= i < n
      ensures pacers[k..][i - k] == pacers[i]
      ensures lists[n][j] in results[i] <==> j < AllowedCount(pacers[i], ready, starting, b)
    {
      InSortedPrefix(pacers, ready, starting, lists, results, i, j);
    }
    assert forall i :: 0 <= i < n - k ==> pacers[k..][i] == pacers[k + i];
  }

  /** What any composite allows, wherever its linear pacers stand: the pods that are both in the
      front prefix of the slice as it came and in the back prefix of the slice as it was left. */
  lemma ChosenIsOverlap(pacers: seq<Pacer>, ready: nat, starting: nat, lists: seq<seq<Pod>>, results: seq<seq<Pod>>, pod: Pod)
    requires Passes(pacers, ready, starting, lists, results) && pacers != []
    requires DistinctUids(multiset(lists[0])) && OrderSettles(pacers, ready, lists[0])
    ensures Front(pacers, ready, starting, |lists[0]|) <= |lists[0]|
    ensures Back(pacers, ready, starting, |lists[0]|) <= |lists[0]| == |lists[|pacers|]|
    ensures pod in Chosen(lists[|pacers|], results) <==>
            && pod in lists[0][..Front(pacers, ready, starting, |lists[0]|)]
            && pod in lists[|pacers|][..Back(pacers, ready, starting, |lists[0]|)]
  {
    var n, b := |pacers|, |lists[0]|;
    var k := FirstSort(pacers, ready);
    MinCountWithin(pacers[..k], ready, starting, b);
    MinCountWithin(pacers[k..], ready, starting, b);
    PassesKeepPods(pacers, ready, starting, lists, results, n);
    ExactIntersection(pacers, ready, starting, lists, results, pod);
    assert pod in lists[0] <==> pod in multiset(lists[0]);
    assert pod in lists[n] <==> pod in multiset(lists[n]);
    hide Passes, Chosen, DistinctUids, OrderSettles, Front, Back;
    if pod in lists[0] {
      var i :| 0 <= i < b && lists[0][i] == pod;
      var j :| 0 <= j < b && lists[n][j] == pod;
      AllowedInFront(pacers, ready, starting, lists, results, i);
      AllowedInBack(pacers, ready, starting, lists, results, j);
      PrefixIsDistinct(lists[0], Front(pacers, ready, starting, b));
      PrefixIsDistinct(lists[n], Back(pacers, ready, starting, b));
    }
  }

  lemma MinCountWithin(pacers: seq<Pacer>, ready: nat, starting: nat, blocked: nat)
    requires AllCanPace(pacers)
    ensures MinCount(pacers, ready, starting, blocked) <= blocked
  {
    BelowMinCount(pacers, ready, starting, blocked, blocked);
  }

  /** Two prefixes of orders of the same distinct pods meet when they are long enough. */
  lemma PrefixesMeet(a: seq<Pod>, b: seq<Pod>, m: nat, n: nat)
    requires multiset(a) == multiset(b) && DistinctUids(multiset(a))
    requires m <= |a| && n <= |b| && m + n > |a|
    ensures exists p :: p in a[..m] && p in b[..n]
  {
    if forall p :: !(p in a[..m] && p in b[..n]) {
      var both := multiset(a[..m]) + multiset(b[..n]);
      PrefixIsDistinct(a, m);
      PrefixIsDistinct(b, n);
      forall p | p in both ensures both[p] <= multiset(a)[p] {
        assert p in a[..m] ==> p in a;
        assert p in b[..n] ==> p in b && p in multiset(b);
        assert !(p in multiset(a[..m]) && p in multiset(b[..n])) by {
          assert !(p in a[..m] && p in b[..n]);
        }
      }
      assert |both| == m + n;
      PartIsSmaller(both, multiset(a));
    }
  }

  /** The failing family: on every newest-first slice whose front and back prefixes are together
      no longer than it, nothing is allowed, even if every pacer alone would allow something. */
  lemma LinearLeadingSortStalls(pacers: seq<Pacer>, ready: nat, starting: nat, lists: seq<seq<Pod>>, results: seq<seq<Pod>>)
    requires Passes(pacers, ready, starting, lists, results) && pacers != []
    requires DistinctUids(multiset(lists[0])) && DistinctCreation(multiset(lists[0])) && NewestFirst(lists[0])
    requires Front(pacers, ready, starting, |lists[0]|) + Back(pacers, ready, starting, |lists[0]|) <= |lists[0]|
    ensures Chosen(lists[|pacers|], results) == []
  {
    var n, k := |pacers|, FirstSort(pacers, ready);
    assert k == n ==> pacers[k..] == [];
    if Chosen(lists[n], results) != [] {
      var pod := Chosen(lists[n], results)[0];
      ChosenIsOverlap(pacers, ready, starting, lists, results, pod);
      PassesKeepPods(pacers, ready, starting, lists, results, n);
      if k < n {
        SortedFromHere(pacers, ready, starting, lists, results, k, n);
        SortTurnsNewestFirst(lists[0], lists[n]);
        DistinctEndsAreApart(lists[0], Front(pacers, ready, starting, |lists[0]|), Back(pacers, ready, starting, |lists[0]|), pod);
        assert false;
      }
    }
  }

  /** A composite that lets something go on every slice of `blocked` distinct pods, whatever
      their order and however the sorts fall out. */
  ghost predicate AlwaysProgresses(pacers: seq<Pacer>, ready: nat, starting: nat, blocked: nat) {
    forall lists, results ::
      Passes(pacers, ready, starting, lists, results) && |lists[0]| == blocked
      && DistinctUids(multiset(lists[0])) && DistinctCreation(multiset(lists[0]))
      ==> Chosen(lists[|pacers|], results) != []
  }

  function NewestPods(n: nat): (pods: seq<Pod>)
    ensures |pods| == n
    ensures forall k :: 0 <= k < n ==> pods[k].created == n - k && |pods[k].uid| == n - k
  {
    if n == 0 then [] else [Pod("", "", "", Tally(n), n, map[], "", true, [])] + NewestPods(n - 1)
  }

  lemma {:induction false} NewestPodsAreDistinct(n: nat)
    ensures forall p :: p in multiset(NewestPods(n)) ==> multiset(NewestPods(n))[p] == 1
  {
    if n > 0 {
      NewestPodsAreDistinct(n - 1);
      var pods := NewestPods(n);
      assert pods == [pods[0]] + NewestPods(n - 1);
      assert pods[0] !in NewestPods(n - 1);
    }
  }

  /** Exactly when a composite cannot stall, for any mix and order of pacers: the least count
      ahead of the first sort and the least count from there on exceed the blocked pods together.
      A caller can compute both from the configuration and the three counts. */
  lemma NeverStallsIff(pacers: seq<Pacer>, ready: nat, starting: nat, blocked: nat)
    requires AllCanPace(pacers) && pacers != []
    ensures AlwaysProgresses(pacers, ready, starting, blocked) <==>
            Front(pacers, ready, starting, blocked) + Back(pacers, ready, starting, blocked) > blocked
  {
    if Front(pacers, ready, starting, blocked) + Back(pacers, ready, starting, blocked) > blocked {
      forall lists, results |
        Passes(pacers, ready, starting, lists, results) && |lists[0]| == blocked
        && DistinctUids(multiset(lists[0])) && DistinctCreation(multiset(lists[0]))
        ensures Chosen(lists[|pacers|], results) != []
      {
        LongPrefixesProgress(pacers, ready, starting, lists, results);
      }
    } else {
      var lists, results := SomeStall(pacers, ready, starting, blocked);
    }
  }

  lemma NewestPodsAreNewestFirst(n: nat)
    ensures var pods := NewestPods(n);
            NewestFirst(pods) && DistinctUids(multiset(pods)) && DistinctCreation(multiset(pods))
  {
    var pods := NewestPods(n);
    NewestPodsAreDistinct(n);
    forall p: Pod, q: Pod | p in multiset(pods) && q in multiset(pods) && (p.uid == q.uid || p.created == q.created) ensures p == q {
      assert p in pods && q in pods;
    }
  }

  lemma SomeStall(pacers: seq<Pacer>, ready: nat, starting: nat, blocked: nat) returns (lists: seq<seq<Pod>>, results: seq<seq<Pod>>)
    requires AllCanPace(pacers) && pacers != []
    requires Front(pacers, ready, starting, blocked) + Back(pacers, ready, starting, blocked) <= blocked
    ensures Passes(pacers, ready, starting, lists, results) && |lists[0]| == blocked
    ensures DistinctUids(multiset(lists[0])) && DistinctCreation(multiset(lists[0]))
    ensures Chosen(lists[|pacers|], results) == []
  {
    NewestPodsAreNewestFirst(blocked);
    hide *;
    lists, results := SomePasses(pacers, ready, starting, NewestPods(blocked));
    assert |NewestPods(blocked)| == blocked;
    PassesShape(pacers, ready, starting, lists, results);
    LinearLeadingSortStalls(pacers, ready, starting, lists, results);
  }

  lemma LongPrefixesProgress(pacers: seq<Pacer>, ready: nat, starting: nat, lists: seq<seq<Pod>>, results: seq<seq<Pod>>)
    requires Passes(pacers, ready, starting, lists, results) && pacers != []
    requires DistinctUids(multiset(lists[0])) && OrderSettles(pacers, ready, lists[0])
    requires Front(pacers, ready, starting, |lists[0]|) + Back(pacers, ready, starting, |lists[0]|) > |lists[0]|
    ensures Chosen(lists[|pacers|], results) != []
  {
    var m, n := Front(pacers, ready, starting, |lists[0]|), Back(pacers, ready, starting, |lists[0]|);
    ChosenIsOverlap(pacers, ready, starting, lists, results, lists[0][0]);
    PassesKeepPods(pacers, ready, starting, lists, results, |pacers|);
    PrefixesMeet(lists[0], lists[|pacers|], m, n);
    var pod :| pod in lists[0][..m] && pod in lists[|pacers|][..n];
    ChosenIsOverlap(pacers, ready, starting, lists, results, pod);
  }

  lemma DistinctEndsAreApart(pods: seq<Pod>, m: nat, n: nat, pod: Pod)
    requires DistinctUids(multiset(pods)) && m + n <= |pods|
    ensures !(pod in pods[..m] && pod in Reversed(pods)[..n])
  {
    PrefixIsDistinct(pods, m);
    var ends := Reversed(pods)[..n];
    forall b | 0 <= b < n ensures ends[b] !in pods[..m] {
      assert ends[b] == pods[|pods| - 1 - b];
    }
  }
}
