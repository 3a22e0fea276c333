/** The composite pacer: several pacers, one shared slice, and votes counted by UID. */
module Composite {
  import opened Pods
  import opened Pacers

  /** The pacers run one after the other on the same slice: lists[i] is what pacer i finds in
      it, lists[i + 1] what it leaves there, and results[i] what it returned. */
  ghost predicate Passes(pacers: seq<Pacer>, ready: nat, starting: nat, lists: seq<seq<Pod>>, results: seq<seq<Pod>>) {
    && AllCanPace(pacers)
    && |lists| == |pacers| + 1
    && |results| == |pacers|
    && forall i :: 0 <= i < |pacers| ==> PaceOutcome(pacers[i], ready, starting, lists[i], lists[i + 1], results[i])
  }

  function Occurrences(pods: seq<Pod>, uid: string): nat {
    if pods == [] then 0
    else Occurrences(pods[..|pods| - 1], uid) + if pods[|pods| - 1].uid == uid then 1 else 0
  }

  function Votes(results: seq<seq<Pod>>, uid: string): nat {
    if results == [] then 0
    else Votes(results[..|results| - 1], uid) + Occurrences(results[|results| - 1], uid)
  }

  /** The pods of a list that collected one vote per pacer, in list order. A pod without any
      vote is absent from the tally, so an empty composite chooses nothing. */
  function Chosen(pods: seq<Pod>, results: seq<seq<Pod>>): seq<Pod> {
    if pods == [] then []
    else
      var last := pods[|pods| - 1];
      var rest := Chosen(pods[..|pods| - 1], results);
      if results != [] && Votes(results, last.uid) == |results| then rest + [last] else rest
  }

  ghost predicate Tallies(votes: map<string, nat>, results: seq<seq<Pod>>) {
    forall uid :: (uid in votes <==> Votes(results, uid) > 0) && (uid in votes ==> votes[uid] == Votes(results, uid))
  }

  /** Votes for a UID once the first k pods of one more result are counted. */
  ghost predicate TalliesPartly(votes: map<string, nat>, results: seq<seq<Pod>>, result: seq<Pod>, k: nat)
    requires k <= |result|
  {
    forall uid :: var n := Votes(results, uid) + Occurrences(result[..k], uid);
                  (uid in votes <==> n > 0) && (uid in votes ==> votes[uid] == n)
  }

  method CountVotes(votes0: map<string, nat>, result: seq<Pod>, ghost results: seq<seq<Pod>>) returns (votes: map<string, nat>)
    requires Tallies(votes0, results)
    ensures Tallies(votes, results + [result])
  {
    votes := votes0;
    for k := 0 to |result|
      invariant TalliesPartly(votes, results, result, k)
    {
      var uid := result[k].uid;
      assert result[..k + 1][..k] == result[..k];
      votes := votes[uid := (if uid in votes then votes[uid] else 0) + 1];
    }
    assert result[..|result|] == result;
    assert (results + [result])[..|results|] == results;
  }

  class CompositePacer {
    const id: string
    const pacers: seq<Pacer>

    constructor (id: string, pacers: seq<Pacer>)
      ensures this.id == id && this.pacers == pacers
    {
      this.id := id;
      this.pacers := pacers;
    }

    method Pace(c: PodClassification) returns (allowPods: seq<Pod>, ghost lists: seq<seq<Pod>>, ghost results: seq<seq<Pod>>)
      requires AllCanPace(pacers)
      modifies c.blocked
      ensures Passes(pacers, |c.ready|, |c.starting|, lists, results)
      ensures lists[0] == old(c.blocked[..]) && lists[|pacers|] == c.blocked[..]
      ensures allowPods == Chosen(c.blocked[..], results)
    {
      var votes: map<string, nat> := map[];
      lists, results := [c.blocked[..]], [];
      for i := 0 to |pacers|
        invariant Passes(pacers[..i], |c.ready|, |c.starting|, lists, results)
        invariant lists[0] == old(c.blocked[..]) && lists[i] == c.blocked[..]
        invariant Tallies(votes, results)
      {
        var result := Pacers.Pace(pacers[i], c);
        votes := CountVotes(votes, result, results);
        lists, results := lists + [c.blocked[..]], results + [result];
      }
      assert pacers[..|pacers|] == pacers;
      allowPods := [];
      for j := 0 to c.blocked.Length
        invariant c.blocked[..] == lists[|pacers|]
        invariant allowPods == Chosen(c.blocked[..j], results)
      {
        var pod := c.blocked[j];
        assert c.blocked[..j + 1][..j] == c.blocked[..j];
        if pod.uid in votes && votes[pod.uid] == |pacers| {
          allowPods := allowPods + [pod];
        }
      }
      assert c.blocked[..c.blocked.Length] == c.blocked[..];
    }
  }

  // ----- the composite is an exact intersection -----

  lemma LastIsNew(pods: seq<Pod>)
    requires pods != [] && DistinctUids(multiset(pods))
    ensures DistinctUids(multiset(pods[..|pods| - 1]))
    ensures forall p :: p in pods[..|pods| - 1] ==> p.uid != pods[|pods| - 1].uid
  {
    var n := |pods| - 1;
    PrefixIsDistinct(pods, n);
    forall p | p in pods[..n] ensures p.uid != pods[n].uid {
      assert p in multiset(pods) && pods[n] in multiset(pods);
      assert pods[n] !in pods[..n];
    }
  }

  lemma {:induction false} OccurrencesInDistinct(pods: seq<Pod>, uid: string)
    requires DistinctUids(multiset(pods))
    ensures Occurrences(pods, uid) <= 1
    ensures Occurrences(pods, uid) == 1 <==> exists p :: p in pods && p.uid == uid
  {
    if pods != [] {
      var n := |pods| - 1;
      LastIsNew(pods);
      OccurrencesInDistinct(pods[..n], uid);
      hide DistinctUids;
      assert pods == pods[..n] + [pods[n]];
    }
  }

  lemma {:induction false} UnanimousVotes(results: seq<seq<Pod>>, uid: string)
    requires forall i :: 0 <= i < |results| ==> Occurrences(results[i], uid) <= 1
    ensures Votes(results, uid) <= |results|
    ensures Votes(results, uid) == |results| <==> forall i :: 0 <= i < |results| ==> Occurrences(results[i], uid) == 1
  {
    if results != [] {
      var n := |results| - 1;
      UnanimousVotes(results[..n], uid);
      assert forall i :: 0 <= i < n ==> results[..n][i] == results[i];
    }
  }

  lemma {:induction false} InChosen(pods: seq<Pod>, results: seq<seq<Pod>>, pod: Pod)
    ensures pod in Chosen(pods, results) <==> results != [] && pod in pods && Votes(results, pod.uid) == |results|
  {
    if pods != [] {
      InChosen(pods[..|pods| - 1], results, pod);
      assert pods == pods[..|pods| - 1] + [pods[|pods| - 1]];
    }
  }

  /** The chosen pods come in the order of the list they are chosen from. */
  lemma {:induction false} ChosenKeepsOrder(pods: seq<Pod>, results: seq<seq<Pod>>) returns (positions: seq<nat>)
    ensures |positions| == |Chosen(pods, results)|
    ensures forall i :: 0 <= i < |positions| ==> positions[i] < |pods| && pods[positions[i]] == Chosen(pods, results)[i]
    ensures forall i, j :: 0 <= i < j < |positions| ==> positions[i] < positions[j]
  {
    if pods == [] {
      positions := [];
    } else {
      var n := |pods| - 1;
      var rest := Chosen(pods[..n], results);
      positions := ChosenKeepsOrder(pods[..n], results);
      if results != [] && Votes(results, pods[n].uid) == |results| {
        assert Chosen(pods, results) == rest + [pods[n]];
        hide *;
        positions := positions + [n];
      } else {
        assert Chosen(pods, results) == rest;
      }
    }
  }

  /** However the pacers sort, the slice always holds the same pods. */
  lemma {:induction false} PassesKeepPods(pacers: seq<Pacer>, ready: nat, starting: nat, lists: seq<seq<Pod>>, results: seq<seq<Pod>>, i: nat)
    requires Passes(pacers, ready, starting, lists, results) && i <= |pacers|
    ensures multiset(lists[i]) == multiset(lists[0])
    ensures |lists[i]| == |lists[0]|
  {
    if i > 0 {
      PassesKeepPods(pacers, ready, starting, lists, results, i - 1);
      OutcomeKeepsPods(pacers[i - 1], ready, starting, lists[i - 1], lists[i - 1 + 1], results[i - 1]);
    }
  }

  /** Every slice has an outcome. */
  lemma {:induction false} SomePasses(pacers: seq<Pacer>, ready: nat, starting: nat, before: seq<Pod>)
    returns (lists: seq<seq<Pod>>, results: seq<seq<Pod>>)
    requires AllCanPace(pacers)
    ensures Passes(pacers, ready, starting, lists, results) && lists[0] == before
  {
    if pacers == [] {
      lists, results := [before], [];
    } else {
      var n := |pacers| - 1;
      var p := pacers[n];
      lists, results := SomePasses(pacers[..n], ready, starting, before);
      var after := if Sorts(p, ready) then SortSeq(lists[n]) else lists[n];
      var allowed := after[..AllowedCount(p, ready, starting, |lists[n]|)];
      PassesAppend(pacers, ready, starting, lists, results, after, allowed);
      lists, results := lists + [after], results + [allowed];
    }
  }

  lemma PassesShape(pacers: seq<Pacer>, ready: nat, starting: nat, lists: seq<seq<Pod>>, results: seq<seq<Pod>>)
    requires Passes(pacers, ready, starting, lists, results)
    ensures |lists| == |pacers| + 1
  {
  }

  lemma PassesAppend(pacers: seq<Pacer>, ready: nat, starting: nat, lists: seq<seq<Pod>>, results: seq<seq<Pod>>, after: seq<Pod>, allowed: seq<Pod>)
    requires AllCanPace(pacers) && pacers != []
    requires var n := |pacers| - 1;
             && Passes(pacers[..n], ready, starting, lists, results)
             && PaceOutcome(pacers[n], ready, starting, lists[n], after, allowed)
    ensures Passes(pacers, ready, starting, lists + [after], results + [allowed])
  {
    var n := |pacers| - 1;
    var lists', results' := lists + [after], results + [allowed];
    hide PaceOutcome, CanPace;
    forall i | 0 <= i < |pacers| ensures PaceOutcome(pacers[i], ready, starting, lists'[i], lists'[i + 1], results'[i]) {
      if i < n {
        assert PaceOutcome(pacers[..n][i], ready, starting, lists[i], lists[i + 1], results[i]);
      }
    }
  }

  lemma ResultsAreDistinct(pacers: seq<Pacer>, ready: nat, starting: nat, lists: seq<seq<Pod>>, results: seq<seq<Pod>>, i: nat)
    requires Passes(pacers, ready, starting, lists, results) && i < |pacers|
    requires DistinctUids(multiset(lists[0]))
    ensures DistinctUids(multiset(results[i]))
    ensures forall p :: p in results[i] ==> p in multiset(lists[0])
  {
    PassesKeepPods(pacers, ready, starting, lists, results, i + 1);
    var n := AllowedCount(pacers[i], ready, starting, |lists[i]|);
    PrefixIsDistinct(lists[i + 1], n);
    forall p | p in results[i] ensures p in multiset(lists[0]) {
      assert p in lists[i + 1];
      assert p in multiset(lists[i + 1]);
    }
  }

  /** The composite is an exact intersection: with distinct UIDs a pod is allowed if and only
      if it was blocked and every inner pacer allows it. */
  lemma ExactIntersection(pacers: seq<Pacer>, ready: nat, starting: nat, lists: seq<seq<Pod>>, results: seq<seq<Pod>>, pod: Pod)
    requires Passes(pacers, ready, starting, lists, results)
    requires DistinctUids(multiset(lists[0]))
    ensures pod in Chosen(lists[|pacers|], results) <==>
            pacers != [] && pod in lists[0] && forall i :: 0 <= i < |pacers| ==> pod in results[i]
  {
    var after := lists[|pacers|];
    InChosen(after, results, pod);
    PassesKeepPods(pacers, ready, starting, lists, results, |pacers|);
    assert pod in after <==> pod in multiset(after);
    assert pod in lists[0] <==> pod in multiset(lists[0]);
    forall i | 0 <= i < |results| ensures Occurrences(results[i], pod.uid) <= 1 {
      ResultsAreDistinct(pacers, ready, starting, lists, results, i);
      OccurrencesInDistinct(results[i], pod.uid);
    }
    UnanimousVotes(results, pod.uid);
    if pod in lists[0] {
      forall i | 0 <= i < |results| ensures Occurrences(results[i], pod.uid) == 1 <==> pod in results[i] {
        ResultsAreDistinct(pacers, ready, starting, lists, results, i);
        OccurrencesInDistinct(results[i], pod.uid);
      }
    }
  }

  /** If anything at all is allowed, every inner pacer has room for at least one pod. */
  lemma ChosenNeedsRoom(pacers: seq<Pacer>, ready: nat, starting: nat, lists: seq<seq<Pod>>, results: seq<seq<Pod>>, i: nat)
    requires Passes(pacers, ready, starting, lists, results)
    requires DistinctUids(multiset(lists[0]))
    requires Chosen(lists[|pacers|], results) != []
    requires i < |pacers|
    ensures AllowedCount(pacers[i], ready, starting, |lists[0]|) >= 1
  {
    var pod := Chosen(lists[|pacers|], results)[0];
    ExactIntersection(pacers, ready, starting, lists, results, pod);
    PassesKeepPods(pacers, ready, starting, lists, results, i);
    assert pod in results[i];
    assert PaceOutcome(pacers[i], ready, starting, lists[i], lists[i + 1], results[i]);
    assert |results[i]| == AllowedCount(pacers[i], ready, starting, |lists[i]|);
  }
}
