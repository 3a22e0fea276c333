/** When a composite can stall on pods whose creation times may tie. By its documentation the sort
    may leave tied pods in any order, so every pacer that sorts may deal the slice anew. */
module Ties {
  import opened Pods
  import opened Pacers
  import opened Composite

  /** The pacers cut into parts, each but the first beginning with a pacer that sorts: all pacers
      of a part see one order, and withhold what is beyond its least count. `before` adds up the
      shortfalls of the parts done, `least` is the least count of the part under way. */
  datatype Cut = Cut(before: nat, least: nat)

  /** One pacer more: it begins a part if it sorts, and joins the part under way if not. */
  function NextCut(c: Cut, blocked: nat, count: nat, sorts: bool): Cut
    requires c.least <= blocked
  {
    if sorts then Cut(c.before + (blocked - c.least), count) else Cut(c.before, Min(c.least, count))
  }

  function Cuts(pacers: seq<Pacer>, ready: nat, starting: nat, blocked: nat): (c: Cut)
    requires AllCanPace(pacers)
    ensures c.least <= blocked
  {
    if pacers == [] then Cut(0, blocked)
    else
      var n := |pacers| - 1;
      NextCut(Cuts(pacers[..n], ready, starting, blocked), blocked, AllowedCount(pacers[n], ready, starting, blocked), Sorts(pacers[n], ready))
  }

  /** How many pods the parts withhold, counted part by part. */
  function Shortfall(pacers: seq<Pacer>, ready: nat, starting: nat, blocked: nat): nat
    requires AllCanPace(pacers)
  {
    var c := Cuts(pacers, ready, starting, blocked);
    c.before + (blocked - c.least)
  }

  ghost predicate AllowedByAll(results: seq<seq<Pod>>, pod: Pod) {
    forall i :: 0 <= i < |results| ==> pod in results[i]
  }

  lemma PassesPrefix(pacers: seq<Pacer>, ready: nat, starting: nat, lists: seq<seq<Pod>>, results: seq<seq<Pod>>)
    requires Passes(pacers, ready, starting, lists, results) && pacers != []
    ensures var n := |pacers| - 1;
            && Passes(pacers[..n], ready, starting, lists[..n + 1], results[..n])
            && PaceOutcome(pacers[n], ready, starting, lists[n], lists[n + 1], results[n])
  {
    hide PaceOutcome;
    var n := |pacers| - 1;
    assert PaceOutcome(pacers[n], ready, starting, lists[n], lists[n + 1], results[n]);
    forall i | 0 <= i < n
      ensures PaceOutcome(pacers[..n][i], ready, starting, lists[..n + 1][i], lists[..n + 1][i + 1], results[..n][i])
    {
      assert PaceOutcome(pacers[i], ready, starting, lists[i], lists[i + 1], results[i]);
    }
  }

  // ----- enough is left -----

  ghost function PodsIn(pods: seq<Pod>): set<Pod> {
    set p | p in pods
  }

  lemma {:induction false} FewPodsIn(pods: seq<Pod>)
    ensures |PodsIn(pods)| <= |pods|
  {
    if pods == [] {
      assert PodsIn(pods) == {};
    } else {
      var n := |pods| - 1;
      FewPodsIn(pods[..n]);
      assert PodsIn(pods) == PodsIn(pods[..n]) + {pods[n]};
    }
  }

  /** The invariant of one run over the slice: every pod is allowed so far, or withheld by a part
      done, or beyond the least count in the order of the part under way. */
  lemma {:induction false} WithheldByParts(pacers: seq<Pacer>, ready: nat, starting: nat, lists: seq<seq<Pod>>, results: seq<seq<Pod>>)
    returns (withheld: set<Pod>)
    requires Passes(pacers, ready, starting, lists, results)
    ensures |lists[|pacers|]| == |lists[0]|
    ensures var c := Cuts(pacers, ready, starting, |lists[0]|);
            && |withheld| <= c.before
            && forall p :: p in lists[|pacers|] ==> AllowedByAll(results, p) || p in withheld || p in lists[|pacers|][c.least..]
  {
    var n := |pacers| - 1;
    PassesKeepPods(pacers, ready, starting, lists, results, |pacers|);
    if pacers == [] {
      withheld := {};
    } else {
      PassesPrefix(pacers, ready, starting, lists, results);
      PassesKeepPods(pacers, ready, starting, lists, results, n);
      var before := WithheldByParts(pacers[..n], ready, starting, lists[..n + 1], results[..n]);
      var c := Cuts(pacers[..n], ready, starting, |lists[0]|);
      FewPodsIn(lists[n][c.least..]);
      withheld := if Sorts(pacers[n], ready) then before + PodsIn(lists[n][c.least..]) else before;
      forall p | p in lists[n + 1]
        ensures AllowedByAll(results, p) || p in withheld || p in lists[n + 1][Cuts(pacers, ready, starting, |lists[0]|).least..]
      {
        hide Passes, Cuts;
        OnePartMore(pacers[n], ready, starting, lists[n], lists[n + 1], results[..n], results[n], c.least, before, p);
        assert results == results[..n] + [results[n]];
      }
    }
  }

  lemma MoreAllowed(results: seq<seq<Pod>>, result: seq<Pod>, pod: Pod)
    requires AllowedByAll(results, pod) && pod in result
    ensures AllowedByAll(results + [result], pod)
  {
  }

  lemma LessIsBeyond(pods: seq<Pod>, m: nat, n: nat)
    requires m <= |pods| && n <= |pods|
    ensures forall p :: p in pods[m..] || p in pods[n..] ==> p in pods[Min(m, n)..]
  {
    var k := Min(m, n);
    assert pods[k..] == pods[k..m] + pods[m..];
    assert pods[k..] == pods[k..n] + pods[n..];
  }

  lemma OnePartMore(p: Pacer, ready: nat, starting: nat, before: seq<Pod>, after: seq<Pod>, results: seq<seq<Pod>>, result: seq<Pod>,
                    least: nat, withheld: set<Pod>, pod: Pod)
    requires CanPace(p) && PaceOutcome(p, ready, starting, before, after, result) && least <= |before|
    requires forall q :: q in before ==> AllowedByAll(results, q) || q in withheld || q in before[least..]
    requires pod in after
    ensures var count := AllowedCount(p, ready, starting, |before|);
            if Sorts(p, ready) then
              AllowedByAll(results + [result], pod) || pod in withheld + PodsIn(before[least..]) || pod in after[count..]
            else
              AllowedByAll(results + [result], pod) || pod in withheld || pod in after[Min(least, count)..]
  {
    var count := AllowedCount(p, ready, starting, |before|);
    assert pod in multiset(after);
    assert pod in multiset(before);
    assert pod in before;
    assert after == after[..count] + after[count..];
    if AllowedByAll(results, pod) && pod in result {
      MoreAllowed(results, result, pod);
    }
    hide AllowedByAll, PaceOutcome;
    if !Sorts(p, ready) {
      LessIsBeyond(after, least, count);
    }
  }

  lemma EnoughIsLeft(pacers: seq<Pacer>, ready: nat, starting: nat, lists: seq<seq<Pod>>, results: seq<seq<Pod>>)
    requires Passes(pacers, ready, starting, lists, results) && pacers != [] && DistinctUids(multiset(lists[0]))
    requires Shortfall(pacers, ready, starting, |lists[0]|) < |lists[0]|
    ensures Chosen(lists[|pacers|], results) != []
  {
    var n := |pacers|;
    var c := Cuts(pacers, ready, starting, |lists[0]|);
    var withheld := WithheldByParts(pacers, ready, starting, lists, results);
    FewPodsIn(lists[n][c.least..]);
    PassesKeepPods(pacers, ready, starting, lists, results, n);
    DistinctFillSet(lists[n]);
    var out := withheld + PodsIn(lists[n][c.least..]);
    SomeOutside(PodsIn(lists[n]), out);
    var pod :| pod in PodsIn(lists[n]) && pod !in out;
    assert AllowedByAll(results, pod);
    assert pod in multiset(lists[n]);
    ExactIntersection(pacers, ready, starting, lists, results, pod);
  }

  lemma SomeOutside(pods: set<Pod>, out: set<Pod>)
    requires |out| < |pods|
    ensures exists p :: p in pods && p !in out
  {
    assert pods <= out ==> out == pods + (out - pods);
  }

  lemma {:induction false} DistinctFillSet(pods: seq<Pod>)
    requires DistinctUids(multiset(pods))
    ensures |PodsIn(pods)| == |pods|
  {
    if pods == [] {
      assert PodsIn(pods) == {};
    } else {
      var n := |pods| - 1;
      PrefixIsDistinct(pods, n);
      DistinctFillSet(pods[..n]);
      assert pods[n] !in pods[..n];
      assert PodsIn(pods) == PodsIn(pods[..n]) + {pods[n]};
    }
  }

  // ----- nothing need be left -----

  ghost predicate AllTied(pods: seq<Pod>) {
    forall i, j :: 0 <= i < j < |pods| ==> pods[i].created == pods[j].created
  }

  /** The pods dealt so that the last `n` of them come first. */
  function Dealt(pods: seq<Pod>, n: nat): (r: seq<Pod>)
    ensures |r| == |pods|
  {
    var e := |pods| - Min(n, |pods|);
    pods[e..] + pods[..e]
  }

  lemma DealtIsSort(pods: seq<Pod>, m: nat, n: nat)
    requires AllTied(pods)
    ensures IsSortOf(Dealt(pods, m), Dealt(pods, n)) && multiset(Dealt(pods, n)) == multiset(pods)
  {
    DealtKeepsPods(pods, m);
    DealtKeepsPods(pods, n);
    var r := Dealt(pods, n);
    forall i, j | 0 <= i < j < |r| ensures r[i].created <= r[j].created {
      assert r[i] in pods && r[j] in pods;
    }
  }

  lemma DealtKeepsPods(pods: seq<Pod>, n: nat)
    ensures multiset(Dealt(pods, n)) == multiset(pods)
  {
    var e := |pods| - Min(n, |pods|);
    assert pods == pods[..e] + pods[e..];
  }

  /** What the parts so far withhold when each is dealt to withhold the pods next to those
      withheld before it, counted from the back of the slice. */
  ghost predicate WithheldSoFar(pods: seq<Pod>, results: seq<seq<Pod>>, c: Cut) {
    && c.least <= |pods|
    && (forall p :: p in pods[|pods| - Min(c.before, |pods|)..] ==> !AllowedByAll(results, p))
    && (forall p :: p in Dealt(pods, c.before)[c.least..] ==> !AllowedByAll(results, p))
  }

  /** The adversary's run. */
  lemma {:induction false} SomeDeal(pacers: seq<Pacer>, ready: nat, starting: nat, pods: seq<Pod>) returns (lists: seq<seq<Pod>>, results: seq<seq<Pod>>)
    requires AllCanPace(pacers) && AllTied(pods) && DistinctUids(multiset(pods))
    ensures Passes(pacers, ready, starting, lists, results) && |lists| == |pacers| + 1 && lists[0] == pods
    ensures lists[|pacers|] == Dealt(pods, Cuts(pacers, ready, starting, |pods|).before)
    ensures WithheldSoFar(pods, results, Cuts(pacers, ready, starting, |pods|))
  {
    if pacers == [] {
      lists, results := [pods], [];
      assert Dealt(pods, 0) == pods;
    } else {
      hide *;
      lists, results := SomeDeal(pacers[..|pacers| - 1], ready, starting, pods);
      lists, results := DealOneMore(pacers, ready, starting, pods, lists, results);
    }
  }

  lemma DealOneMore(pacers: seq<Pacer>, ready: nat, starting: nat, pods: seq<Pod>, lists: seq<seq<Pod>>, results: seq<seq<Pod>>)
    returns (lists': seq<seq<Pod>>, results': seq<seq<Pod>>)
    requires AllCanPace(pacers) && pacers != [] && AllTied(pods) && DistinctUids(multiset(pods))
    requires var n := |pacers| - 1;
             var c := Cuts(pacers[..n], ready, starting, |pods|);
             && Passes(pacers[..n], ready, starting, lists, results) && |lists| == n + 1 && lists[0] == pods
             && lists[n] == Dealt(pods, c.before)
             && WithheldSoFar(pods, results, c)
    ensures Passes(pacers, ready, starting, lists', results') && |lists'| == |pacers| + 1 && lists'[0] == pods
    ensures lists'[|pacers|] == Dealt(pods, Cuts(pacers, ready, starting, |pods|).before)
    ensures WithheldSoFar(pods, results', Cuts(pacers, ready, starting, |pods|))
  {
    var n, b := |pacers| - 1, |pods|;
    var c := Cuts(pacers[..n], ready, starting, b);
    var count := AllowedCount(pacers[n], ready, starting, b);
    var sorts := Sorts(pacers[n], ready);
    var c' := NextCut(c, b, count, sorts);
    assert Cuts(pacers, ready, starting, b) == c';
    var after := Dealt(pods, c'.before);
    hide Passes, Cuts, AllTied, DistinctUids, WithheldSoFar, Dealt;
    DealtIsSort(pods, c.before, c'.before);
    assert PaceOutcome(pacers[n], ready, starting, lists[n], after, after[..count]);
    hide PaceOutcome, IsSortOf;
    PassesAppend(pacers, ready, starting, lists, results, after, after[..count]);
    DealWithholds(pods, results, after[..count], c, count, sorts);
    lists', results' := lists + [after], results + [after[..count]];
  }

  /** One pacer more withholds what is beyond its count in the order it sees. */
  lemma DealWithholds(pods: seq<Pod>, results: seq<seq<Pod>>, result: seq<Pod>, c: Cut, count: nat, sorts: bool)
    requires DistinctUids(multiset(pods)) && WithheldSoFar(pods, results, c) && count <= |pods|
    requires result == Dealt(pods, NextCut(c, |pods|, count, sorts).before)[..count]
    ensures WithheldSoFar(pods, results + [result], NextCut(c, |pods|, count, sorts))
  {
    var c' := NextCut(c, |pods|, count, sorts);
    MoreWithhold(results, result);
    BeyondIsNotAllowed(pods, c'.before, count, results, result);
    hide AllowedByAll, DistinctUids;
    if sorts {
      forall p | p in pods[|pods| - Min(c'.before, |pods|)..] ensures !AllowedByAll(results + [result], p) {
        BackIsCovered(pods, c.before, c.least, p);
      }
    } else {
      hide Dealt;
      BeyondTheLess(Dealt(pods, c.before), c.least, count);
    }
  }

  lemma BeyondTheLess(pods: seq<Pod>, m: nat, n: nat)
    requires m <= |pods| && n <= |pods|
    ensures forall p :: p in pods[Min(m, n)..] ==> p in pods[m..] || p in pods[n..]
  {
  }

  lemma MoreWithhold(results: seq<seq<Pod>>, result: seq<Pod>)
    ensures forall p :: AllowedByAll(results + [result], p) ==> AllowedByAll(results, p) && p in result
  {
    forall p | AllowedByAll(results + [result], p) ensures AllowedByAll(results, p) && p in result {
      assert (results + [result])[|results|] == result;
      forall i | 0 <= i < |results| ensures p in results[i] {
        assert (results + [result])[i] == results[i];
      }
    }
  }

  lemma BeyondIsNotAllowed(pods: seq<Pod>, n: nat, count: nat, results: seq<seq<Pod>>, result: seq<Pod>)
    requires DistinctUids(multiset(pods)) && count <= |pods| && result == Dealt(pods, n)[..count]
    ensures forall p :: p in Dealt(pods, n)[count..] ==> !AllowedByAll(results + [result], p)
  {
    MoreWithhold(results, result);
    DealtKeepsPods(pods, n);
    var order := Dealt(pods, n);
    PrefixIsDistinct(order, count);
    forall p | p in order[count..] ensures p !in result {
      var i :| 0 <= i < |order| - count && order[count..][i] == p;
      assert order[count + i] == p;
    }
  }

  /** The pods withheld by the parts done and by the part under way reach back as far as their
      shortfalls add up. */
  lemma BackIsCovered(pods: seq<Pod>, before: nat, least: nat, p: Pod)
    requires least <= |pods| && p in pods[|pods| - Min(before + (|pods| - least), |pods|)..]
    ensures p in pods[|pods| - Min(before, |pods|)..] || p in Dealt(pods, before)[least..]
  {
    var b := |pods|;
    var i :| b - Min(before + (b - least), b) <= i < b && pods[i] == p;
    var e := b - Min(before, b);
    if i >= e {
      assert pods[e..][i - e] == p;
    } else {
      assert Dealt(pods, before)[b - e + i] == p;
      assert Dealt(pods, before)[least..][b - e + i - least] == p;
    }
  }

  /** Ties can stall any composite whose shortfalls add up to the slice: on every tied slice of
      distinct pods some outcome the sort's documentation admits allows nothing. */
  lemma TiesCanStall(pacers: seq<Pacer>, ready: nat, starting: nat, pods: seq<Pod>) returns (lists: seq<seq<Pod>>, results: seq<seq<Pod>>)
    requires AllCanPace(pacers) && pacers != [] && AllTied(pods) && DistinctUids(multiset(pods))
    requires Shortfall(pacers, ready, starting, |pods|) >= |pods|
    ensures Passes(pacers, ready, starting, lists, results) && lists[0] == pods
    ensures Chosen(lists[|pacers|], results) == []
  {
    lists, results := SomeDeal(pacers, ready, starting, pods);
    EveryoneIsWithheld(pods, results, Cuts(pacers, ready, starting, |pods|));
    hide WithheldSoFar;
    if Chosen(lists[|pacers|], results) != [] {
      var pod := Chosen(lists[|pacers|], results)[0];
      ExactIntersection(pacers, ready, starting, lists, results, pod);
      assert false;
    }
  }

  lemma EveryoneIsWithheld(pods: seq<Pod>, results: seq<seq<Pod>>, c: Cut)
    requires WithheldSoFar(pods, results, c) && c.before + (|pods| - c.least) >= |pods|
    ensures forall p :: p in pods ==> !AllowedByAll(results, p)
  {
    hide AllowedByAll;
    forall p | p in pods ensures !AllowedByAll(results, p) {
      assert pods[0..] == pods;
      BackIsCovered(pods, c.before, c.least, p);
    }
  }

  // ----- the condition -----

  /** A composite that lets something go on every slice of `blocked` pods with distinct UIDs,
      whatever their creation times and however the sorts break ties. */
  ghost predicate ProgressesDespiteTies(pacers: seq<Pacer>, ready: nat, starting: nat, blocked: nat) {
    forall lists, results ::
      Passes(pacers, ready, starting, lists, results) && |lists[0]| == blocked && DistinctUids(multiset(lists[0]))
      ==> Chosen(lists[|pacers|], results) != []
  }

  function TiedPods(n: nat): (pods: seq<Pod>)
    ensures |pods| == n
    ensures forall k :: 0 <= k < n ==> pods[k].created == 1 && |pods[k].uid| == n - k
  {
    if n == 0 then [] else [Pod("", "", "", Tally(n), 1, map[], "", true, [])] + TiedPods(n - 1)
  }

  lemma {:induction false} TiedPodsAreDistinct(n: nat)
    ensures forall p :: p in multiset(TiedPods(n)) ==> multiset(TiedPods(n))[p] == 1
  {
    if n > 0 {
      TiedPodsAreDistinct(n - 1);
      var pods := TiedPods(n);
      assert pods == [pods[0]] + TiedPods(n - 1);
      assert pods[0] !in TiedPods(n - 1);
    }
  }

  lemma TiedPodsHaveUids(n: nat)
    ensures DistinctUids(multiset(TiedPods(n))) && AllTied(TiedPods(n))
  {
    var pods := TiedPods(n);
    TiedPodsAreDistinct(n);
    forall p: Pod, q: Pod | p in multiset(pods) && q in multiset(pods) && p.uid == q.uid ensures p == q {
      assert p in pods && q in pods;
    }
  }

  /** Exactly when ties cannot stall a composite either, for any mix and order of pacers: the
      shortfalls of its parts add up to less than the blocked pods. */
  lemma NeverStallsDespiteTiesIff(pacers: seq<Pacer>, ready: nat, starting: nat, blocked: nat)
    requires AllCanPace(pacers) && pacers != []
    ensures ProgressesDespiteTies(pacers, ready, starting, blocked) <==> Shortfall(pacers, ready, starting, blocked) < blocked
  {
    hide Passes, DistinctUids, Chosen, Shortfall, AllTied;
    if Shortfall(pacers, ready, starting, blocked) < blocked {
      forall lists, results | Passes(pacers, ready, starting, lists, results) && |lists| == |pacers| + 1
                              && |lists[0]| == blocked && DistinctUids(multiset(lists[0]))
        ensures Chosen(lists[|pacers|], results) != []
      {
        EnoughIsLeft(pacers, ready, starting, lists, results);
      }
      forall lists, results | Passes(pacers, ready, starting, lists, results) ensures |lists| == |pacers| + 1 {
        PassesShape(pacers, ready, starting, lists, results);
      }
    } else {
      TiedPodsHaveUids(blocked);
      var lists, results := TiesCanStall(pacers, ready, starting, TiedPods(blocked));
      PassesShape(pacers, ready, starting, lists, results);
    }
  }
}
