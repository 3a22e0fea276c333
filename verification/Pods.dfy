/** The Kubernetes objects the controller looks at, reduced to what it reads. */
module Pods {

  datatype Option<+T> = None | Some(value: T)

  datatype NamespacedName = NamespacedName(namespace: string, name: string)

  datatype Condition = Condition(kind: string, status: string)

  /** A pod. `created` is its creation time, 0 standing for Go's zero time; `blocked` is the
      blocker's verdict on its spec; `template` is the rest of the spec, never inspected here. */
  datatype Pod = Pod(
    name: string,
    generateName: string,
    namespace: string,
    uid: string,
    created: nat,
    labels: map<string, string>,
    template: string,
    blocked: bool,
    conditions: seq<Condition>)

  function ObjectKey(pod: Pod): NamespacedName {
    NamespacedName(pod.namespace, pod.name)
  }

  /** Two keys agree exactly if both name and namespace do. */
  lemma KeysAgree(p: Pod, q: Pod)
    ensures ObjectKey(p) == ObjectKey(q) <==> p.name == q.name && p.namespace == q.namespace
  {
  }

  const READY := Condition("Ready", "True")

  predicate HasReadyCondition(pod: Pod) {
    READY in pod.conditions
  }

  predicate IsReady(pod: Pod) {
    !pod.blocked && HasReadyCondition(pod)
  }

  predicate IsStarting(pod: Pod) {
    !pod.blocked && !HasReadyCondition(pod)
  }

  /** No two pods, and no two copies of one pod, share a UID. */
  ghost predicate DistinctUids(pods: multiset<Pod>) {
    && (forall p :: p in pods ==> pods[p] == 1)
    && (forall p, q :: p in pods && q in pods && p.uid == q.uid ==> p == q)
  }

  ghost predicate DistinctCreation(pods: multiset<Pod>) {
    && (forall p :: p in pods ==> pods[p] == 1)
    && (forall p, q :: p in pods && q in pods && p.created == q.created ==> p == q)
  }

  ghost predicate SortedByCreation(pods: seq<Pod>) {
    forall i, j :: 0 <= i < j < |pods| ==> pods[i].created <= pods[j].created
  }

  /** `after` is one of the outcomes an unstable sort by creation time may have. */
  ghost predicate IsSortOf(before: seq<Pod>, after: seq<Pod>) {
    multiset(before) == multiset(after) && SortedByCreation(after)
  }

  function InsertByCreation(pod: Pod, pods: seq<Pod>): (r: seq<Pod>)
    ensures multiset(r) == multiset(pods) + multiset{pod}
  {
    if pods == [] || pod.created < pods[0].created then
      [pod] + pods
    else
      assert pods == [pods[0]] + pods[1..];
      [pods[0]] + InsertByCreation(pod, pods[1..])
  }

  lemma {:induction false} InsertKeepsSorted(pod: Pod, pods: seq<Pod>)
    requires SortedByCreation(pods)
    ensures SortedByCreation(InsertByCreation(pod, pods))
  {
    if pods != [] && pods[0].created <= pod.created {
      InsertKeepsSorted(pod, pods[1..]);
      var tail := InsertByCreation(pod, pods[1..]);
      forall j | 0 <= j < |tail| ensures pods[0].created <= tail[j].created {
        assert tail[j] in multiset(tail);
        assert tail[j] == pod || tail[j] in pods[1..];
      }
    }
  }

  function SortSeq(pods: seq<Pod>): (r: seq<Pod>)
    ensures IsSortOf(pods, r) && |r| == |pods|
  {
    if pods == [] then []
    else
      var rest := SortSeq(pods[1..]);
      InsertSortsOneMore(pods, rest);
      InsertByCreation(pods[0], rest)
  }

  lemma InsertSortsOneMore(pods: seq<Pod>, rest: seq<Pod>)
    requires pods != [] && IsSortOf(pods[1..], rest)
    ensures IsSortOf(pods, InsertByCreation(pods[0], rest)) && |InsertByCreation(pods[0], rest)| == |pods|
  {
    InsertKeepsSorted(pods[0], rest);
    hide SortedByCreation;
    assert pods == [pods[0]] + pods[1..];
    SameMultisetSameLength(pods, InsertByCreation(pods[0], rest));
  }

  /** Go's sort.Slice on the creation timestamp: in place, and free to order ties as it likes. */
  method SortByCreation(a: array<Pod>)
    modifies a
    ensures IsSortOf(old(a[..]), a[..])
    ensures multiset(a[..]) == multiset(old(a[..]))
    ensures forall i, j :: 0 <= i < j < a.Length ==> a[i].created <= a[j].created
  {
    var sorted := SortSeq(a[..]);
    for i := 0 to a.Length
      invariant a[..i] == sorted[..i]
    {
      a[i] := sorted[i];
    }
    assert a[..] == a[..a.Length] == sorted[..a.Length] == sorted;
    assert forall i :: 0 <= i < a.Length ==> a[i] == a[..][i];
  }

  /** A string of n characters, for distinct UIDs. */
  function Tally(n: nat): (s: string)
    ensures |s| == n
  {
    if n == 0 then "" else Tally(n - 1) + "u"
  }

  lemma SameMultisetSameLength(a: seq<Pod>, b: seq<Pod>)
    requires multiset(a) == multiset(b)
    ensures |a| == |b|
  {
    assert |multiset(a)| == |a| && |multiset(b)| == |b|;
  }

  lemma SubHasDistinctCreation(part: multiset<Pod>, pods: multiset<Pod>)
    requires part <= pods && DistinctCreation(pods)
    ensures DistinctCreation(part)
  {
    forall p | p in part ensures p in pods && part[p] == 1 {
      assert part[p] <= pods[p];
    }
  }

  lemma TailMultiset(a: seq<Pod>)
    requires a != []
    ensures multiset(a[1..]) == multiset(a) - multiset{a[0]}
    ensures multiset(a[1..]) <= multiset(a)
  {
    assert a == [a[0]] + a[1..];
    assert multiset(a) == multiset{a[0]} + multiset(a[1..]);
  }

  lemma TailOfSorted(a: seq<Pod>)
    requires a != [] && DistinctCreation(multiset(a)) && SortedByCreation(a)
    ensures multiset(a[1..]) == multiset(a) - multiset{a[0]}
    ensures DistinctCreation(multiset(a[1..])) && SortedByCreation(a[1..])
  {
    TailMultiset(a);
    assert DistinctCreation(multiset(a[1..])) by {
      hide *;
      SubHasDistinctCreation(multiset(a[1..]), multiset(a));
    }
    hide DistinctCreation;
  }

  lemma SameHead(a: seq<Pod>, b: seq<Pod>)
    requires a != [] && multiset(a) == multiset(b)
    requires DistinctCreation(multiset(a))
    requires SortedByCreation(a) && SortedByCreation(b)
    ensures b != [] && a[0] == b[0]
  {
    assert a[0] in multiset(b);
    assert b[0] in multiset(a);
    var i :| 0 <= i < |b| && b[i] == a[0];
    var j :| 0 <= j < |a| && a[j] == b[0];
    assert a[0].created <= a[j].created && b[0].created <= b[i].created;
  }

  /** Everything the induction of SortIsUnique needs about the two tails. */
  lemma SameTails(a: seq<Pod>, b: seq<Pod>)
    requires a != [] && multiset(a) == multiset(b)
    requires DistinctCreation(multiset(a))
    requires SortedByCreation(a) && SortedByCreation(b)
    ensures b != [] && a[0] == b[0]
    ensures multiset(a[1..]) == multiset(b[1..])
    ensures DistinctCreation(multiset(a[1..]))
    ensures SortedByCreation(a[1..]) && SortedByCreation(b[1..])
  {
    hide *;
    SameHead(a, b);
    TailOfSorted(a);
    TailOfSorted(b);
  }

  lemma EqualFromParts(a: seq<Pod>, b: seq<Pod>)
    requires a != [] && b != [] && a[0] == b[0] && a[1..] == b[1..]
    ensures a == b
  {
    assert a == [a[0]] + a[1..];
    assert b == [b[0]] + b[1..];
  }

  /** With distinct creation times a sort has one outcome only. */
  lemma {:induction false} SortIsUnique(a: seq<Pod>, b: seq<Pod>)
    requires multiset(a) == multiset(b)
    requires DistinctCreation(multiset(a))
    requires SortedByCreation(a) && SortedByCreation(b)
    ensures a == b
    decreases |a|
  {
    hide *;
    SameMultisetSameLength(a, b);
    if a != [] {
      SameTails(a, b);
      SortIsUnique(a[1..], b[1..]);
      EqualFromParts(a, b);
    }
  }

  lemma PartIsSmaller(part: multiset<Pod>, pods: multiset<Pod>)
    requires part <= pods
    ensures |part| <= |pods|
  {
    assert pods == part + (pods - part);
  }

  lemma SubIsDistinct(part: multiset<Pod>, pods: multiset<Pod>)
    requires part <= pods && DistinctUids(pods)
    ensures DistinctUids(part)
  {
    forall p | p in part ensures p in pods && part[p] == 1 {
      assert part[p] <= pods[p];
    }
  }

  /** A distinct list: a pod lies in a prefix exactly when its position does. */
  lemma PrefixIsDistinct(pods: seq<Pod>, n: nat)
    requires n <= |pods| && DistinctUids(multiset(pods))
    ensures DistinctUids(multiset(pods[..n]))
    ensures forall j :: 0 <= j < |pods| ==> (pods[j] in pods[..n] <==> j < n)
  {
    assert pods == pods[..n] + pods[n..];
    assert multiset(pods) == multiset(pods[..n]) + multiset(pods[n..]);
    SubIsDistinct(multiset(pods[..n]), multiset(pods));
    forall j | 0 <= j < |pods| ensures pods[j] in pods[..n] <==> j < n {
      if j < n {
        assert pods[..n][j] == pods[j];
      } else {
        assert pods[n..][j - n] == pods[j];
        assert pods[j] in multiset(pods[n..]);
        assert multiset(pods)[pods[j]] == 1;
        assert pods[j] !in multiset(pods[..n]);
      }
    }
  }
}
