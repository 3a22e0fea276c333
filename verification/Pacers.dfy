/** The exponential and linear pacers and what one call of `Pace` does to the list it is given. */
module Pacers {
  import opened Pods

  datatype ExponentialConfig = ExponentialConfig(minInitial: int, maxStagger: int, multiplier: real)

  /** `step` is a divisor in Pace: a zero step is a Go run-time panic. */
  datatype LinearConfig = LinearConfig(maxStagger: int, step: int)

  datatype Pacer =
    | Exponential(key: string, exponential: ExponentialConfig)
    | Linear(key: string, linear: LinearConfig)

  /** The pods of one group, as Pace receives them; Pace may reorder `blocked` in place. */
  datatype PodClassification = PodClassification(ready: seq<Pod>, starting: seq<Pod>, blocked: array<Pod>)

  predicate CanPace(p: Pacer) {
    p.Linear? ==> p.linear.step != 0
  }

  predicate AllCanPace(pacers: seq<Pacer>) {
    forall i :: 0 <= i < |pacers| ==> CanPace(pacers[i])
  }

  function MaxStagger(p: Pacer): int {
    if p.Exponential? then p.exponential.maxStagger else p.linear.maxStagger
  }

  /** MaxStagger is reached: the pacer no longer paces. */
  predicate Saturated(p: Pacer, ready: nat) {
    ready >= MaxStagger(p)
  }

  /** Only an exponential pacer below MaxStagger sorts the list it shares. */
  predicate Sorts(p: Pacer, ready: nat) {
    p.Exponential? && !Saturated(p, ready)
  }

  function Max(a: int, b: int): int { if a > b then a else b }

  function Min(a: int, b: int): int { if a < b then a else b }

  function Ceil(x: real): int { -((-x).Floor) }

  lemma CeilBounds(x: real)
    ensures Ceil(x) as real - 1.0 < x <= Ceil(x) as real
  {
    var y := -x;
    assert y.Floor as real <= y < y.Floor as real + 1.0;
  }

  lemma CeilMonotone(x: real, y: real)
    requires x <= y
    ensures Ceil(x) <= Ceil(y)
  {
    CeilBounds(x);
    CeilBounds(y);
  }

  /** How many pods an exponential pacer wants starting while `ready` pods are ready. */
  function Desired(minInitial: int, multiplier: real, ready: nat): int {
    if ready == 0 then minInitial else Ceil(ready as real * multiplier)
  }

  /** The count is the only one between 0 and `blocked` that fills up to the desired number:
      it never overshoots it, and falls short of it only when no blocked pod is left. */
  function CalculateAllowedCount(ready: nat, starting: nat, blocked: nat, minInitial: int, multiplier: real): (n: int)
    ensures 0 <= n <= blocked
    ensures starting + n <= Max(starting, Desired(minInitial, multiplier, ready))
    ensures n == blocked || starting + n >= Desired(minInitial, multiplier, ready)
  {
    if ready == 0 then
      Min(Max(0, minInitial - starting), blocked)
    else
      var desiredCount := Ceil(ready as real * multiplier);
      Min(Max(0, desiredCount - starting), blocked)
  }

  function LinearAllowed(step: int, ready: nat, starting: nat, blocked: nat): nat
    requires step != 0
  {
    var allowCount := step - ready % step;
    if allowCount <= starting then 0 else Min(blocked, allowCount)
  }

  /** How many pods at the head of the (possibly sorted) list a pacer allows. */
  function AllowedCount(p: Pacer, ready: nat, starting: nat, blocked: nat): (n: nat)
    requires CanPace(p)
    ensures n <= blocked
  {
    if Saturated(p, ready) then
      blocked
    else if p.Exponential? then
      CalculateAllowedCount(ready, starting, blocked, p.exponential.minInitial, p.exponential.multiplier)
    else
      LinearAllowed(p.linear.step, ready, starting, blocked)
  }

  /** One call of Pace: the shared list goes from `before` to `after`, `allowed` is returned.
      Every order the unstable sort may leave is admitted. */
  ghost predicate PaceOutcome(p: Pacer, ready: nat, starting: nat, before: seq<Pod>, after: seq<Pod>, allowed: seq<Pod>)
    requires CanPace(p)
  {
    && |after| == |before|
    && (if Sorts(p, ready) then IsSortOf(before, after) else after == before)
    && allowed == after[..AllowedCount(p, ready, starting, |before|)]
  }

  /** Within what is blocked, what is wanted beyond those starting. */
  lemma ExponentialCount(key: string, config: ExponentialConfig, ready: nat, starting: nat, blocked: nat, wanted: int)
    requires if ready == 0 then wanted == config.minInitial
             else wanted as real - 1.0 < ready as real * config.multiplier <= wanted as real
    ensures AllowedCount(Exponential(key, config), ready, starting, blocked) ==
            if ready >= config.maxStagger then blocked
            else if wanted <= starting then 0
            else if wanted - starting < blocked then wanted - starting
            else blocked
  {
    CeilBounds(ready as real * config.multiplier);
  }

  /** Up to the multiple of the step that is the next above `ready`. */
  lemma LinearCount(key: string, config: LinearConfig, ready: nat, starting: nat, blocked: nat, steps: int)
    requires config.step > 0 && config.step * (steps - 1) <= ready < config.step * steps
    ensures AllowedCount(Linear(key, config), ready, starting, blocked) ==
            if ready >= config.maxStagger then blocked
            else if config.step * steps - ready <= starting then 0
            else if config.step * steps - ready < blocked then config.step * steps - ready
            else blocked
  {
    RemainderIs(ready, config.step, steps - 1);
  }

  lemma MulMonotone(step: int, x: int, y: int)
    requires step > 0 && x <= y
    ensures step * x <= step * y
  {
  }

  lemma RemainderIs(n: nat, d: int, q: int)
    requires d > 0 && d * q <= n < d * (q + 1)
    ensures n % d == n - d * q
  {
    var r, k := n - d * q, n / d;
    assert n == d * k + n % d;
    assert k == q by {
      if k < q {
        MulMonotone(d, k + 1, q);
        assert false;
      }
      if k > q {
        MulMonotone(d, q + 1, k);
        assert false;
      }
    }
  }

  /** A negative step lets nothing start below MaxStagger. */
  lemma NegativeStepCount(key: string, config: LinearConfig, ready: nat, starting: nat, blocked: nat)
    requires config.step < 0
    ensures AllowedCount(Linear(key, config), ready, starting, blocked) == if ready >= config.maxStagger then blocked else 0
  {
  }

  /** One call of an exponential pacer in the numbers of its configuration. From MaxStagger on
      everything goes and nothing is touched; below it the slice is sorted, and its head goes. */
  lemma ExponentialInNumbers(key: string, config: ExponentialConfig, ready: nat, starting: nat,
                             before: seq<Pod>, after: seq<Pod>, allowed: seq<Pod>, wanted: int)
    requires PaceOutcome(Exponential(key, config), ready, starting, before, after, allowed)
    requires if ready == 0 then wanted == config.minInitial
             else wanted as real - 1.0 < ready as real * config.multiplier <= wanted as real
    ensures ready >= config.maxStagger ==> allowed == before && after == before
    ensures ready < config.maxStagger ==>
              && multiset(after) == multiset(before) && |after| == |before|
              && (forall i, j :: 0 <= i < j < |after| ==> after[i].created <= after[j].created)
              && |allowed| <= |after| && allowed == after[..|allowed|]
              && |allowed| == if wanted <= starting then 0 else if wanted - starting < |before| then wanted - starting else |before|
  {
    ExponentialCount(key, config, ready, starting, |before|, wanted);
  }

  /** One call of a linear pacer: the slice is never touched, and its head goes. */
  lemma LinearInNumbers(key: string, config: LinearConfig, ready: nat, starting: nat,
                        before: seq<Pod>, after: seq<Pod>, allowed: seq<Pod>, steps: int)
    requires config.step > 0 && config.step * (steps - 1) <= ready < config.step * steps
    requires PaceOutcome(Linear(key, config), ready, starting, before, after, allowed)
    ensures after == before && |allowed| <= |before| && allowed == before[..|allowed|]
    ensures ready >= config.maxStagger ==> allowed == before
    ensures ready < config.maxStagger ==>
              var gap := config.step * steps - ready;
              |allowed| == if gap <= starting then 0 else if gap < |before| then gap else |before|
  {
    LinearCount(key, config, ready, starting, |before|, steps);
  }

  method ExponentialPace(config: ExponentialConfig, c: PodClassification) returns (allowed: seq<Pod>)
    modifies c.blocked
    ensures forall key :: PaceOutcome(Exponential(key, config), |c.ready|, |c.starting|, old(c.blocked[..]), c.blocked[..], allowed)
    ensures |c.ready| >= config.maxStagger ==> allowed == c.blocked[..] == old(c.blocked[..])
    ensures |c.ready| < config.maxStagger ==> forall i, j :: 0 <= i < j < c.blocked.Length ==> c.blocked[i].created <= c.blocked[j].created
  {
    if |c.ready| >= config.maxStagger {
      return c.blocked[..];
    }
    var allowedCount := CalculateAllowedCount(|c.ready|, |c.starting|, c.blocked.Length, config.minInitial, config.multiplier);
    SortByCreation(c.blocked);
    allowed := c.blocked[..allowedCount];
    assert c.blocked[..][..allowedCount] == allowed;
  }

  method LinearPace(config: LinearConfig, c: PodClassification) returns (allowed: seq<Pod>)
    requires config.step != 0
    ensures forall key :: PaceOutcome(Linear(key, config), |c.ready|, |c.starting|, c.blocked[..], c.blocked[..], allowed)
    ensures |c.ready| >= config.maxStagger ==> allowed == c.blocked[..]
  {
    if |c.ready| >= config.maxStagger {
      return c.blocked[..];
    }
    var remainder := |c.ready| % config.step;
    var allowCount := config.step - remainder;
    if allowCount <= |c.starting| {
      return [];
    }
    var toAllow := Min(c.blocked.Length, allowCount);
    allowed := c.blocked[..toAllow];
    assert c.blocked[..][..toAllow] == allowed;
  }

  method Pace(p: Pacer, c: PodClassification) returns (allowed: seq<Pod>)
    requires CanPace(p)
    modifies c.blocked
    ensures PaceOutcome(p, |c.ready|, |c.starting|, old(c.blocked[..]), c.blocked[..], allowed)
  {
    match p
    case Exponential(key, config) =>
      allowed := ExponentialPace(config, c);
      assert p == Exponential(key, config);
    case Linear(key, config) =>
      allowed := LinearPace(config, c);
      assert p == Linear(key, config);
  }

  lemma OutcomeKeepsPods(p: Pacer, ready: nat, starting: nat, before: seq<Pod>, after: seq<Pod>, allowed: seq<Pod>)
    requires CanPace(p) && PaceOutcome(p, ready, starting, before, after, allowed)
    ensures multiset(after) == multiset(before)
  {
  }

  /** Fair release: below MaxStagger no pod an exponential pacer lets go is newer than one it
      withholds, and released and withheld pods together are exactly the blocked ones. */
  lemma FairRelease(p: Pacer, ready: nat, starting: nat, before: seq<Pod>, after: seq<Pod>, allowed: seq<Pod>)
    requires Sorts(p, ready) && PaceOutcome(p, ready, starting, before, after, allowed)
    ensures var withheld := after[|allowed|..];
            && multiset(allowed) + multiset(withheld) == multiset(before)
            && forall a, w :: a in allowed && w in withheld ==> a.created <= w.created
  {
    var withheld := after[|allowed|..];
    assert after == allowed + withheld;
    forall a, w | a in allowed && w in withheld ensures a.created <= w.created {
      var i :| 0 <= i < |allowed| && allowed[i] == a;
      var j :| 0 <= j < |withheld| && withheld[j] == w;
      assert after[i] == a && after[|allowed| + j] == w;
    }
  }

  /** The same without the slice: no released pod is newer than a blocked one not released. */
  lemma OldestGo(p: Pacer, ready: nat, starting: nat, before: seq<Pod>, after: seq<Pod>, allowed: seq<Pod>)
    requires Sorts(p, ready) && PaceOutcome(p, ready, starting, before, after, allowed)
    ensures forall a, q :: a in allowed && q in before && q !in allowed ==> a.created <= q.created
  {
    FairRelease(p, ready, starting, before, after, allowed);
    var withheld := after[|allowed|..];
    hide PaceOutcome;
    forall q | q in before && q !in allowed ensures q in withheld {
      assert q in multiset(before);
      assert q in multiset(allowed) + multiset(withheld);
    }
  }
}
