/** The runs the drain theorems speak of exist: from any pods, of any length, whatever the pacers. */
module DrainRuns {
  import opened Pods
  import opened Pacers
  import opened Standing
  import opened PacingProtocol
  import opened Rounds
  import opened PassRuns
  import opened Drain

  /** Whatever is starting can become ready. */
  lemma {:induction false} SomeReadying(pods: set<Pod>) returns (steps: seq<set<Pod>>)
    requires Identified(pods)
    ensures steps != [] && AllBecomeReady(steps) && steps[0] == pods && Identified(steps[|steps| - 1])
    decreases Count(IsStarting, pods)
  {
    if Count(IsStarting, pods) == 0 {
      steps := [pods];
    } else {
      var p :| p in (set q | q in pods && IsStarting(q));
      var pods' := pods - {p} + {p.(conditions := p.conditions + [READY])};
      assert BecomeReady(Quiet(pods), Quiet(pods'), p);
      BecomeReadyCounts(Quiet(pods), Quiet(pods'), p);
      hide Count, Identified, BecomeReady;
      assert OneBecomesReady(pods, pods');
      var rest := SomeReadying(pods');
      steps := [pods] + rest;
      forall t | 0 <= t < |steps| - 1 ensures OneBecomesReady(steps[t], steps[t + 1]) {
        assert t > 0 ==> steps[t] == rest[t - 1];
      }
    }
  }

  lemma SomeRound(pacers: seq<Pacer>, quota: nat, pods: set<Pod>) returns (pods': set<Pod>)
    requires AllCanPace(pacers) && Identified(pods)
    ensures Round(pacers, quota, pods, pods') && Identified(pods')
  {
    var items, selected, trace := SomePass(pacers, pods, false);
    var middle := Last(trace).pods;
    assert PassLeadsTo(pacers, quota, pods, middle);
    hide Identified, PassLeadsTo, AllBecomeReady, ReconcilePass, NoneRefused, FollowsSchedule;
    var steps := SomeReadying(middle);
    pods' := steps[|steps| - 1];
  }

  /** From any pods there is a run of k rounds, for any k, with every eviction accepted. */
  lemma {:induction false} SomeDrain(pacers: seq<Pacer>, quota: nat, pods: set<Pod>, k: nat) returns (run: seq<set<Pod>>)
    requires AllCanPace(pacers) && Identified(pods) && TiesAreHarmless(pacers, pods)
    ensures |run| == k + 1 && run[0] == pods && DrainRun(pacers, quota, run) && Identified(run[k])
  {
    hide Identified, TiesAreHarmless, Round;
    if k == 0 {
      run := [pods];
    } else {
      run := SomeDrain(pacers, quota, pods, k - 1);
      var next := SomeRound(pacers, quota, run[k - 1]);
      run := run + [next];
    }
  }

  /** Hence any pods can be drained by generous exponential pacers, as many rounds as there are
      blocked pods do, and one more if pods are starting. */
  lemma AnyPodsDrain(pacers: seq<Pacer>, quota: nat, pods: set<Pod>, least: int, m: real) returns (run: seq<set<Pod>>)
    requires AtLeast(pacers, least, m) && least >= 1 && m > 0.0 && quota >= 1
    requires Identified(pods) && TiesAreHarmless(pacers, pods)
    ensures DrainRun(pacers, quota, run) && run[0] == pods
    ensures |run| == Count(IsBlocked, pods) + Min(Count(IsStarting, pods), 1) + 1
    ensures Count(IsReady, run[|run| - 1]) == Size(pods)
  {
    assert AllCanPace(pacers);
    run := SomeDrain(pacers, quota, pods, Count(IsBlocked, pods) + Min(Count(IsStarting, pods), 1));
    DrainTerminates(pacers, quota, run, least, m, |run| - 1);
  }
}
