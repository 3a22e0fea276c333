/** What passes achieve under a lone linear pacer below MaxStagger. A fresh pod queues behind every
    pod still blocked, so whether evicted pods are let back in depends on how many are blocked at
    that moment, and with that on the schedule of evictions and readmissions. */
module LinearRounds {
  import opened Pods
  import opened Pacers
  import opened Standing
  import opened SharedOrder
  import opened PacingProtocol
  import opened Rounds
  import opened PassRuns

  /** The distance from `ready` to the next multiple of a linear pacer's step. */
  function Gap(p: Pacer, ready: nat): int
    requires p.Linear? && CanPace(p)
  {
    p.linear.step - ready % p.linear.step
  }

  lemma LoneApproval(p: Pacer, c: Counts)
    requires CanPace(p)
    ensures AllCanPace([p]) && (FreshApproved([p], c) <==> AllowsFresh(p, c.ready, c.starting, c.blocked, false))
  {
    assert [p][0] == p;
    assert !SortsBefore([p], c.ready, 0);
  }

  /** The state of a pass once `freed` pods were let back in, `gap` being the gap at its start. */
  ghost predicate LinearState(c: Counts, gap: int, size: nat, s: Progress, freed: int, oneByOne: bool, evictsFirst: bool) {
    && s.back <= s.gone <= s.next <= size == Min(c.blocked, gap)
    && 0 <= freed <= s.back && c.starting + freed <= gap
    && CountsOf(s.pods) == Counts(c.ready, c.starting + freed, c.blocked - s.gone + s.back - freed)
    && (c.blocked <= gap ==> freed == Min(s.back, gap - c.starting))
    && (c.blocked >= 2 * gap ==> freed == 0)
    && (oneByOne ==> s.gone <= s.back + 1 && (c.blocked > gap ==> freed == 0))
    && (evictsFirst ==>
          if s.next < size then s.back == 0
          else freed == if c.blocked - s.gone < gap then Min(s.back, gap - c.starting) else 0)
  }

  lemma LinearStep(p: Pacer, c: Counts, selected: seq<Pod>, s: Progress, s': Progress, freed: int, oneByOne: bool, evictsFirst: bool)
    returns (freed': int)
    requires p.Linear? && CanPace(p) && !Saturated(p, c.ready) && c.starting < Gap(p, c.ready)
    requires NoCopies(selected) && InPass(selected, s) && PassStep([p], selected, s, s')
    requires LinearState(c, Gap(p, c.ready), |selected|, s, freed, oneByOne, evictsFirst)
    requires oneByOne && s'.next > s.next ==> s.back == s.gone
    requires evictsFirst && s'.back > s.back ==> s.next == |selected|
    ensures LinearState(c, Gap(p, c.ready), |selected|, s', freed', oneByOne, evictsFirst)
  {
    hide Count, InPass, Readmits, NoCopies, FreshApproved;
    assert AllCanPace([p]);
    LoneApproval(p, CountsOf(s.pods));
    StepCounts([p], selected, s, s');
    freed' := freed;
    if Returns([p], s, s') && FreshApproved([p], CountsOf(s.pods)) {
      freed' := freed + 1;
    }
  }

  lemma {:induction false} LinearStates(p: Pacer, pods: set<Pod>, items: seq<Pod>, selected: seq<Pod>, trace: seq<Progress>, j: nat,
                                        oneByOne: bool, evictsFirst: bool)
    returns (freed: int)
    requires p.Linear? && CanPace(p) && !Saturated(p, Count(IsReady, pods)) && Count(IsStarting, pods) < Gap(p, Count(IsReady, pods))
    requires Identified(pods) && ReconcilePass([p], pods, items, selected, trace) && j < |trace|
    requires (oneByOne ==> OneByOne(trace)) && (evictsFirst ==> EvictsFirst(selected, trace))
    ensures LinearState(CountsOf(pods), Gap(p, Count(IsReady, pods)), |selected|, trace[j], freed, oneByOne, evictsFirst)
  {
    SelectionCounts([p], pods, items, selected);
    hide Identified, Count, Selects, Lists, PassStep, NoCopies, InPass;
    if j == 0 {
      freed := 0;
      assert [p][0] == p;
    } else {
      hide LinearState, Gap;
      freed := LinearStates(p, pods, items, selected, trace, j - 1, oneByOne, evictsFirst);
      PassCounts([p], pods, items, selected, trace, j - 1);
      assert PassStep([p], selected, trace[j - 1], trace[j - 1 + 1]);
      freed := LinearStep(p, CountsOf(pods), selected, trace[j - 1], trace[j - 1 + 1], freed, oneByOne, evictsFirst);
    }
  }

  /** The effect of a pass, whatever its schedule: ready stays, and of the pods gone some number is
      freed. Up to the gap blocked, every schedule frees all that fit under the boundary; from
      twice the gap on, or with the gap taken by starting pods, none frees anything. In between
      evicting everything first frees what it can and going one by one frees nothing. */
  lemma LinearPass(p: Pacer, pods: set<Pod>, items: seq<Pod>, selected: seq<Pod>, trace: seq<Progress>) returns (freed: nat)
    requires Identified(pods) && ReconcilePass([p], pods, items, selected, trace)
    requires p.Linear? && p.linear.step != 0 && !Saturated(p, Count(IsReady, pods))
    ensures Identified(Last(trace).pods) && freed <= Count(IsBlocked, pods)
    ensures CountsOf(Last(trace).pods)
         == Counts(Count(IsReady, pods), Count(IsStarting, pods) + freed, Count(IsBlocked, pods) - freed)
    ensures var c, gap, gone := CountsOf(pods), Gap(p, Count(IsReady, pods)), Last(trace).gone;
            && (c.starting >= gap || c.blocked >= 2 * gap ==> freed == 0)
            && (c.starting < gap && c.blocked <= gap ==> freed == Min(gone, gap - c.starting))
            && (c.starting < gap < c.blocked && OneByOne(trace) ==> freed == 0)
            && (c.starting < gap && EvictsFirst(selected, trace) ==>
                  freed == if c.blocked - gone < gap then Min(gone, gap - c.starting) else 0)
  {
    hide Identified, Selects, Lists, PassStep, OneByOne, EvictsFirst, Gap, Count;
    var c, gap := CountsOf(pods), Gap(p, Count(IsReady, pods));
    var n := |trace| - 1;
    PassCounts([p], pods, items, selected, trace, n);
    if c.starting < gap {
      freed := LinearStates(p, pods, items, selected, trace, n, OneByOne(trace), EvictsFirst(selected, trace));
    } else {
      NothingSelected(p, pods, items, selected, trace);
      freed := 0;
    }
  }

  lemma NothingSelected(p: Pacer, pods: set<Pod>, items: seq<Pod>, selected: seq<Pod>, trace: seq<Progress>)
    requires Identified(pods) && ReconcilePass([p], pods, items, selected, trace)
    requires p.Linear? && p.linear.step != 0 && !Saturated(p, Count(IsReady, pods))
    requires Count(IsStarting, pods) >= Gap(p, Count(IsReady, pods))
    ensures Last(trace).pods == pods
  {
    SelectionCounts([p], pods, items, selected);
    assert [p][0] == p;
    assert selected == [];
    EmptyPassIsOver([p], pods, selected, trace);
  }

  lemma NoStepLeft(pacers: seq<Pacer>, selected: seq<Pod>, s: Progress, s': Progress)
    requires s.next >= |selected| && s.back == s.gone
    ensures !PassStep(pacers, selected, s, s')
  {
  }

  lemma EmptyPassIsOver(pacers: seq<Pacer>, pods: set<Pod>, selected: seq<Pod>, trace: seq<Progress>)
    requires PassSteps(pacers, pods, selected, trace) && selected == []
    ensures |trace| == 1
  {
    if |trace| > 1 {
      NoStepLeft(pacers, selected, trace[0], trace[0 + 1]);
    }
  }

  // ----- when a pass makes progress -----

  ghost predicate Frees(p: Pacer, pods: set<Pod>, items: seq<Pod>, selected: seq<Pod>, trace: seq<Progress>) {
    ReconcilePass([p], pods, items, selected, trace) && NoneRefused(trace) && Count(IsBlocked, Last(trace).pods) < Count(IsBlocked, pods)
  }

  /** Some schedule with every eviction accepted frees a pod. */
  ghost predicate MayFree(p: Pacer, pods: set<Pod>) {
    exists items, selected, trace :: Frees(p, pods, items, selected, trace)
  }

  /** Every schedule with every eviction accepted frees a pod. */
  ghost predicate MustFree(p: Pacer, pods: set<Pod>) {
    forall items, selected, trace ::
      ReconcilePass([p], pods, items, selected, trace) && NoneRefused(trace) ==> Frees(p, pods, items, selected, trace)
  }

  /** With nothing refused, a pass evicts as many pods as there are blocked or the gap is wide. */
  lemma AllSelectedGone(p: Pacer, pods: set<Pod>, items: seq<Pod>, selected: seq<Pod>, trace: seq<Progress>)
    requires Identified(pods) && ReconcilePass([p], pods, items, selected, trace) && NoneRefused(trace)
    requires p.Linear? && p.linear.step != 0 && !Saturated(p, Count(IsReady, pods))
    ensures var c, gap := CountsOf(pods), Gap(p, Count(IsReady, pods));
            Last(trace).gone == if c.starting < gap then Min(c.blocked, gap) else 0
  {
    SelectionCounts([p], pods, items, selected);
    assert [p][0] == p;
  }

  /** Exactly when a pass makes progress. Every schedule does if and only if the starting pods
      leave a gap, something is blocked, and no more pods are blocked than the gap is wide. Some
      schedule does if and only if fewer than twice as many are. */
  lemma LinearPassProgress(p: Pacer, pods: set<Pod>)
    requires Identified(pods) && p.Linear? && p.linear.step != 0 && !Saturated(p, Count(IsReady, pods))
    ensures var c, gap := CountsOf(pods), Gap(p, Count(IsReady, pods));
            && (MustFree(p, pods) <==> c.starting < gap && 0 < c.blocked <= gap)
            && (MayFree(p, pods) <==> c.starting < gap && 0 < c.blocked < 2 * gap)
  {
    hide Identified, Selects, Lists, PassStep, OneByOne, EvictsFirst, Gap, Count;
    forall items, selected, trace | ReconcilePass([p], pods, items, selected, trace) && NoneRefused(trace)
      ensures var c, gap := CountsOf(pods), Gap(p, Count(IsReady, pods));
              && (c.starting < gap && 0 < c.blocked <= gap ==> Frees(p, pods, items, selected, trace))
              && (Frees(p, pods, items, selected, trace) ==> c.starting < gap && 0 < c.blocked < 2 * gap)
    {
      var freed := LinearPass(p, pods, items, selected, trace);
      AllSelectedGone(p, pods, items, selected, trace);
    }
    var items1, selected1, trace1 := FreedOnSchedule(p, pods, true);
    var items2, selected2, trace2 := FreedOnSchedule(p, pods, false);
    var c, gap := CountsOf(pods), Gap(p, Count(IsReady, pods));
    assert !(c.starting < gap && 0 < c.blocked <= gap) ==> !Frees(p, pods, items1, selected1, trace1);
    assert c.starting < gap && 0 < c.blocked < 2 * gap ==> Frees(p, pods, items2, selected2, trace2);
  }

  /** The two schedules as witnesses: evicting everything first fills the gap or frees every pod
      whenever that is possible at all; one by one frees nothing beyond the gap. */
  lemma FreedOnSchedule(p: Pacer, pods: set<Pod>, oneByOne: bool)
    returns (items: seq<Pod>, selected: seq<Pod>, trace: seq<Progress>)
    requires Identified(pods) && p.Linear? && p.linear.step != 0 && !Saturated(p, Count(IsReady, pods))
    ensures ReconcilePass([p], pods, items, selected, trace) && NoneRefused(trace) && Identified(Last(trace).pods)
    ensures var c, gap := CountsOf(pods), Gap(p, Count(IsReady, pods));
            var most := if c.starting < gap then Min(c.blocked, gap - c.starting) else 0;
            var freed := if c.blocked > gap && (oneByOne || c.blocked >= 2 * gap) then 0 else most;
            CountsOf(Last(trace).pods) == Counts(c.ready, c.starting + freed, c.blocked - freed)
  {
    assert AllCanPace([p]);
    items, selected, trace := SomePass([p], pods, oneByOne);
    hide Identified, Selects, Lists, PassStep, OneByOne, EvictsFirst, Gap, Count;
    var freed := LinearPass(p, pods, items, selected, trace);
    AllSelectedGone(p, pods, items, selected, trace);
  }

  // ----- livelock -----

  lemma SameCounts(pods: set<Pod>, pods': set<Pod>)
    requires CountsOf(pods) == CountsOf(pods')
    ensures Count(IsReady, pods) == Count(IsReady, pods') && Count(IsBlocked, pods) == Count(IsBlocked, pods')
  {
  }

  lemma LivelockedPass(p: Pacer, pods: set<Pod>, pods': set<Pod>)
    requires p.Linear? && p.linear.step != 0 && Identified(pods) && !Saturated(p, Count(IsReady, pods))
    requires Count(IsBlocked, pods) >= 2 * Gap(p, Count(IsReady, pods))
    requires PassLeadsTo([p], 0, pods, pods')
    ensures Identified(pods') && CountsOf(pods') == CountsOf(pods)
  {
    hide Identified, Selects, Lists, PassStep, OneByOne, EvictsFirst, Count, Gap;
    var items, selected, trace :| ReconcilePass([p], pods, items, selected, trace) && pods' == Last(trace).pods;
    var freed := LinearPass(p, pods, items, selected, trace);
  }

  /** Hence a livelock: while nothing becomes ready, passes over a queue of twice the gap or more
      never set anything free, however many there are and whatever their schedules. */
  lemma {:induction false} LinearLivelock(p: Pacer, states: seq<set<Pod>>, k: nat)
    requires p.Linear? && p.linear.step != 0 && k < |states|
    requires Identified(states[0]) && !Saturated(p, Count(IsReady, states[0]))
    requires Count(IsBlocked, states[0]) >= 2 * Gap(p, Count(IsReady, states[0]))
    requires forall t :: 0 <= t < |states| - 1 ==> PassLeadsTo([p], 0, states[t], states[t + 1])
    ensures Identified(states[k]) && CountsOf(states[k]) == CountsOf(states[0])
  {
    if k > 0 {
      hide *;
      var t := k - 1;
      LinearLivelock(p, states, t);
      assert PassLeadsTo([p], 0, states[t], states[t + 1]);
      SameCounts(states[t], states[0]);
      LivelockedPass(p, states[t], states[k]);
    }
  }

  /** And with any queue longer than the gap passes may livelock: for every k some k passes, all
      evictions accepted, leave the counts as they were. */
  lemma {:induction false} LinearMayLivelock(p: Pacer, quota: nat, pods: set<Pod>, k: nat) returns (states: seq<set<Pod>>)
    requires p.Linear? && p.linear.step != 0 && Identified(pods) && !Saturated(p, Count(IsReady, pods))
    requires Count(IsBlocked, pods) > Gap(p, Count(IsReady, pods))
    ensures |states| == k + 1 && states[0] == pods
    ensures forall t :: 0 <= t < k ==> PassLeadsTo([p], quota, states[t], states[t + 1])
    ensures Identified(states[k]) && CountsOf(states[k]) == CountsOf(pods)
  {
    hide Identified, Selects, Lists, PassStep, Count, Gap;
    if k == 0 {
      states := [pods];
    } else {
      states := LinearMayLivelock(p, quota, pods, k - 1);
      SameCounts(states[k - 1], pods);
      var items, selected, trace := FreedOnSchedule(p, states[k - 1], true);
      assert Last(trace).gone >= Min(quota, |selected|) by { AcceptedMeetsQuota(p, states[k - 1], items, selected, trace, quota); }
      assert PassLeadsTo([p], quota, states[k - 1], Last(trace).pods);
      states := states + [Last(trace).pods];
    }
  }

  lemma AcceptedMeetsQuota(p: Pacer, pods: set<Pod>, items: seq<Pod>, selected: seq<Pod>, trace: seq<Progress>, quota: nat)
    requires ReconcilePass([p], pods, items, selected, trace) && NoneRefused(trace)
    ensures Last(trace).gone >= Min(quota, |selected|)
  {
  }
}
