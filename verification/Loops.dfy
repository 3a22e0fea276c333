/** The reconcile loop without waiting: passes follow one another, and the next one may list the
    group while pods evicted by earlier ones are still away. */
module Loops {
  import opened Pods
  import opened Pacers
  import opened SharedOrder
  import opened Standing
  import opened PacingProtocol
  import opened Rounds

  /** The pods of the group, the selection of the pass under way that is not dealt with yet, how
      many evictions were accepted so far, and how many evicted pods are back. */
  datatype Loop = Loop(pods: set<Pod>, todo: seq<Pod>, gone: nat, back: nat)

  /** A request starts a pass: it lists the group as it is now, whoever is away. Requests are
      served one after the other, so the pass before has dealt with its selection. */
  ghost predicate Begins(pacers: seq<Pacer>, l: Loop, l': Loop, items: seq<Pod>) {
    l.todo == [] && Lists(items, l.pods) && Selects(pacers, items, l'.todo) && l' == l.(todo := l'.todo)
  }

  ghost predicate EvictsNext(l: Loop, l': Loop) {
    l.todo != [] && l' == Loop(l.pods - {l.todo[0]}, l.todo[1..], l.gone + 1, l.back)
  }

  ghost predicate RefusesNext(l: Loop, l': Loop) {
    l.todo != [] && l' == l.(todo := l.todo[1..])
  }

  ghost predicate ReturnsOne(pacers: seq<Pacer>, l: Loop, l': Loop) {
    l.back < l.gone && Readmits(pacers, l.pods, l'.pods) && l' == Loop(l'.pods, l.todo, l.gone, l.back + 1)
  }

  ghost predicate LoopStep(pacers: seq<Pacer>, l: Loop, l': Loop) {
    || (exists items :: Begins(pacers, l, l', items))
    || EvictsNext(l, l')
    || RefusesNext(l, l')
    || ReturnsOne(pacers, l, l')
  }

  ghost predicate LoopSteps(pacers: seq<Pacer>, trace: seq<Loop>) {
    && trace != []
    && forall j :: 0 <= j < |trace| - 1 ==> LoopStep(pacers, trace[j], trace[j + 1])
  }

  /** A run from these pods, with `away` more evicted earlier and not back yet. */
  ghost predicate LoopRun(pacers: seq<Pacer>, pods: set<Pod>, away: nat, trace: seq<Loop>) {
    LoopSteps(pacers, trace) && trace[0] == Loop(pods, [], away, 0)
  }

  function Final(trace: seq<Loop>): Loop
    requires trace != []
  {
    trace[|trace| - 1]
  }

  // ----- a step in counts -----

  ghost predicate InLoop(l: Loop) {
    && Identified(l.pods)
    && l.back <= l.gone
    && NoCopies(l.todo)
    && forall p :: p in l.todo ==> p in l.pods && p.blocked
  }

  lemma BeginCounts(pacers: seq<Pacer>, l: Loop, l': Loop, items: seq<Pod>)
    requires InLoop(l) && Begins(pacers, l, l', items)
    ensures InLoop(l') && CountsOf(l'.pods) == CountsOf(l.pods)
  {
    hide Identified, Lists, Selects, NoCopies, CountsOf;
    SelectionCounts(pacers, l.pods, items, l'.todo);
  }

  lemma EvictNextCounts(l: Loop, l': Loop)
    requires InLoop(l) && EvictsNext(l, l')
    ensures InLoop(l') && Count(IsBlocked, l.pods) >= 1
    ensures CountsOf(l'.pods) == CountsOf(l.pods).(blocked := Count(IsBlocked, l.pods) - 1)
  {
    assert l.todo[0] in l.todo;
    EvictOne(l.pods, l.todo[0]);
    RemovingKeepsIdentified(l.pods, l.todo[0]);
    hide Count, Identified;
    forall p | p in l'.todo ensures p in l'.pods && p.blocked {
      var i :| 0 <= i < |l'.todo| && l'.todo[i] == p;
      assert l.todo[i + 1] == p;
    }
  }

  lemma ReturnOneCounts(pacers: seq<Pacer>, l: Loop, l': Loop)
    requires AllCanPace(pacers) && InLoop(l) && ReturnsOne(pacers, l, l')
    ensures InLoop(l') && CountsOf(l'.pods) == AfterReadmission(pacers, CountsOf(l.pods))
  {
    hide Identified, Readmits, AfterReadmission, CountsOf, NoCopies;
    ReadmissionCounts(pacers, l.pods, l'.pods);
    ReadmittingAddsOnly(pacers, l.pods, l'.pods);
  }

  lemma RefuseNextCounts(l: Loop, l': Loop)
    requires InLoop(l) && RefusesNext(l, l')
    ensures InLoop(l') && l'.pods == l.pods
  {
    hide Identified;
  }

  /** What any step does to the counts. */
  lemma LoopStepCounts(pacers: seq<Pacer>, l: Loop, l': Loop)
    requires AllCanPace(pacers) && InLoop(l) && LoopStep(pacers, l, l')
    ensures InLoop(l') && l.gone <= l'.gone <= l.gone + 1 && l.back <= l'.back <= l.back + 1
    ensures var c, c' := CountsOf(l.pods), CountsOf(l'.pods);
            if l'.back > l.back then l.back < l.gone == l'.gone && c' == AfterReadmission(pacers, c)
            else c'.ready == c.ready && c'.starting == c.starting && c'.blocked + l'.gone == c.blocked + l.gone
  {
    hide InLoop, Count, AfterReadmission, Readmits;
    if items :| Begins(pacers, l, l', items) {
      BeginCounts(pacers, l, l', items);
    } else if EvictsNext(l, l') {
      EvictNextCounts(l, l');
    } else if RefusesNext(l, l') {
      RefuseNextCounts(l, l');
    } else {
      ReturnOneCounts(pacers, l, l');
    }
  }

  lemma StartsInLoop(pods: set<Pod>, away: nat)
    requires Identified(pods)
    ensures InLoop(Loop(pods, [], away, 0))
  {
  }

  // ----- exponential pacers -----

  /** A fresh pod is approved after j others were, as long as every pacer wanted more than j. */
  ghost predicate WantsMore(pacers: seq<Pacer>, ready: nat, starting: nat, j: nat) {
    forall i :: 0 <= i < |pacers| ==>
      pacers[i].Exponential?
      && (Saturated(pacers[i], ready) || starting + j < Desired(pacers[i].exponential.minInitial, pacers[i].exponential.multiplier, ready))
  }

  lemma ExponentialFresh(pacers: seq<Pacer>, c: Counts)
    requires pacers != [] && AllExponential(pacers) && AllCanPace(pacers)
    ensures FreshApproved(pacers, c) <==> WantsMore(pacers, c.ready, c.starting, 0)
  {
    assert forall i :: 0 <= i < |pacers| ==>
      (AllowsFresh(pacers[i], c.ready, c.starting, c.blocked, SortsBefore(pacers, c.ready, i)) <==>
        Saturated(pacers[i], c.ready) || c.starting < Desired(pacers[i].exponential.minInitial, pacers[i].exponential.multiplier, c.ready));
  }

  lemma WantsMoreIsRoom(pacers: seq<Pacer>, ready: nat, starting: nat, n: nat, j: nat)
    requires AllExponential(pacers) && AllCanPace(pacers)
    ensures j < MinCount(pacers, ready, starting, n) <==> j < n && WantsMore(pacers, ready, starting, j)
  {
    BelowMinCount(pacers, ready, starting, n, j);
    forall i | 0 <= i < |pacers| && j < n
      ensures j < AllowedCount(pacers[i], ready, starting, n) <==>
        Saturated(pacers[i], ready) || starting + j < Desired(pacers[i].exponential.minInitial, pacers[i].exponential.multiplier, ready)
    {
    }
  }

  /** One more of the pods that are back takes a place of the room, or finds it full. */
  lemma RoomGrows(pacers: seq<Pacer>, ready: nat, starting: nat, back: nat)
    requires AllExponential(pacers) && AllCanPace(pacers)
    ensures var n := MinCount(pacers, ready, starting, back);
            n <= back && MinCount(pacers, ready, starting, back + 1) == n + if WantsMore(pacers, ready, starting, n) then 1 else 0
  {
    var n, n' := MinCount(pacers, ready, starting, back), MinCount(pacers, ready, starting, back + 1);
    hide WantsMore;
    WantsMoreIsRoom(pacers, ready, starting, back, n);
    WantsMoreIsRoom(pacers, ready, starting, back, back);
    WantsMoreIsRoom(pacers, ready, starting, back + 1, n);
    WantsMoreIsRoom(pacers, ready, starting, back + 1, n + 1);
    if n > 0 {
      WantsMoreIsRoom(pacers, ready, starting, back, n - 1);
      WantsMoreIsRoom(pacers, ready, starting, back + 1, n - 1);
    }
    if n < back {
      WantsMoreIsRoom(pacers, ready, starting, back + 1, back);
    }
    if WantsMore(pacers, ready, starting, n + 1) {
      WantsFewer(pacers, ready, starting, n, n + 1);
    }
  }

  lemma WantsFewer(pacers: seq<Pacer>, ready: nat, starting: nat, j: nat, k: nat)
    requires j <= k && WantsMore(pacers, ready, starting, k)
    ensures WantsMore(pacers, ready, starting, j)
  {
  }

  lemma WantsMoreShifts(pacers: seq<Pacer>, ready: nat, starting: nat, j: nat)
    ensures WantsMore(pacers, ready, starting, j) <==> WantsMore(pacers, ready, starting + j, 0)
  {
  }

  lemma ExponentialLoopStep(pacers: seq<Pacer>, c: Counts, total: nat, l: Loop, l': Loop)
    requires pacers != [] && AllExponential(pacers) && AllCanPace(pacers) && InLoop(l) && LoopStep(pacers, l, l')
    requires InRoom(pacers, c, total, l)
    ensures InLoop(l') && InRoom(pacers, c, total, l')
  {
    hide InLoop, Count, LoopStep, FreshApproved, WantsMore;
    LoopStepCounts(pacers, l, l');
    RoomGrows(pacers, c.ready, c.starting, l.back);
    ExponentialFresh(pacers, CountsOf(l.pods));
    assert WantsMore(pacers, c.ready, c.starting, MinCount(pacers, c.ready, c.starting, l.back))
      <==> WantsMore(pacers, c.ready, CountsOf(l.pods).starting, 0) by {
      WantsMoreShifts(pacers, c.ready, c.starting, MinCount(pacers, c.ready, c.starting, l.back));
    }
  }

  /** The state of a run from the counts c, with `total` pods blocked or away at its start: of the
      pods back as many were let in as the pacers would have allowed of that many blocked ones. */
  ghost predicate InRoom(pacers: seq<Pacer>, c: Counts, total: nat, l: Loop)
    requires AllCanPace(pacers)
  {
    var c', n := CountsOf(l.pods), MinCount(pacers, c.ready, c.starting, l.back);
    && n <= l.back
    && c'.ready == c.ready
    && c'.starting == c.starting + n
    && c'.blocked + l.gone == total + l.back - n
  }

  /** The exact law of exponential pacing, however passes and readmissions interleave: of the pods
      back at any moment exactly as many started as all pacers had room for at the beginning. The
      others bounced, and are blocked again. */
  lemma {:induction false} ExponentialLaw(pacers: seq<Pacer>, pods: set<Pod>, away: nat, trace: seq<Loop>, j: nat)
    requires pacers != [] && AllExponential(pacers) && Identified(pods) && LoopRun(pacers, pods, away, trace) && j < |trace|
    ensures AllCanPace(pacers) && InLoop(trace[j])
    ensures InRoom(pacers, CountsOf(pods), Count(IsBlocked, pods) + away, trace[j])
  {
    assert AllCanPace(pacers);
    hide Count, Identified, LoopStep, InLoop;
    if j == 0 {
      StartsInLoop(pods, away);
      BelowMinCount(pacers, Count(IsReady, pods), Count(IsStarting, pods), 0, 0);
    } else {
      hide InRoom;
      ExponentialLaw(pacers, pods, away, trace, j - 1);
      assert LoopStep(pacers, trace[j - 1], trace[j - 1 + 1]);
      ExponentialLoopStep(pacers, CountsOf(pods), Count(IsBlocked, pods) + away, trace[j - 1], trace[j]);
    }
  }

  /** Nothing has bounced if and only if no pacer has had more pods back than room: it is
      saturated, or starting plus back is within what it wants. */
  lemma BouncesBeyondRoom(pacers: seq<Pacer>, pods: set<Pod>, away: nat, trace: seq<Loop>, j: nat)
    requires pacers != [] && AllExponential(pacers) && Identified(pods) && LoopRun(pacers, pods, away, trace) && j < |trace|
    ensures Count(IsStarting, trace[j].pods) == Count(IsStarting, pods) + trace[j].back <==>
            trace[j].back == 0 || WantsMore(pacers, Count(IsReady, pods), Count(IsStarting, pods), trace[j].back - 1)
  {
    ExponentialLaw(pacers, pods, away, trace, j);
    hide WantsMore, Count, LoopRun;
    var back := trace[j].back;
    if back > 0 {
      WantsMoreIsRoom(pacers, Count(IsReady, pods), Count(IsStarting, pods), back, back - 1);
    }
  }

  // ----- passes that wait are runs of the loop -----

  function AsLoop(selected: seq<Pod>, s: Progress): Loop
    requires s.next <= |selected|
  {
    Loop(s.pods, selected[s.next..], s.gone, s.back)
  }

  lemma PassStepIsLoopStep(pacers: seq<Pacer>, selected: seq<Pod>, s: Progress, s': Progress)
    requires s.next <= |selected| && PassStep(pacers, selected, s, s')
    ensures s'.next <= |selected| && LoopStep(pacers, AsLoop(selected, s), AsLoop(selected, s'))
  {
    hide Readmits;
    if s.next < |selected| {
      assert selected[s.next..][1..] == selected[s.next + 1..];
    }
  }

  lemma StepsExtend(pacers: seq<Pacer>, trace: seq<Loop>, l: Loop)
    requires LoopSteps(pacers, trace) && LoopStep(pacers, Final(trace), l)
    ensures LoopSteps(pacers, trace + [l])
  {
    hide LoopStep;
    var longer := trace + [l];
    forall j | 0 <= j < |longer| - 1 ensures LoopStep(pacers, longer[j], longer[j + 1]) {
      assert j < |trace| - 1 ==> longer[j + 1] == trace[j + 1];
    }
  }

  lemma {:induction false} PassPrefixIsRun(pacers: seq<Pacer>, pods: set<Pod>, items: seq<Pod>, selected: seq<Pod>, trace: seq<Progress>, j: nat)
    returns (run: seq<Loop>)
    requires Lists(items, pods) && Selects(pacers, items, selected) && PassSteps(pacers, pods, selected, trace) && j < |trace|
    ensures LoopRun(pacers, pods, 0, run) && trace[j].next <= |selected| && Final(run) == AsLoop(selected, trace[j])
  {
    if j == 0 {
      var l, l' := Loop(pods, [], 0, 0), Loop(pods, selected, 0, 0);
      assert Begins(pacers, l, l', items);
      run := [l, l'];
      assert selected[0..] == selected;
      assert LoopStep(pacers, run[0], run[0 + 1]);
    } else {
      hide PassStep, LoopStep;
      run := PassPrefixIsRun(pacers, pods, items, selected, trace, j - 1);
      assert PassStep(pacers, selected, trace[j - 1], trace[j - 1 + 1]);
      PassStepIsLoopStep(pacers, selected, trace[j - 1], trace[j]);
      StepsExtend(pacers, run, AsLoop(selected, trace[j]));
      run := run + [AsLoop(selected, trace[j])];
    }
  }

  /** A pass that waits for all its pods is a run of the loop. */
  lemma PassIsRun(pacers: seq<Pacer>, pods: set<Pod>, items: seq<Pod>, selected: seq<Pod>, trace: seq<Progress>) returns (run: seq<Loop>)
    requires ReconcilePass(pacers, pods, items, selected, trace)
    ensures LoopRun(pacers, pods, 0, run)
    ensures Final(run) == Loop(Last(trace).pods, [], Last(trace).gone, Last(trace).back)
  {
    hide Lists, Selects, PassSteps;
    assert trace != [] by { PassHasSteps(pacers, pods, selected, trace); }
    run := PassPrefixIsRun(pacers, pods, items, selected, trace, |trace| - 1);
  }

  lemma PassHasSteps(pacers: seq<Pacer>, pods: set<Pod>, selected: seq<Pod>, trace: seq<Progress>)
    requires PassSteps(pacers, pods, selected, trace)
    ensures trace != []
  {
  }
}
