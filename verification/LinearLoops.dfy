/** What the reconcile loop achieves under a lone linear pacer below MaxStagger when passes do not
    wait for the pods they evicted. A pod that is away is not blocked, so passes in quick
    succession can shorten a queue that no waiting pass would get past. */
module LinearLoops {
  import opened Pods
  import opened Pacers
  import opened Standing
  import opened PacingProtocol
  import opened Rounds
  import opened PassRuns
  import opened LinearRounds
  import opened Loops

  /** Room below the step's boundary, 0 if starting pods fill it. */
  function Room(p: Pacer, c: Counts): nat
    requires p.Linear? && CanPace(p)
  {
    Max(0, Gap(p, c.ready) - c.starting)
  }

  ghost predicate Paces(p: Pacer, pods: set<Pod>) {
    p.Linear? && p.linear.step != 0 && Identified(pods) && !Saturated(p, Count(IsReady, pods))
  }

  // ----- every run -----

  /** The state of a run from the counts c, with `total` pods blocked or away at its start, once
      `freed` pods were let back in. */
  ghost predicate LinearLoop(p: Pacer, c: Counts, total: nat, l: Loop, freed: int)
    requires p.Linear? && CanPace(p)
  {
    var c' := CountsOf(l.pods);
    && 0 <= freed <= Min(l.back, Room(p, c))
    && c'.ready == c.ready
    && c'.starting == c.starting + freed
    && c'.blocked + l.gone == total + l.back - freed
    && (total <= Gap(p, c.ready) ==> freed == Min(l.back, Room(p, c)))
  }

  lemma LinearLoopStep(p: Pacer, c: Counts, total: nat, l: Loop, l': Loop, freed: int) returns (freed': int)
    requires p.Linear? && CanPace(p) && !Saturated(p, c.ready)
    requires InLoop(l) && LoopStep([p], l, l') && LinearLoop(p, c, total, l, freed)
    ensures InLoop(l') && LinearLoop(p, c, total, l', freed')
  {
    hide InLoop, Count, LoopStep, FreshApproved;
    LoneApproval(p, CountsOf(l.pods));
    LoopStepCounts([p], l, l');
    freed' := freed;
    if l'.back > l.back && FreshApproved([p], CountsOf(l.pods)) {
      freed' := freed + 1;
    }
  }

  /** Whatever the interleaving of passes, evictions, refusals and readmissions, no more pods are
      let in than there is room, and if no more pods are blocked or away than the gap is wide,
      all that are back are, up to the room. */
  lemma {:induction false} LinearRun(p: Pacer, pods: set<Pod>, away: nat, trace: seq<Loop>, j: nat) returns (freed: int)
    requires Paces(p, pods) && LoopRun([p], pods, away, trace) && j < |trace|
    ensures InLoop(trace[j])
    ensures LinearLoop(p, CountsOf(pods), Count(IsBlocked, pods) + away, trace[j], freed)
  {
    hide Count, Identified, LoopStep, InLoop;
    if j == 0 {
      freed := 0;
      StartsInLoop(pods, away);
    } else {
      hide LinearLoop;
      freed := LinearRun(p, pods, away, trace, j - 1);
      assert LoopStep([p], trace[j - 1], trace[j - 1 + 1]);
      freed := LinearLoopStep(p, CountsOf(pods), Count(IsBlocked, pods) + away, trace[j - 1], trace[j], freed);
    }
  }

  // ----- some run -----

  lemma StepsPrepend(pacers: seq<Pacer>, l: Loop, trace: seq<Loop>)
    requires LoopSteps(pacers, trace) && LoopStep(pacers, l, trace[0])
    ensures LoopSteps(pacers, [l] + trace)
  {
    hide LoopStep;
    var longer := [l] + trace;
    forall j | 0 <= j < |longer| - 1 ensures LoopStep(pacers, longer[j], longer[j + 1]) {
      assert j > 0 ==> longer[j] == trace[j - 1];
    }
  }

  ghost predicate HasRoom(p: Pacer, l: Loop) {
    Paces(p, l.pods) && Count(IsStarting, l.pods) < Gap(p, Count(IsReady, l.pods))
  }

  /** While something is blocked and there is room, the loop can evict: from the selection at
      hand, or from that of a new pass. */
  lemma SomeLoopStep(p: Pacer, l: Loop) returns (l': Loop)
    requires HasRoom(p, l) && InLoop(l) && Count(IsBlocked, l.pods) > 0
    ensures LoopStep([p], l, l') && InLoop(l') && l'.back == l.back
    ensures l.todo == [] ==> l'.todo != [] && l'.pods == l.pods && l'.gone == l.gone
    ensures l.todo != [] ==> l'.gone == l.gone + 1 && CountsOf(l'.pods) == CountsOf(l.pods).(blocked := Count(IsBlocked, l.pods) - 1)
  {
    assert AllCanPace([p]);
    hide Count, InLoop, Identified, Lists, Selects;
    if l.todo == [] {
      var items := SomeListing(l.pods);
      var selected := SomeSelection([p], items);
      assert Identified(l.pods);
      SelectionCounts([p], l.pods, items, selected);
      assert [p][0] == p;
      l' := l.(todo := selected);
      assert Begins([p], l, l', items);
      BeginCounts([p], l, l', items);
    } else {
      l' := Loop(l.pods - {l.todo[0]}, l.todo[1..], l.gone + 1, l.back);
      EvictNextCounts(l, l');
    }
  }

  /** Passes in quick succession evict everything before anything is back. */
  lemma {:induction false} SomeEmptying(p: Pacer, l: Loop) returns (trace: seq<Loop>)
    requires HasRoom(p, l) && InLoop(l)
    ensures LoopSteps([p], trace) && trace[0] == l
    ensures Final(trace).gone == l.gone + Count(IsBlocked, l.pods) && Final(trace).back == l.back
    ensures InLoop(Final(trace)) && CountsOf(Final(trace).pods) == CountsOf(l.pods).(blocked := 0)
    decreases Count(IsBlocked, l.pods), if l.todo == [] then 1 else 0
  {
    if Count(IsBlocked, l.pods) == 0 {
      trace := [l];
    } else {
      var l' := SomeLoopStep(p, l);
      assert HasRoom(p, l') by { hide Count; assert Identified(l'.pods); }
      hide HasRoom, LoopStep, InLoop, Count;
      var rest := SomeEmptying(p, l');
      StepsPrepend([p], l, rest);
      trace := [l] + rest;
    }
  }

  /** With nothing blocked the pods that come back are let in as long as there is room. */
  lemma {:induction false} SomeReturns(p: Pacer, l: Loop, k: nat) returns (trace: seq<Loop>)
    requires HasRoom(p, l) && InLoop(l) && Count(IsBlocked, l.pods) == 0 && k <= l.gone - l.back
    ensures LoopSteps([p], trace) && trace[0] == l
    ensures Final(trace) == Loop(Final(trace).pods, l.todo, l.gone, l.back + k) && InLoop(Final(trace))
    ensures var c := CountsOf(l.pods);
            var freed := Min(k, Room(p, c));
            CountsOf(Final(trace).pods) == Counts(c.ready, c.starting + freed, k - freed)
  {
    if k == 0 {
      trace := [l];
    } else {
      trace := SomeReturns(p, l, k - 1);
      hide Count, InLoop, LoopSteps, LoopStep, Gap, Identified;
      var l' := SomeReturn(p, CountsOf(l.pods), Final(trace), k - 1);
      assert trace != [] by { StepsExist([p], trace); }
      StepsExtend([p], trace, l');
      trace := trace + [l'];
    }
  }

  /** The next pod back, with as many blocked as bounced before. */
  lemma SomeReturn(p: Pacer, c: Counts, last: Loop, k: nat) returns (l': Loop)
    requires p.Linear? && CanPace(p) && !Saturated(p, c.ready) && c.starting < Gap(p, c.ready)
    requires InLoop(last) && last.back < last.gone
    requires CountsOf(last.pods) == Counts(c.ready, c.starting + Min(k, Room(p, c)), k - Min(k, Room(p, c)))
    ensures LoopStep([p], last, l') && InLoop(l') && l' == Loop(l'.pods, last.todo, last.gone, last.back + 1)
    ensures var freed := Min(k + 1, Room(p, c)); CountsOf(l'.pods) == Counts(c.ready, c.starting + freed, k + 1 - freed)
  {
    hide Count, InLoop, LoopStep, FreshApproved, Identified;
    assert AllCanPace([p]);
    LoopIsIdentified(last);
    var pods := SomeReadmission([p], last.pods);
    l' := Loop(pods, last.todo, last.gone, last.back + 1);
    ReturnIsStep([p], last, l');
    LoneApproval(p, CountsOf(last.pods));
    ReturnOneCounts([p], last, l');
  }

  lemma LoopIsIdentified(l: Loop)
    requires InLoop(l)
    ensures Identified(l.pods)
  {
  }

  lemma ReturnIsStep(pacers: seq<Pacer>, l: Loop, l': Loop)
    requires ReturnsOne(pacers, l, l')
    ensures LoopStep(pacers, l, l')
  {
  }

  lemma StepsExist(pacers: seq<Pacer>, trace: seq<Loop>)
    requires LoopSteps(pacers, trace)
    ensures trace != []
  {
  }

  lemma {:induction false} StepsJoin(pacers: seq<Pacer>, a: seq<Loop>, b: seq<Loop>)
    requires LoopSteps(pacers, a) && LoopSteps(pacers, b) && Final(a) == b[0]
    ensures LoopSteps(pacers, a + b[1..]) && Final(a + b[1..]) == Final(b)
  {
    hide LoopStep;
    var c := a + b[1..];
    forall j | 0 <= j < |c| - 1 ensures LoopStep(pacers, c[j], c[j + 1]) {
      if j < |a| - 1 {
        assert c[j] == a[j] && c[j + 1] == a[j + 1];
      } else {
        var i := j - |a| + 1;
        assert c[j] == b[i] && c[j + 1] == b[i + 1];
      }
    }
  }

  /** The most any run can free is freed by one: from any queue passes in quick succession evict
      everything, and of the pods coming back as many start as there is room. */
  lemma LinearRunFrees(p: Pacer, pods: set<Pod>, away: nat) returns (trace: seq<Loop>)
    requires Paces(p, pods)
    ensures LoopRun([p], pods, away, trace)
    ensures var c := CountsOf(pods);
            Count(IsStarting, Final(trace).pods) == c.starting + Min(c.blocked + away, Room(p, c))
  {
    var start := Loop(pods, [], away, 0);
    var c := CountsOf(pods);
    if Room(p, c) == 0 {
      trace := [start];
    } else {
      StartsInLoop(pods, away);
      assert HasRoom(p, start);
      hide InLoop, LoopStep, Count, Identified, Gap;
      var emptying := SomeEmptying(p, start);
      var empty := Final(emptying);
      assert HasRoom(p, empty) by { LoopIsIdentified(empty); }
      hide Paces, HasRoom;
      var returns_ := SomeReturns(p, empty, empty.gone - empty.back);
      StepsJoin([p], emptying, returns_);
      trace := emptying + returns_[1..];
      assert trace[0] == emptying[0];
    }
  }

  // ----- when the loop makes progress -----

  /** Some run frees a pod. */
  ghost predicate RunMayFree(p: Pacer, pods: set<Pod>, away: nat) {
    exists trace :: LoopRun([p], pods, away, trace) && Count(IsStarting, Final(trace).pods) > Count(IsStarting, pods)
  }

  /** Every run has freed a pod once a pod is back. */
  ghost predicate RunMustFree(p: Pacer, pods: set<Pod>) {
    forall trace :: LoopRun([p], pods, 0, trace) && Final(trace).back > 0 ==> Count(IsStarting, Final(trace).pods) > Count(IsStarting, pods)
  }

  /** Exactly when the loop makes progress. Some run frees a pod if and only if there is room and
      a pod is blocked or away, however long the queue. From there every run does, as soon as a
      pod is back, if and only if no more pods are blocked than the gap is wide. */
  lemma LinearLoopProgress(p: Pacer, pods: set<Pod>, away: nat)
    requires Paces(p, pods)
    ensures var c := CountsOf(pods);
            && (RunMayFree(p, pods, away) <==> Room(p, c) > 0 && c.blocked + away > 0)
            && (Room(p, c) > 0 && c.blocked > 0 ==> (RunMustFree(p, pods) <==> c.blocked <= Gap(p, c.ready)))
  {
    var c := CountsOf(pods);
    assert CanPace(p);
    hide Paces, LoopSteps, Count, Gap;
    var best := LinearRunFrees(p, pods, away);
    forall trace | LoopRun([p], pods, away, trace)
      ensures trace != [] && Count(IsStarting, Final(trace).pods) <= c.starting + Min(c.blocked + away, Room(p, c))
    {
      NoneFreesMore(p, pods, away, trace);
    }
    if Room(p, c) > 0 && c.blocked > 0 {
      if c.blocked <= Gap(p, c.ready) {
        forall trace | LoopRun([p], pods, 0, trace) ensures trace != [] && (Final(trace).back > 0 ==> Count(IsStarting, Final(trace).pods) > c.starting) {
          StepsExist([p], trace);
          var freed := LinearRun(p, pods, 0, trace, |trace| - 1);
        }
      } else {
        var run := SomeFruitlessRun(p, pods);
      }
    }
  }

  lemma NoneFreesMore(p: Pacer, pods: set<Pod>, away: nat, trace: seq<Loop>)
    requires Paces(p, pods) && LoopRun([p], pods, away, trace)
    ensures trace != []
    ensures var c := CountsOf(pods); Count(IsStarting, Final(trace).pods) <= c.starting + Min(c.blocked + away, Room(p, c))
  {
    hide Count, LoopStep, Gap, Identified;
    var freed := LinearRun(p, pods, away, trace, |trace| - 1);
    assert Final(trace).back <= Final(trace).gone;
  }

  /** Beyond the gap a pass that waits for each pod brings pods back and frees none. */
  lemma SomeFruitlessRun(p: Pacer, pods: set<Pod>) returns (run: seq<Loop>)
    requires Paces(p, pods) && Room(p, CountsOf(pods)) > 0 && Count(IsBlocked, pods) > Gap(p, Count(IsReady, pods))
    ensures LoopRun([p], pods, 0, run)
    ensures Final(run).back > 0 && Count(IsStarting, Final(run).pods) == Count(IsStarting, pods)
  {
    var items, selected, trace := FreedOnSchedule(p, pods, true);
    hide Identified, Selects, Lists, PassStep, Count, Gap;
    AllSelectedGone(p, pods, items, selected, trace);
    run := PassIsRun([p], pods, items, selected, trace);
  }
}
