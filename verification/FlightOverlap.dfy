/** How far waiting for a flight to land keeps admissions of a group apart. */
module FlightOverlap {
  import opened Pods
  import opened FlightTracker
  import opened FlightProperties

  /** Admissions past WaitOne whose flight is still outstanding: all flights but those of the
      admissions still blocked. */
  function Airborne(l: FlightList): int {
    |l.flights| - l.channel.waiters
  }

  function AirborneAt(t: Tracker, key: string): int {
    if key in t.lists then Airborne(t.lists[key]) else 0
  }

  /** An admission of the group finds no flight outstanding and returns at once. */
  predicate FindsEmpty(t: Tracker, op: Op, key: string) {
    op.WaitOne? && op.key == key && TrackedName(op.name, op.generateName) != "" && ListFor(t, key).flights == []
  }

  /** A blocked admission receives a wake-up. */
  predicate Wakes(t: Tracker, op: Op, slot: Slot) {
    op == Deliver(slot) && Used(t, slot) && ChannelAt(t, slot).senders > 0 && ChannelAt(t, slot).waiters > 0
  }

  /** A blocked admission gives up waiting. */
  predicate GivesUp(t: Tracker, op: Op, slot: Slot) {
    op == TimeOut(slot) && Used(t, slot) && ChannelAt(t, slot).waiters > 0
  }

  /** Exactly which steps overlap admissions: a group goes beyond n airborne if and only if n are
      airborne already and a blocked admission of the group wakes up or gives up. Arrivals,
      landings and evicter passes never do it. */
  lemma OverlapRises(t: Tracker, op: Op, key: string, n: int, maxFlight: nat)
    requires n >= 1
    ensures AirborneAt(t, key) <= n < AirborneAt(Next(t, op, maxFlight), key) <==>
            AirborneAt(t, key) == n && (Wakes(t, op, Live(key)) || GivesUp(t, op, Live(key)))
  {
    hide Landing, Newest;
    match op
    case WaitOne(k, _, _, _, _) =>
    case Deliver(slot) => StepAtSlot(t, op, slot, key, maxFlight);
    case TimeOut(slot) => StepAtSlot(t, op, slot, key, maxFlight);
    case Reconcile(request, lookup) =>
    case EvictPass(now) => assert key in AfterPass(t, now, maxFlight).lists ==> key in t.lists;
  }

  lemma StepAtSlot(t: Tracker, op: Op, slot: Slot, key: string, maxFlight: nat)
    requires op == Deliver(slot) || op == TimeOut(slot)
    ensures AirborneAt(Next(t, op, maxFlight), key)
         == AirborneAt(t, key) + if Wakes(t, op, Live(key)) || GivesUp(t, op, Live(key)) then 1 else 0
  {
  }

  /** How often in a run an admission of the group found the list empty or gave up waiting. */
  function Excuses(t: Tracker, ops: seq<Op>, key: string, maxFlight: nat): nat
    decreases |ops|
  {
    if ops == [] then 0
    else (if FindsEmpty(t, ops[0], key) || GivesUp(t, ops[0], Live(key)) then 1 else 0)
         + Excuses(Next(t, ops[0], maxFlight), ops[1..], key, maxFlight)
  }

  function LeftUnwoken(t: Tracker, key: string): nat {
    if key in t.lists then t.lists[key].channel.immediate + t.lists[key].channel.timedOut else 0
  }

  lemma StepLeaves(t: Tracker, op: Op, key: string, maxFlight: nat)
    ensures LeftUnwoken(Next(t, op, maxFlight), key)
         <= LeftUnwoken(t, key) + if FindsEmpty(t, op, key) || GivesUp(t, op, Live(key)) then 1 else 0
  {
    hide Landing, Newest;
    if op.EvictPass? {
      assert key in AfterPass(t, op.now, maxFlight).lists ==> key in t.lists;
    }
  }

  lemma {:induction false} RunLeaves(t: Tracker, ops: seq<Op>, key: string, maxFlight: nat)
    ensures LeftUnwoken(Exec(t, ops, maxFlight), key) <= LeftUnwoken(t, key) + Excuses(t, ops, key, maxFlight)
    decreases |ops|
  {
    if ops != [] {
      StepLeaves(t, ops[0], key, maxFlight);
      RunLeaves(Next(t, ops[0], maxFlight), ops[1..], key, maxFlight);
    }
  }

  /** Over a whole run no more admissions of a group are airborne than times an admission found
      the list empty or gave up waiting. */
  lemma OverlapIsBounded(ops: seq<Op>, key: string, maxFlight: nat)
    ensures AirborneAt(Exec(EMPTY, ops, maxFlight), key) <= Excuses(EMPTY, ops, key, maxFlight)
  {
    Conservation(EMPTY, ops, maxFlight);
    RunLeaves(EMPTY, ops, key, maxFlight);
  }

  lemma {:induction false} ExcusesAppend(t: Tracker, a: seq<Op>, b: seq<Op>, key: string, maxFlight: nat)
    ensures Excuses(t, a + b, key, maxFlight) == Excuses(t, a, key, maxFlight) + Excuses(Exec(t, a, maxFlight), b, key, maxFlight)
    decreases |a|
  {
    if a == [] {
      assert a + b == b;
    } else {
      assert (a + b)[1..] == a[1..] + b;
      ExcusesAppend(Next(t, a[0], maxFlight), a[1..], b, key, maxFlight);
    }
  }

  /** An admission that finds the list empty, lands and is deleted: its wake-up stays behind. */
  function Visit(key: string, name: string): seq<Op> {
    var pod := NamespacedName("", name);
    [WaitOne(key, "", name, "", 0), Reconcile(pod, Found(name, "", "", Some(key))), Reconcile(pod, NotFound)]
  }

  function Visits(key: string, name: string, n: nat): seq<Op> {
    if n == 0 then [] else Visits(key, name, n - 1) + Visit(key, name)
  }

  /** n admissions in a row, each but the first taking a wake-up left behind. */
  function Crowd(key: string, name: string, n: nat): seq<Op> {
    if n == 0 then [] else Crowd(key, name, n - 1) + [WaitOne(key, "", name, "", 0), Deliver(Live(key))]
  }

  ghost predicate Idle(t: Tracker, key: string, n: nat) {
    key in t.lists && t.lists[key] == FlightList([], {}, Channel(n, 0, n, 0))
  }

  lemma VisitBanksOne(t: Tracker, key: string, name: string, n: nat, maxFlight: nat)
    requires name != "" && (Idle(t, key, n) || (n == 0 && t == EMPTY))
    ensures Idle(Exec(t, Visit(key, name), maxFlight), key, n + 1)
  {
    hide *;
    var pod := NamespacedName("", name);
    var t1 := Next(t, WaitOne(key, "", name, "", 0), maxFlight);
    OneTakesOff(t, key, name, n, maxFlight);
    OneLands(t1, key, name, n, maxFlight);
    VisitIsThree(t, key, name, maxFlight);
  }

  lemma VisitExcuses(t: Tracker, key: string, name: string, n: nat, maxFlight: nat)
    requires name != "" && (Idle(t, key, n) || (n == 0 && t == EMPTY))
    ensures Excuses(t, Visit(key, name), key, maxFlight) == 1
  {
    var ops := Visit(key, name);
    var t1 := Next(t, ops[0], maxFlight);
    var t2 := Next(t1, ops[1], maxFlight);
    assert ops[1..][1..] == [ops[2]] && [ops[2]][1..] == [];
    assert FindsEmpty(t, ops[0], key);
    hide Next;
    assert Excuses(Next(t2, ops[2], maxFlight), [], key, maxFlight) == 0;
    assert Excuses(t2, [ops[2]], key, maxFlight) == 0;
    assert Excuses(t1, ops[1..], key, maxFlight) == 0;
  }

  lemma VisitIsThree(t: Tracker, key: string, name: string, maxFlight: nat)
    ensures var pod := NamespacedName("", name);
            var t1 := Next(t, WaitOne(key, "", name, "", 0), maxFlight);
            var t2 := Next(t1, Reconcile(pod, Found(name, "", "", Some(key))), maxFlight);
            Exec(t, Visit(key, name), maxFlight) == Next(t2, Reconcile(pod, NotFound), maxFlight)
  {
    hide Next;
    var ops := Visit(key, name);
    ExecThree(t, ops[0], ops[1], ops[2], maxFlight);
  }

  lemma OneTakesOff(t: Tracker, key: string, name: string, n: nat, maxFlight: nat)
    requires name != "" && (Idle(t, key, n) || (n == 0 && t == EMPTY))
    ensures var t1 := Next(t, WaitOne(key, "", name, "", 0), maxFlight);
            key in t1.lists && t1.lists[key] == FlightList([Flight(NamespacedName("", name), 0)], {}, Channel(n, 0, n + 1, 0))
  {
  }

  lemma OneLands(t: Tracker, key: string, name: string, n: nat, maxFlight: nat)
    requires name != "" && key in t.lists
    requires t.lists[key] == FlightList([Flight(NamespacedName("", name), 0)], {}, Channel(n, 0, n + 1, 0))
    ensures var pod := NamespacedName("", name);
            var t2 := Next(t, Reconcile(pod, Found(name, "", "", Some(key))), maxFlight);
            Idle(Next(t2, Reconcile(pod, NotFound), maxFlight), key, n + 1)
  {
    var pod := NamespacedName("", name);
    assert Newest([Flight(pod, 0)], pod) == 0;
    hide Newest;
    var t2 := Next(t, Reconcile(pod, Found(name, "", "", Some(key))), maxFlight);
    assert t2.lists[key] == FlightList([], {pod}, Channel(n + 1, 0, n + 1, 0));
    var t3 := Next(t2, Reconcile(pod, NotFound), maxFlight);
    assert t3.lists[key].seen == {};
  }

  lemma {:induction false} VisitsBank(key: string, name: string, n: nat, maxFlight: nat)
    requires name != "" && n > 0
    ensures Idle(Exec(EMPTY, Visits(key, name, n), maxFlight), key, n)
    ensures Excuses(EMPTY, Visits(key, name, n), key, maxFlight) == n
  {
    if n > 1 {
      VisitsBank(key, name, n - 1, maxFlight);
    } else {
      assert Visits(key, name, 0) == [];
    }
    ExecAppend(EMPTY, Visits(key, name, n - 1), Visit(key, name), maxFlight);
    hide Visit, Next, Idle;
    var t := Exec(EMPTY, Visits(key, name, n - 1), maxFlight);
    VisitBanksOne(t, key, name, n - 1, maxFlight);
    VisitExcuses(t, key, name, n - 1, maxFlight);
    ExcusesAppend(EMPTY, Visits(key, name, n - 1), Visit(key, name), key, maxFlight);
  }

  lemma CrowdGrows(t: Tracker, key: string, name: string, m: nat, n: nat, maxFlight: nat)
    requires name != "" && m > 0 && key in t.lists
    requires |t.lists[key].flights| == n && t.lists[key].channel.waiters == 0 && t.lists[key].channel.timedOut == 0
    requires t.lists[key].channel.senders == if n == 0 then m else m + 1 - n
    requires 0 <= n <= m
    ensures var t' := Exec(t, [WaitOne(key, "", name, "", 0), Deliver(Live(key))], maxFlight);
            && key in t'.lists && |t'.lists[key].flights| == n + 1
            && t'.lists[key].channel.waiters == 0 && t'.lists[key].channel.timedOut == 0
            && t'.lists[key].channel.senders == m - n
    ensures Excuses(t, [WaitOne(key, "", name, "", 0), Deliver(Live(key))], key, maxFlight) == if n == 0 then 1 else 0
  {
    var ops := [WaitOne(key, "", name, "", 0), Deliver(Live(key))];
    ExecTwo(t, ops[0], ops[1], maxFlight);
    assert ops[1..] == [ops[1]] && [ops[1]][1..] == [];
    var t1 := Next(t, ops[0], maxFlight);
    assert Excuses(Next(t1, ops[1], maxFlight), [], key, maxFlight) == 0;
    assert Excuses(t1, [ops[1]], key, maxFlight) == 0;
  }

  lemma {:induction false} CrowdOf(key: string, name: string, m: nat, n: nat, maxFlight: nat)
    requires name != "" && 0 < n <= m + 1 && m > 0
    ensures var t := Exec(EMPTY, Visits(key, name, m) + Crowd(key, name, n), maxFlight);
            && key in t.lists && |t.lists[key].flights| == n
            && t.lists[key].channel.waiters == 0 && t.lists[key].channel.timedOut == 0
            && t.lists[key].channel.senders == m + 1 - n
    ensures Excuses(EMPTY, Visits(key, name, m) + Crowd(key, name, n), key, maxFlight) == m + 1
  {
    var step := [WaitOne(key, "", name, "", 0), Deliver(Live(key))];
    var before := Visits(key, name, m) + Crowd(key, name, n - 1);
    assert Visits(key, name, m) + Crowd(key, name, n) == before + step;
    ExecAppend(EMPTY, before, step, maxFlight);
    if n == 1 {
      VisitsBank(key, name, m, maxFlight);
      assert before == Visits(key, name, m);
    } else {
      CrowdOf(key, name, m, n - 1, maxFlight);
    }
    ExcusesAppend(EMPTY, before, step, key, maxFlight);
    CrowdGrows(Exec(EMPTY, before, maxFlight), key, name, m, n - 1, maxFlight);
  }

  /** The bound is reached, and waiting for a flight to land does not serialise admissions: a
      wake-up sent for a flight nobody was waiting on stays behind and later releases a waiter too
      early. For every n there is a run without a time-out or a forced landing that has n + 1
      admissions airborne at once, as many as found the list empty. */
  lemma OverlapIsUnbounded(key: string, name: string, n: nat, maxFlight: nat)
    requires name != "" && n > 0
    ensures var ops := Visits(key, name, n) + Crowd(key, name, n + 1);
            var t := Exec(EMPTY, ops, maxFlight);
            && AirborneAt(t, key) == n + 1 == Excuses(EMPTY, ops, key, maxFlight)
            && forall i :: 0 <= i < |ops| ==> !ops[i].TimeOut? && !ops[i].EvictPass?
  {
    CrowdOf(key, name, n, n + 1, maxFlight);
    NoTimeOuts(key, name, n);
    NoTimeOutsInCrowd(key, name, n + 1);
  }

  lemma {:induction false} NoTimeOuts(key: string, name: string, n: nat)
    ensures forall i :: 0 <= i < |Visits(key, name, n)| ==> !Visits(key, name, n)[i].TimeOut? && !Visits(key, name, n)[i].EvictPass?
  {
    if n > 0 {
      NoTimeOuts(key, name, n - 1);
    }
  }

  lemma {:induction false} NoTimeOutsInCrowd(key: string, name: string, n: nat)
    ensures forall i :: 0 <= i < |Crowd(key, name, n)| ==> !Crowd(key, name, n)[i].TimeOut? && !Crowd(key, name, n)[i].EvictPass?
  {
    if n > 0 {
      NoTimeOutsInCrowd(key, name, n - 1);
    }
  }
}
