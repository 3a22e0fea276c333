/** What the flight tracker keeps in every interleaving of its steps. */
module FlightProperties {
  import opened Pods
  import opened FlightTracker

  function Exec(t: Tracker, ops: seq<Op>, maxFlight: nat): Tracker
    decreases |ops|
  {
    if ops == [] then t else Exec(Next(t, ops[0], maxFlight), ops[1..], maxFlight)
  }

  lemma {:induction false} ExecAppend(t: Tracker, a: seq<Op>, b: seq<Op>, maxFlight: nat)
    ensures Exec(t, a + b, maxFlight) == Exec(Exec(t, a, maxFlight), b, maxFlight)
    decreases |a|
  {
    if a == [] {
      assert a + b == b;
    } else {
      assert (a + b)[1..] == a[1..] + b;
      ExecAppend(Next(t, a[0], maxFlight), a[1..], b, maxFlight);
    }
  }

  lemma ExecTwo(t: Tracker, a: Op, b: Op, maxFlight: nat)
    ensures Exec(t, [a, b], maxFlight) == Next(Next(t, a, maxFlight), b, maxFlight)
  {
    assert [a, b][1..] == [b];
    assert [b][1..] == [];
    assert Exec(Next(t, a, maxFlight), [b], maxFlight) == Exec(Next(Next(t, a, maxFlight), b, maxFlight), [], maxFlight);
  }

  lemma ExecThree(t: Tracker, a: Op, b: Op, c: Op, maxFlight: nat)
    ensures Exec(t, [a, b, c], maxFlight) == Next(Next(Next(t, a, maxFlight), b, maxFlight), c, maxFlight)
  {
    assert [a, b, c][1..] == [b, c];
    ExecTwo(Next(t, a, maxFlight), b, c, maxFlight);
  }

  // ----- conservation -----

  /** Wake-ups on their way plus flights outstanding equal those still waiting plus those who
      left without waiting for one. */
  predicate Balanced(c: Channel, flights: nat) {
    c.senders + flights == c.waiters + c.timedOut + c.immediate
  }

  ghost predicate AllBalanced(t: Tracker) {
    && (forall k :: k in t.lists ==> Balanced(t.lists[k].channel, |t.lists[k].flights|))
    && (forall k, i :: k in t.retired && 0 <= i < |t.retired[k]| ==> Balanced(t.retired[k][i], 0))
  }

  lemma PassKeepsBalance(t: Tracker, now: nat, maxFlight: nat)
    requires AllBalanced(t)
    ensures AllBalanced(AfterPass(t, now, maxFlight))
  {
    var keys := UnusedKeys(t);
    var d := Dropped(t, keys);
    assert forall k :: k in d.lists ==> k in t.lists && d.lists[k] == t.lists[k];
    forall k, i | k in d.retired && 0 <= i < |d.retired[k]| ensures Balanced(d.retired[k][i], 0) {
      if k in keys && i == |RetiredFor(t, k)| {
        assert d.retired[k][i] == t.lists[k].channel;
      } else {
        assert k in t.retired && d.retired[k][i] == t.retired[k][i];
      }
    }
  }

  lemma NextKeepsBalance(t: Tracker, op: Op, maxFlight: nat)
    requires AllBalanced(t)
    ensures AllBalanced(Next(t, op, maxFlight))
  {
    if op.EvictPass? {
      PassKeepsBalance(t, op.now, maxFlight);
    }
  }

  /** Conservation: whatever interleaving of waits, wake-ups, time-outs, landings and evicter
      passes led here, every channel, of a live list or a dropped one, balances. */
  lemma {:induction false} Conservation(t: Tracker, ops: seq<Op>, maxFlight: nat)
    requires AllBalanced(t)
    ensures AllBalanced(Exec(t, ops, maxFlight))
    decreases |ops|
  {
    if ops != [] {
      NextKeepsBalance(t, ops[0], maxFlight);
      Conservation(Next(t, ops[0], maxFlight), ops[1..], maxFlight);
    }
  }

  function FlightsAt(t: Tracker, slot: Slot): nat
    requires Used(t, slot)
  {
    if slot.Live? then |t.lists[slot.key].flights| else 0
  }

  function Wakeups(slot: Slot, n: nat): seq<Op> {
    if n == 0 then [] else [Deliver(slot)] + Wakeups(slot, n - 1)
  }

  lemma {:induction false} EnoughSendersWakeAll(t: Tracker, slot: Slot, maxFlight: nat)
    requires Used(t, slot) && ChannelAt(t, slot).senders >= ChannelAt(t, slot).waiters
    ensures var c := ChannelAt(t, slot);
            Exec(t, Wakeups(slot, c.waiters), maxFlight) == WithChannel(t, slot, c.(senders := c.senders - c.waiters, waiters := 0))
    decreases ChannelAt(t, slot).waiters
  {
    var c := ChannelAt(t, slot);
    if c.waiters == 0 {
      SameChannel(t, slot);
    } else {
      var c' := c.(senders := c.senders - 1, waiters := c.waiters - 1);
      var t' := WithChannel(t, slot, c');
      assert Wakeups(slot, c.waiters)[0] == Deliver(slot) && Wakeups(slot, c.waiters)[1..] == Wakeups(slot, c'.waiters);
      assert Next(t, Deliver(slot), maxFlight) == t';
      WrittenChannel(t, slot, c', c'.(senders := c'.senders - c'.waiters, waiters := 0));
      EnoughSendersWakeAll(t', slot, maxFlight);
    }
  }

  lemma SameChannel(t: Tracker, slot: Slot)
    requires Used(t, slot)
    ensures WithChannel(t, slot, ChannelAt(t, slot)) == t
  {
    match slot
    case Live(key) =>
      assert t.lists[key := t.lists[key]] == t.lists;
    case Retired(key, i) =>
      assert t.retired[key][i := t.retired[key][i]] == t.retired[key];
      assert t.retired[key := t.retired[key]] == t.retired;
  }

  lemma WrittenChannel(t: Tracker, slot: Slot, c: Channel, c': Channel)
    requires Used(t, slot)
    ensures Used(WithChannel(t, slot, c), slot) && ChannelAt(WithChannel(t, slot, c), slot) == c
    ensures WithChannel(WithChannel(t, slot, c), slot, c') == WithChannel(t, slot, c')
  {
    match slot
    case Live(key) =>
      assert WithChannel(WithChannel(t, slot, c), slot, c').lists == WithChannel(t, slot, c').lists;
    case Retired(key, i) =>
      assert t.retired[key][i := c][i := c'] == t.retired[key][i := c'];
      assert WithChannel(WithChannel(t, slot, c), slot, c').retired == WithChannel(t, slot, c').retired;
  }

  /** No lost wake-up: in any run, once a channel has no flight outstanding (its list is empty,
      or was dropped by the evicter), a wake-up is on its way to every blocked admission, and
      receiving them lets every one of them go. */
  lemma NoLostWakeup(ops: seq<Op>, slot: Slot, maxFlight: nat)
    requires var t := Exec(EMPTY, ops, maxFlight); Used(t, slot) && FlightsAt(t, slot) == 0
    ensures var t := Exec(EMPTY, ops, maxFlight);
            var c := ChannelAt(t, slot);
            && c.senders >= c.waiters
            && Exec(t, Wakeups(slot, c.waiters), maxFlight) == WithChannel(t, slot, c.(senders := c.senders - c.waiters, waiters := 0))
  {
    Conservation(EMPTY, ops, maxFlight);
    EnoughSendersWakeAll(Exec(EMPTY, ops, maxFlight), slot, maxFlight);
  }

  // ----- the evicter -----

  ghost predicate SortedByTime(flights: seq<Flight>) {
    forall i, j :: 0 <= i < j < |flights| ==> flights[i].timestamp <= flights[j].timestamp
  }

  lemma {:induction false} NothingExpired(flights: seq<Flight>, now: nat, maxFlight: nat)
    requires forall i :: 0 <= i < |flights| ==> !Expired(flights[i], now, maxFlight)
    ensures Kept(flights, now, maxFlight) == flights
  {
    if flights != [] {
      NothingExpired(flights[1..], now, maxFlight);
      assert flights == [flights[0]] + flights[1..];
    }
  }

  /** An evicter pass leaves exactly the newest suffix: what goes is older than the limit, what
      stays is not. */
  lemma {:induction false} KeptIsSuffix(flights: seq<Flight>, now: nat, maxFlight: nat) returns (m: nat)
    requires SortedByTime(flights)
    ensures m <= |flights| && Kept(flights, now, maxFlight) == flights[m..]
    ensures forall i :: 0 <= i < m ==> now - flights[i].timestamp > maxFlight
    ensures forall i :: m <= i < |flights| ==> now - flights[i].timestamp <= maxFlight
  {
    if flights == [] || !Expired(flights[0], now, maxFlight) {
      forall i | 0 <= i < |flights| ensures !Expired(flights[i], now, maxFlight) {
        assert i > 0 ==> flights[0].timestamp <= flights[i].timestamp;
      }
      hide SortedByTime;
      NothingExpired(flights, now, maxFlight);
      m := 0;
    } else {
      var rest := flights[1..];
      assert SortedByTime(rest);
      hide SortedByTime;
      var n := KeptIsSuffix(rest, now, maxFlight);
      m := n + 1;
      assert rest[n..] == flights[m..];
      forall i | 0 <= i < |flights| ensures if i < m then now - flights[i].timestamp > maxFlight else now - flights[i].timestamp <= maxFlight {
        assert i > 0 ==> flights[i] == rest[i - 1];
      }
    }
  }

  /** A run of the tracker against the clock: times never go back, and the evicter, which sleeps
      for half the limit, is never late. */
  ghost predicate OnTime(ops: seq<Op>, clock: nat, lastPass: nat, maxFlight: nat)
    decreases |ops|
  {
    ops == [] ||
    match ops[0]
    case WaitOne(_, _, _, _, now) => clock <= now <= lastPass + maxFlight / 2 && OnTime(ops[1..], now, lastPass, maxFlight)
    case EvictPass(now) => clock <= now <= lastPass + maxFlight / 2 && OnTime(ops[1..], now, now, maxFlight)
    case _ => OnTime(ops[1..], clock, lastPass, maxFlight)
  }

  /** The time the evicter last ran, given the time it last ran before the operations. */
  function LastPass(ops: seq<Op>, lastPass: nat): nat
    decreases |ops|
  {
    if ops == [] then lastPass
    else LastPass(ops[1..], if ops[0].EvictPass? then ops[0].now else lastPass)
  }

  ghost predicate FlightsRecent(flights: seq<Flight>, clock: nat, lastPass: nat, maxFlight: nat) {
    && SortedByTime(flights)
    && forall f :: f in flights ==> f.timestamp <= clock && lastPass - f.timestamp <= maxFlight
  }

  ghost predicate AllRecent(t: Tracker, clock: nat, lastPass: nat, maxFlight: nat) {
    && lastPass <= clock
    && forall k :: k in t.lists ==> FlightsRecent(t.lists[k].flights, clock, lastPass, maxFlight)
  }

  lemma RemovalStaysRecent(flights: seq<Flight>, i: nat, clock: nat, lastPass: nat, maxFlight: nat)
    requires i < |flights| && FlightsRecent(flights, clock, lastPass, maxFlight)
    ensures FlightsRecent(RemoveAt(flights, i), clock, lastPass, maxFlight)
  {
    var r := RemoveAt(flights, i);
    assert forall j :: 0 <= j < |r| ==> r[j] == flights[if j < i then j else j + 1];
  }

  lemma PassMakesRecent(flights: seq<Flight>, clock: nat, lastPass: nat, now: nat, maxFlight: nat)
    requires FlightsRecent(flights, clock, lastPass, maxFlight) && clock <= now
    ensures FlightsRecent(Kept(flights, now, maxFlight), now, now, maxFlight)
  {
    var m := KeptIsSuffix(flights, now, maxFlight);
  }

  lemma PushStaysRecent(flights: seq<Flight>, f: Flight, clock: nat, lastPass: nat, maxFlight: nat)
    requires FlightsRecent(flights, clock, lastPass, maxFlight) && lastPass <= clock <= f.timestamp
    ensures FlightsRecent(flights + [f], f.timestamp, lastPass, maxFlight)
  {
  }

  lemma LaterIsRecent(flights: seq<Flight>, clock: nat, clock': nat, lastPass: nat, maxFlight: nat)
    requires FlightsRecent(flights, clock, lastPass, maxFlight) && clock <= clock'
    ensures FlightsRecent(flights, clock', lastPass, maxFlight)
  {
  }

  lemma WaitOneStaysRecent(t: Tracker, op: Op, clock: nat, lastPass: nat, maxFlight: nat)
    requires op.WaitOne? && AllRecent(t, clock, lastPass, maxFlight) && clock <= op.now
    ensures AllRecent(Next(t, op, maxFlight), op.now, lastPass, maxFlight)
  {
    var t' := Next(t, op, maxFlight);
    var flights := ListFor(t, op.key).flights;
    assert FlightsRecent(flights, clock, lastPass, maxFlight);
    hide FlightsRecent;
    forall k | k in t'.lists ensures FlightsRecent(t'.lists[k].flights, op.now, lastPass, maxFlight) {
      if k == op.key && TrackedName(op.name, op.generateName) != "" {
        PushStaysRecent(flights, Flight(NamespacedName(op.namespace, TrackedName(op.name, op.generateName)), op.now), clock, lastPass, maxFlight);
      } else {
        LaterIsRecent(t'.lists[k].flights, clock, op.now, lastPass, maxFlight);
      }
    }
  }

  lemma PassStaysRecent(t: Tracker, now: nat, clock: nat, lastPass: nat, maxFlight: nat)
    requires AllRecent(t, clock, lastPass, maxFlight) && clock <= now
    ensures AllRecent(AfterPass(t, now, maxFlight), now, now, maxFlight)
  {
    hide FlightsRecent;
    var t' := AfterPass(t, now, maxFlight);
    forall k | k in t'.lists ensures FlightsRecent(t'.lists[k].flights, now, now, maxFlight) {
      assert k in t.lists && t'.lists[k].flights == Kept(t.lists[k].flights, now, maxFlight);
      PassMakesRecent(t.lists[k].flights, clock, lastPass, now, maxFlight);
    }
  }

  lemma NextStaysRecent(t: Tracker, op: Op, clock: nat, lastPass: nat, maxFlight: nat)
    requires AllRecent(t, clock, lastPass, maxFlight) && OnTime([op], clock, lastPass, maxFlight)
    ensures var clock' := if op.WaitOne? || op.EvictPass? then op.now else clock;
            var lastPass' := if op.EvictPass? then op.now else lastPass;
            AllRecent(Next(t, op, maxFlight), clock', lastPass', maxFlight)
  {
    assert [op][0] == op;
    hide FlightsRecent, AfterPass, AfterReconcile, Pushed, ListFor;
    match op
    case WaitOne(key, namespace, name, generateName, now) => WaitOneStaysRecent(t, op, clock, lastPass, maxFlight);
    case Deliver(slot) =>
    case TimeOut(slot) =>
    case Reconcile(request, lookup) => ReconcileStaysRecent(t, request, lookup, clock, lastPass, maxFlight);
    case EvictPass(now) => PassStaysRecent(t, now, clock, lastPass, maxFlight);
  }

  lemma ReconcileStaysRecent(t: Tracker, request: NamespacedName, lookup: Lookup, clock: nat, lastPass: nat, maxFlight: nat)
    requires AllRecent(t, clock, lastPass, maxFlight)
    ensures AllRecent(AfterReconcile(t, request, lookup), clock, lastPass, maxFlight)
  {
    if lookup.Found? && lookup.groupKey.Some? && lookup.groupKey.value in t.lists {
      var flights := t.lists[lookup.groupKey.value].flights;
      var i := Landing(flights, lookup.name, lookup.generateName, lookup.namespace);
      if i >= 0 {
        RemovalStaysRecent(flights, i, clock, lastPass, maxFlight);
      }
    }
  }

  ghost predicate Young(flights: seq<Flight>, now: nat, age: nat) {
    forall i :: 0 <= i < |flights| ==> now - flights[i].timestamp <= age
  }

  ghost predicate NoneOlder(t: Tracker, now: nat, age: nat) {
    forall k :: k in t.lists ==> SortedByTime(t.lists[k].flights) && Young(t.lists[k].flights, now, age)
  }

  lemma RecentIsYoung(t: Tracker, clock: nat, lastPass: nat, now: nat, maxFlight: nat)
    requires AllRecent(t, clock, lastPass, maxFlight) && now <= lastPass + maxFlight / 2
    ensures NoneOlder(t, now, maxFlight + maxFlight / 2)
  {
    forall k | k in t.lists ensures FlightsRecent(t.lists[k].flights, clock, lastPass, maxFlight) {}
  }

  /** Age bound: with the evicter running every half limit, no flight in any list is ever older
      than one and a half limits, and lists stay in the order of their time stamps. */
  lemma {:induction false} AgeBound(t: Tracker, ops: seq<Op>, clock: nat, lastPass: nat, now: nat, maxFlight: nat)
    requires AllRecent(t, clock, lastPass, maxFlight) && OnTime(ops, clock, lastPass, maxFlight)
    requires now <= LastPass(ops, lastPass) + maxFlight / 2
    ensures NoneOlder(Exec(t, ops, maxFlight), now, maxFlight + maxFlight / 2)
    decreases |ops|
  {
    hide AllRecent, NoneOlder, Next;
    if ops == [] {
      RecentIsYoung(t, clock, lastPass, now, maxFlight);
    } else {
      var op := ops[0];
      assert [op][0] == op && [op][1..] == [];
      var clock' := if op.WaitOne? || op.EvictPass? then op.now else clock;
      var lastPass' := if op.EvictPass? then op.now else lastPass;
      assert OnTime([op], clock, lastPass, maxFlight) by {
        assert OnTime([op][1..], clock', lastPass', maxFlight);
      }
      NextStaysRecent(t, op, clock, lastPass, maxFlight);
      assert OnTime(ops[1..], clock', lastPass', maxFlight);
      AgeBound(Next(t, op, maxFlight), ops[1..], clock', lastPass', now, maxFlight);
    }
  }

  /** Hence a blocked admission waits boundedly: in a run on time, once no admission has come for
      its group for one and a half limits, every waiter of the group has a wake-up on its way. */
  lemma WakesInTime(ops: seq<Op>, key: string, last: nat, now: nat, maxFlight: nat)
    requires OnTime(ops, 0, 0, maxFlight) && now <= LastPass(ops, 0) + maxFlight / 2
    requires key in Exec(EMPTY, ops, maxFlight).lists
    requires var flights := Exec(EMPTY, ops, maxFlight).lists[key].flights;
             forall i :: 0 <= i < |flights| ==> flights[i].timestamp <= last
    requires now > last + maxFlight + maxFlight / 2
    ensures var l := Exec(EMPTY, ops, maxFlight).lists[key]; l.flights == [] && l.channel.senders >= l.channel.waiters
  {
    var l := Exec(EMPTY, ops, maxFlight).lists[key];
    if l.flights != [] {
      var f := l.flights[0];
      AgeBound(EMPTY, ops, 0, 0, now, maxFlight);
      assert false;
    }
    NoLostWakeup(ops, Live(key), maxFlight);
  }

  // ----- landing -----

  /** The reconcile request lands a flight of the group for the pod. */
  predicate Lands(t: Tracker, op: Op, key: string, pod: NamespacedName) {
    && op.Reconcile? && op.request == pod && op.lookup.Found? && op.lookup.groupKey == Some(key)
    && key in t.lists && pod !in t.lists[key].seen
    && Landing(t.lists[key].flights, op.lookup.name, op.lookup.generateName, op.lookup.namespace) >= 0
  }

  /** Which flight lands: a flight under the pod's full name if there is one, the newest of them;
      else the newest under its generate-name; none only if there is neither. */
  lemma LandingIsNewest(flights: seq<Flight>, name: string, generateName: string, namespace: string)
    ensures var i := Landing(flights, name, generateName, namespace);
            var exact, generated := NamespacedName(namespace, name), NamespacedName(namespace, generateName);
            if name != "" && exists f :: f in flights && f.object_ == exact then
              i >= 0 && flights[i].object_ == exact && forall j :: i < j < |flights| ==> flights[j].object_ != exact
            else if exists f :: f in flights && f.object_ == generated then
              i >= 0 && flights[i].object_ == generated && forall j :: i < j < |flights| ==> flights[j].object_ != generated
            else i == -1
  {
  }

  function Landings(t: Tracker, ops: seq<Op>, key: string, pod: NamespacedName, maxFlight: nat): nat
    decreases |ops|
  {
    if ops == [] then 0
    else (if Lands(t, ops[0], key, pod) then 1 else 0) + Landings(Next(t, ops[0], maxFlight), ops[1..], key, pod, maxFlight)
  }

  ghost predicate Seen(t: Tracker, key: string, pod: NamespacedName) {
    key in t.lists && pod in t.lists[key].seen
  }

  /** A pod stays seen until it is observed gone; a list with seen pods is never dropped. */
  lemma SeenStays(t: Tracker, op: Op, key: string, pod: NamespacedName, maxFlight: nat)
    requires op != Reconcile(pod, NotFound)
    ensures Seen(t, key, pod) || Lands(t, op, key, pod) ==> Seen(Next(t, op, maxFlight), key, pod)
  {
    if op.EvictPass? && Seen(t, key, pod) {
      assert !Unused(t.lists[key]);
    }
  }

  /** At most once: between two observations that the pod is gone, at most one flight of a group
      lands for it, across any number of evicter passes; none at all if it was seen before. */
  lemma {:induction false} LandsAtMostOnce(t: Tracker, ops: seq<Op>, key: string, pod: NamespacedName, maxFlight: nat)
    requires forall i :: 0 <= i < |ops| ==> ops[i] != Reconcile(pod, NotFound)
    ensures Landings(t, ops, key, pod, maxFlight) <= if Seen(t, key, pod) then 0 else 1
    decreases |ops|
  {
    if ops != [] {
      SeenStays(t, ops[0], key, pod, maxFlight);
      LandsAtMostOnce(Next(t, ops[0], maxFlight), ops[1..], key, pod, maxFlight);
    }
  }

  // ----- the seen index -----

  /** Every name a list has seen is indexed to that list's key. */
  ghost predicate SeenIndexed(t: Tracker) {
    forall k, pod :: k in t.lists && pod in t.lists[k].seen ==> pod in t.seenKeys && t.seenKeys[pod] == k
  }

  /** The pod lands under a key while the list of another key still holds it as seen. */
  ghost predicate ChangesKey(t: Tracker, op: Op) {
    && op.Reconcile? && op.lookup.Found? && op.lookup.groupKey.Some?
    && Lands(t, op, op.lookup.groupKey.value, op.request)
    && exists k :: k in t.lists && k != op.lookup.groupKey.value && op.request in t.lists[k].seen
  }

  /** The index stays coherent exactly as long as no pod changes its key while seen. */
  lemma IndexedUnlessKeyChanges(t: Tracker, op: Op, maxFlight: nat)
    requires SeenIndexed(t)
    ensures SeenIndexed(Next(t, op, maxFlight)) <==> !ChangesKey(t, op)
  {
    if ChangesKey(t, op) {
      ChangedKeyIsStale(t, op, maxFlight);
    } else {
      KeptKeyIsIndexed(t, op, maxFlight);
    }
  }

  /** Over a run, every pod keeps one group key for as long as it is seen. */
  ghost predicate KeysKept(t: Tracker, ops: seq<Op>, maxFlight: nat)
    decreases |ops|
  {
    ops == [] || (!ChangesKey(t, ops[0]) && KeysKept(Next(t, ops[0], maxFlight), ops[1..], maxFlight))
  }

  lemma {:induction false} IndexedThroughRun(t: Tracker, ops: seq<Op>, maxFlight: nat)
    requires SeenIndexed(t) && KeysKept(t, ops, maxFlight)
    ensures SeenIndexed(Exec(t, ops, maxFlight))
    decreases |ops|
  {
    if ops != [] {
      IndexedUnlessKeyChanges(t, ops[0], maxFlight);
      IndexedThroughRun(Next(t, ops[0], maxFlight), ops[1..], maxFlight);
    }
  }

  lemma ChangedKeyIsStale(t: Tracker, op: Op, maxFlight: nat)
    requires ChangesKey(t, op)
    ensures !SeenIndexed(Next(t, op, maxFlight))
  {
    var t' := Next(t, op, maxFlight);
    var k :| k in t.lists && k != op.lookup.groupKey.value && op.request in t.lists[k].seen;
    assert t'.seenKeys[op.request] == op.lookup.groupKey.value;
    assert k in t'.lists && op.request in t'.lists[k].seen;
  }

  lemma KeptKeyIsIndexed(t: Tracker, op: Op, maxFlight: nat)
    requires SeenIndexed(t) && !ChangesKey(t, op)
    ensures SeenIndexed(Next(t, op, maxFlight))
  {
    var t' := Next(t, op, maxFlight);
    forall k, pod | k in t'.lists && pod in t'.lists[k].seen ensures pod in t'.seenKeys && t'.seenKeys[pod] == k {
      NewlySeenLanded(t, op, k, pod, maxFlight);
    }
  }

  lemma NewlySeenLanded(t: Tracker, op: Op, k: string, pod: NamespacedName, maxFlight: nat)
    requires Seen(Next(t, op, maxFlight), k, pod)
    ensures Lands(t, op, k, pod) || Seen(t, k, pod)
    ensures Next(t, op, maxFlight).seenKeys
         == if op.Reconcile? && op.lookup.Found? && op.lookup.groupKey.Some? && Lands(t, op, op.lookup.groupKey.value, op.request)
            then t.seenKeys[op.request := op.lookup.groupKey.value] else t.seenKeys
  {
  }

  function AllGone(pods: seq<NamespacedName>): seq<Op> {
    if pods == [] then [] else [Reconcile(pods[0], NotFound)] + AllGone(pods[1..])
  }

  lemma {:induction false} GoneAreForgotten(t: Tracker, key: string, pods: seq<NamespacedName>, maxFlight: nat)
    requires SeenIndexed(t) && key in t.lists && t.lists[key].flights == []
    ensures var t' := Exec(t, AllGone(pods), maxFlight);
            && key in t'.lists && t'.lists[key].flights == []
            && t'.lists[key].seen == t.lists[key].seen - (set p | p in pods)
    decreases |pods|
  {
    if pods == [] {
      assert t.lists[key].seen == t.lists[key].seen - (set p | p in pods);
    } else {
      var op := Reconcile(pods[0], NotFound);
      var t1 := Next(t, op, maxFlight);
      assert AllGone(pods)[1..] == AllGone(pods[1..]);
      IndexedUnlessKeyChanges(t, op, maxFlight);
      assert t1.lists[key].seen == t.lists[key].seen - {pods[0]};
      GoneAreForgotten(t1, key, pods[1..], maxFlight);
      assert pods == [pods[0]] + pods[1..];
      assert t1.lists[key].seen - (set p | p in pods[1..]) == t.lists[key].seen - (set p | p in pods);
    }
  }

  /** Reclamation: a list without flights, whose seen pods have all been observed gone, is
      dropped by the next evicter pass, as long as the index is coherent. */
  lemma UnusedListIsReclaimed(t: Tracker, key: string, pods: seq<NamespacedName>, now: nat, maxFlight: nat)
    requires SeenIndexed(t) && key in t.lists && t.lists[key].flights == []
    requires forall p :: p in t.lists[key].seen ==> p in pods
    ensures key !in Exec(t, AllGone(pods) + [EvictPass(now)], maxFlight).lists
  {
    GoneAreForgotten(t, key, pods, maxFlight);
    ExecAppend(t, AllGone(pods), [EvictPass(now)], maxFlight);
    var t' := Exec(t, AllGone(pods), maxFlight);
    assert Unused(t'.lists[key]);
    assert key in UnusedKeys(t');
    assert [EvictPass(now)][1..] == [];
    assert Exec(t', [EvictPass(now)], maxFlight) == AfterPass(t', now, maxFlight);
  }

  /** Without coherence the list leaks for good: once a list holds a pod indexed to another key,
      no operation ever takes the pod out again or drops the list. */
  lemma {:induction false} StaleSeenLeaks(t: Tracker, ops: seq<Op>, key: string, pod: NamespacedName, maxFlight: nat)
    requires Seen(t, key, pod) && pod in t.seenKeys && t.seenKeys[pod] != key
    ensures Seen(Exec(t, ops, maxFlight), key, pod)
    decreases |ops|
  {
    if ops != [] {
      var t' := Next(t, ops[0], maxFlight);
      if ops[0] != Reconcile(pod, NotFound) {
        SeenStays(t, ops[0], key, pod, maxFlight);
      }
      assert pod in t'.seenKeys && t'.seenKeys[pod] != key;
      StaleSeenLeaks(t', ops[1..], key, pod, maxFlight);
    }
  }

  /** A pod of the name appears under one key, and then under another. */
  function Relabelled(key: string, other: string, name: string): seq<Op> {
    var pod := NamespacedName("", name);
    [WaitOne(key, "", name, "", 0), Reconcile(pod, Found(name, "", "", Some(key))),
     WaitOne(other, "", name, "", 0), Reconcile(pod, Found(name, "", "", Some(other)))]
  }

  lemma OneAppears(t: Tracker, key: string, name: string, maxFlight: nat)
    requires name != "" && key !in t.lists
    ensures var pod := NamespacedName("", name);
            var t1 := Next(t, WaitOne(key, "", name, "", 0), maxFlight);
            var t2 := Next(t1, Reconcile(pod, Found(name, "", "", Some(key))), maxFlight);
            && Seen(t2, key, pod) && t2.seenKeys == t.seenKeys[pod := key]
            && t2.lists.Keys == t.lists.Keys + {key}
            && forall k :: k in t.lists ==> t2.lists[k] == t.lists[k]
  {
    var pod := NamespacedName("", name);
    assert Newest([Flight(pod, 0)], pod) == 0;
    hide Newest;
  }

  /** The stale state is reached, for any two keys and any name, when a pod changes its group
      label, or is replaced under its name in another group, before it was observed gone. */
  lemma StaleSeenIsReached(key: string, other: string, name: string, maxFlight: nat)
    requires key != other && name != ""
    ensures var t, pod := Exec(EMPTY, Relabelled(key, other, name), maxFlight), NamespacedName("", name);
            Seen(t, key, pod) && pod in t.seenKeys && t.seenKeys[pod] != key
  {
    var ops := Relabelled(key, other, name);
    var t2 := Next(Next(EMPTY, ops[0], maxFlight), ops[1], maxFlight);
    OneAppears(EMPTY, key, name, maxFlight);
    OneAppears(t2, other, name, maxFlight);
    hide Next;
    assert ops == [ops[0], ops[1]] + [ops[2], ops[3]];
    ExecAppend(EMPTY, [ops[0], ops[1]], [ops[2], ops[3]], maxFlight);
    ExecTwo(EMPTY, ops[0], ops[1], maxFlight);
    ExecTwo(t2, ops[2], ops[3], maxFlight);
  }
}
