/** The admission flight tracker: flights between admission and their appearance in the API
    server, one list and one unbuffered wake-up channel per group key. */
module FlightTracker {
  import opened Pods

  datatype Flight = Flight(object_: NamespacedName, timestamp: nat)

  /** A wake-up channel: goroutines blocked sending on it and admissions blocked receiving. The
      last two count, for the record, who left WaitOne without receiving. */
  datatype Channel = Channel(senders: nat, waiters: nat, immediate: nat, timedOut: nat)

  datatype FlightList = FlightList(flights: seq<Flight>, seen: set<NamespacedName>, channel: Channel)

  /** `retired` holds the channels of dropped lists: goroutines may still be blocked on them. */
  datatype Tracker = Tracker(
    lists: map<string, FlightList>,
    retired: map<string, seq<Channel>>,
    seenKeys: map<NamespacedName, string>)

  const EMPTY := Tracker(map[], map[], map[])

  const NEW_LIST := FlightList([], {}, Channel(0, 0, 0, 0))

  /** A channel in use: that of the key's list, or the i-th retired one of the key. */
  datatype Slot = Live(key: string) | Retired(key: string, i: nat)

  /** What the client finds under a pod's name. */
  datatype Lookup = NotFound | Failed | Found(name: string, generateName: string, namespace: string, groupKey: Option<string>)

  datatype Wait = NoName | Immediate | Blocked

  /** One atomic step: WaitOne up to its wake-up wait, a wake-up received, a wait timed out, a
      reconcile request, a pass of the evicter. */
  datatype Op =
    | WaitOne(key: string, namespace: string, name: string, generateName: string, now: nat)
    | Deliver(slot: Slot)
    | TimeOut(slot: Slot)
    | Reconcile(request: NamespacedName, lookup: Lookup)
    | EvictPass(now: nat)

  // ----- specification -----

  function ListFor(t: Tracker, key: string): FlightList {
    if key in t.lists then t.lists[key] else NEW_LIST
  }

  function TrackedName(name: string, generateName: string): string {
    if name != "" then name else generateName
  }

  function Pushed(l: FlightList, f: Flight): FlightList {
    var c := l.channel;
    FlightList(l.flights + [f], l.seen,
      if l.flights == [] then c.(immediate := c.immediate + 1) else c.(waiters := c.waiters + 1))
  }

  /** The newest flight of an object, -1 if there is none. */
  function Newest(flights: seq<Flight>, object_: NamespacedName): (i: int)
    ensures -1 <= i < |flights|
    ensures i >= 0 ==> flights[i].object_ == object_
    ensures forall j :: i < j < |flights| ==> flights[j].object_ != object_
  {
    if flights == [] then -1
    else
      var k := |flights| - 1;
      if flights[k].object_ == object_ then k
      else
        var i := Newest(flights[..k], object_);
        assert forall j :: i < j < k ==> flights[j] == flights[..k][j];
        i
  }

  /** The flight an appeared pod lands: its newest exact-name flight, else the newest flight of
      its generate-name, -1 if there is neither. */
  function Landing(flights: seq<Flight>, name: string, generateName: string, namespace: string): (i: int)
    ensures -1 <= i < |flights|
  {
    var exact := if name == "" then -1 else Newest(flights, NamespacedName(namespace, name));
    if exact >= 0 then exact else Newest(flights, NamespacedName(namespace, generateName))
  }

  function RemoveAt(flights: seq<Flight>, i: nat): (r: seq<Flight>)
    requires i < |flights|
    ensures |r| == |flights| - 1
  {
    flights[..i] + flights[i + 1..]
  }

  /** A landed flight goes, and a detached goroutine starts sending a wake-up. */
  function Landed(l: FlightList, i: nat, pod: NamespacedName): FlightList
    requires i < |l.flights|
  {
    FlightList(RemoveAt(l.flights, i), l.seen + {pod}, l.channel.(senders := l.channel.senders + 1))
  }

  predicate Expired(f: Flight, now: nat, maxFlight: nat) {
    now - f.timestamp > maxFlight
  }

  function Kept(flights: seq<Flight>, now: nat, maxFlight: nat): (r: seq<Flight>)
    ensures |r| <= |flights|
    ensures forall f :: f in r <==> f in flights && !Expired(f, now, maxFlight)
  {
    if flights == [] then []
    else
      assert flights == [flights[0]] + flights[1..];
      (if Expired(flights[0], now, maxFlight) then [] else [flights[0]]) + Kept(flights[1..], now, maxFlight)
  }

  function ForceLanded(l: FlightList, now: nat, maxFlight: nat): FlightList {
    var kept := Kept(l.flights, now, maxFlight);
    l.(flights := kept, channel := l.channel.(senders := l.channel.senders + (|l.flights| - |kept|)))
  }

  predicate Unused(l: FlightList) {
    l.flights == [] && l.seen == {}
  }

  function RetiredFor(t: Tracker, key: string): seq<Channel> {
    if key in t.retired then t.retired[key] else []
  }

  /** The lists of these keys dropped, their channels left to whoever is still blocked on them. */
  function Dropped(t: Tracker, keys: set<string>): Tracker
    requires keys <= t.lists.Keys
  {
    Tracker(
      t.lists - keys,
      map k | k in t.retired.Keys + keys :: if k in keys then RetiredFor(t, k) + [t.lists[k].channel] else t.retired[k],
      t.seenKeys)
  }

  function UnusedKeys(t: Tracker): set<string> {
    set k | k in t.lists && Unused(t.lists[k])
  }

  function ForceLandedAll(t: Tracker, now: nat, maxFlight: nat): Tracker {
    t.(lists := map k | k in t.lists :: ForceLanded(t.lists[k], now, maxFlight))
  }

  function AfterPass(t: Tracker, now: nat, maxFlight: nat): Tracker {
    ForceLandedAll(Dropped(t, UnusedKeys(t)), now, maxFlight)
  }

  predicate Used(t: Tracker, slot: Slot) {
    match slot
    case Live(key) => key in t.lists
    case Retired(key, i) => key in t.retired && i < |t.retired[key]|
  }

  function ChannelAt(t: Tracker, slot: Slot): Channel
    requires Used(t, slot)
  {
    match slot
    case Live(key) => t.lists[key].channel
    case Retired(key, i) => t.retired[key][i]
  }

  function WithChannel(t: Tracker, slot: Slot, c: Channel): Tracker
    requires Used(t, slot)
  {
    match slot
    case Live(key) => t.(lists := t.lists[key := t.lists[key].(channel := c)])
    case Retired(key, i) => t.(retired := t.retired[key := t.retired[key][i := c]])
  }

  function AfterReconcile(t: Tracker, request: NamespacedName, lookup: Lookup): Tracker {
    match lookup
    case Failed => t
    case NotFound =>
      if request in t.seenKeys && t.seenKeys[request] in t.lists then
        var key := t.seenKeys[request];
        t.(lists := t.lists[key := t.lists[key].(seen := t.lists[key].seen - {request})])
      else t
    case Found(name, generateName, namespace, groupKey) =>
      if groupKey == None || groupKey.value !in t.lists || request in t.lists[groupKey.value].seen then t
      else
        var l := t.lists[groupKey.value];
        var i := Landing(l.flights, name, generateName, namespace);
        if i < 0 then t
        else t.(lists := t.lists[groupKey.value := Landed(l, i, request)], seenKeys := t.seenKeys[request := groupKey.value])
  }

  /** Every step as a function. A wake-up without a sender or a waiter, or a time-out without a
      waiter, does not happen. */
  function Next(t: Tracker, op: Op, maxFlight: nat): Tracker {
    match op
    case WaitOne(key, namespace, name, generateName, now) =>
      var tracked := TrackedName(name, generateName);
      if tracked == "" then t.(lists := t.lists[key := ListFor(t, key)])
      else t.(lists := t.lists[key := Pushed(ListFor(t, key), Flight(NamespacedName(namespace, tracked), now))])
    case Deliver(slot) =>
      if Used(t, slot) && ChannelAt(t, slot).senders > 0 && ChannelAt(t, slot).waiters > 0 then
        var c := ChannelAt(t, slot);
        WithChannel(t, slot, c.(senders := c.senders - 1, waiters := c.waiters - 1))
      else t
    case TimeOut(slot) =>
      if Used(t, slot) && ChannelAt(t, slot).waiters > 0 then
        var c := ChannelAt(t, slot);
        WithChannel(t, slot, c.(waiters := c.waiters - 1, timedOut := c.timedOut + 1))
      else t
    case Reconcile(request, lookup) => AfterReconcile(t, request, lookup)
    case EvictPass(now) => AfterPass(t, now, maxFlight)
  }

  // ----- the tracker -----

  class AdmissionFlightTracker {
    const maxFlightDuration: nat
    var lists: map<string, FlightList>
    var retired: map<string, seq<Channel>>
    var seenKeys: map<NamespacedName, string>

    function State(): Tracker
      reads this
    {
      Tracker(lists, retired, seenKeys)
    }

    constructor (maxFlightDuration: nat)
      ensures State() == EMPTY && lists == map[] && retired == map[] && seenKeys == map[]
      ensures this.maxFlightDuration == maxFlightDuration
    {
      this.maxFlightDuration := maxFlightDuration;
      lists, retired, seenKeys := map[], map[], map[];
    }

    /** The part of WaitOne under the lock; a blocked caller goes on to wait for a wake-up. */
    method WaitOne(key: string, namespace: string, name: string, generateName: string, now: nat) returns (outcome: Wait)
      modifies this
      ensures State() == Next(old(State()), Op.WaitOne(key, namespace, name, generateName, now), maxFlightDuration)
      ensures outcome == (if name == "" && generateName == "" then NoName
                          else if key !in old(lists) || |old(lists)[key].flights| == 0 then Immediate
                          else Wait.Blocked)
    {
      if key !in lists {
        lists := lists[key := NEW_LIST];
      }
      var l := lists[key];
      var tracked := name;
      if |tracked| == 0 {
        tracked := generateName;
      }
      if |tracked| == 0 {
        return NoName;
      }
      var flights := l.flights + [Flight(NamespacedName(namespace, tracked), now)];
      if |flights| == 1 {
        lists := lists[key := l.(flights := flights, channel := l.channel.(immediate := l.channel.immediate + 1))];
        return Immediate;
      }
      lists := lists[key := l.(flights := flights, channel := l.channel.(waiters := l.channel.waiters + 1))];
      return Wait.Blocked;
    }

    method Reconcile(request: NamespacedName, lookup: Lookup)
      modifies this
      ensures State() == Next(old(State()), Op.Reconcile(request, lookup), maxFlightDuration)
    {
      hide Newest, AfterPass, ListFor, Pushed, Used, ChannelAt, WithChannel;
      if lookup.NotFound? {
        if request in seenKeys && seenKeys[request] in lists {
          var key := seenKeys[request];
          lists := lists[key := lists[key].(seen := lists[key].seen - {request})];
        }
        return;
      }
      if lookup.Failed? || lookup.groupKey == None {
        return;
      }
      var key := lookup.groupKey.value;
      if key !in lists || request in lists[key].seen {
        return;
      }
      var l := lists[key];
      var at := -1;
      if |lookup.name| != 0 {
        at := FindFromBack(l.flights, NamespacedName(lookup.namespace, lookup.name));
      }
      if at < 0 {
        at := FindFromBack(l.flights, NamespacedName(lookup.namespace, lookup.generateName));
      }
      if at >= 0 {
        lists := lists[key := FlightList(RemoveAt(l.flights, at), l.seen + {request}, l.channel.(senders := l.channel.senders + 1))];
        seenKeys := seenKeys[request := key];
      }
    }

    method DropList(key: string)
      requires key in lists
      modifies this`lists, this`retired
      ensures State() == Dropped(old(State()), {key})
    {
      retired := retired[key := (if key in retired then retired[key] else []) + [lists[key].channel]];
      lists := lists - {key};
    }

    method DropUnused()
      modifies this`lists, this`retired
      ensures State() == Dropped(old(State()), UnusedKeys(old(State())))
    {
      ghost var was := State();
      ghost var dropped: set<string> := {};
      var todo := lists.Keys;
      assert was == Dropped(was, {});
      hide Dropped, UnusedKeys, RetiredFor, Sifted, Unused;
      assert Sifted(was, todo, dropped) by { SiftNone(was); }
      while todo != {}
        invariant Sifted(was, todo, dropped) && dropped <= was.lists.Keys
        invariant State() == Dropped(was, dropped) && lists == was.lists - dropped
      {
        var k :| k in todo;
        SiftOne(was, todo, dropped, k);
        todo := todo - {k};
        assert lists[k] == was.lists[k];
        if |lists[k].flights| == 0 && |lists[k].seen| == 0 {
          DropList(k);
          DropOneMore(was, dropped, k);
          dropped := dropped + {k};
        }
      }
      AreUnusedKeys(was, dropped);
    }

    method ForceLandExpired(now: nat)
      modifies this`lists
      ensures State() == ForceLandedAll(old(State()), now, maxFlightDuration)
    {
      ghost var was := lists;
      var todo := lists.Keys;
      while todo != {}
        invariant todo <= lists.Keys == was.Keys
        invariant forall k :: k in was ==> lists[k] == if k in todo then was[k] else ForceLanded(was[k], now, maxFlightDuration)
      {
        var k :| k in todo;
        todo := todo - {k};
        var l := ForceLand(lists[k], now, maxFlightDuration);
        lists := lists[k := l];
      }
    }

    /** One pass of the evicter: unused lists are dropped, expired flights land by force. */
    method EvictPass(now: nat)
      modifies this
      ensures State() == Next(old(State()), Op.EvictPass(now), maxFlightDuration)
    {
      DropUnused();
      ForceLandExpired(now);
    }
  }

  /** Of the keys no longer in `todo`, exactly those of unused lists are in `dropped`. */
  ghost predicate Sifted(t: Tracker, todo: set<string>, dropped: set<string>) {
    && todo <= t.lists.Keys && dropped <= t.lists.Keys && todo !! dropped
    && forall k :: k in t.lists && k !in todo ==> (k in dropped <==> Unused(t.lists[k]))
  }

  lemma SiftNone(t: Tracker)
    ensures Sifted(t, t.lists.Keys, {})
  {
  }

  lemma SiftOne(t: Tracker, todo: set<string>, dropped: set<string>, k: string)
    requires Sifted(t, todo, dropped) && k in todo
    ensures k in t.lists && k !in dropped
    ensures Unused(t.lists[k]) <==> |t.lists[k].flights| == 0 && |t.lists[k].seen| == 0
    ensures Sifted(t, todo - {k}, if Unused(t.lists[k]) then dropped + {k} else dropped)
  {
  }

  lemma AreUnusedKeys(t: Tracker, keys: set<string>)
    requires Sifted(t, {}, keys)
    ensures keys == UnusedKeys(t)
  {
  }

  lemma DropOneMore(t: Tracker, keys: set<string>, k: string)
    requires keys <= t.lists.Keys && k in t.lists && k !in keys
    ensures k in Dropped(t, keys).lists
    ensures Dropped(Dropped(t, keys), {k}) == Dropped(t, keys + {k})
    ensures Dropped(t, keys + {k}).lists == t.lists - (keys + {k})
  {
    var d, d' := Dropped(Dropped(t, keys), {k}), Dropped(t, keys + {k});
    assert RetiredFor(Dropped(t, keys), k) == RetiredFor(t, k);
    assert d'.lists == d.lists;
    assert d'.retired == d.retired;
  }

  method FindFromBack(flights: seq<Flight>, object_: NamespacedName) returns (at: int)
    ensures at == Newest(flights, object_)
  {
    at := |flights| - 1;
    while at >= 0
      invariant -1 <= at < |flights|
      invariant Newest(flights, object_) == Newest(flights[..at + 1], object_)
    {
      if flights[at].object_ == object_ {
        return;
      }
      assert flights[..at + 1][..at] == flights[..at];
      at := at - 1;
    }
  }

  /** The list once the evicter, walking from the back, has treated positions `at` and up. */
  function PartlyKept(flights: seq<Flight>, at: nat, now: nat, maxFlight: nat): seq<Flight>
    requires at <= |flights|
  {
    flights[..at] + Kept(flights[at..], now, maxFlight)
  }

  lemma EvictAt(flights: seq<Flight>, at: nat, now: nat, maxFlight: nat)
    requires at < |flights|
    ensures var was, left := PartlyKept(flights, at + 1, now, maxFlight), PartlyKept(flights, at, now, maxFlight);
            && was[at] == flights[at]
            && left == if Expired(flights[at], now, maxFlight) then RemoveAt(was, at) else was
  {
    hide *;
    AroundAt(flights, at, now, maxFlight);
    RemoveMiddle(flights[..at], flights[at], Kept(flights[at + 1..], now, maxFlight));
  }

  /** The two lists of EvictAt in their parts. */
  lemma AroundAt(flights: seq<Flight>, at: nat, now: nat, maxFlight: nat)
    requires at < |flights|
    ensures var front, f, back := flights[..at], flights[at], Kept(flights[at + 1..], now, maxFlight);
            && |front| == at
            && PartlyKept(flights, at + 1, now, maxFlight) == front + [f] + back
            && PartlyKept(flights, at, now, maxFlight) == if Expired(f, now, maxFlight) then front + back else front + [f] + back
  {
    assert flights[at..][0] == flights[at] && flights[at..][1..] == flights[at + 1..];
    assert flights[..at + 1] == flights[..at] + [flights[at]];
    var front, f, back := flights[..at], flights[at], Kept(flights[at + 1..], now, maxFlight);
    assert front + ([f] + back) == front + [f] + back;
  }

  lemma RemoveMiddle(front: seq<Flight>, f: Flight, back: seq<Flight>)
    ensures (front + [f] + back)[|front|] == f
    ensures RemoveAt(front + [f] + back, |front|) == front + back
  {
    var all := front + [f] + back;
    assert all[..|front|] == front && all[|front| + 1..] == back;
  }

  /** The evicter's inner loop: from the back of the list towards the front. */
  method ForceLand(l: FlightList, now: nat, maxFlight: nat) returns (r: FlightList)
    ensures r == ForceLanded(l, now, maxFlight)
  {
    var flights := l.flights;
    var senders := l.channel.senders;
    var at := |flights|;
    while at > 0
      invariant 0 <= at <= |l.flights|
      invariant flights == PartlyKept(l.flights, at, now, maxFlight)
      invariant senders == l.channel.senders + |l.flights| - |flights|
    {
      at := at - 1;
      EvictAt(l.flights, at, now, maxFlight);
      if Expired(flights[at], now, maxFlight) {
        flights := RemoveAt(flights, at);
        senders := senders + 1;
      }
    }
    assert l.flights[0..] == l.flights;
    r := l.(flights := flights, channel := l.channel.(senders := senders));
  }
}
