/** Every step of the flight tracker, told by what it leaves in the lists. */
module FlightSteps {
  import opened Pods
  import opened FlightTracker

  /** Arrival: the flight goes to the back of its group's list under the pod's name, or under its
      generate-name if it has none yet. Alone on the list it returns, else it waits. Without
      either name only the list is made. */
  lemma ArrivalInFields(t: Tracker, key: string, namespace: string, name: string, generateName: string, now: nat, maxFlight: nat)
    ensures var t' := Next(t, WaitOne(key, namespace, name, generateName, now), maxFlight);
            var l := if key in t.lists then t.lists[key] else FlightList([], {}, Channel(0, 0, 0, 0));
            var c := l.channel;
            && t'.retired == t.retired && t'.seenKeys == t.seenKeys
            && t'.lists.Keys == t.lists.Keys + {key} && (forall k :: k in t.lists && k != key ==> t'.lists[k] == t.lists[k])
            && t'.lists[key].seen == l.seen
            && (name == "" && generateName == "" ==> t'.lists[key] == l)
            && (name != "" ==> t'.lists[key].flights == l.flights + [Flight(NamespacedName(namespace, name), now)])
            && (name == "" && generateName != "" ==>
                  t'.lists[key].flights == l.flights + [Flight(NamespacedName(namespace, generateName), now)])
            && (name != "" || generateName != "" ==>
                  t'.lists[key].channel ==
                    if |l.flights| == 0 then Channel(c.senders, c.waiters, c.immediate + 1, c.timedOut)
                    else Channel(c.senders, c.waiters + 1, c.immediate, c.timedOut))
  {
  }

  /** Nothing of the object stands behind position i. */
  ghost predicate IsLast(flights: seq<Flight>, i: nat, namespace: string, name: string) {
    && i < |flights| && flights[i].object_ == NamespacedName(namespace, name)
    && forall j :: i < j < |flights| ==> flights[j].object_ != NamespacedName(namespace, name)
  }

  ghost predicate IsAbsent(flights: seq<Flight>, namespace: string, name: string) {
    forall f :: f in flights ==> f.object_ != NamespacedName(namespace, name)
  }

  lemma LastIsNewest(flights: seq<Flight>, i: nat, namespace: string, name: string)
    requires IsLast(flights, i, namespace, name)
    ensures Newest(flights, NamespacedName(namespace, name)) == i
  {
    var n := Newest(flights, NamespacedName(namespace, name));
    assert n < i ==> false by {
      assert flights[i].object_ == NamespacedName(namespace, name);
    }
  }

  lemma AbsentIsNone(flights: seq<Flight>, namespace: string, name: string)
    requires IsAbsent(flights, namespace, name)
    ensures Newest(flights, NamespacedName(namespace, name)) == -1
  {
  }

  /** What is left once flight i has landed for the pod. */
  ghost predicate LandedAt(t: Tracker, t': Tracker, key: string, i: nat, pod: NamespacedName)
    requires key in t.lists && i < |t.lists[key].flights|
  {
    var l := t.lists[key];
    && t'.retired == t.retired && t'.seenKeys == t.seenKeys[pod := key]
    && t'.lists.Keys == t.lists.Keys && (forall k :: k in t.lists && k != key ==> t'.lists[k] == t.lists[k])
    && t'.lists[key].flights == l.flights[..i] + l.flights[i + 1..]
    && t'.lists[key].seen == l.seen + {pod}
    && t'.lists[key].channel == Channel(l.channel.senders + 1, l.channel.waiters, l.channel.immediate, l.channel.timedOut)
  }

  lemma LandsAt(t: Tracker, pod: NamespacedName, name: string, generateName: string, namespace: string, key: string, maxFlight: nat)
    requires key in t.lists && pod !in t.lists[key].seen
    ensures var t', i := Next(t, Reconcile(pod, Found(name, generateName, namespace, Some(key))), maxFlight),
                         Landing(t.lists[key].flights, name, generateName, namespace);
            if i < 0 then t' == t else LandedAt(t, t', key, i, pod)
  {
    hide Landing, Newest;
  }

  /** Landing: when a pod appears that was not seen before, its group's list loses the newest flight
      under the pod's name, and no other; the pod counts as seen, and one wake-up starts. */
  lemma ExactNameLands(t: Tracker, pod: NamespacedName, name: string, generateName: string, namespace: string, key: string, i: nat, maxFlight: nat)
    requires key in t.lists && pod !in t.lists[key].seen
    requires name != "" && IsLast(t.lists[key].flights, i, namespace, name)
    ensures LandedAt(t, Next(t, Reconcile(pod, Found(name, generateName, namespace, Some(key))), maxFlight), key, i, pod)
  {
    LastIsNewest(t.lists[key].flights, i, namespace, name);
    hide Newest, Next, LandedAt, IsLast;
    LandsAt(t, pod, name, generateName, namespace, key, maxFlight);
  }

  /** Failing that, the newest flight under the pod's generate-name. */
  lemma GenerateNameLands(t: Tracker, pod: NamespacedName, name: string, generateName: string, namespace: string, key: string, i: nat, maxFlight: nat)
    requires key in t.lists && pod !in t.lists[key].seen
    requires name == "" || IsAbsent(t.lists[key].flights, namespace, name)
    requires IsLast(t.lists[key].flights, i, namespace, generateName)
    ensures LandedAt(t, Next(t, Reconcile(pod, Found(name, generateName, namespace, Some(key))), maxFlight), key, i, pod)
  {
    if name != "" {
      AbsentIsNone(t.lists[key].flights, namespace, name);
    }
    LastIsNewest(t.lists[key].flights, i, namespace, generateName);
    hide Newest, Next, LandedAt, IsLast, IsAbsent;
    LandsAt(t, pod, name, generateName, namespace, key, maxFlight);
  }

  /** Failing that too, or for a pod seen before, nothing happens. */
  lemma NoFlightLands(t: Tracker, pod: NamespacedName, name: string, generateName: string, namespace: string, key: string, maxFlight: nat)
    requires key in t.lists
    requires || pod in t.lists[key].seen
             || ((name == "" || IsAbsent(t.lists[key].flights, namespace, name)) && IsAbsent(t.lists[key].flights, namespace, generateName))
    ensures Next(t, Reconcile(pod, Found(name, generateName, namespace, Some(key))), maxFlight) == t
  {
    if pod !in t.lists[key].seen {
      if name != "" {
        AbsentIsNone(t.lists[key].flights, namespace, name);
      }
      AbsentIsNone(t.lists[key].flights, namespace, generateName);
      hide Newest, Next, LandedAt, IsAbsent;
      LandsAt(t, pod, name, generateName, namespace, key, maxFlight);
    }
  }

  /** A lookup that failed, a pod without a group and a group without a list change nothing. */
  lemma NothingToLand(t: Tracker, pod: NamespacedName, lookup: Lookup, maxFlight: nat)
    requires lookup == Failed || (lookup.Found? && (lookup.groupKey == None || lookup.groupKey.value !in t.lists))
    ensures Next(t, Reconcile(pod, lookup), maxFlight) == t
  {
  }

  /** A pod observed gone is taken out of the seen pods of the list it is indexed to, and out of
      nothing else. */
  lemma GoneInFields(t: Tracker, pod: NamespacedName, maxFlight: nat)
    ensures var t' := Next(t, Reconcile(pod, NotFound), maxFlight);
            && t'.retired == t.retired && t'.seenKeys == t.seenKeys && t'.lists.Keys == t.lists.Keys
            && forall k :: k in t.lists ==>
                 && t'.lists[k].flights == t.lists[k].flights && t'.lists[k].channel == t.lists[k].channel
                 && t'.lists[k].seen == if pod in t.seenKeys && t.seenKeys[pod] == k then t.lists[k].seen - {pod} else t.lists[k].seen
  {
  }

  /** `kept` is the flights at the positions `at`, which increase. */
  ghost predicate InOrder(kept: seq<Flight>, flights: seq<Flight>, at: seq<nat>) {
    && |at| == |kept|
    && (forall i :: 0 <= i < |at| ==> at[i] < |flights| && kept[i] == flights[at[i]])
    && (forall i, j :: 0 <= i < j < |at| ==> at[i] < at[j])
  }

  function Shifted(at: seq<nat>): (r: seq<nat>)
    ensures |r| == |at| && forall i :: 0 <= i < |at| ==> r[i] == at[i] + 1
  {
    seq(|at|, i requires 0 <= i < |at| => at[i] + 1)
  }

  lemma OneMoreInFront(kept: seq<Flight>, flights: seq<Flight>, at: seq<nat>, f: Flight)
    requires InOrder(kept, flights, at)
    ensures InOrder(kept, [f] + flights, Shifted(at)) && InOrder([f] + kept, [f] + flights, [0] + Shifted(at))
  {
  }

  lemma ShiftedMembers(at: seq<nat>, k: nat)
    ensures k in Shifted(at) <==> k > 0 && k - 1 in at
  {
    if k > 0 && k - 1 in at {
      var i :| 0 <= i < |at| && at[i] == k - 1;
      assert Shifted(at)[i] == k;
    }
  }

  /** The positions of the flights an evicter pass keeps. */
  lemma {:induction false} KeptInOrder(flights: seq<Flight>, now: nat, maxFlight: nat) returns (at: seq<nat>)
    ensures InOrder(Kept(flights, now, maxFlight), flights, at)
    ensures forall k: nat :: k < |flights| ==> (k in at <==> now - flights[k].timestamp <= maxFlight)
  {
    if flights == [] {
      at := [];
    } else {
      var rest := KeptInOrder(flights[1..], now, maxFlight);
      at := if Expired(flights[0], now, maxFlight) then Shifted(rest) else [0] + Shifted(rest);
      assert flights == [flights[0]] + flights[1..] by { FrontAndTail(flights); }
      KeptOneMore(flights[0], flights[1..], now, maxFlight, rest);
      hide *;
      forall k: nat | k < |flights| ensures k in at <==> now - flights[k].timestamp <= maxFlight {
        OneMoreMember(rest, flights, now, maxFlight, k);
      }
    }
  }

  lemma FrontAndTail(flights: seq<Flight>)
    requires flights != []
    ensures flights == [flights[0]] + flights[1..]
  {
  }

  lemma KeptWithFront(f: Flight, tail: seq<Flight>, now: nat, maxFlight: nat)
    ensures Kept([f] + tail, now, maxFlight)
         == if Expired(f, now, maxFlight) then Kept(tail, now, maxFlight) else [f] + Kept(tail, now, maxFlight)
  {
    assert ([f] + tail)[0] == f && ([f] + tail)[1..] == tail;
  }

  lemma KeptOneMore(f: Flight, tail: seq<Flight>, now: nat, maxFlight: nat, rest: seq<nat>)
    requires InOrder(Kept(tail, now, maxFlight), tail, rest)
    ensures InOrder(Kept([f] + tail, now, maxFlight), [f] + tail, if Expired(f, now, maxFlight) then Shifted(rest) else [0] + Shifted(rest))
  {
    hide *;
    KeptWithFront(f, tail, now, maxFlight);
    OneMoreInFront(Kept(tail, now, maxFlight), tail, rest, f);
  }

  lemma OneMoreMember(rest: seq<nat>, flights: seq<Flight>, now: nat, maxFlight: nat, k: nat)
    requires k < |flights| && forall j: nat :: j < |flights[1..]| ==> (j in rest <==> now - flights[1..][j].timestamp <= maxFlight)
    ensures k in (if Expired(flights[0], now, maxFlight) then Shifted(rest) else [0] + Shifted(rest))
            <==> now - flights[k].timestamp <= maxFlight
  {
    ShiftedMembers(rest, k);
    if k > 0 {
      assert flights[1..][k - 1] == flights[k];
    }
  }

  /** An evicter pass on one list. It goes if it has neither flights nor seen pods, and its channel
      stays with whoever still uses it. Otherwise it keeps, in order, exactly the flights no older
      than the limit, with one wake-up started for each other flight; a list emptied by this stays
      until the next pass. */
  lemma PassInFields(t: Tracker, now: nat, key: string, maxFlight: nat) returns (at: seq<nat>)
    requires key in t.lists
    ensures var t', l := Next(t, EvictPass(now), maxFlight), t.lists[key];
            var retired := if key in t.retired then t.retired[key] else [];
            && t'.seenKeys == t.seenKeys
            && (l.flights == [] && l.seen == {} ==>
                  key !in t'.lists && key in t'.retired && t'.retired[key] == retired + [l.channel])
            && (l.flights != [] || l.seen != {} ==>
                  && key in t'.lists && (key in t'.retired <==> key in t.retired) && (key in t.retired ==> t'.retired[key] == retired)
                  && var l' := t'.lists[key];
                     && l'.seen == l.seen
                     && InOrder(l'.flights, l.flights, at)
                     && (forall k: nat :: k < |l.flights| ==> (k in at <==> now - l.flights[k].timestamp <= maxFlight))
                     && l'.channel == Channel(l.channel.senders + (|l.flights| - |at|), l.channel.waiters, l.channel.immediate, l.channel.timedOut))
  {
    at := KeptInOrder(t.lists[key].flights, now, maxFlight);
    hide Kept, Expired;
  }

  /** No pass makes a list, or touches another key's dropped channels. */
  lemma PassMakesNothing(t: Tracker, now: nat, key: string, maxFlight: nat)
    requires key !in t.lists
    ensures var t' := Next(t, EvictPass(now), maxFlight);
            key !in t'.lists && (key in t'.retired <==> key in t.retired) && (key in t.retired ==> t'.retired[key] == t.retired[key])
  {
  }

  /** A wake-up received takes one sender and one waiter; a wait given up takes a waiter and counts
      as given up. Neither happens without a waiter, or the first without a sender. */
  lemma WakeInFields(t: Tracker, key: string, maxFlight: nat)
    requires key in t.lists
    ensures var c, woken, late := t.lists[key].channel, Next(t, Deliver(Live(key)), maxFlight), Next(t, TimeOut(Live(key)), maxFlight);
            && woken == (if c.senders > 0 && c.waiters > 0
                         then t.(lists := t.lists[key := t.lists[key].(channel := Channel(c.senders - 1, c.waiters - 1, c.immediate, c.timedOut))])
                         else t)
            && late == (if c.waiters > 0
                        then t.(lists := t.lists[key := t.lists[key].(channel := Channel(c.senders, c.waiters - 1, c.immediate, c.timedOut + 1))])
                        else t)
  {
  }
}
