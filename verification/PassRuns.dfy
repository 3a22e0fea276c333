/** The passes the theorems speak of exist: from any pods, with every eviction accepted, under the
    schedule that evicts everything first and under the one that waits for each pod. */
module PassRuns {
  import opened Pods
  import opened Pacers
  import opened Composite
  import opened Standing
  import opened Admission
  import opened PacingProtocol
  import opened Rounds

  lemma {:induction false} LongString(pods: set<Pod>) returns (s: string)
    ensures s != "" && forall p :: p in pods ==> |p.uid| < |s| && |p.name| < |s|
    decreases |pods|
  {
    if pods == {} {
      s := "u";
    } else {
      var p :| p in pods;
      var rest := LongString(pods - {p});
      s := rest + p.uid + p.name;
      s := s + "u";
    }
  }

  lemma SomeReadmission(pacers: seq<Pacer>, pods: set<Pod>) returns (pods': set<Pod>)
    requires AllCanPace(pacers) && Identified(pods)
    ensures Readmits(pacers, pods, pods') && Identified(pods')
  {
    var s := LongString(pods);
    var newPod := Pod(s, "", "default", "", 0, map[], "", false, []);
    var items := SomeListing(pods);
    var approved := SomeVerdict(pacers, items, newPod);
    var stored := newPod.(uid := s, created := 1, blocked := !approved);
    hide Identified, Lists, Decides;
    assert StoredAs(pods, stored, approved);
    StoringKeepsIdentified(pods, stored, approved);
    pods' := pods + {stored};
    assert Readmit(pacers, pods, pods', items, newPod, stored, approved);
  }

  lemma SomeReturn(pacers: seq<Pacer>, selected: seq<Pod>, s: Progress) returns (s': Progress)
    requires AllCanPace(pacers) && InPass(selected, s) && s.back < s.gone
    ensures Returns(pacers, s, s') && InPass(selected, s')
  {
    hide Identified, Readmits;
    var pods := SomeReadmission(pacers, s.pods);
    s' := Progress(pods, s.next, s.gone, s.back + 1);
    hide InPass;
    ReturnCounts(pacers, selected, s, s');
  }

  lemma SomeEviction(pacers: seq<Pacer>, selected: seq<Pod>, s: Progress) returns (s': Progress)
    requires NoCopies(selected) && InPass(selected, s) && s.next < |selected|
    ensures Evicts(selected, s, s') && InPass(selected, s')
  {
    s' := Progress(s.pods - {selected[s.next]}, s.next + 1, s.gone + 1, s.back);
    EvictionCounts(pacers, selected, s, s');
  }

  ghost predicate FollowsSchedule(selected: seq<Pod>, trace: seq<Progress>, oneByOne: bool) {
    if oneByOne then OneByOne(trace) else EvictsFirst(selected, trace)
  }

  /** The state after k steps in which nothing was refused. */
  ghost predicate OnSchedule(selected: seq<Pod>, s: Progress, k: nat, oneByOne: bool) {
    && InPass(selected, s)
    && s.gone == s.next && s.next + s.back == k
    && (if oneByOne then s.gone <= s.back + 1 else s.back > 0 ==> s.next == |selected|)
  }

  lemma SomeStep(pacers: seq<Pacer>, selected: seq<Pod>, s: Progress, k: nat, oneByOne: bool) returns (s': Progress)
    requires AllCanPace(pacers) && NoCopies(selected) && OnSchedule(selected, s, k, oneByOne) && k < 2 * |selected|
    ensures PassStep(pacers, selected, s, s') && OnSchedule(selected, s', k + 1, oneByOne)
    ensures FollowsSchedule(selected, [s, s'], oneByOne)
  {
    hide Readmits, NoCopies;
    if s.back < s.gone && (oneByOne || s.next == |selected|) {
      s' := SomeReturn(pacers, selected, s);
    } else {
      s' := SomeEviction(pacers, selected, s);
    }
  }

  lemma ScheduleExtends(selected: seq<Pod>, trace: seq<Progress>, s: Progress, oneByOne: bool)
    requires trace != [] && FollowsSchedule(selected, trace, oneByOne) && FollowsSchedule(selected, [Last(trace), s], oneByOne)
    ensures FollowsSchedule(selected, trace + [s], oneByOne)
  {
    var longer, two := trace + [s], [Last(trace), s];
    assert two[0 + 1] == s;
    forall j | 0 <= j < |longer| - 1
      ensures if oneByOne then longer[j + 1].next > longer[j].next ==> longer[j].back == longer[j].gone
              else longer[j + 1].back > longer[j].back ==> longer[j].next == |selected|
    {
      if j < |trace| - 1 {
        assert longer[j] == trace[j] && longer[j + 1] == trace[j + 1];
      } else {
        assert longer[j] == two[0] && longer[j + 1] == two[0 + 1];
      }
    }
  }

  lemma {:induction false} SomePassSteps(pacers: seq<Pacer>, pods: set<Pod>, selected: seq<Pod>, k: nat, oneByOne: bool)
    returns (trace: seq<Progress>)
    requires AllCanPace(pacers) && Identified(pods) && NoCopies(selected) && k <= 2 * |selected|
    requires forall p :: p in selected ==> p in pods && p.blocked
    ensures PassSteps(pacers, pods, selected, trace) && FollowsSchedule(selected, trace, oneByOne)
    ensures OnSchedule(selected, Last(trace), k, oneByOne)
  {
    if k == 0 {
      trace := [Progress(pods, 0, 0, 0)];
    } else {
      hide PassStep, FollowsSchedule, OnSchedule, Identified, NoCopies;
      trace := SomePassSteps(pacers, pods, selected, k - 1, oneByOne);
      var s' := SomeStep(pacers, selected, Last(trace), k - 1, oneByOne);
      ScheduleExtends(selected, trace, s', oneByOne);
      trace := trace + [s'];
    }
  }

  /** A pass can always be completed, whatever the pacers, under either schedule. */
  lemma SomePass(pacers: seq<Pacer>, pods: set<Pod>, oneByOne: bool)
    returns (items: seq<Pod>, selected: seq<Pod>, trace: seq<Progress>)
    requires AllCanPace(pacers) && Identified(pods)
    ensures ReconcilePass(pacers, pods, items, selected, trace) && NoneRefused(trace)
    ensures FollowsSchedule(selected, trace, oneByOne) && Identified(Last(trace).pods)
  {
    items := SomeListing(pods);
    selected := SomeSelection(pacers, items);
    hide Selects, Lists, PassStep, FollowsSchedule, Identified, NoCopies;
    SelectionCounts(pacers, pods, items, selected);
    trace := SomePassSteps(pacers, pods, selected, 2 * |selected|, oneByOne);
  }

  lemma SomeSelection(pacers: seq<Pacer>, items: seq<Pod>) returns (selected: seq<Pod>)
    requires AllCanPace(pacers)
    ensures Selects(pacers, items, selected)
  {
    var r, s := |Filter(IsReady, items)|, |Filter(IsStarting, items)|;
    var lists, results := SomePasses(pacers, r, s, Filter(IsBlocked, items));
    selected := Chosen(lists[|pacers|], results);
  }
}
