/** What the classifier's operations do, told by the configurations themselves: which match a pod
    and in which order, what key and id they give, and what the pacers handed out allow. */
module ClassifierSteps {
  import opened Pods
  import opened Pacers
  import opened GroupId
  import opened Classifier
  import opened ClassifierCaches
  import opened ClassifierHistory

  // ----- the registry -----

  /** AddConfig takes effect if and only if the name is new and the expression is not empty, parses
      and is in use nowhere; then the configuration is consulted after all the others. */
  lemma AddTakesEffectIff(jp: JsonPath, r: Registry, config: StaggerGroup)
    requires Registered(r)
    ensures var r' := Next(jp, r, AddConfig(config));
            && (r' != r <==>
                  && config.name !in r.configs && config.groupingExpression != "" && jp.parses(config.groupingExpression)
                  && forall n :: n in r.configs ==> r.configs[n].groupingExpression != config.groupingExpression)
            && (r' != r ==>
                  && r'.configNames == r.configNames + [config.name]
                  && r'.configs.Keys == r.configs.Keys + {config.name} && r'.configs[config.name] == config
                  && forall n :: n in r.configs ==> r'.configs[n] == r.configs[n])
            && r'.groupsByID == r.groupsByID && r'.pacersByKey == r.pacersByKey
  {
    var r' := Next(jp, r, AddConfig(config));
    if config.name !in r.configs && Acceptable(jp, r.configs, config) {
      assert r'.configs[config.name] == config;
    }
  }

  lemma {:induction false} WithoutAbsent(names: seq<string>, name: string)
    requires name !in names
    ensures Without(names, name) == names
  {
    if names != [] {
      WithoutAbsent(names[..|names| - 1], name);
      assert names == names[..|names| - 1] + [names[|names| - 1]];
    }
  }

  lemma {:induction false} WithoutCuts(names: seq<string>, i: nat)
    requires i < |names| && Distinct(names)
    ensures Without(names, names[i]) == names[..i] + names[i + 1..]
  {
    var k := |names| - 1;
    if i == k {
      WithoutAbsent(names[..k], names[k]);
      assert names[i + 1..] == [];
    } else {
      WithoutCuts(names[..k], i);
      assert names[..k][..i] == names[..i];
      assert names[i + 1..] == names[..k][i + 1..] + [names[k]];
    }
  }

  /** RemoveConfig takes the name out of its place and leaves the others in their order; the cached
      groups and pacers stay. */
  lemma RemoveInFields(jp: JsonPath, r: Registry, i: nat)
    requires RegistryInv(r) && i < |r.configNames|
    ensures var name, r' := r.configNames[i], Next(jp, r, RemoveConfig(r.configNames[i]));
            && r'.configNames == r.configNames[..i] + r.configNames[i + 1..]
            && r'.configs.Keys == r.configs.Keys - {name}
            && (forall n :: n in r.configs && n != name ==> r'.configs[n] == r.configs[n])
            && r'.groupsByID == r.groupsByID && r'.pacersByKey == r.pacersByKey
  {
    WithoutCuts(r.configNames, i);
  }

  /** Removing a name that is not stored is refused. */
  lemma RemoveUnknown(jp: JsonPath, r: Registry, name: string)
    requires Registered(r) && name !in r.configs
    ensures Next(jp, r, RemoveConfig(name)) == r
  {
  }

  // ----- keys -----

  lemma {:induction false} ConcatOfTwo(a: seq<string>, b: seq<string>)
    ensures Concat(a + b) == Concat(a) + Concat(b)
  {
    if b == [] {
      assert a + b == a;
    } else {
      var n := |b| - 1;
      ConcatOfTwo(a, b[..n]);
      assert (a + b)[..|a + b| - 1] == a + b[..n];
    }
  }

  lemma {:induction false} ConcatIsEmpty(parts: seq<string>)
    ensures Concat(parts) == "" <==> forall s :: s in parts ==> s == ""
  {
    if parts != [] {
      var n := |parts| - 1;
      ConcatIsEmpty(parts[..n]);
      assert |Concat(parts)| == |Concat(parts[..n])| + |parts[n]|;
      assert parts == parts[..n] + [parts[n]];
      hide Concat;
      if forall s :: s in parts ==> s == "" {
        assert parts[n] in parts && forall s :: s in parts[..n] ==> s in parts;
      } else {
        var s :| s in parts && s != "";
        assert s in parts[..n] || s == parts[n];
      }
    }
  }

  /** A configuration gives a pod a key if and only if the pod carries every label selected, not
      every label of a bypass selector that is not empty, and some result of the expression is not
      empty. The key is the results one after the other. */
  lemma KeyInFields(jp: JsonPath, config: StaggerGroup, pod: Pod)
    ensures KeyOf(jp, config, pod).Some? <==>
              && (forall k :: k in config.labelSelector ==> k in pod.labels && pod.labels[k] == config.labelSelector[k])
              && (|config.bypassLabelSelector| == 0
                  || exists k :: k in config.bypassLabelSelector && !(k in pod.labels && pod.labels[k] == config.bypassLabelSelector[k]))
              && exists s :: s in jp.results(config.groupingExpression, pod) && s != ""
    ensures KeyOf(jp, config, pod).Some? ==>
              var results := jp.results(config.groupingExpression, pod);
              results != [] && KeyOf(jp, config, pod).value == results[0] + Concat(results[1..])
  {
    var results := jp.results(config.groupingExpression, pod);
    ConcatIsEmpty(results);
    if results != [] {
      ConcatFirst(results);
    }
    MatchesInFields(config.labelSelector, pod.labels);
    MatchesInFields(config.bypassLabelSelector, pod.labels);
    hide Concat, Matches;
    assert |config.bypassLabelSelector| == 0 <==> config.bypassLabelSelector == map[];
    assert KeyOf(jp, config, pod).Some? <==> Applies(config, pod) && Concat(results) != "";
  }

  lemma MatchesInFields(selector: map<string, string>, labels: map<string, string>)
    ensures Matches(selector, labels) <==> forall k :: k in selector ==> k in labels && labels[k] == selector[k]
  {
  }

  lemma ConcatFirst(parts: seq<string>)
    requires parts != []
    ensures Concat(parts) == parts[0] + Concat(parts[1..])
    ensures |parts| == 1 ==> Concat(parts) == parts[0]
  {
    ConcatOfTwo([parts[0]], parts[1..]);
    assert parts == [parts[0]] + parts[1..];
    assert [parts[0]][..0] == [];
    assert Concat([parts[0]]) == Concat([]) + parts[0] == parts[0];
    assert |parts| == 1 ==> parts[1..] == [];
  }

  // ----- which configurations match, and in which order -----

  /** The matching configurations are collected in the order their names were added: they stand at
      increasing positions, every name whose configuration gives the pod a key is at one, and the
      pacers carry those keys. */
  lemma {:induction false} MatchesInOrder(jp: JsonPath, configs: map<string, StaggerGroup>, names: seq<string>, pod: Pod, cache: map<string, Pacer>)
    returns (at: seq<nat>)
    requires (forall n :: n in names ==> n in configs) && Keyed(cache)
    ensures MatchesAt(jp, configs, names, pod, Collect(jp, configs, names, pod, cache), at)
    ensures forall k: nat :: k < |names| ==> (k in at <==> KeyOf(jp, configs[names[k]], pod).Some?)
  {
    if names == [] {
      at := [];
    } else {
      hide *;
      var n := |names| - 1;
      at := MatchesInOrder(jp, configs, names[..n], pod, cache);
      CollectCaches(jp, configs, names[..n], pod, cache);
      OneMatchMore(jp, configs, names, pod, cache, at);
      OnePositionMore(jp, configs, names, pod, at);
      if KeyOf(jp, configs[names[n]], pod).Some? {
        at := at + [n];
      }
    }
  }

  lemma OnePositionMore(jp: JsonPath, configs: map<string, StaggerGroup>, names: seq<string>, pod: Pod, at: seq<nat>)
    requires names != [] && forall n :: n in names ==> n in configs
    requires var n := |names| - 1;
             && (forall k: nat :: k < n ==> (k in at <==> KeyOf(jp, configs[names[..n][k]], pod).Some?))
             && forall i :: 0 <= i < |at| ==> at[i] < n
    ensures var n := |names| - 1;
            var at' := if KeyOf(jp, configs[names[n]], pod).Some? then at + [n] else at;
            forall k: nat :: k < |names| ==> (k in at' <==> KeyOf(jp, configs[names[k]], pod).Some?)
  {
    hide KeyOf;
    var n := |names| - 1;
    var at' := if KeyOf(jp, configs[names[n]], pod).Some? then at + [n] else at;
    forall k: nat | k < |names| ensures k in at' <==> KeyOf(jp, configs[names[k]], pod).Some? {
      if k < n {
        assert names[..n][k] == names[k];
      }
    }
  }

  ghost predicate MatchesAt(jp: JsonPath, configs: map<string, StaggerGroup>, names: seq<string>, pod: Pod, c: Collected, at: seq<nat>)
    requires forall n :: n in names ==> n in configs
  {
    && |at| == |c.configs| == |c.pacers|
    && (forall i :: 0 <= i < |at| ==>
         at[i] < |names| && c.configs[i] == configs[names[at[i]]] && KeyOf(jp, c.configs[i], pod) == Some(c.pacers[i].key))
    && (forall i, j :: 0 <= i < j < |at| ==> at[i] < at[j])
  }

  lemma OneMatchMore(jp: JsonPath, configs: map<string, StaggerGroup>, names: seq<string>, pod: Pod, cache: map<string, Pacer>, at: seq<nat>)
    requires names != [] && (forall n :: n in names ==> n in configs)
    requires Keyed(Collect(jp, configs, names[..|names| - 1], pod, cache).pacersByKey)
    requires MatchesAt(jp, configs, names[..|names| - 1], pod, Collect(jp, configs, names[..|names| - 1], pod, cache), at)
    ensures var n := |names| - 1;
            && (forall i :: 0 <= i < |at| ==> at[i] < n)
            && MatchesAt(jp, configs, names, pod, Collect(jp, configs, names, pod, cache),
                         if KeyOf(jp, configs[names[n]], pod).Some? then at + [n] else at)
  {
    var n := |names| - 1;
    var c := Collect(jp, configs, names[..n], pod, cache);
    assert Collect(jp, configs, names, pod, cache) == Consider(jp, configs[names[n]], pod, c);
    hide Collect;
    MatchesOneMore(jp, configs, names, pod, c, at);
  }

  lemma MatchesOneMore(jp: JsonPath, configs: map<string, StaggerGroup>, names: seq<string>, pod: Pod, c: Collected, at: seq<nat>)
    requires names != [] && (forall n :: n in names ==> n in configs) && Keyed(c.pacersByKey)
    requires MatchesAt(jp, configs, names[..|names| - 1], pod, c, at)
    ensures var n := |names| - 1;
            && (forall i :: 0 <= i < |at| ==> at[i] < n)
            && MatchesAt(jp, configs, names, pod, Consider(jp, configs[names[n]], pod, c),
                         if KeyOf(jp, configs[names[n]], pod).Some? then at + [n] else at)
  {
    hide KeyOf;
  }

  // ----- what a classification leaves in the caches -----

  /** A classification changes the two caches only. It adds the pod's group unless a group of that
      id is cached, and the pacers it made; whatever was cached before stays. */
  lemma ClassifyInFields(jp: JsonPath, r: Registry, pod: Pod)
    requires Registered(r) && Keyed(r.pacersByKey)
    ensures var c, r' := Collect(jp, r.configs, r.configNames, pod, r.pacersByKey), Next(jp, r, Classify(pod));
            var id := CalculateGroupID(c.pacers, c.configs);
            && r'.configs == r.configs && r'.configNames == r.configNames
            && (forall k :: k in r.groupsByID ==> k in r'.groupsByID && r'.groupsByID[k] == r.groupsByID[k])
            && (forall k :: k in r'.groupsByID && k !in r.groupsByID ==> k == id && c.configs != [] && r'.groupsByID[k] == Group(id, c.configs, c.pacers))
            && (c.configs != [] ==> id in r'.groupsByID)
            && (forall k :: k in r.pacersByKey ==> k in r'.pacersByKey && r'.pacersByKey[k] == r.pacersByKey[k])
            && (forall k :: k in r'.pacersByKey && k !in r.pacersByKey ==> r'.pacersByKey[k] in c.pacers)
            && forall p :: p in c.pacers ==> p.key in r'.pacersByKey && r'.pacersByKey[p.key] == p
  {
    CollectCaches(jp, r.configs, r.configNames, pod, r.pacersByKey);
    hide CalculateGroupID, Collect;
    ClassifyAddsGroup(jp, r, pod);
    forall k | k in r.pacersByKey
      ensures var c := Collect(jp, r.configs, r.configNames, pod, r.pacersByKey); k in c.pacersByKey && c.pacersByKey[k] == r.pacersByKey[k]
    {
      CollectKeepsPacer(jp, r.configs, r.configNames, pod, r.pacersByKey, k);
    }
  }

  // ----- what the pacers handed out allow -----

  /** With nothing cached, the pacer of a key is made by the first matching configuration that gives
      it; later ones that give the same key share it. */
  lemma {:induction false} FirstMakesPacer(jp: JsonPath, configs: map<string, StaggerGroup>, names: seq<string>, pod: Pod, i: nat)
    requires forall n :: n in names ==> n in configs
    requires i < |Collect(jp, configs, names, pod, map[]).pacers|
    ensures var c := Collect(jp, configs, names, pod, map[]);
            && ((forall j :: 0 <= j < i ==> c.pacers[j].key != c.pacers[i].key) ==>
                  && (c.configs[i].factory.ExponentialFactory? ==>
                        c.pacers[i].Exponential? && c.pacers[i].exponential == c.configs[i].factory.exponential)
                  && (c.configs[i].factory.LinearFactory? ==> c.pacers[i].Linear? && c.pacers[i].linear == c.configs[i].factory.linear))
            && forall j :: 0 <= j < i && c.pacers[j].key == c.pacers[i].key ==> c.pacers[j] == c.pacers[i]
  {
    var n := |names| - 1;
    var c := Collect(jp, configs, names[..n], pod, map[]);
    CollectCaches(jp, configs, names[..n], pod, map[]);
    ConsiderExtends(jp, configs[names[n]], pod, c);
    hide Consider, KeyOf;
    if i < |c.pacers| {
      FirstMakesPacer(jp, configs, names[..n], pod, i);
    } else {
      OnePacerMore(jp, configs[names[n]], pod, c);
    }
  }

  lemma ConsiderExtends(jp: JsonPath, config: StaggerGroup, pod: Pod, c: Collected)
    ensures var c' := Consider(jp, config, pod, c);
            && c.pacers <= c'.pacers && c.configs <= c'.configs
            && |c'.pacers| == |c.pacers| + (if KeyOf(jp, config, pod).Some? then 1 else 0)
  {
  }

  lemma OnePacerMore(jp: JsonPath, config: StaggerGroup, pod: Pod, c: Collected)
    requires KeyOf(jp, config, pod).Some? && |c.pacers| == |c.configs| && AllCached(c.pacers, c.pacersByKey)
    requires forall k :: k in c.pacersByKey ==> c.pacersByKey[k].key == k && c.pacersByKey[k] in c.pacers
    ensures var c', i := Consider(jp, config, pod, c), |c.pacers|;
            && c'.configs[i] == config && c'.pacers[i].key == KeyOf(jp, config, pod).value
            && ((forall j :: 0 <= j < i ==> c'.pacers[j].key != c'.pacers[i].key) ==>
                  && (config.factory.ExponentialFactory? ==> c'.pacers[i].Exponential? && c'.pacers[i].exponential == config.factory.exponential)
                  && (config.factory.LinearFactory? ==> c'.pacers[i].Linear? && c'.pacers[i].linear == config.factory.linear))
            && forall j :: 0 <= j < i && c'.pacers[j].key == c'.pacers[i].key ==> c'.pacers[j] == c'.pacers[i]
  {
    var key := KeyOf(jp, config, pod).value;
    hide KeyOf;
    if key in c.pacersByKey {
      var j :| 0 <= j < |c.pacers| && c.pacers[j] == c.pacersByKey[key];
      assert Consider(jp, config, pod, c).pacers[j].key == key;
    }
  }

  /** What an exponential configuration comes to in a group it is the first to give a key for: the
      pacer handed out paces by that configuration's own numbers. */
  lemma ExponentialGroupInNumbers(jp: JsonPath, r: Registry, pod: Pod, i: nat, ready: nat, starting: nat, blocked: nat, wanted: int)
    requires Registered(r) && i < |Afresh(jp, r, pod).pacers| && Afresh(jp, r, pod).configs[i].factory.ExponentialFactory?
    requires forall j :: 0 <= j < i ==> Afresh(jp, r, pod).pacers[j].key != Afresh(jp, r, pod).pacers[i].key
    requires var e := Afresh(jp, r, pod).configs[i].factory.exponential;
             if ready == 0 then wanted == e.minInitial else wanted as real - 1.0 < ready as real * e.multiplier <= wanted as real
    ensures CanPace(Afresh(jp, r, pod).pacers[i])
    ensures AllowedCount(Afresh(jp, r, pod).pacers[i], ready, starting, blocked) ==
            if ready >= Afresh(jp, r, pod).configs[i].factory.exponential.maxStagger then blocked
            else if wanted <= starting then 0
            else if wanted - starting < blocked then wanted - starting
            else blocked
  {
    FirstMakesPacer(jp, r.configs, r.configNames, pod, i);
    var p := Afresh(jp, r, pod).pacers[i];
    ExponentialCount(p.key, p.exponential, ready, starting, blocked, wanted);
  }

  lemma LinearGroupInNumbers(jp: JsonPath, r: Registry, pod: Pod, i: nat, ready: nat, starting: nat, blocked: nat, steps: int)
    requires Registered(r) && i < |Afresh(jp, r, pod).pacers| && Afresh(jp, r, pod).configs[i].factory.LinearFactory?
    requires forall j :: 0 <= j < i ==> Afresh(jp, r, pod).pacers[j].key != Afresh(jp, r, pod).pacers[i].key
    requires var e := Afresh(jp, r, pod).configs[i].factory.linear;
             e.step > 0 && e.step * (steps - 1) <= ready < e.step * steps
    ensures CanPace(Afresh(jp, r, pod).pacers[i])
    ensures var e := Afresh(jp, r, pod).configs[i].factory.linear;
            AllowedCount(Afresh(jp, r, pod).pacers[i], ready, starting, blocked) ==
            if ready >= e.maxStagger then blocked
            else if e.step * steps - ready <= starting then 0
            else if e.step * steps - ready < blocked then e.step * steps - ready
            else blocked
  {
    FirstMakesPacer(jp, r.configs, r.configNames, pod, i);
    var p := Afresh(jp, r, pod).pacers[i];
    LinearCount(p.key, p.linear, ready, starting, blocked, steps);
  }

  // ----- the id -----

  /** The text of the id of a group of one pacer. */
  lemma IdInText(p: Pacer, config: StaggerGroup)
    ensures CalculateGroupID([p], [config])
         == "[" + (if p.Exponential? then "*exponential.pacer[" else "*linear.pacer[") + p.key + "]" + "](" + config.name + ")"
  {
    assert PacerIds([p]) == [PacerId(p)] && NamesOf([config]) == [config.name];
  }

  /** With more pacers, their ids stand in the brackets in order, with commas between them, and the
      names of the configurations likewise in the parentheses. */
  lemma IdOfMoreInText(p: Pacer, config: StaggerGroup, pacers: seq<Pacer>, configs: seq<StaggerGroup>)
    requires pacers != [] && configs != []
    ensures Join(PacerIds([p] + pacers)) == PacerId(p) + "," + Join(PacerIds(pacers))
    ensures Join(NamesOf([config] + configs)) == config.name + "," + Join(NamesOf(configs))
    ensures CalculateGroupID([p] + pacers, [config] + configs)
         == "[" + Join(PacerIds([p] + pacers)) + "](" + Join(NamesOf([config] + configs)) + ")"
  {
    hide *;
    IdsWithFront(p, pacers);
    NamesWithFront(config, configs);
    JoinMore(PacerId(p), PacerIds(pacers));
    JoinMore(config.name, NamesOf(configs));
    RenderIs([p] + pacers, [config] + configs);
  }

  lemma IdsWithFront(p: Pacer, pacers: seq<Pacer>)
    ensures PacerIds([p] + pacers) == [PacerId(p)] + PacerIds(pacers)
    ensures |PacerIds(pacers)| == |pacers|
  {
    hide PacerId;
  }

  lemma NamesWithFront(config: StaggerGroup, configs: seq<StaggerGroup>)
    ensures NamesOf([config] + configs) == [config.name] + NamesOf(configs)
    ensures |NamesOf(configs)| == |configs|
  {
  }

  lemma RenderIs(pacers: seq<Pacer>, configs: seq<StaggerGroup>)
    ensures CalculateGroupID(pacers, configs) == "[" + Join(PacerIds(pacers)) + "](" + Join(NamesOf(configs)) + ")"
  {
  }

  lemma JoinMore(head: string, tail: seq<string>)
    requires tail != []
    ensures Join([head] + tail) == head + "," + Join(tail)
  {
    assert ([head] + tail)[1..] == tail;
  }

  // ----- the policy -----

  /** The aggregate policy in the configurations' own durations. */
  lemma {:induction false} DurationsAre(configs: seq<StaggerGroup>, d: int)
    ensures d in Durations(configs) <==> exists i :: 0 <= i < |configs| && configs[i].maxBlockedDuration == d
  {
    if configs != [] {
      var n := |configs| - 1;
      DurationsAre(configs[..n], d);
      if d in Durations(configs[..n]) {
        var i :| 0 <= i < n && configs[..n][i].maxBlockedDuration == d;
        assert configs[i].maxBlockedDuration == d;
      }
      if i :| 0 <= i < n && configs[i].maxBlockedDuration == d {
        assert configs[..n][i].maxBlockedDuration == d;
      }
    }
  }

  lemma PolicyInNumbers(configs: seq<StaggerGroup>, d: int)
    requires IsLeastPositive(d, Durations(configs))
    ensures d >= 0
    ensures d == 0 <==> forall i :: 0 <= i < |configs| ==> configs[i].maxBlockedDuration <= 0
    ensures forall i :: 0 <= i < |configs| && configs[i].maxBlockedDuration > 0 ==> d <= configs[i].maxBlockedDuration
    ensures d > 0 ==> exists i :: 0 <= i < |configs| && configs[i].maxBlockedDuration == d
  {
    forall i | 0 <= i < |configs| ensures configs[i].maxBlockedDuration in Durations(configs) {
      DurationsAre(configs, configs[i].maxBlockedDuration);
    }
    forall x | x in Durations(configs) ensures exists i :: 0 <= i < |configs| && configs[i].maxBlockedDuration == x {
      DurationsAre(configs, x);
    }
  }
}
