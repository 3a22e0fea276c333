/** The pod classifier: a registry of configurations, a pacer cache and a group cache. */
module Classifier {
  import opened Pods
  import opened Pacers
  import opened ControllerTypes
  import opened GroupId

  datatype Factory = ExponentialFactory(exponential: ExponentialConfig) | LinearFactory(linear: LinearConfig)

  function New(factory: Factory, key: string): (p: Pacer)
    ensures p.key == key && (p.Exponential? <==> factory.ExponentialFactory?)
    ensures p.Exponential? ==> p.exponential == factory.exponential
    ensures p.Linear? ==> p.linear == factory.linear
  {
    match factory
    case ExponentialFactory(config) => Exponential(key, config)
    case LinearFactory(config) => Linear(key, config)
  }

  datatype StaggerGroup = StaggerGroup(
    name: string,
    labelSelector: map<string, string>,
    bypassLabelSelector: map<string, string>,
    groupingExpression: string,
    maxBlockedDuration: int,
    factory: Factory)

  /** JSONPath is a library: which expressions parse, and the printed results of one on a pod. */
  datatype JsonPath = JsonPath(parses: string -> bool, results: (string, Pod) -> seq<string>)

  datatype Group = Group(id: string, configs: seq<StaggerGroup>, pacers: seq<Pacer>)

  datatype Registry = Registry(
    configs: map<string, StaggerGroup>,
    configNames: seq<string>,
    groupsByID: map<string, Group>,
    pacersByKey: map<string, Pacer>)

  const EMPTY := Registry(map[], [], map[], map[])

  // ----- configuration -----

  ghost predicate ExpressionTaken(configs: map<string, StaggerGroup>, expression: string) {
    exists name :: name in configs && configs[name].groupingExpression == expression
  }

  ghost predicate Acceptable(jp: JsonPath, configs: map<string, StaggerGroup>, config: StaggerGroup) {
    && config.groupingExpression != ""
    && !ExpressionTaken(configs, config.groupingExpression)
    && jp.parses(config.groupingExpression)
  }

  function Without(names: seq<string>, name: string): (r: seq<string>)
    ensures forall n :: n in r <==> n in names && n != name
  {
    if names == [] then []
    else
      var k := |names| - 1;
      assert names == names[..k] + [names[k]];
      Without(names[..k], name) + if names[k] != name then [names[k]] else []
  }

  // ----- classification -----

  predicate Matches(selector: map<string, string>, labels: map<string, string>) {
    forall k :: k in selector ==> k in labels && labels[k] == selector[k]
  }

  function Concat(parts: seq<string>): string {
    if parts == [] then "" else Concat(parts[..|parts| - 1]) + parts[|parts| - 1]
  }

  predicate Applies(config: StaggerGroup, pod: Pod) {
    Matches(config.labelSelector, pod.labels) && (config.bypassLabelSelector == map[] || !Matches(config.bypassLabelSelector, pod.labels))
  }

  /** The grouping key of a pod under a configuration, None when the configuration is skipped. */
  function KeyOf(jp: JsonPath, config: StaggerGroup, pod: Pod): Option<string> {
    if !Applies(config, pod) then None
    else
      var key := Concat(jp.results(config.groupingExpression, pod));
      if key == "" then None else Some(key)
  }

  datatype Collected = Collected(pacersByKey: map<string, Pacer>, pacers: seq<Pacer>, configs: seq<StaggerGroup>)

  /** One configuration considered: its pacer is taken from the cache, or made and cached. */
  function Consider(jp: JsonPath, config: StaggerGroup, pod: Pod, c: Collected): Collected {
    match KeyOf(jp, config, pod)
    case None => c
    case Some(key) =>
      var pacer := if key in c.pacersByKey then c.pacersByKey[key] else New(config.factory, key);
      Collected(c.pacersByKey[key := pacer], c.pacers + [pacer], c.configs + [config])
  }

  /** The loop of Classify over the configuration names. */
  function Collect(jp: JsonPath, configs: map<string, StaggerGroup>, names: seq<string>, pod: Pod, cache: map<string, Pacer>): (c: Collected)
    requires forall n :: n in names ==> n in configs
    ensures |c.pacers| == |c.configs|
  {
    if names == [] then Collected(cache, [], [])
    else
      var k := |names| - 1;
      Consider(jp, configs[names[k]], pod, Collect(jp, configs, names[..k], pod, cache))
  }

  function NamesOf(configs: seq<StaggerGroup>): (r: seq<string>)
    ensures |r| == |configs|
    ensures forall i :: 0 <= i < |r| ==> r[i] == configs[i].name
  {
    if configs == [] then [] else NamesOf(configs[..|configs| - 1]) + [configs[|configs| - 1].name]
  }

  /** md5 is taken to be injective, so the rendering itself stands for the hash. */
  function CalculateGroupID(pacers: seq<Pacer>, configs: seq<StaggerGroup>): string {
    Render(PacerIds(pacers), NamesOf(configs))
  }

  function AddGroup(r: Registry, c: Collected): Registry {
    if c.configs == [] then r.(pacersByKey := c.pacersByKey)
    else
      var id := CalculateGroupID(c.pacers, c.configs);
      r.(pacersByKey := c.pacersByKey,
         groupsByID := if id in r.groupsByID then r.groupsByID else r.groupsByID[id := Group(id, c.configs, c.pacers)])
  }

  /** The least positive duration, 0 if there is none. */
  ghost predicate IsLeastPositive(d: int, durations: multiset<int>) {
    if forall x :: x in durations ==> x <= 0 then d == 0
    else d > 0 && d in durations && forall x :: x in durations && x > 0 ==> d <= x
  }

  function Durations(configs: seq<StaggerGroup>): multiset<int> {
    if configs == [] then multiset{} else Durations(configs[..|configs| - 1]) + multiset{configs[|configs| - 1].maxBlockedDuration}
  }

  // ----- operations -----

  datatype Op =
    | AddConfig(config: StaggerGroup)
    | RemoveConfig(name: string)
    | UpdateConfig(config: StaggerGroup)
    | Classify(pod: Pod)
    | ExpirePacer(key: string)
    | ExpireGroup(id: string)

  ghost predicate Registered(r: Registry) {
    forall n :: n in r.configNames ==> n in r.configs
  }

  /** Every operation as a function on the registry; a refused one leaves it as it is. */
  ghost function Next(jp: JsonPath, r: Registry, op: Op): Registry
    requires Registered(r)
  {
    match op
    case AddConfig(config) =>
      if config.name in r.configs || !Acceptable(jp, r.configs, config) then r
      else r.(configs := r.configs[config.name := config], configNames := r.configNames + [config.name])
    case RemoveConfig(name) =>
      if name !in r.configs then r
      else r.(configs := r.configs - {name}, configNames := Without(r.configNames, name))
    case UpdateConfig(config) =>
      if !Acceptable(jp, r.configs, config) then r
      else r.(configs := r.configs[config.name := config])
    case Classify(pod) =>
      AddGroup(r, Collect(jp, r.configs, r.configNames, pod, r.pacersByKey))
    case ExpirePacer(key) => r.(pacersByKey := r.pacersByKey - {key})
    case ExpireGroup(id) => r.(groupsByID := r.groupsByID - {id})
  }

  lemma CollectOneMore(jp: JsonPath, configs: map<string, StaggerGroup>, names: seq<string>, i: nat, pod: Pod, cache: map<string, Pacer>)
    requires i < |names| && forall n :: n in names ==> n in configs
    ensures Collect(jp, configs, names[..i + 1], pod, cache)
         == Consider(jp, configs[names[i]], pod, Collect(jp, configs, names[..i], pod, cache))
  {
    assert names[..i + 1][..i] == names[..i];
  }

  /** Next for Classify, without the case distinction. */
  lemma ClassifyAddsGroup(jp: JsonPath, r: Registry, pod: Pod)
    requires Registered(r)
    ensures var c, r' := Collect(jp, r.configs, r.configNames, pod, r.pacersByKey), Next(jp, r, Op.Classify(pod));
            && r' == AddGroup(r, c) && r'.pacersByKey == c.pacersByKey
            && r'.configs == r.configs && r'.configNames == r.configNames && Registered(r')
  {
  }

  class PodClassifier {
    const jp: JsonPath
    var configs: map<string, StaggerGroup>
    var configNames: seq<string>
    var groupsByID: map<string, Group>
    var pacersByKey: map<string, Pacer>

    function State(): Registry
      reads this
    {
      Registry(configs, configNames, groupsByID, pacersByKey)
    }

    ghost predicate Valid()
      reads this
    {
      Registered(State())
    }

    constructor (jp: JsonPath)
      ensures Valid() && State() == EMPTY && this.jp == jp
      ensures configs == map[] && configNames == [] && groupsByID == map[] && pacersByKey == map[]
    {
      this.jp := jp;
      configs, configNames, groupsByID, pacersByKey := map[], [], map[], map[];
    }

    method CheckConfig(config: StaggerGroup) returns (err: Option<string>)
      ensures err == None <==> Acceptable(jp, configs, config)
    {
      if config.groupingExpression == "" {
        return Some("empty grouping expression");
      }
      var todo := configs.Keys;
      while todo != {}
        invariant todo <= configs.Keys
        invariant forall n :: n in configs.Keys - todo ==> configs[n].groupingExpression != config.groupingExpression
      {
        var name :| name in todo;
        if configs[name].groupingExpression == config.groupingExpression {
          return Some("grouping expression already exists: " + name);
        }
        todo := todo - {name};
      }
      assert !ExpressionTaken(configs, config.groupingExpression);
      if !jp.parses(config.groupingExpression) {
        return Some("failed to parse jsonpath");
      }
      return None;
    }

    method AddConfig(config: StaggerGroup) returns (err: Option<string>)
      requires Valid()
      modifies this
      ensures Valid() && State() == Next(jp, old(State()), Op.AddConfig(config))
      ensures err == None <==> config.name !in old(configs) && Acceptable(jp, old(configs), config)
    {
      if config.name in configs {
        return Some("duplicate config name: " + config.name);
      }
      err := CheckConfig(config);
      if err == None {
        configs := configs[config.name := config];
        configNames := configNames + [config.name];
      }
    }

    method RemoveConfig(name: string) returns (err: Option<string>)
      requires Valid()
      modifies this
      ensures Valid() && State() == Next(jp, old(State()), Op.RemoveConfig(name))
      ensures err == None <==> name in old(configs)
    {
      if name !in configs {
        return Some("config not found: " + name);
      }
      configs := configs - {name};
      var newNames: seq<string> := [];
      for i := 0 to |configNames|
        invariant newNames == Without(configNames[..i], name)
      {
        assert configNames[..i + 1][..i] == configNames[..i];
        if configNames[i] != name {
          newNames := newNames + [configNames[i]];
        }
      }
      assert configNames[..|configNames|] == configNames;
      configNames := newNames;
      return None;
    }

    method UpdateConfig(config: StaggerGroup) returns (err: Option<string>)
      requires Valid()
      modifies this
      ensures Valid() && State() == Next(jp, old(State()), Op.UpdateConfig(config))
      ensures err == None <==> Acceptable(jp, old(configs), config)
    {
      err := CheckConfig(config);
      if err == None {
        configs := configs - {config.name};
        configs := configs[config.name := config];
      }
    }

    method GroupingKey(config: StaggerGroup, pod: Pod) returns (key: Option<string>)
      ensures key == KeyOf(jp, config, pod)
    {
      if !Matches(config.labelSelector, pod.labels) {
        return None;
      }
      if config.bypassLabelSelector != map[] && Matches(config.bypassLabelSelector, pod.labels) {
        return None;
      }
      var results := jp.results(config.groupingExpression, pod);
      if |results| == 0 {
        return None;
      }
      var text := "";
      for i := 0 to |results|
        invariant text == Concat(results[..i])
      {
        assert results[..i + 1][..i] == results[..i];
        text := text + results[i];
      }
      assert results[..|results|] == results;
      if |text| == 0 {
        return None;
      }
      return Some(text);
    }

    method Classify(pod: Pod) returns (r: Option<Classification>)
      requires Valid()
      modifies this`groupsByID, this`pacersByKey
      ensures Valid() && State() == Next(jp, old(State()), Op.Classify(pod))
      ensures var c := Collect(jp, configs, configNames, pod, old(pacersByKey));
              if c.configs == [] then r == None
              else
                var id := CalculateGroupID(c.pacers, c.configs);
                && id in groupsByID
                && r.Some? && r.value.id == groupsByID[id].id && r.value.pacers == groupsByID[id].pacers
                && IsLeastPositive(r.value.maxBlockedDuration, Durations(c.configs))
    {
      ClassifyAddsGroup(jp, State(), pod);
      assert Collect(jp, configs, configNames[..0], pod, pacersByKey) == Collected(pacersByKey, [], []);
      hide Next, KeyOf, CalculateGroupID, IsLeastPositive, Durations, Collect;
      var pacers: seq<Pacer>, matched: seq<StaggerGroup> := [], [];
      for i := 0 to |configNames|
        invariant Valid() && groupsByID == old(groupsByID)
        invariant Collected(pacersByKey, pacers, matched) == Collect(jp, configs, configNames[..i], pod, old(pacersByKey))
      {
        CollectOneMore(jp, configs, configNames, i, pod, old(pacersByKey));
        var config := configs[configNames[i]];
        var found := GroupingKey(config, pod);
        if found.Some? {
          var key := found.value;
          var pacer := if key in pacersByKey then pacersByKey[key] else New(config.factory, key);
          pacersByKey := pacersByKey[key := pacer];
          pacers := pacers + [pacer];
          matched := matched + [config];
        }
      }
      assert configNames[..|configNames|] == configNames;
      if |matched| == 0 {
        return None;
      }
      var id := CalculateGroupID(pacers, matched);
      if id !in groupsByID {
        groupsByID := groupsByID[id := Group(id, matched, pacers)];
      }
      var policy := AggregatePolicy(matched);
      return Some(Classification(groupsByID[id].id, groupsByID[id].pacers, policy));
    }

    /** The policies are left at their zero value here, whatever the configurations say. */
    method ClassifyByGroupID(groupID: string) returns (r: Option<Classification>)
      ensures r == if groupID in groupsByID then Some(Classification(groupsByID[groupID].id, groupsByID[groupID].pacers, 0)) else None
    {
      if groupID in groupsByID {
        return Some(Classification(groupsByID[groupID].id, groupsByID[groupID].pacers, 0));
      }
      return None;
    }
  }

  method AggregatePolicy(configs: seq<StaggerGroup>) returns (d: int)
    ensures IsLeastPositive(d, Durations(configs))
  {
    d := 0;
    hide IsLeastPositive;
    assert IsLeastPositive(d, multiset{}) by { LeastOfNone(); }
    for i := 0 to |configs|
      invariant IsLeastPositive(d, Durations(configs[..i]))
    {
      assert configs[..i + 1][..i] == configs[..i];
      var x := configs[i].maxBlockedDuration;
      LeastOfOneMore(d, x, Durations(configs[..i]));
      if x > 0 && (d == 0 || x < d) {
        d := x;
      }
    }
    assert configs[..|configs|] == configs;
  }

  lemma LeastOfNone()
    ensures IsLeastPositive(0, multiset{})
  {
  }

  lemma LeastOfOneMore(d: int, x: int, durations: multiset<int>)
    requires IsLeastPositive(d, durations)
    ensures IsLeastPositive(if x > 0 && (d == 0 || x < d) then x else d, durations + multiset{x})
  {
  }

  /** The aggregate policy depends on the configurations' durations only, not on their order. */
  lemma LeastPositiveIsUnique(d: int, e: int, durations: multiset<int>)
    requires IsLeastPositive(d, durations) && IsLeastPositive(e, durations)
    ensures d == e
  {
  }
}
