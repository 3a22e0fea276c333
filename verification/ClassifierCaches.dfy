/** What the registry and the two caches keep over any sequence of operations. */
module ClassifierCaches {
  import opened Pods
  import opened Pacers
  import opened GroupId
  import opened Classifier

  // ----- the registry -----

  ghost predicate Distinct(names: seq<string>) {
    forall i, j :: 0 <= i < j < |names| ==> names[i] != names[j]
  }

  ghost predicate RegistryInv(r: Registry) {
    && Registered(r)
    && Distinct(r.configNames)
    && (forall n :: n in r.configs ==> r.configs[n].name == n)
    && (forall n, n' :: n in r.configs && n' in r.configs && r.configs[n].groupingExpression == r.configs[n'].groupingExpression ==> n == n')
  }

  lemma {:induction false} WithoutKeepsDistinct(names: seq<string>, name: string)
    requires Distinct(names)
    ensures Distinct(Without(names, name))
  {
    if names != [] {
      var k := |names| - 1;
      WithoutKeepsDistinct(names[..k], name);
      forall i | 0 <= i < |Without(names[..k], name)| ensures Without(names[..k], name)[i] != names[k] {
        assert Without(names[..k], name)[i] in names[..k];
      }
    }
  }

  /** Names stay distinct and registered, and no two configurations share an expression. */
  lemma NextKeepsRegistry(jp: JsonPath, r: Registry, op: Op)
    requires RegistryInv(r)
    ensures RegistryInv(Next(jp, r, op))
  {
    hide Collect, CalculateGroupID;
    match op
    case AddConfig(config) =>
    case RemoveConfig(name) => WithoutKeepsDistinct(r.configNames, name);
    case UpdateConfig(config) =>
    case Classify(pod) =>
    case ExpirePacer(key) =>
    case ExpireGroup(id) =>
  }

  ghost function Exec(jp: JsonPath, r: Registry, ops: seq<Op>): Registry
    requires RegistryInv(r)
    decreases |ops|
  {
    if ops == [] then r
    else
      NextKeepsRegistry(jp, r, ops[0]);
      Exec(jp, Next(jp, r, ops[0]), ops[1..])
  }

  /** Over any operations, refused or not, the registry invariant holds. */
  lemma {:induction false} ExecKeepsRegistry(jp: JsonPath, r: Registry, ops: seq<Op>)
    requires RegistryInv(r)
    ensures RegistryInv(Exec(jp, r, ops))
    decreases |ops|
  {
    if ops != [] {
      NextKeepsRegistry(jp, r, ops[0]);
      ExecKeepsRegistry(jp, Next(jp, r, ops[0]), ops[1..]);
    }
  }

  /** Every stored configuration is consulted by Classify. */
  ghost predicate AllConsulted(r: Registry) {
    forall n :: n in r.configs ==> n in r.configNames
  }

  ghost predicate UpdatesUnknown(jp: JsonPath, r: Registry, op: Op) {
    op.UpdateConfig? && op.config.name !in r.configs && Acceptable(jp, r.configs, op.config)
  }

  /** An accepted UpdateConfig of a name that was never added stores a configuration that no
      classification consults; nothing else does. */
  lemma ConsultedUnlessUpdateOfUnknown(jp: JsonPath, r: Registry, op: Op)
    requires RegistryInv(r) && AllConsulted(r)
    ensures AllConsulted(Next(jp, r, op)) <==> !UpdatesUnknown(jp, r, op)
  {
    var r' := Next(jp, r, op);
    if op.AddConfig? && r' != r {
      assert forall n :: n in r'.configs ==> n in r.configNames || n == op.config.name;
      assert r'.configNames[|r.configNames|] == op.config.name;
    }
    if op.UpdateConfig? && r' != r {
      assert op.config.name in r'.configs;
    }
  }

  /** No operation of the run is an accepted update of a name unknown at that moment. */
  ghost predicate UpdatesKnownOnly(jp: JsonPath, r: Registry, ops: seq<Op>)
    requires RegistryInv(r)
    decreases |ops|
  {
    ops == [] ||
    (!UpdatesUnknown(jp, r, ops[0]) &&
     (NextKeepsRegistry(jp, r, ops[0]); UpdatesKnownOnly(jp, Next(jp, r, ops[0]), ops[1..])))
  }

  /** Hence over any run the stored names are exactly the consulted ones if Update is only used
      on existing names. */
  lemma {:induction false} ExecKeepsConsulted(jp: JsonPath, r: Registry, ops: seq<Op>)
    requires RegistryInv(r) && AllConsulted(r) && UpdatesKnownOnly(jp, r, ops)
    ensures RegistryInv(Exec(jp, r, ops))
    ensures forall n :: n in Exec(jp, r, ops).configs <==> n in Exec(jp, r, ops).configNames
    decreases |ops|
  {
    if ops != [] {
      NextKeepsRegistry(jp, r, ops[0]);
      ConsultedUnlessUpdateOfUnknown(jp, r, ops[0]);
      ExecKeepsConsulted(jp, Next(jp, r, ops[0]), ops[1..]);
    }
  }

  /** Exactly when an update takes effect: if and only if its expression parses, is not empty and
      is in use nowhere, not even in the configuration it replaces. Then it replaces or adds that
      one configuration, and the names that classification consults stay as they are. */
  lemma UpdateTakesEffectIff(jp: JsonPath, r: Registry, config: StaggerGroup)
    requires Registered(r)
    ensures var r' := Next(jp, r, UpdateConfig(config));
            && (r' != r <==>
                  && config.groupingExpression != "" && jp.parses(config.groupingExpression)
                  && forall n :: n in r.configs ==> r.configs[n].groupingExpression != config.groupingExpression)
            && (r' != r ==>
                  && config.name in r'.configs && r'.configs[config.name] == config
                  && r'.configNames == r.configNames
                  && forall n :: n != config.name ==> (n in r'.configs <==> n in r.configs) && (n in r.configs ==> r'.configs[n] == r.configs[n]))
  {
    var r' := Next(jp, r, UpdateConfig(config));
    if Acceptable(jp, r.configs, config) {
      assert r'.configs[config.name] == config;
      assert config.name in r.configs ==> r.configs[config.name].groupingExpression != config.groupingExpression;
    }
  }

  /** In particular no update can keep a configuration's own grouping expression: to change any
      other field of a configuration its expression has to change as well. */
  lemma UpdateMustChangeExpression(jp: JsonPath, r: Registry, config: StaggerGroup)
    requires Registered(r)
    requires config.name in r.configs && r.configs[config.name].groupingExpression == config.groupingExpression
    ensures Next(jp, r, UpdateConfig(config)) == r
  {
    UpdateTakesEffectIff(jp, r, config);
  }

  // ----- the caches agree with each other -----

  /** JSONPath never prints a comma into a grouping key. */
  ghost predicate PlainKeys(jp: JsonPath) {
    forall config, pod :: KeyOf(jp, config, pod).Some? ==> Free(KeyOf(jp, config, pod).value, ',')
  }

  predicate PlainName(name: string) {
    Free(name, ',') && Free(name, '(')
  }

  ghost predicate PlainOps(ops: seq<Op>) {
    forall i :: 0 <= i < |ops| ==>
      && (ops[i].AddConfig? || ops[i].UpdateConfig? ==> PlainName(ops[i].config.name))
  }

  ghost predicate NoExpiry(ops: seq<Op>) {
    forall i :: 0 <= i < |ops| ==> !ops[i].ExpirePacer? && !ops[i].ExpireGroup?
  }

  ghost predicate PlainPacers(cache: map<string, Pacer>) {
    forall k :: k in cache ==> cache[k].key == k && Free(k, ',')
  }

  /** The cache maps the key of every listed pacer to that pacer. */
  ghost predicate AllCached(pacers: seq<Pacer>, cache: map<string, Pacer>) {
    forall i :: 0 <= i < |pacers| ==> pacers[i].key in cache && cache[pacers[i].key] == pacers[i]
  }

  ghost predicate PlainConfigs(configs: seq<StaggerGroup>) {
    forall i :: 0 <= i < |configs| ==> PlainName(configs[i].name)
  }

  ghost predicate GroupCoherent(id: string, g: Group, cache: map<string, Pacer>) {
    && g.id == id && g.configs != [] && |g.pacers| == |g.configs|
    && id == CalculateGroupID(g.pacers, g.configs)
    && AllCached(g.pacers, cache)
    && PlainConfigs(g.configs)
  }

  ghost predicate CacheInv(r: Registry) {
    && RegistryInv(r)
    && (forall n :: n in r.configs ==> PlainName(n))
    && PlainPacers(r.pacersByKey)
    && forall id :: id in r.groupsByID ==> GroupCoherent(id, r.groupsByID[id], r.pacersByKey)
  }

  lemma {:induction false} CollectFillsCache(jp: JsonPath, configs: map<string, StaggerGroup>, names: seq<string>, pod: Pod, cache: map<string, Pacer>)
    requires forall n :: n in names ==> n in configs
    requires PlainKeys(jp) && PlainPacers(cache) && forall n :: n in configs ==> configs[n].name == n && PlainName(n)
    ensures var c := Collect(jp, configs, names, pod, cache);
            && PlainPacers(c.pacersByKey)
            && (forall k :: k in cache ==> k in c.pacersByKey && c.pacersByKey[k] == cache[k])
            && AllCached(c.pacers, c.pacersByKey)
            && PlainConfigs(c.configs)
  {
    if names != [] {
      CollectFillsCache(jp, configs, names[..|names| - 1], pod, cache);
    }
  }

  lemma PlainIds(pacers: seq<Pacer>, cache: map<string, Pacer>)
    requires AllCached(pacers, cache) && PlainPacers(cache)
    ensures AllFree(PacerIds(pacers), ',')
  {
    forall i | 0 <= i < |pacers| ensures Free(PacerIds(pacers)[i], ',') {
      CommaFreeId(pacers[i]);
    }
  }

  /** Equal ids are made of pacers of equal kind and key and of equally named configurations. */
  lemma EqualIds(pacers: seq<Pacer>, configs: seq<StaggerGroup>, pacers': seq<Pacer>, configs': seq<StaggerGroup>)
    requires |pacers| == |configs| > 0 && |pacers'| == |configs'| > 0
    requires AllFree(PacerIds(pacers), ',') && AllFree(PacerIds(pacers'), ',')
    requires PlainConfigs(configs) && PlainConfigs(configs')
    requires CalculateGroupID(pacers, configs) == CalculateGroupID(pacers', configs')
    ensures |pacers| == |pacers'| && |configs| == |configs'|
    ensures forall i :: 0 <= i < |pacers| ==> pacers[i].key == pacers'[i].key
    ensures forall i :: 0 <= i < |configs| ==> configs[i].name == configs'[i].name
  {
    RenderIsInjective(PacerIds(pacers), NamesOf(configs), PacerIds(pacers'), NamesOf(configs'));
    forall i | 0 <= i < |pacers| ensures pacers[i].key == pacers'[i].key {
      assert PacerIds(pacers)[i] == PacerIds(pacers')[i];
      PacerIdIsKindAndKey(pacers[i], pacers'[i]);
    }
    forall i | 0 <= i < |configs| ensures configs[i].name == configs'[i].name {
      assert NamesOf(configs)[i] == NamesOf(configs')[i];
    }
  }

  lemma CachedPacersAreDetermined(pacers: seq<Pacer>, pacers': seq<Pacer>, cache: map<string, Pacer>)
    requires AllCached(pacers, cache) && AllCached(pacers', cache) && |pacers| == |pacers'|
    requires forall i :: 0 <= i < |pacers| ==> pacers[i].key == pacers'[i].key
    ensures pacers == pacers'
  {
    forall i | 0 <= i < |pacers| ensures pacers[i] == pacers'[i] {
      assert pacers[i] == cache[pacers[i].key];
    }
  }

  /** The cached group of an id holds exactly the pacers a fresh composite would get now. */
  lemma CachedGroupIsFresh(jp: JsonPath, r: Registry, pod: Pod)
    requires PlainKeys(jp) && CacheInv(r)
    ensures var c := Collect(jp, r.configs, r.configNames, pod, r.pacersByKey);
            var id := CalculateGroupID(c.pacers, c.configs);
            c.configs != [] && id in r.groupsByID ==> r.groupsByID[id].pacers == c.pacers
  {
    hide CalculateGroupID;
    var c := Collect(jp, r.configs, r.configNames, pod, r.pacersByKey);
    var id := CalculateGroupID(c.pacers, c.configs);
    CollectFillsCache(jp, r.configs, r.configNames, pod, r.pacersByKey);
    if c.configs != [] && id in r.groupsByID {
      var g := r.groupsByID[id];
      assert GroupCoherent(id, g, r.pacersByKey);
      assert AllCached(g.pacers, c.pacersByKey);
      PlainIds(g.pacers, c.pacersByKey);
      PlainIds(c.pacers, c.pacersByKey);
      EqualIds(g.pacers, g.configs, c.pacers, c.configs);
      CachedPacersAreDetermined(g.pacers, c.pacers, c.pacersByKey);
    }
  }

  lemma CoherentInLargerCache(id: string, g: Group, cache: map<string, Pacer>, cache': map<string, Pacer>)
    requires GroupCoherent(id, g, cache)
    requires forall k :: k in cache ==> k in cache' && cache'[k] == cache[k]
    ensures GroupCoherent(id, g, cache')
  {
  }

  lemma GroupsStayCoherent(r: Registry, c: Collected)
    requires forall id :: id in r.groupsByID ==> GroupCoherent(id, r.groupsByID[id], r.pacersByKey)
    requires forall k :: k in r.pacersByKey ==> k in c.pacersByKey && c.pacersByKey[k] == r.pacersByKey[k]
    requires AllCached(c.pacers, c.pacersByKey) && PlainConfigs(c.configs) && |c.pacers| == |c.configs|
    ensures var r' := AddGroup(r, c); forall id :: id in r'.groupsByID ==> GroupCoherent(id, r'.groupsByID[id], r'.pacersByKey)
  {
    hide CalculateGroupID;
    var r' := AddGroup(r, c);
    forall id | id in r'.groupsByID ensures GroupCoherent(id, r'.groupsByID[id], r'.pacersByKey) {
      if id in r.groupsByID {
        hide GroupCoherent;
        CoherentInLargerCache(id, r.groupsByID[id], r.pacersByKey, c.pacersByKey);
      } else {
        assert r'.groupsByID[id] == Group(id, c.configs, c.pacers) && id == CalculateGroupID(c.pacers, c.configs);
      }
    }
  }

  lemma ClassifyKeepsCaches(jp: JsonPath, r: Registry, pod: Pod)
    requires PlainKeys(jp) && CacheInv(r)
    ensures CacheInv(Next(jp, r, Classify(pod)))
  {
    var c := Collect(jp, r.configs, r.configNames, pod, r.pacersByKey);
    NextKeepsRegistry(jp, r, Classify(pod));
    CollectFillsCache(jp, r.configs, r.configNames, pod, r.pacersByKey);
    ClassifyAddsGroup(jp, r, pod);
    hide GroupCoherent, AllCached, PlainConfigs, PlainKeys, Collect, CalculateGroupID, Next;
    GroupsStayCoherent(r, c);
  }

  lemma NextKeepsCaches(jp: JsonPath, r: Registry, op: Op)
    requires PlainKeys(jp) && CacheInv(r) && PlainOps([op]) && NoExpiry([op])
    ensures CacheInv(Next(jp, r, op))
  {
    assert op == [op][0];
    NextKeepsRegistry(jp, r, op);
    if op.Classify? {
      ClassifyKeepsCaches(jp, r, op.pod);
    }
  }

  lemma {:induction false} ExecKeepsCaches(jp: JsonPath, r: Registry, ops: seq<Op>)
    requires PlainKeys(jp) && CacheInv(r) && PlainOps(ops) && NoExpiry(ops)
    ensures CacheInv(Exec(jp, r, ops))
    decreases |ops|
  {
    if ops != [] {
      assert ops[0] == [ops[0]][0];
      NextKeepsCaches(jp, r, ops[0]);
      ExecKeepsCaches(jp, Next(jp, r, ops[0]), ops[1..]);
    }
  }

  /** Cache coherence: without expiry, after any additions, removals, updates and
      classifications, classifying a pod hands out exactly the pacers a composite built afresh
      from the pacer cache would hold, and a later lookup by its id finds the same. */
  lemma CachesCohere(jp: JsonPath, ops: seq<Op>, pod: Pod)
    requires PlainKeys(jp) && PlainOps(ops) && NoExpiry(ops)
    ensures RegistryInv(EMPTY)
    ensures var r := Exec(jp, EMPTY, ops);
            && Registered(r)
            && var c := Collect(jp, r.configs, r.configNames, pod, r.pacersByKey);
               c.configs != [] ==>
                 var id := CalculateGroupID(c.pacers, c.configs);
                 var r' := Next(jp, r, Classify(pod));
                 && id in r'.groupsByID && r'.groupsByID[id].id == id
                 && r'.groupsByID[id].pacers == c.pacers
                 && AllCached(r'.groupsByID[id].pacers, r'.pacersByKey)
  {
    assert CacheInv(EMPTY);
    ExecKeepsCaches(jp, EMPTY, ops);
    var r := Exec(jp, EMPTY, ops);
    CachedGroupIsFresh(jp, r, pod);
    CollectFillsCache(jp, r.configs, r.configNames, pod, r.pacersByKey);
    ClassifyKeepsCaches(jp, r, pod);
    var c := Collect(jp, r.configs, r.configNames, pod, r.pacersByKey);
    if c.configs != [] {
      var id := CalculateGroupID(c.pacers, c.configs);
      var r' := Next(jp, r, Classify(pod));
      assert GroupCoherent(id, r'.groupsByID[id], r'.pacersByKey);
    }
  }

  /** The price of coherence: a pacer in the cache outlives its configuration. Until its key
      expires no update, removal or re-addition replaces it. */
  lemma {:induction false} PacersAreSticky(jp: JsonPath, r: Registry, ops: seq<Op>, key: string)
    requires RegistryInv(r) && key in r.pacersByKey
    requires forall i :: 0 <= i < |ops| ==> ops[i] != ExpirePacer(key)
    ensures key in Exec(jp, r, ops).pacersByKey
    ensures Exec(jp, r, ops).pacersByKey[key] == r.pacersByKey[key]
    decreases |ops|
  {
    if ops != [] {
      NextKeepsRegistry(jp, r, ops[0]);
      var r' := Next(jp, r, ops[0]);
      if ops[0].Classify? {
        CollectKeepsPacer(jp, r.configs, r.configNames, ops[0].pod, r.pacersByKey, key);
      }
      assert key in r'.pacersByKey && r'.pacersByKey[key] == r.pacersByKey[key];
      PacersAreSticky(jp, r', ops[1..], key);
    }
  }

  lemma {:induction false} CollectKeepsPacer(jp: JsonPath, configs: map<string, StaggerGroup>, names: seq<string>, pod: Pod, cache: map<string, Pacer>, key: string)
    requires (forall n :: n in names ==> n in configs) && key in cache
    ensures var c := Collect(jp, configs, names, pod, cache);
            key in c.pacersByKey && c.pacersByKey[key] == cache[key]
  {
    if names != [] {
      CollectKeepsPacer(jp, configs, names[..|names| - 1], pod, cache, key);
    }
  }
}
