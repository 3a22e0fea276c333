/** When the caches are transparent: which registries classify a pod alike whatever was classified
    before, and whichever cache entries expired in between. */
module ClassifierHistory {
  import opened Pods
  import opened Pacers
  import opened GroupId
  import opened Classifier
  import opened ClassifierCaches

  /** What a classification collects with nothing cached. */
  ghost function Afresh(jp: JsonPath, r: Registry, pod: Pod): Collected
    requires Registered(r)
  {
    Collect(jp, r.configs, r.configNames, pod, map[])
  }

  /** What Classify returns: the id and the pacers of the pod's group. */
  ghost function Answer(jp: JsonPath, r: Registry, pod: Pod): Option<(string, seq<Pacer>)>
    requires Registered(r)
  {
    var c := Collect(jp, r.configs, r.configNames, pod, r.pacersByKey);
    if c.configs == [] then None
    else
      var g := Next(jp, r, Classify(pod)).groupsByID[CalculateGroupID(c.pacers, c.configs)];
      Some((g.id, g.pacers))
  }

  ghost predicate ClassifiesAndExpires(ops: seq<Op>) {
    forall i :: 0 <= i < |ops| ==> ops[i].Classify? || ops[i].ExpirePacer? || ops[i].ExpireGroup?
  }

  /** However pods were classified and cache entries expired before, the answer is the same. */
  ghost predicate HistoryFree(jp: JsonPath, r: Registry)
    requires RegistryInv(r)
  {
    forall ops, pod :: ClassifiesAndExpires(ops) ==>
      (ExecKeepsRegistry(jp, r, ops); Answer(jp, Exec(jp, r, ops), pod) == Answer(jp, r, pod))
  }

  /** Any two fresh classifications that make a key make the same pacer for it. */
  ghost predicate OnePacerPerKey(jp: JsonPath, r: Registry)
    requires Registered(r)
  {
    forall pod, pod', i: nat, j: nat :: SharesKey(jp, r, pod, pod', i, j) ==> Afresh(jp, r, pod).pacers[i] == Afresh(jp, r, pod').pacers[j]
  }

  ghost predicate SharesKey(jp: JsonPath, r: Registry, pod: Pod, pod': Pod, i: nat, j: nat)
    requires Registered(r)
  {
    var p, p' := Afresh(jp, r, pod).pacers, Afresh(jp, r, pod').pacers;
    i < |p| && j < |p'| && p[i].key == p'[j].key
  }

  /** The registry is plain and its caches are empty. */
  ghost predicate FreshStart(jp: JsonPath, r: Registry) {
    && PlainKeys(jp) && RegistryInv(r) && (forall n :: n in r.configs ==> PlainName(n))
    && r.pacersByKey == map[] && r.groupsByID == map[]
  }

  // ----- what a classification collects -----

  ghost predicate Keyed(cache: map<string, Pacer>) {
    forall k :: k in cache ==> cache[k].key == k
  }

  /** Every collected pacer is cached under its key, and every new cache entry was collected. */
  lemma {:induction false} CollectCaches(jp: JsonPath, configs: map<string, StaggerGroup>, names: seq<string>, pod: Pod, cache: map<string, Pacer>)
    requires (forall n :: n in names ==> n in configs) && Keyed(cache)
    ensures var c := Collect(jp, configs, names, pod, cache);
            && Keyed(c.pacersByKey) && AllCached(c.pacers, c.pacersByKey)
            && forall k :: k in c.pacersByKey ==> k in cache || c.pacersByKey[k] in c.pacers
  {
    if names != [] {
      CollectCaches(jp, configs, names[..|names| - 1], pod, cache);
    }
  }

  /** Keys and configurations do not depend on the cache. */
  lemma {:induction false} CollectSameKeys(jp: JsonPath, configs: map<string, StaggerGroup>, names: seq<string>, pod: Pod,
                                           cache: map<string, Pacer>, cache': map<string, Pacer>)
    requires (forall n :: n in names ==> n in configs) && Keyed(cache) && Keyed(cache')
    ensures var c, c' := Collect(jp, configs, names, pod, cache), Collect(jp, configs, names, pod, cache');
            && c.configs == c'.configs && |c.pacers| == |c'.pacers|
            && forall i :: 0 <= i < |c.pacers| ==> c.pacers[i].key == c'.pacers[i].key
  {
    if names != [] {
      var k := |names| - 1;
      CollectSameKeys(jp, configs, names[..k], pod, cache, cache');
      CollectCaches(jp, configs, names[..k], pod, cache);
      CollectCaches(jp, configs, names[..k], pod, cache');
      ConsiderKey(jp, configs[names[k]], pod, Collect(jp, configs, names[..k], pod, cache));
      ConsiderKey(jp, configs[names[k]], pod, Collect(jp, configs, names[..k], pod, cache'));
    }
  }

  lemma ConsiderKey(jp: JsonPath, config: StaggerGroup, pod: Pod, c: Collected)
    requires Keyed(c.pacersByKey)
    ensures var c' := Consider(jp, config, pod, c);
            match KeyOf(jp, config, pod)
            case None => c' == c
            case Some(key) =>
              && c'.configs == c.configs + [config]
              && |c'.pacers| == |c.pacers| + 1 && c'.pacers[..|c.pacers|] == c.pacers && c'.pacers[|c.pacers|].key == key
  {
  }

  lemma {:induction false} CollectPrefix(jp: JsonPath, configs: map<string, StaggerGroup>, names: seq<string>, k: nat, pod: Pod, cache: map<string, Pacer>)
    requires k <= |names| && forall n :: n in names ==> n in configs
    ensures Collect(jp, configs, names[..k], pod, cache).pacers <= Collect(jp, configs, names, pod, cache).pacers
  {
    if k == |names| {
      assert names[..k] == names;
    } else {
      var n := |names| - 1;
      CollectPrefix(jp, configs, names[..n], k, pod, cache);
      assert names[..n][..k] == names[..k];
    }
  }

  // ----- a cache that only holds what fresh classifications make -----

  ghost predicate MadeAfresh(jp: JsonPath, r: Registry, p: Pacer)
    requires Registered(r)
  {
    exists pod :: p in Afresh(jp, r, pod).pacers
  }

  ghost predicate CacheMadeAfresh(jp: JsonPath, r: Registry)
    requires Registered(r)
  {
    Keyed(r.pacersByKey) && forall k :: k in r.pacersByKey ==> MadeAfresh(jp, r, r.pacersByKey[k])
  }

  lemma OnePacer(jp: JsonPath, r: Registry, p: Pacer, q: Pacer)
    requires Registered(r) && OnePacerPerKey(jp, r) && MadeAfresh(jp, r, p) && MadeAfresh(jp, r, q) && p.key == q.key
    ensures p == q
  {
    hide Afresh;
    var pod :| p in Afresh(jp, r, pod).pacers;
    var pod' :| q in Afresh(jp, r, pod').pacers;
    var i :| 0 <= i < |Afresh(jp, r, pod).pacers| && Afresh(jp, r, pod).pacers[i] == p;
    var j :| 0 <= j < |Afresh(jp, r, pod').pacers| && Afresh(jp, r, pod').pacers[j] == q;
    assert SharesKey(jp, r, pod, pod', i, j);
  }

  /** Taking a pacer from such a cache or making it comes to the same. */
  lemma ConsiderMerges(jp: JsonPath, r: Registry, config: StaggerGroup, pod: Pod, c: Collected, f: Collected)
    requires Registered(r) && OnePacerPerKey(jp, r) && CacheMadeAfresh(jp, r)
    requires c.pacersByKey == r.pacersByKey + f.pacersByKey && c.pacers == f.pacers && c.configs == f.configs
    requires Keyed(f.pacersByKey)
    requires Consider(jp, config, pod, f).pacers <= Afresh(jp, r, pod).pacers
    ensures var c', f' := Consider(jp, config, pod, c), Consider(jp, config, pod, f);
            c'.pacersByKey == r.pacersByKey + f'.pacersByKey && c'.pacers == f'.pacers && c'.configs == f'.configs
  {
    hide OnePacerPerKey, Afresh, KeyOf;
    var key := KeyOf(jp, config, pod);
    if key.Some? && key.value in r.pacersByKey && key.value !in f.pacersByKey {
      var p, q := r.pacersByKey[key.value], New(config.factory, key.value);
      var made := Consider(jp, config, pod, f).pacers;
      assert made[|made| - 1] == q;
      assert q in Afresh(jp, r, pod).pacers;
      OnePacer(jp, r, p, q);
    }
  }

  /** With such a cache a classification collects what it would afresh. */
  lemma {:induction false} CollectMerges(jp: JsonPath, r: Registry, k: nat, pod: Pod)
    requires Registered(r) && OnePacerPerKey(jp, r) && CacheMadeAfresh(jp, r) && k <= |r.configNames|
    ensures var names := r.configNames[..k];
            var c, f := Collect(jp, r.configs, names, pod, r.pacersByKey), Collect(jp, r.configs, names, pod, map[]);
            c.pacersByKey == r.pacersByKey + f.pacersByKey && c.pacers == f.pacers && c.configs == f.configs
  {
    if k > 0 {
      var names := r.configNames[..k];
      assert names[..k - 1] == r.configNames[..k - 1];
      CollectMerges(jp, r, k - 1, pod);
      CollectCaches(jp, r.configs, names[..k - 1], pod, map[]);
      CollectPrefix(jp, r.configs, r.configNames, k, pod, map[]);
      hide OnePacerPerKey, CacheMadeAfresh, Consider, Keyed;
      ConsiderMerges(jp, r, r.configs[names[k - 1]], pod,
                     Collect(jp, r.configs, names[..k - 1], pod, r.pacersByKey), Collect(jp, r.configs, names[..k - 1], pod, map[]));
    } else {
      assert r.pacersByKey + map[] == r.pacersByKey;
    }
  }

  // ----- what histories keep -----

  ghost predicate GroupMadeAfresh(jp: JsonPath, r: Registry, id: string, g: Group)
    requires Registered(r)
  {
    exists pod :: MakesGroup(Afresh(jp, r, pod), id, g)
  }

  ghost predicate MakesGroup(c: Collected, id: string, g: Group) {
    c.configs != [] && id == CalculateGroupID(c.pacers, c.configs) && g.id == id && g.pacers == c.pacers
  }

  ghost predicate Transparent(jp: JsonPath, r: Registry) {
    && RegistryInv(r)
    && CacheMadeAfresh(jp, r)
    && forall id :: id in r.groupsByID ==> GroupMadeAfresh(jp, r, id, r.groupsByID[id])
  }

  /** Fresh classification looks at the configurations only. */
  lemma SameConfigsSameFresh(jp: JsonPath, r: Registry, r': Registry)
    requires Registered(r) && Registered(r') && r.configs == r'.configs && r.configNames == r'.configNames
    ensures forall pod :: Afresh(jp, r, pod) == Afresh(jp, r', pod)
    ensures OnePacerPerKey(jp, r) <==> OnePacerPerKey(jp, r')
    ensures forall p :: MadeAfresh(jp, r, p) <==> MadeAfresh(jp, r', p)
    ensures forall id, g :: GroupMadeAfresh(jp, r, id, g) <==> GroupMadeAfresh(jp, r', id, g)
  {
    assert forall pod :: Afresh(jp, r, pod) == Afresh(jp, r', pod);
    hide Afresh;
    assert forall pod, pod', i: nat, j: nat :: SharesKey(jp, r, pod, pod', i, j) <==> SharesKey(jp, r', pod, pod', i, j);
  }

  lemma CollectFromCache(jp: JsonPath, r: Registry, pod: Pod)
    requires Registered(r) && OnePacerPerKey(jp, r) && CacheMadeAfresh(jp, r)
    ensures var c, f := Collect(jp, r.configs, r.configNames, pod, r.pacersByKey), Afresh(jp, r, pod);
            && c.pacersByKey == r.pacersByKey + f.pacersByKey && c.pacers == f.pacers && c.configs == f.configs
            && Keyed(f.pacersByKey) && forall k :: k in f.pacersByKey ==> f.pacersByKey[k] in f.pacers
  {
    assert r.configNames[..|r.configNames|] == r.configNames;
    CollectMerges(jp, r, |r.configNames|, pod);
    CollectCaches(jp, r.configs, r.configNames, pod, map[]);
  }

  lemma ClassifyKeepsCacheMade(jp: JsonPath, r: Registry, r': Registry, pod: Pod)
    requires Registered(r) && Registered(r') && OnePacerPerKey(jp, r) && CacheMadeAfresh(jp, r)
    requires r'.configs == r.configs && r'.configNames == r.configNames
    requires r'.pacersByKey == Collect(jp, r.configs, r.configNames, pod, r.pacersByKey).pacersByKey
    ensures CacheMadeAfresh(jp, r')
  {
    CollectFromCache(jp, r, pod);
    SameConfigsSameFresh(jp, r, r');
    hide OnePacerPerKey, Afresh, GroupMadeAfresh;
    forall k | k in r'.pacersByKey ensures r'.pacersByKey[k].key == k && MadeAfresh(jp, r, r'.pacersByKey[k]) {
      if k in Afresh(jp, r, pod).pacersByKey {
        assert r'.pacersByKey[k] in Afresh(jp, r, pod).pacers;
      }
    }
  }

  lemma GroupsAfterAdd(jp: JsonPath, r: Registry, c: Collected, pod: Pod)
    requires Registered(r) && c.pacers == Afresh(jp, r, pod).pacers && c.configs == Afresh(jp, r, pod).configs
    requires forall id :: id in r.groupsByID ==> GroupMadeAfresh(jp, r, id, r.groupsByID[id])
    ensures forall id :: id in AddGroup(r, c).groupsByID ==> GroupMadeAfresh(jp, r, id, AddGroup(r, c).groupsByID[id])
  {
    hide Afresh, CalculateGroupID;
    var r' := AddGroup(r, c);
    forall id | id in r'.groupsByID ensures GroupMadeAfresh(jp, r, id, r'.groupsByID[id]) {
      if id !in r.groupsByID {
        assert MakesGroup(Afresh(jp, r, pod), id, r'.groupsByID[id]);
      }
    }
  }

  lemma ClassifyKeepsTransparent(jp: JsonPath, r: Registry, pod: Pod)
    requires Transparent(jp, r) && OnePacerPerKey(jp, r)
    ensures Transparent(jp, Next(jp, r, Classify(pod)))
  {
    var r' := Next(jp, r, Classify(pod));
    assert Registered(r);
    NextKeepsRegistry(jp, r, Classify(pod));
    ClassifyAddsGroup(jp, r, pod);
    hide RegistryInv, OnePacerPerKey, MadeAfresh, GroupMadeAfresh, Afresh, CacheMadeAfresh, Collect, Next, AddGroup;
    ClassifyKeepsCacheMade(jp, r, r', pod);
    CollectFromCache(jp, r, pod);
    GroupsAfterAdd(jp, r, Collect(jp, r.configs, r.configNames, pod, r.pacersByKey), pod);
    SameConfigsSameFresh(jp, r, r');
  }

  lemma ExpiryKeepsTransparent(jp: JsonPath, r: Registry, op: Op)
    requires Transparent(jp, r) && (op.ExpirePacer? || op.ExpireGroup?)
    ensures Transparent(jp, Next(jp, r, op))
    ensures Next(jp, r, op).configs == r.configs && Next(jp, r, op).configNames == r.configNames
  {
    ExpiryShrinks(jp, r, op);
    NextKeepsRegistry(jp, r, op);
    hide Next, Transparent;
    FewerEntriesStayFresh(jp, r, Next(jp, r, op));
  }

  lemma FewerEntriesStayFresh(jp: JsonPath, r: Registry, r': Registry)
    requires Transparent(jp, r) && RegistryInv(r') && r'.configs == r.configs && r'.configNames == r.configNames
    requires forall k :: k in r'.pacersByKey ==> k in r.pacersByKey && r'.pacersByKey[k] == r.pacersByKey[k]
    requires forall id :: id in r'.groupsByID ==> id in r.groupsByID && r'.groupsByID[id] == r.groupsByID[id]
    ensures Transparent(jp, r')
  {
    assert Registered(r) && Registered(r');
    hide RegistryInv, OnePacerPerKey, MadeAfresh, GroupMadeAfresh, Afresh, Registered;
    forall k | k in r'.pacersByKey ensures r'.pacersByKey[k].key == k && MadeAfresh(jp, r', r'.pacersByKey[k]) {
      SameConfigsSameFresh(jp, r, r');
    }
    forall id | id in r'.groupsByID ensures GroupMadeAfresh(jp, r', id, r'.groupsByID[id]) {
      SameConfigsSameFresh(jp, r, r');
    }
  }

  lemma ExpiryShrinks(jp: JsonPath, r: Registry, op: Op)
    requires Registered(r) && (op.ExpirePacer? || op.ExpireGroup?)
    ensures var r' := Next(jp, r, op);
            && r'.configs == r.configs && r'.configNames == r.configNames && Registered(r')
            && (forall k :: k in r'.pacersByKey ==> k in r.pacersByKey && r'.pacersByKey[k] == r.pacersByKey[k])
            && (forall id :: id in r'.groupsByID ==> id in r.groupsByID && r'.groupsByID[id] == r.groupsByID[id])
  {
  }

  lemma NextKeepsTransparent(jp: JsonPath, r: Registry, op: Op)
    requires Transparent(jp, r) && OnePacerPerKey(jp, r) && (op.Classify? || op.ExpirePacer? || op.ExpireGroup?)
    ensures RegistryInv(Next(jp, r, op)) && Transparent(jp, Next(jp, r, op)) && OnePacerPerKey(jp, Next(jp, r, op))
    ensures Next(jp, r, op).configs == r.configs && Next(jp, r, op).configNames == r.configNames
  {
    assert Registered(r);
    NextKeepsRegistry(jp, r, op);
    assert Registered(Next(jp, r, op));
    hide Transparent, OnePacerPerKey, RegistryInv, Next;
    if op.Classify? {
      ClassifyKeepsTransparent(jp, r, op.pod);
      ClassifyAddsGroup(jp, r, op.pod);
    } else {
      ExpiryKeepsTransparent(jp, r, op);
    }
    SameConfigsSameFresh(jp, r, Next(jp, r, op));
  }

  lemma {:induction false} ExecKeepsTransparent(jp: JsonPath, r: Registry, ops: seq<Op>)
    requires Transparent(jp, r) && OnePacerPerKey(jp, r) && ClassifiesAndExpires(ops)
    ensures Transparent(jp, Exec(jp, r, ops))
    ensures Exec(jp, r, ops).configs == r.configs && Exec(jp, r, ops).configNames == r.configNames
    decreases |ops|
  {
    if ops != [] {
      assert RegistryInv(r);
      hide Transparent, OnePacerPerKey, RegistryInv, Next;
      NextKeepsTransparent(jp, r, ops[0]);
      ExecKeepsTransparent(jp, Next(jp, r, ops[0]), ops[1..]);
    }
  }

  // ----- the answer -----

  lemma FreshListIsPlain(jp: JsonPath, r: Registry, pod: Pod)
    requires PlainKeys(jp) && RegistryInv(r) && forall n :: n in r.configs ==> PlainName(n)
    ensures var c := Afresh(jp, r, pod);
            |c.pacers| == |c.configs| && AllFree(PacerIds(c.pacers), ',') && PlainConfigs(c.configs)
  {
    CollectFillsCache(jp, r.configs, r.configNames, pod, map[]);
    PlainIds(Afresh(jp, r, pod).pacers, Afresh(jp, r, pod).pacersByKey);
  }

  /** Two fresh classifications with the same id have the same pacers. */
  lemma FreshIdDeterminesPacers(jp: JsonPath, r: Registry, pod: Pod, pod': Pod)
    requires PlainKeys(jp) && RegistryInv(r) && (forall n :: n in r.configs ==> PlainName(n)) && OnePacerPerKey(jp, r)
    requires var c, c' := Afresh(jp, r, pod), Afresh(jp, r, pod');
             && c.configs != [] && c'.configs != []
             && CalculateGroupID(c.pacers, c.configs) == CalculateGroupID(c'.pacers, c'.configs)
    ensures Afresh(jp, r, pod).pacers == Afresh(jp, r, pod').pacers
  {
    FreshListIsPlain(jp, r, pod);
    FreshListIsPlain(jp, r, pod');
    var c, c' := Afresh(jp, r, pod), Afresh(jp, r, pod');
    hide Afresh, RegistryInv, PlainKeys, PlainConfigs, AllFree, CalculateGroupID, PlainName;
    EqualIds(c.pacers, c.configs, c'.pacers, c'.configs);
    forall i: nat | i < |c.pacers| ensures c.pacers[i] == c'.pacers[i] {
      assert SharesKey(jp, r, pod, pod', i, i);
    }
  }

  lemma AnswerWhenCached(jp: JsonPath, r: Registry, pod: Pod)
    requires Registered(r)
    ensures var c := Collect(jp, r.configs, r.configNames, pod, r.pacersByKey);
            var id := CalculateGroupID(c.pacers, c.configs);
            Answer(jp, r, pod) ==
              if c.configs == [] then None
              else if id in r.groupsByID then Some((r.groupsByID[id].id, r.groupsByID[id].pacers))
              else Some((id, c.pacers))
  {
  }

  ghost function FreshAnswer(c: Collected): Option<(string, seq<Pacer>)> {
    if c.configs == [] then None else Some((CalculateGroupID(c.pacers, c.configs), c.pacers))
  }

  lemma TransparentAnswer(jp: JsonPath, r: Registry, pod: Pod)
    requires PlainKeys(jp) && Transparent(jp, r) && (forall n :: n in r.configs ==> PlainName(n)) && OnePacerPerKey(jp, r)
    ensures Answer(jp, r, pod) == FreshAnswer(Afresh(jp, r, pod))
  {
    var f := Afresh(jp, r, pod);
    CollectFromCache(jp, r, pod);
    AnswerWhenCached(jp, r, pod);
    hide CalculateGroupID, OnePacerPerKey, CacheMadeAfresh, Afresh, Answer, PlainKeys, RegistryInv;
    var id := CalculateGroupID(f.pacers, f.configs);
    if f.configs != [] && id in r.groupsByID {
      var pod' :| MakesGroup(Afresh(jp, r, pod'), id, r.groupsByID[id]);
      FreshIdDeterminesPacers(jp, r, pod', pod);
    }
  }

  /** Cache transparency: if no two fresh classifications make different pacers for a key, then
      the id and the pacers a classification returns are a function of the pod alone, whatever
      was classified before and whichever cache entries expired in between. */
  lemma CachesAreTransparent(jp: JsonPath, r: Registry, ops: seq<Op>, pod: Pod)
    requires FreshStart(jp, r) && OnePacerPerKey(jp, r) && ClassifiesAndExpires(ops)
    ensures Registered(Exec(jp, r, ops))
    ensures Answer(jp, Exec(jp, r, ops), pod) == FreshAnswer(Afresh(jp, r, pod))
  {
    hide OnePacerPerKey, PlainKeys, PlainName, Answer, FreshAnswer, Afresh, MadeAfresh, GroupMadeAfresh;
    assert Transparent(jp, r);
    ExecKeepsTransparent(jp, r, ops);
    var later := Exec(jp, r, ops);
    SameConfigsSameFresh(jp, r, later);
    TransparentAnswer(jp, later, pod);
  }

  /** The condition is needed: a key for which two fresh classifications make different pacers
      makes the answer depend on history, and one earlier classification is enough. */
  lemma SharedKeyDependsOnHistory(jp: JsonPath, r: Registry, pod: Pod, pod': Pod, i: nat, j: nat)
    requires FreshStart(jp, r) && SharesKey(jp, r, pod, pod', i, j)
    requires Afresh(jp, r, pod).pacers[i] != Afresh(jp, r, pod').pacers[j]
    ensures var later := Next(jp, r, Classify(pod));
            Registered(later) && Answer(jp, later, pod') != Answer(jp, r, pod')
  {
    var later := Next(jp, r, Classify(pod));
    var c, f, f' := Collect(jp, r.configs, r.configNames, pod', later.pacersByKey), Afresh(jp, r, pod), Afresh(jp, r, pod');
    AfterOneClassify(jp, r, pod);
    CollectCaches(jp, r.configs, r.configNames, pod, map[]);
    CollectCaches(jp, r.configs, r.configNames, pod', later.pacersByKey);
    CollectSameKeys(jp, r.configs, r.configNames, pod', later.pacersByKey, map[]);
    CollectKeepsPacer(jp, r.configs, r.configNames, pod', later.pacersByKey, f.pacers[i].key);
    hide Collect, CalculateGroupID, Next;
    assert c.pacers[j] == f.pacers[i];
    AnswerIsCollected(jp, later, pod');
    AnswerIsCollected(jp, r, pod');
    assert c.pacers != f'.pacers;
  }

  lemma AfterOneClassify(jp: JsonPath, r: Registry, pod: Pod)
    requires FreshStart(jp, r)
    ensures var later := Next(jp, r, Classify(pod));
            && CacheInv(r) && CacheInv(later) && later.configs == r.configs && later.configNames == r.configNames
            && later.pacersByKey == Afresh(jp, r, pod).pacersByKey
  {
    assert CacheInv(r) by { hide Collect, Next; }
    hide CacheInv, Collect, CalculateGroupID;
    ClassifyKeepsCaches(jp, r, pod);
    ClassifyAddsGroup(jp, r, pod);
  }

  /** While the caches cohere the answer has the pacers just collected. */
  lemma AnswerIsCollected(jp: JsonPath, r: Registry, pod: Pod)
    requires PlainKeys(jp) && CacheInv(r)
    ensures var c := Collect(jp, r.configs, r.configNames, pod, r.pacersByKey);
            if c.configs == [] then Answer(jp, r, pod) == None
            else Answer(jp, r, pod).Some? && Answer(jp, r, pod).value.1 == c.pacers
  {
    AnswerWhenCached(jp, r, pod);
    CachedGroupIsFresh(jp, r, pod);
  }

  /** Exactly when classification is history-free: if and only if any two fresh classifications
      that make a key make the same pacer for it. */
  lemma HistoryFreeIff(jp: JsonPath, r: Registry)
    requires FreshStart(jp, r)
    ensures HistoryFree(jp, r) <==> OnePacerPerKey(jp, r)
  {
    hide Afresh, Answer, Next, FreshAnswer;
    if OnePacerPerKey(jp, r) {
      forall ops, pod | ClassifiesAndExpires(ops)
        ensures RegistryInv(Exec(jp, r, ops)) && Answer(jp, Exec(jp, r, ops), pod) == Answer(jp, r, pod)
      {
        ExecKeepsRegistry(jp, r, ops);
        CachesAreTransparent(jp, r, ops, pod);
        CachesAreTransparent(jp, r, [], pod);
        assert Exec(jp, r, []) == r;
      }
    } else {
      var pod, pod', i: nat, j: nat :| SharesKey(jp, r, pod, pod', i, j) && Afresh(jp, r, pod).pacers[i] != Afresh(jp, r, pod').pacers[j];
      SharedKeyDependsOnHistory(jp, r, pod, pod', i, j);
      var ops := [Classify(pod)];
      assert ops[1..] == [];
      assert Exec(jp, r, ops) == Next(jp, r, Classify(pod));
      assert ClassifiesAndExpires(ops);
    }
  }

  // ----- a condition on the configurations -----

  /** Configurations that can give the same key have the same pacer factory. */
  ghost predicate OneFactoryPerKey(jp: JsonPath, r: Registry)
    requires Registered(r)
  {
    forall n, n', pod, pod' ::
      && n in r.configNames && n' in r.configNames
      && KeyOf(jp, r.configs[n], pod).Some? && KeyOf(jp, r.configs[n], pod) == KeyOf(jp, r.configs[n'], pod')
      ==> r.configs[n].factory == r.configs[n'].factory
  }

  ghost predicate MadeBy(jp: JsonPath, r: Registry, pod: Pod, p: Pacer)
    requires Registered(r)
  {
    exists n :: n in r.configNames && KeyOf(jp, r.configs[n], pod) == Some(p.key) && p == New(r.configs[n].factory, p.key)
  }

  lemma {:induction false} FreshPacersAreMade(jp: JsonPath, r: Registry, k: nat, pod: Pod)
    requires Registered(r) && k <= |r.configNames|
    ensures var c := Collect(jp, r.configs, r.configNames[..k], pod, map[]);
            && Keyed(c.pacersByKey)
            && (forall p :: p in c.pacers ==> MadeBy(jp, r, pod, p))
            && forall key :: key in c.pacersByKey ==> MadeBy(jp, r, pod, c.pacersByKey[key])
  {
    if k > 0 {
      FreshPacersAreMade(jp, r, k - 1, pod);
      var names := r.configNames[..k];
      assert names[..k - 1] == r.configNames[..k - 1];
      var config := r.configs[names[k - 1]];
      var key := KeyOf(jp, config, pod);
      if key.Some? {
        assert MadeBy(jp, r, pod, New(config.factory, key.value));
      }
      hide MadeBy;
    }
  }

  lemma MadeAlike(jp: JsonPath, r: Registry, pod: Pod, pod': Pod, p: Pacer, q: Pacer)
    requires Registered(r) && OneFactoryPerKey(jp, r) && p.key == q.key
    requires MadeBy(jp, r, pod, p) && MadeBy(jp, r, pod', q)
    ensures p == q
  {
    hide KeyOf;
    var n :| n in r.configNames && KeyOf(jp, r.configs[n], pod) == Some(p.key) && p == New(r.configs[n].factory, p.key);
    var n' :| n' in r.configNames && KeyOf(jp, r.configs[n'], pod') == Some(q.key) && q == New(r.configs[n'].factory, q.key);
    assert r.configs[n].factory == r.configs[n'].factory;
  }

  /** It suffices for transparency that configurations sharing a key make equal pacers for it. */
  lemma EqualFactoriesSuffice(jp: JsonPath, r: Registry)
    requires Registered(r) && OneFactoryPerKey(jp, r)
    ensures OnePacerPerKey(jp, r)
  {
    assert r.configNames[..|r.configNames|] == r.configNames;
    forall pod, pod', i: nat, j: nat | SharesKey(jp, r, pod, pod', i, j)
      ensures Afresh(jp, r, pod).pacers[i] == Afresh(jp, r, pod').pacers[j]
    {
      FreshPacersAreMade(jp, r, |r.configNames|, pod);
      FreshPacersAreMade(jp, r, |r.configNames|, pod');
      hide Collect;
      MadeAlike(jp, r, pod, pod', Afresh(jp, r, pod).pacers[i], Afresh(jp, r, pod').pacers[j]);
    }
  }
}
