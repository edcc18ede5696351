/** The QuotaPolicy controller: an incremental cache of built configurations, the
    merged snapshot pushed to the rate limit service, the retained target keys and
    the route notifications. */
module QuotaController {
  import opened Text
  import opened Wrappers
  import opened Api
  import opened Sorting
  import opened DescriptorMerge

  datatype RateLimitConfig = RateLimitConfig(name: string, domain: string, descriptors: seq<Descriptor>)
  type Configs = seq<RateLimitConfig>
  type Cache = map<string, Configs>

  const QUOTA_DOMAIN := "ai-gateway-quota"

  // --------------------------------------------------------------- recomputation

  ghost predicate Least(keys: set<string>, k: string) {
    k in keys && forall x :: x in keys ==> Le(k, x)
  }

  /** A finite set of strings in byte order. */
  ghost function SortedKeys(keys: set<string>): (s: seq<string>)
    ensures forall k :: k in s <==> k in keys
  {
    if keys == {} then []
    else
      LeastExists(keys);
      var k :| Least(keys, k);
      [k] + SortedKeys(keys - {k})
  }

  lemma {:induction false} SortedKeysSorted(keys: set<string>)
    ensures Sorted(Le, SortedKeys(keys))
    ensures forall i, j :: 0 <= i < j < |SortedKeys(keys)| ==> SortedKeys(keys)[i] != SortedKeys(keys)[j]
  {
    if keys != {} {
      LeastExists(keys);
      var s := SortedKeys(keys);
      var k, rest := s[0], s[1..];
      assert Least(keys, k) && rest == SortedKeys(keys - {k});
      SortedKeysSorted(keys - {k});
      forall i | 0 <= i < |rest| ensures Le(k, rest[i]) && rest[i] != k {
        assert rest[i] in rest;
      }
    }
  }

  lemma {:induction false} SortedKeysOnce(keys: set<string>)
    ensures multiset(SortedKeys(keys)) == multiset(keys)
  {
    if keys != {} {
      LeastExists(keys);
      var s := SortedKeys(keys);
      var k := s[0];
      assert Least(keys, k) && s[1..] == SortedKeys(keys - {k});
      SortedKeysOnce(keys - {k});
      assert s == [k] + s[1..];
      assert keys == (keys - {k}) + {k};
    }
  }

  lemma LeastExists(keys: set<string>)
    requires keys != {}
    ensures exists k :: Least(keys, k)
  {
    var k :| k in keys;
    LeTotal(k, k);
    if keys == {k} {
      assert Least(keys, k);
    } else {
      assert keys - {k} != {};
      LeastExists(keys - {k});
      var m :| Least(keys - {k}, m);
      LeTotal(k, m);
      if Le(k, m) {
        forall x | x in keys ensures Le(k, x) {
          if x != k {
            LeTransitive(k, m, x);
          }
        }
        assert Least(keys, k);
      } else {
        assert Least(keys, m);
      }
    }
  }

  lemma SortingSortsKeys(keys: seq<string>, all: set<string>)
    requires multiset(keys) == multiset(all)
    ensures Sort(Le, keys) == SortedKeys(all)
  {
    SortedKeysOnce(all);
    SortedKeysSorted(all);
    LeOrders(all);
    forall i | 0 <= i < |keys| ensures keys[i] in all {
      assert keys[i] in multiset(keys);
      assert keys[i] in multiset(all);
    }
    SortSorts(Le, keys, all);
    SameElements(keys, Sort(Le, keys), all);
    SortedUnique(Le, Sort(Le, keys), SortedKeys(all), all);
  }

  lemma LeOrders(keys: set<string>)
    ensures Orders(Le, keys)
  {
    forall x, y | x in keys && y in keys ensures Le(x, y) || Le(y, x) {
      LeTotal(x, y);
    }
    forall x, y | x in keys && y in keys && Le(x, y) && Le(y, x) ensures x == y {
      LeAntisymmetric(x, y);
    }
    forall x, y, z | x in keys && y in keys && z in keys && Le(x, y) && Le(y, z) ensures Le(x, z) {
      LeTransitive(x, y, z);
    }
  }

  function DescriptorsOf(configs: Configs): seq<Descriptor> {
    if configs == [] then [] else configs[0].descriptors + DescriptorsOf(configs[1..])
  }

  function AllDescriptors(cache: Cache, keys: seq<string>): seq<Descriptor>
    requires forall k :: k in keys ==> k in cache
  {
    if keys == [] then []
    else DescriptorsOf(cache[keys[0]]) + AllDescriptors(cache, keys[1..])
  }

  function Merged(all: seq<Descriptor>): Configs {
    if all == [] then [] else [RateLimitConfig(QUOTA_DOMAIN, QUOTA_DOMAIN, Merge(all))]
  }

  /** The snapshot recomputed from the cached configurations alone. */
  ghost function Snapshot(cache: Cache): Configs {
    Merged(AllDescriptors(cache, SortedKeys(cache.Keys)))
  }

  // -------------------------------------------------- events and whole runs

  datatype State = State(cache: Cache, targets: map<string, seq<string>>, pushed: Option<Configs>)

  /** What one reconcile does to the controller's memory: a sync that built something
      or failed before the cache, a finalizer run, a reconcile of a vanished policy, or
      nothing (the read failed, or somebody else's finalizer is pending). */
  datatype Event =
    | Ignored(key: string)
    | Synced(key: string, built: Option<Configs>, targetKeys: seq<string>, pushOk: bool)
    | Finalized(key: string, pushOk: bool)
    | Gone(key: string, pushOk: bool, listsOk: bool)

  ghost function Pushed(s: State, cache: Cache, ok: bool): Option<Configs> {
    if ok then Some(Snapshot(cache)) else s.pushed
  }

  ghost function Step(s: State, e: Event): State {
    match e
    case Ignored(_) => s
    case Synced(key, built, keys, ok) =>
      if built.None? then s
      else
        var cache := s.cache[key := built.value];
        State(cache, s.targets[key := keys], Pushed(s, cache, ok))
    case Finalized(key, ok) =>
      var cache := s.cache - {key};
      State(cache, s.targets, Pushed(s, cache, ok))
    case Gone(key, ok, listsOk) =>
      var cache := s.cache - {key};
      State(cache, if ok && listsOk then s.targets - {key} else s.targets, Pushed(s, cache, ok))
  }

  const START := State(map[], map[], None)

  ghost function Run(events: seq<Event>): State {
    if events == [] then START else Step(Run(events[..|events| - 1]), events[|events| - 1])
  }

  /** The configuration a key was last built with, found by looking back from the end. */
  function LastBuilt(events: seq<Event>, key: string): Option<Configs> {
    if events == [] then None
    else
      var e := events[|events| - 1];
      if e.key == key && e.Synced? && e.built.Some? then e.built
      else if e.key == key && (e.Finalized? || e.Gone?) then None
      else LastBuilt(events[..|events| - 1], key)
  }

  predicate Touches(e: Event) {
    !e.Ignored? && (e.Synced? ==> e.built.Some?)
  }

  /** Whether the last event that changed the cache also reached the service. */
  predicate LastPushOk(events: seq<Event>) {
    if events == [] then false
    else
      var e := events[|events| - 1];
      if Touches(e) then e.pushOk else LastPushOk(events[..|events| - 1])
  }

  /** After every run the cache holds exactly the last built configurations. */
  lemma {:induction false} CacheIsLastBuilt(events: seq<Event>, key: string)
    ensures key in Run(events).cache <==> LastBuilt(events, key).Some?
    ensures key in Run(events).cache ==> Run(events).cache[key] == LastBuilt(events, key).value
  {
    if events != [] {
      CacheIsLastBuilt(events[..|events| - 1], key);
    }
  }

  /** After every run whose last change was pushed, the service holds the snapshot
      recomputed from the cache. */
  lemma {:induction false} PushedIsRecomputed(events: seq<Event>)
    requires LastPushOk(events)
    ensures Run(events).pushed == Some(Snapshot(Run(events).cache))
  {
    if !Touches(events[|events| - 1]) {
      PushedIsRecomputed(events[..|events| - 1]);
    }
  }

  /** Every cached policy has its target keys retained. */
  lemma {:induction false} CachedKeysAreRetained(events: seq<Event>)
    ensures Run(events).cache.Keys <= Run(events).targets.Keys
  {
    if events != [] {
      CachedKeysAreRetained(events[..|events| - 1]);
    }
  }

  /** The targets a policy was last built for, until a reconcile finds it gone, pushes that and
      tells every route it has to. */
  function LastTargets(events: seq<Event>, key: string): Option<seq<string>> {
    if events == [] then None
    else
      var before := LastTargets(events[..|events| - 1], key);
      match events[|events| - 1]
      case Synced(k, Some(_), keys, _) => if k == key then Some(keys) else before
      case Gone(k, pushOk, listsOk) => if k == key && pushOk && listsOk then None else before
      case _ => before
  }

  /** After every run exactly these are retained. */
  lemma {:induction false} RetainedIsLastTargets(events: seq<Event>, key: string)
    ensures key in Run(events).targets <==> LastTargets(events, key).Some?
    ensures key in Run(events).targets ==> Run(events).targets[key] == LastTargets(events, key).value
  {
    if events != [] {
      RetainedIsLastTargets(events[..|events| - 1], key);
    }
  }

  lemma SameCaches(a: State, b: State, events: seq<Event>, events': seq<Event>)
    requires a == Run(events) && b == Run(events')
    requires forall key :: LastBuilt(events, key) == LastBuilt(events', key)
    ensures a.cache == b.cache
  {
    forall key
      ensures key in a.cache <==> key in b.cache
      ensures key in a.cache ==> a.cache[key] == b.cache[key]
    {
      CacheIsLastBuilt(events, key);
      CacheIsLastBuilt(events', key);
    }
  }

  /** The order of reconciles cannot show: runs that last built the same
      configurations leave the same snapshot in the service. */
  lemma OrderOfReconcilesIsInvisible(events: seq<Event>, events': seq<Event>)
    requires LastPushOk(events) && LastPushOk(events')
    requires forall key :: LastBuilt(events, key) == LastBuilt(events', key)
    ensures Run(events).pushed == Run(events').pushed
  {
    var a, b := Run(events), Run(events');
    SameCaches(a, b, events, events');
    PushedIsRecomputed(events);
    PushedIsRecomputed(events');
  }

  // ------------------------------------------------------------------ precedence

  /** What one cached policy says at a path. */
  function PolicyMeaning(cache: Cache, key: string, path: seq<string>): Meaning
    requires key in cache && path != []
  {
    MeaningAt(DescriptorsOf(cache[key]), path)
  }

  function LimitOf(m: Meaning): Option<Limit> {
    if m.Absent? then None else m.limit
  }

  lemma {:induction false} FirstKeyWins(cache: Cache, keys: seq<string>, i: nat, path: seq<string>)
    requires (forall k :: k in keys ==> k in cache) && path != [] && i <= |keys|
    requires forall j :: 0 <= j < i ==> LimitOf(PolicyMeaning(cache, keys[j], path)).None?
    requires i < |keys| ==> LimitOf(PolicyMeaning(cache, keys[i], path)).Some?
    ensures LimitOf(MeaningAt(AllDescriptors(cache, keys), path)) ==
            if i < |keys| then LimitOf(PolicyMeaning(cache, keys[i], path)) else None
  {
    if keys != [] {
      MeaningConcat(DescriptorsOf(cache[keys[0]]), AllDescriptors(cache, keys[1..]), path);
      if i > 0 {
        assert forall j :: 0 <= j < i - 1 ==> keys[1..][j] == keys[j + 1];
        FirstKeyWins(cache, keys[1..], i - 1, path);
      }
    }
  }

  /** At every path the pushed limit is that of the cached policy whose
      "namespace/name" comes first in byte order among those with a limit there. */
  lemma FirstPolicyTakesPrecedence(cache: Cache, winner: string, path: seq<string>)
    requires path != [] && winner in cache
    requires LimitOf(PolicyMeaning(cache, winner, path)).Some?
    requires forall k :: k in cache && k != winner && Le(k, winner) ==> LimitOf(PolicyMeaning(cache, k, path)).None?
    ensures Snapshot(cache) != []
    ensures LimitOf(MeaningAt(Snapshot(cache)[0].descriptors, path)) == LimitOf(PolicyMeaning(cache, winner, path))
  {
    var keys := SortedKeys(cache.Keys);
    SortedKeysSorted(cache.Keys);
    assert winner in keys;
    var i :| 0 <= i < |keys| && keys[i] == winner;
    forall j | 0 <= j < i ensures LimitOf(PolicyMeaning(cache, keys[j], path)).None? {
      assert keys[j] in keys && Le(keys[j], keys[i]);
    }
    FirstKeyWins(cache, keys, i, path);
    MergePreservesMeaning(AllDescriptors(cache, keys), path);
  }

  /** And where no cached policy has a limit, the snapshot has none. */
  lemma NoPolicyNoLimit(cache: Cache, path: seq<string>)
    requires path != [] && Snapshot(cache) != []
    requires forall k :: k in cache ==> LimitOf(PolicyMeaning(cache, k, path)).None?
    ensures LimitOf(MeaningAt(Snapshot(cache)[0].descriptors, path)).None?
  {
    var keys := SortedKeys(cache.Keys);
    forall j | 0 <= j < |keys| ensures LimitOf(PolicyMeaning(cache, keys[j], path)).None? {
      assert keys[j] in keys;
    }
    FirstKeyWins(cache, keys, |keys|, path);
    MergePreservesMeaning(AllDescriptors(cache, keys), path);
  }

  /** The order of "namespace/name" strings against the order of (namespace, name)
      pairs: they disagree exactly when one namespace continues the other with '-'. */
  lemma KeyOrderAgainstPairOrder(ns: string, n: string, ns': string, n': string)
    requires Label(ns) && Label(ns') && ns != ns'
    ensures (Le(NamespacedKey(ns, n), NamespacedKey(ns', n')) <==> Le(ns, ns')) <==>
            !(HasPrefix(ns', ns + "-") || HasPrefix(ns, ns' + "-"))
  {
    var i := CommonPrefix(ns, ns');
    WithoutCommon(ns, n, ns', n', i);
    LabelTail(ns, i);
    LabelTail(ns', i);
    LeAfterSplit(ns[i..], n, ns'[i..], n');
    DashPrefix(ns, ns', i);
    DashPrefix(ns', ns, i);
  }

  lemma WithoutCommon(ns: string, n: string, ns': string, n': string, i: nat)
    requires i <= |ns| && i <= |ns'| && ns[..i] == ns'[..i]
    ensures Le(ns, ns') <==> Le(ns[i..], ns'[i..])
    ensures Le(NamespacedKey(ns, n), NamespacedKey(ns', n')) <==> Le(ns[i..] + ['/'] + n, ns'[i..] + ['/'] + n')
  {
    KeySplit(ns, n, i);
    KeySplit(ns', n', i);
    LePrefix(ns[..i], ns[i..], ns'[i..]);
    LePrefix(ns[..i], ns[i..] + ['/'] + n, ns'[i..] + ['/'] + n');
  }

  lemma KeySplit(ns: string, n: string, i: nat)
    requires i <= |ns|
    ensures ns[..i] + ns[i..] == ns && ns[..i] + (ns[i..] + ['/'] + n) == NamespacedKey(ns, n)
  {}

  lemma LabelTail(ns: string, i: nat)
    requires Label(ns) && i <= |ns|
    ensures forall k :: 0 <= k < |ns[i..]| ==> ns[i..][k] == '-' || ns[i..][k] > '/'
  {
    assert forall k :: 0 <= k < |ns[i..]| ==> ns[i..][k] == ns[i + k] && ns[i + k] in ns;
  }

  lemma LeAfterSplit(a: string, n: string, b: string, n': string)
    requires forall k :: 0 <= k < |a| ==> a[k] == '-' || a[k] > '/'
    requires forall k :: 0 <= k < |b| ==> b[k] == '-' || b[k] > '/'
    requires a != "" || b != ""
    requires a != "" && b != "" ==> a[0] != b[0]
    ensures (Le(a + ['/'] + n, b + ['/'] + n') <==> Le(a, b)) <==>
            !((a == "" && b[0] == '-') || (b == "" && a[0] == '-'))
  {
    var x, y := a + ['/'] + n, b + ['/'] + n';
    assert x[0] == if a == "" then '/' else a[0];
    assert y[0] == if b == "" then '/' else b[0];
  }

  lemma DashPrefix(ns: string, ns': string, i: nat)
    requires i <= |ns| && i <= |ns'| && ns[..i] == ns'[..i] && ns != ns'
    requires i < |ns| && i < |ns'| ==> ns[i] != ns'[i]
    ensures HasPrefix(ns', ns + "-") <==> i == |ns| && i < |ns'| && ns'[i] == '-'
  {
    assert i < |ns'| ==> ns'[..i + 1] == ns'[..i] + [ns'[i]];
    if HasPrefix(ns', ns + "-") {
      assert ns'[..|ns| + 1][|ns|] == '-';
      assert forall k :: 0 <= k < |ns| ==> ns'[k] == ns'[..|ns| + 1][k] == ns[k];
    }
  }

  function CommonPrefix(a: string, b: string): (i: nat)
    ensures i <= |a| && i <= |b| && a[..i] == b[..i]
    ensures i < |a| && i < |b| ==> a[i] != b[i]
    ensures i == |a| && i == |b| ==> a == b
  {
    if a == "" || b == "" || a[0] != b[0] then 0
    else
      var i := CommonPrefix(a[1..], b[1..]);
      assert a[..i + 1] == [a[0]] + a[1..][..i] && b[..i + 1] == [b[0]] + b[1..][..i];
      i + 1
  }

  // ------------------------------------------------------------------- the code

  /** How resolving one target went: no grant, no such backend, the backend, or an API error. */
  datatype TargetOutcome = NotPermitted | Missing | Found(backend: string) | ReadError

  /** What the reconcile sees and meets: the routes of the cluster, how each target
      resolves, the translator, and which API calls succeed. */
  datatype Env = Env(routes: seq<Route>, resolve: TargetRef -> TargetOutcome,
                     build: (QuotaPolicy, seq<string>) -> Option<Configs>,
                     listOk: string -> bool, listAllOk: bool, pushOk: bool)

  function FoundBackends(targets: seq<TargetRef>, resolve: TargetRef -> TargetOutcome): seq<string> {
    if targets == [] then []
    else
      var rest := FoundBackends(targets[1..], resolve);
      if resolve(targets[0]).Found? then [resolve(targets[0]).backend] + rest else rest
  }

  predicate SomeTarget(targets: seq<TargetRef>, resolve: TargetRef -> TargetOutcome, o: TargetOutcome) {
    exists i :: 0 <= i < |targets| && resolve(targets[i]) == o
  }

  /** The configurations a sync ends up with, or None when it fails before the cache. */
  function Built(p: QuotaPolicy, env: Env): Option<Configs> {
    var backends := FoundBackends(p.targets, env.resolve);
    if SomeTarget(p.targets, env.resolve, ReadError) then None
    else if backends == [] then Some([])
    else env.build(p, backends)
  }

  function AllRoutes(routes: seq<Route>): seq<(string, string)> {
    seq(|routes|, i requires 0 <= i < |routes| => IdOf(routes[i]))
  }

  /** Events sent for a list of keys, skipping those whose list call fails. */
  function SentSkipping(env: Env, keys: seq<string>): seq<(string, string)> {
    if keys == [] then []
    else (if env.listOk(keys[0]) then RoutesUnder(env.routes, keys[0]) else []) + SentSkipping(env, keys[1..])
  }

  /** Events sent for a list of keys up to the first failing list call. */
  function SentUntilError(env: Env, keys: seq<string>): seq<(string, string)> {
    if keys == [] || !env.listOk(keys[0]) then []
    else RoutesUnder(env.routes, keys[0]) + SentUntilError(env, keys[1..])
  }

  predicate AllListed(env: Env, keys: seq<string>) {
    forall k :: k in keys ==> env.listOk(k)
  }

  function RetainedKeys(targets: map<string, seq<string>>, key: string): seq<string> {
    if key in targets then targets[key] else []
  }

  /** What Get returned: an error, no object, or the policy and whether it carries
      this controller's finalizer. */
  datatype Fetched = ReadFailed | NoObject | Object(policy: QuotaPolicy, finalizer: bool)

  /** The event that a reconcile of a key amounts to. */
  function EventOf(key: string, obj: Fetched, targets: map<string, seq<string>>, env: Env): Event {
    match obj
    case ReadFailed => Ignored(key)
    case NoObject => Gone(key, env.pushOk, AllListed(env, RetainedKeys(targets, key)))
    case Object(policy, finalizer) =>
      if !policy.deleting then Synced(key, Built(policy, env), PolicyKeys(policy), env.pushOk)
      else if finalizer then Finalized(key, env.pushOk)
      else Ignored(key)
  }

  /** The notifications that a reconcile of a key sends. */
  function SentBy(key: string, obj: Fetched, targets: map<string, seq<string>>, env: Env): seq<(string, string)> {
    var prev := RetainedKeys(targets, key);
    match obj
    case ReadFailed => []
    case NoObject =>
      if !env.pushOk then []
      else if prev == [] then (if env.listAllOk then AllRoutes(env.routes) else [])
      else SentUntilError(env, prev)
    case Object(policy, finalizer) =>
      if !policy.deleting then SentSkipping(env, PolicyKeys(policy)) + SentUntilError(env, prev)
      else if finalizer then SentSkipping(env, PolicyKeys(policy))
      else []
  }

  predicate SyncFails(p: QuotaPolicy, env: Env) {
    Built(p, env).None? || !env.pushOk || SomeTarget(p.targets, env.resolve, NotPermitted)
    || (FoundBackends(p.targets, env.resolve) == [] && p.targets != [])
  }

  /** Whether a reconcile of a key returns an error, and is thus repeated. Failing lists of
      routes count only for a policy that is gone. */
  predicate Errs(key: string, obj: Fetched, targets: map<string, seq<string>>, env: Env) {
    match obj
    case ReadFailed => true
    case NoObject =>
      var prev := RetainedKeys(targets, key);
      !env.pushOk || (if prev == [] then !env.listAllOk else !AllListed(env, prev))
    case Object(policy, _) => !policy.deleting && SyncFails(policy, env)
  }

  lemma {:induction false} NoneFound(targets: seq<TargetRef>, resolve: TargetRef -> TargetOutcome)
    ensures FoundBackends(targets, resolve) == [] <==> forall i :: 0 <= i < |targets| ==> !resolve(targets[i]).Found?
  {
    if targets != [] {
      NoneFound(targets[1..], resolve);
      assert forall i :: 1 <= i < |targets| ==> targets[i] == targets[1..][i - 1];
    }
  }

  /** What is cached for a policy: nothing new if a target could not be read or its limits
      could not be built; no limits if none of its targets was found; else those built for
      the targets found. */
  lemma BuiltIs(p: QuotaPolicy, env: Env)
    ensures Built(p, env) ==
            if exists i :: 0 <= i < |p.targets| && env.resolve(p.targets[i]).ReadError? then None
            else if forall i :: 0 <= i < |p.targets| ==> !env.resolve(p.targets[i]).Found? then Some([])
            else env.build(p, FoundBackends(p.targets, env.resolve))
  {
    NoneFound(p.targets, env.resolve);
  }

  /** A reconcile of a live policy succeeds exactly if every target is found or at least
      missing, one is found unless there are none, their limits are built, and the push goes
      through. */
  lemma LiveReconcileSucceedsIff(key: string, p: QuotaPolicy, finalizer: bool, targets: map<string, seq<string>>,
                                 env: Env)
    requires !p.deleting
    ensures !Errs(key, Object(p, finalizer), targets, env) <==>
            && env.pushOk
            && (forall i :: 0 <= i < |p.targets| ==>
                  env.resolve(p.targets[i]).Found? || env.resolve(p.targets[i]).Missing?)
            && (p.targets == [] || exists i :: 0 <= i < |p.targets| && env.resolve(p.targets[i]).Found?)
            && (p.targets == [] || env.build(p, FoundBackends(p.targets, env.resolve)).Some?)
  {
    NoneFound(p.targets, env.resolve);
    BuiltIs(p, env);
  }

  class QuotaPolicyController {
    var configCache: Cache
    var policyBackendKeys: map<string, seq<string>>
    var snapshot: Option<Configs>
    var sent: seq<(string, string)>

    constructor ()
      ensures Memory() == START && sent == []
    {
      configCache, policyBackendKeys, snapshot, sent := map[], map[], None, [];
    }

    ghost function Memory(): State
      reads this
    {
      State(configCache, policyBackendKeys, snapshot)
    }

    method GetMergedConfigsLocked() returns (r: Configs)
      ensures r == Snapshot(configCache)
    {
      var keys := ListKeys(configCache.Keys);
      keys := Sort(Le, keys);
      r := MergeInOrder(keys);
    }

    /** The keys of the map, as it delivers them. */
    static method ListKeys(all: set<string>) returns (keys: seq<string>)
      ensures Sort(Le, keys) == SortedKeys(all)
    {
      keys := [];
      var rest := all;
      while rest != {}
        invariant rest <= all && multiset(keys) + multiset(rest) == multiset(all)
      {
        var k :| k in rest;
        assert rest == (rest - {k}) + {k};
        keys := keys + [k];
        rest := rest - {k};
      }
      SortingSortsKeys(keys, all);
    }

    method MergeInOrder(keys: seq<string>) returns (r: Configs)
      requires forall k :: k in keys ==> k in configCache
      ensures r == Merged(AllDescriptors(configCache, keys))
    {
      var all: seq<Descriptor> := [];
      for i := 0 to |keys|
        invariant all + AllDescriptors(configCache, keys[i..]) == AllDescriptors(configCache, keys)
      {
        ghost var rest := AllDescriptors(configCache, keys[i + 1..]);
        ghost var before := all;
        assert keys[i..][1..] == keys[i + 1..] && keys[i..][0] == keys[i];
        all := AppendDescriptors(all, configCache[keys[i]]);
        assert all + rest == before + (DescriptorsOf(configCache[keys[i]]) + rest);
      }
      assert all == AllDescriptors(configCache, keys);
      if |all| == 0 {
        return [];
      }
      var merged := MergeDescriptors(all);
      return [RateLimitConfig(QUOTA_DOMAIN, QUOTA_DOMAIN, merged)];
    }

    static method AppendDescriptors(before: seq<Descriptor>, configs: Configs) returns (all: seq<Descriptor>)
      ensures all == before + DescriptorsOf(configs)
    {
      all := before;
      for j := 0 to |configs|
        invariant all + DescriptorsOf(configs[j..]) == before + DescriptorsOf(configs)
      {
        assert configs[j..][1..] == configs[j + 1..];
        assert all + (configs[j].descriptors + DescriptorsOf(configs[j + 1..]))
            == all + configs[j].descriptors + DescriptorsOf(configs[j + 1..]);
        all := all + configs[j].descriptors;
      }
    }

    /** UpdateConfigs of the runner: the snapshot changes only on success. */
    method Push(configs: Configs, ok: bool)
      modifies this`snapshot
      ensures snapshot == if ok then Some(configs) else old(snapshot)
    {
      if ok {
        snapshot := Some(configs);
      }
    }

    /** The target loop of syncQuotaPolicy. */
    static method ResolveTargets(p: QuotaPolicy, env: Env) returns (backends: seq<string>, denied: bool, failed: bool)
      ensures failed <==> SomeTarget(p.targets, env.resolve, ReadError)
      ensures !failed ==> backends == FoundBackends(p.targets, env.resolve)
      ensures !failed ==> (denied <==> SomeTarget(p.targets, env.resolve, NotPermitted))
    {
      backends, denied, failed := [], false, false;
      for i := 0 to |p.targets|
        invariant backends + FoundBackends(p.targets[i..], env.resolve) == FoundBackends(p.targets, env.resolve)
        invariant denied <==> exists k :: 0 <= k < i && env.resolve(p.targets[k]) == NotPermitted
        invariant forall k :: 0 <= k < i ==> env.resolve(p.targets[k]) != ReadError
      {
        assert p.targets[i..][1..] == p.targets[i + 1..];
        match env.resolve(p.targets[i])
        case NotPermitted => denied := true;
        case Missing =>
        case ReadError => return [], false, true;
        case Found(b) => backends := backends + [b];
      }
    }

    method SyncQuotaPolicy(key: string, p: QuotaPolicy, env: Env) returns (err: bool)
      modifies this`configCache, this`policyBackendKeys, this`snapshot
      ensures Memory() == Step(old(Memory()), Synced(key, Built(p, env), PolicyKeys(p), env.pushOk))
      ensures err <==> SyncFails(p, env)
      ensures !err ==> env.pushOk && snapshot == Some(Snapshot(configCache))
    {
      var backends, targetErrors, failed := ResolveTargets(p, env);
      if failed {
        return true;
      }
      if |backends| == 0 && |p.targets| > 0 {
        targetErrors := true;
      }
      var configs: Configs := [];
      if |backends| > 0 {
        var built := env.build(p, backends);
        if built.None? {
          return true;
        }
        configs := built.value;
      }
      configCache := configCache[key := configs];
      policyBackendKeys := policyBackendKeys[key := PolicyKeys(p)];
      var all := GetMergedConfigsLocked();
      Push(all, env.pushOk);
      return !env.pushOk || targetErrors;
    }

    method DeleteQuotaPolicyConfig(key: string, env: Env) returns (err: bool)
      modifies this`configCache, this`snapshot
      ensures configCache == old(configCache) - {key} && err == !env.pushOk
      ensures snapshot == Pushed(old(Memory()), configCache, env.pushOk)
    {
      configCache := configCache - {key};
      var all := GetMergedConfigsLocked();
      Push(all, env.pushOk);
      return !env.pushOk;
    }

    method NotifyAIGatewayRoutes(p: QuotaPolicy, env: Env)
      modifies this`sent
      ensures sent == old(sent) + SentSkipping(env, PolicyKeys(p))
    {
      var keys := PolicyKeys(p);
      for i := 0 to |keys|
        invariant sent + SentSkipping(env, keys[i..]) == old(sent) + SentSkipping(env, keys)
      {
        assert keys[i..][1..] == keys[i + 1..];
        if env.listOk(keys[i]) {
          sent := sent + RoutesUnder(env.routes, keys[i]);
        }
      }
    }

    method NotifyQuotaPolicyRoutesForKeys(keys: seq<string>, env: Env) returns (err: bool)
      modifies this`sent
      ensures sent == old(sent) + SentUntilError(env, keys)
      ensures err <==> !AllListed(env, keys)
    {
      for i := 0 to |keys|
        invariant sent + SentUntilError(env, keys[i..]) == old(sent) + SentUntilError(env, keys)
        invariant forall j :: 0 <= j < i ==> env.listOk(keys[j])
      {
        assert keys[i..][1..] == keys[i + 1..];
        if !env.listOk(keys[i]) {
          return true;
        }
        sent := sent + RoutesUnder(env.routes, keys[i]);
      }
      return false;
    }

    /** The NotFound branch of Reconcile. */
    method ReconcileGone(key: string, env: Env) returns (err: bool)
      modifies this
      ensures Memory() == Step(old(Memory()), EventOf(key, NoObject, old(policyBackendKeys), env))
      ensures sent == old(sent) + SentBy(key, NoObject, old(policyBackendKeys), env)
      ensures err <==> Errs(key, NoObject, old(policyBackendKeys), env)
    {
      var prev := RetainedKeys(policyBackendKeys, key);
      err := DeleteQuotaPolicyConfig(key, env);
      if err {
        return;
      }
      if |prev| > 0 {
        err := NotifyQuotaPolicyRoutesForKeys(prev, env);
        if err {
          return;
        }
      }
      policyBackendKeys := policyBackendKeys - {key};
      if |prev| == 0 {
        if !env.listAllOk {
          return true;
        }
        sent := sent + AllRoutes(env.routes);
      }
      return false;
    }

    /** One reconcile. Its effect on the controller's memory is the event it amounts
        to; it sends exactly the notifications of that event; a list of routes that fails
        while a policy is there is not an error. */
    method Reconcile(key: string, obj: Fetched, env: Env) returns (err: bool)
      modifies this
      ensures Memory() == Step(old(Memory()), EventOf(key, obj, old(policyBackendKeys), env))
      ensures sent == old(sent) + SentBy(key, obj, old(policyBackendKeys), env)
      ensures err <==> Errs(key, obj, old(policyBackendKeys), env)
      ensures !err && !(obj.Object? && obj.policy.deleting) ==> snapshot == Some(Snapshot(configCache))
    {
      match obj
      case ReadFailed =>
        return true;
      case NoObject =>
        err := ReconcileGone(key, env);
      case Object(policy, finalizer) =>
        err := false;
        if !policy.deleting {
          var prev := RetainedKeys(policyBackendKeys, key);
          err := SyncQuotaPolicy(key, policy, env);
          NotifyAIGatewayRoutes(policy, env);
          var _ := NotifyQuotaPolicyRoutesForKeys(prev, env);
        } else if finalizer {
          NotifyAIGatewayRoutes(policy, env);
          var _ := DeleteQuotaPolicyConfig(key, env);
        }
    }
  }
}
