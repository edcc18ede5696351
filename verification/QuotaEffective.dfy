/** The effective QuotaPolicies of a route and the canonical input of the hash that
    is stamped on its HTTPRoute. */
module QuotaEffective {
  import opened Text
  import opened Wrappers
  import opened Api
  import opened Sorting
  import opened ReferenceGrants

  // ----------------------------------------------------------- direct definition

  /** The grants of the cluster and the references whose lookup among them fails. */
  datatype Grants = Grants(all: seq<Grant>, unlisted: set<Reference>)

  /** Every lookup succeeds. */
  function Seen(grants: Grants): Grants {
    Grants(grants.all, {})
  }

  /** validateReference as these callers use it: a failing list call reads as "no". */
  predicate Granted(grants: Grants, ref: Reference) {
    ref.fromNamespace == ref.namespace || (ref !in grants.unlisted && PermittedByIndex(grants.all, ref))
  }

  function TargetOf(p: QuotaPolicy, t: TargetRef): Reference {
    QuotaToBackend(p.namespace, TargetNamespace(t, p.namespace), t.name)
  }

  predicate Allowed(grants: Grants, p: QuotaPolicy, t: TargetRef) {
    Granted(grants, TargetOf(p, t))
  }

  /** A live grant in the target's namespace that lets QuotaPolicies of the policy's namespace
      refer to this AIServiceBackend. */
  predicate GrantsPolicy(g: Grant, namespace: string, home: string, name: string) {
    && !g.deleting && g.namespace == home
    && (exists i :: 0 <= i < |g.from| && g.from[i] == From("aigateway.envoyproxy.io", "QuotaPolicy", namespace))
    && (exists i :: 0 <= i < |g.to| && g.to[i].group == "aigateway.envoyproxy.io" && g.to[i].kind == "AIServiceBackend"
                    && (g.to[i].name == None || g.to[i].name == Some(name)))
  }

  /** Which targets count, on the fields of the objects: those in the policy's namespace and
      those that a grant permits whose lookup does not fail. */
  lemma TargetAllowedIff(grants: Grants, p: QuotaPolicy, t: TargetRef)
    requires ValidNamespace(t.namespace) && Label(p.namespace)
    requires forall i :: 0 <= i < |grants.all| ==> Label(grants.all[i].namespace)
    ensures var home := if t.namespace.Some? && t.namespace.value != "" then t.namespace.value else p.namespace;
            Allowed(grants, p, t) <==>
            || home == p.namespace
            || (TargetOf(p, t) !in grants.unlisted
                && exists i :: 0 <= i < |grants.all| && GrantsPolicy(grants.all[i], p.namespace, home, t.name))
  {
    var ref := TargetOf(p, t);
    LabelSeparators(ref.namespace);
    forall i | 0 <= i < |grants.all|
      ensures '.' !in grants.all[i].namespace
      ensures grants.all[i].namespace == ref.namespace && Allows(grants.all[i], ref) <==>
              GrantsPolicy(grants.all[i], p.namespace, ref.namespace, t.name)
    {
      LabelSeparators(grants.all[i].namespace);
      PolicyGrantIff(grants.all[i], p.namespace, ref.namespace, t.name);
    }
    IndexRefinesScan(grants.all, ref);
  }

  lemma PolicyGrantIff(g: Grant, namespace: string, home: string, name: string)
    ensures g.namespace == home && Allows(g, QuotaToBackend(namespace, home, name)) <==>
            GrantsPolicy(g, namespace, home, name)
  {
    var ref := QuotaToBackend(namespace, home, name);
    assert forall i :: 0 <= i < |g.from| ==>
      (MatchesFrom(g.from[i], ref) <==> g.from[i] == From("aigateway.envoyproxy.io", "QuotaPolicy", namespace));
    assert forall i :: 0 <= i < |g.to| ==> (MatchesTo(g.to[i], ref) <==>
      g.to[i].group == "aigateway.envoyproxy.io" && g.to[i].kind == "AIServiceBackend"
      && (g.to[i].name == None || g.to[i].name == Some(name)));
  }

  function AllowedTargets(grants: Grants, p: QuotaPolicy, targets: seq<TargetRef>): seq<TargetRef> {
    if targets == [] then []
    else (if Allowed(grants, p, targets[0]) then [targets[0]] else []) + AllowedTargets(grants, p, targets[1..])
  }

  /** A policy cut down to its authorised targets. */
  function Effective(grants: Grants, p: QuotaPolicy): QuotaPolicy {
    p.(targets := AllowedTargets(grants, p, p.targets))
  }

  /** The keys of a route's references that are not pools. */
  function BackendKeys(refs: seq<BackendRef>, namespace: string): set<string> {
    set i | 0 <= i < |refs| && !refs[i].pool :: BackendKey(refs[i], namespace)
  }

  function QuotaKeys(r: Route): set<string> {
    BackendKeys(Flatten(r.rules), r.namespace)
  }

  /** Some target of the policy, authorised or not, is a backend among `keys`. */
  predicate Hits(p: QuotaPolicy, keys: set<string>) {
    exists k :: k in keys && k in PolicyKeys(p)
  }

  predicate Applies(grants: Grants, p: QuotaPolicy, keys: set<string>) {
    !p.deleting && Hits(p, keys) && Effective(grants, p).targets != []
  }

  /** Non-deleting policies that target some backend among `keys`, cut down to their
      authorised targets, dropped if none remain. */
  ghost function EffectiveSet(policies: set<QuotaPolicy>, grants: Grants, keys: set<string>): set<QuotaPolicy> {
    set p | p in policies && Applies(grants, p, keys) :: Effective(grants, p)
  }

  function Elements<T>(s: seq<T>): set<T> {
    set x | x in s
  }

  /** A target and a reference share a key exactly if they name one backend. */
  lemma SameBackend(p: QuotaPolicy, t: TargetRef, r: Route, b: BackendRef)
    requires ValidPolicy(p) && ValidRoute(r) && t in p.targets && b in Flatten(r.rules)
    ensures TargetKey(t, p.namespace) == BackendKey(b, r.namespace) <==>
            t.name == b.name && TargetNamespace(t, p.namespace) == BackendNamespace(b, r.namespace)
  {
    FlattenValid(r.rules, r, b);
    LabelSeparators(TargetNamespace(t, p.namespace));
    LabelSeparators(BackendNamespace(b, r.namespace));
    IndexKeyInjective(t.name, TargetNamespace(t, p.namespace), b.name, BackendNamespace(b, r.namespace));
  }

  lemma KeysAreHit(p: QuotaPolicy, t: TargetRef, r: Route, b: BackendRef)
    requires t in p.targets && b in Flatten(r.rules) && !b.pool
    requires TargetKey(t, p.namespace) == BackendKey(b, r.namespace)
    ensures Hits(p, QuotaKeys(r))
  {
    var refs := Flatten(r.rules);
    var i :| 0 <= i < |refs| && refs[i] == b;
    var j :| 0 <= j < |p.targets| && p.targets[j] == t;
    assert PolicyKeys(p)[j] == BackendKey(refs[i], r.namespace);
    assert BackendKey(refs[i], r.namespace) in QuotaKeys(r);
  }

  /** Hitting a key means naming a backend: keys cannot be confused. */
  lemma HitsMeansTargets(p: QuotaPolicy, r: Route)
    requires ValidPolicy(p) && ValidRoute(r)
    ensures Hits(p, QuotaKeys(r)) <==>
            exists t, b :: t in p.targets && b in Flatten(r.rules) && !b.pool && t.name == b.name
                           && TargetNamespace(t, p.namespace) == BackendNamespace(b, r.namespace)
  {
    var refs := Flatten(r.rules);
    if Hits(p, QuotaKeys(r)) {
      var k :| k in QuotaKeys(r) && k in PolicyKeys(p);
      var i :| 0 <= i < |refs| && !refs[i].pool && k == BackendKey(refs[i], r.namespace);
      var j :| 0 <= j < |p.targets| && PolicyKeys(p)[j] == k;
      SameBackend(p, p.targets[j], r, refs[i]);
    }
    if t, b :| t in p.targets && b in refs && !b.pool && t.name == b.name
               && TargetNamespace(t, p.namespace) == BackendNamespace(b, r.namespace) {
      SameBackend(p, t, r, b);
      KeysAreHit(p, t, r, b);
    }
  }

  lemma {:induction false} FlattenValid(rules: seq<seq<BackendRef>>, r: Route, b: BackendRef)
    requires ValidRoute(r) && b in Flatten(rules)
    requires forall i :: 0 <= i < |rules| ==> rules[i] in r.rules
    ensures ValidNamespace(b.namespace)
  {
    if b in rules[0] {
      var i :| 0 <= i < |r.rules| && r.rules[i] == rules[0];
      var j :| 0 <= j < |r.rules[i]| && r.rules[i][j] == b;
    } else {
      FlattenValid(rules[1..], r, b);
    }
  }

  // --------------------------------------------------------- the memoised search

  function KeyOf(p: QuotaPolicy): string {
    NamespacedKey(p.namespace, p.name)
  }

  /** The policies the API holds: admitted, and one per namespace and name. */
  predicate ValidPolicies(policies: seq<QuotaPolicy>) {
    && (forall i :: 0 <= i < |policies| ==> ValidPolicy(policies[i]))
    && (forall p, q :: p in policies && q in policies && p.namespace == q.namespace && p.name == q.name ==> p == q)
  }

  /** A "namespace/name" key stands for one policy. */
  lemma KeysIdentify(policies: seq<QuotaPolicy>)
    requires ValidPolicies(policies)
    ensures forall p, q :: p in policies && q in policies && KeyOf(p) == KeyOf(q) ==> p == q
  {
    forall p, q | p in policies && q in policies && KeyOf(p) == KeyOf(q) ensures p == q {
      LabelSeparators(p.namespace);
      LabelSeparators(q.namespace);
      NamespacedKeyInjective(p.namespace, p.name, q.namespace, q.name);
    }
  }

  function MemoKey(namespace: string, targetNamespace: string, name: string): string {
    namespace + ['\0'] + (targetNamespace + ['\0'] + name)
  }

  /** Every memoised answer is right for every reference filed under its key. */
  ghost predicate MemoOk(memo: map<string, bool>, grants: Grants) {
    forall ns, tns, name :: '\0' !in ns && '\0' !in tns && MemoKey(ns, tns, name) in memo ==>
      (memo[MemoKey(ns, tns, name)] <==> Granted(grants, QuotaToBackend(ns, tns, name)))
  }

  lemma MemoAdd(memo: map<string, bool>, grants: Grants, ns: string, tns: string, name: string)
    requires MemoOk(memo, grants) && '\0' !in ns && '\0' !in tns
    ensures MemoOk(memo[MemoKey(ns, tns, name) := Granted(grants, QuotaToBackend(ns, tns, name))], grants)
  {
    forall ns', tns', name' | '\0' !in ns' && '\0' !in tns' && MemoKey(ns', tns', name') == MemoKey(ns, tns, name)
      ensures ns == ns' && tns == tns' && name == name'
    {
      CutFirst(ns, tns + ['\0'] + name, ns', tns' + ['\0'] + name', '\0');
      CutFirst(tns, name, tns', name', '\0');
    }
  }

  /** The target loop: authorised targets in order, asking the grants once per key; the
      answer to a failing lookup is memoised like any other. */
  method AuthorisedTargets(p: QuotaPolicy, grants: Grants, memo0: map<string, bool>)
    returns (targets: seq<TargetRef>, memo: map<string, bool>)
    requires ValidPolicy(p) && MemoOk(memo0, grants)
    ensures targets == AllowedTargets(grants, p, p.targets) && MemoOk(memo, grants)
  {
    targets, memo := [], memo0;
    for i := 0 to |p.targets|
      invariant targets == AllowedTargets(grants, p, p.targets[..i])
      invariant MemoOk(memo, grants)
    {
      assert p.targets[..i + 1] == p.targets[..i] + [p.targets[i]];
      AllowedSnoc(grants, p, p.targets[..i], p.targets[i]);
      var allowed;
      allowed, memo := AskGrants(p, p.targets[i], grants, memo);
      if allowed {
        targets := targets + [p.targets[i]];
      }
    }
    assert p.targets[..|p.targets|] == p.targets;
  }

  lemma {:induction false} AllowedSnoc(grants: Grants, p: QuotaPolicy, ts: seq<TargetRef>, t: TargetRef)
    ensures AllowedTargets(grants, p, ts + [t]) ==
            AllowedTargets(grants, p, ts) + if Allowed(grants, p, t) then [t] else []
  {
    if ts == [] {
      assert ts + [t] == [t] && [t][1..] == [];
    } else {
      assert (ts + [t])[1..] == ts[1..] + [t];
      AllowedSnoc(grants, p, ts[1..], t);
    }
  }

  method AskGrants(p: QuotaPolicy, target: TargetRef, grants: Grants, memo0: map<string, bool>)
    returns (allowed: bool, memo: map<string, bool>)
    requires ValidPolicy(p) && target in p.targets && MemoOk(memo0, grants)
    ensures (allowed <==> Allowed(grants, p, target)) && MemoOk(memo, grants)
  {
    var tns := TargetNamespace(target, p.namespace);
    LabelSeparators(p.namespace);
    LabelSeparators(tns);
    var key := MemoKey(p.namespace, tns, target.name);
    if key in memo0 {
      return memo0[key], memo0;
    }
    var ref := QuotaToBackend(p.namespace, tns, target.name);
    allowed := ValidateReference(grants.all, ref, ref !in grants.unlisted);
    MemoAdd(memo0, grants, p.namespace, tns, target.name);
    memo := memo0[key := allowed];
  }

  /** `processed` and `seen` record exactly the policies in `done`. */
  ghost predicate Records(processed: set<string>, seen: map<string, QuotaPolicy>, grants: Grants,
                          done: set<QuotaPolicy>) {
    && (forall k :: k in processed <==> exists p :: p in done && KeyOf(p) == k)
    && (forall p :: p in done ==> (KeyOf(p) in seen <==> Effective(grants, p).targets != []))
    && (forall p :: p in done && KeyOf(p) in seen ==> seen[KeyOf(p)] == Effective(grants, p))
    && (forall k :: k in seen ==> k in processed)
  }

  ghost function Touched(policies: seq<QuotaPolicy>, keys: set<string>): set<QuotaPolicy> {
    set p | p in policies && !p.deleting && Hits(p, keys)
  }

  /** One listed policy: processed at most once, kept if an authorised target remains. */
  method ProcessPolicy(policy: QuotaPolicy, ghost policies: seq<QuotaPolicy>, grants: Grants, memo0: map<string, bool>,
                       processed0: set<string>, seen0: map<string, QuotaPolicy>, ghost done: set<QuotaPolicy>)
    returns (memo: map<string, bool>, processed: set<string>, seen: map<string, QuotaPolicy>)
    requires ValidPolicies(policies) && policy in policies && forall p :: p in done ==> p in policies
    requires MemoOk(memo0, grants) && Records(processed0, seen0, grants, done)
    ensures MemoOk(memo, grants) && Records(processed, seen, grants, done + {policy})
  {
    memo, processed, seen := memo0, processed0, seen0;
    var policyKey := KeyOf(policy);
    KeysIdentify(policies);
    if policyKey in processed {
      assert done + {policy} == done;
      return;
    }
    processed := processed + {policyKey};
    var targets;
    targets, memo := AuthorisedTargets(policy, grants, memo);
    if |targets| > 0 {
      seen := seen[policyKey := policy.(targets := targets)];
    }
    RecordsAdd(processed0, seen0, grants, done, policy);
  }

  lemma RecordsAdd(processed: set<string>, seen: map<string, QuotaPolicy>, grants: Grants, done: set<QuotaPolicy>,
                   policy: QuotaPolicy)
    requires Records(processed, seen, grants, done) && KeyOf(policy) !in processed
    ensures var e := Effective(grants, policy);
            Records(processed + {KeyOf(policy)}, if e.targets != [] then seen[KeyOf(policy) := e] else seen,
                    grants, done + {policy})
  {
    assert forall p :: p in done ==> KeyOf(p) != KeyOf(policy);
  }

  /** The policies listed under one backend key. */
  method ProcessBackend(key: string, policies: seq<QuotaPolicy>, grants: Grants, memo0: map<string, bool>,
                        processed0: set<string>, seen0: map<string, QuotaPolicy>, ghost keys: set<string>)
    returns (memo: map<string, bool>, processed: set<string>, seen: map<string, QuotaPolicy>)
    requires ValidPolicies(policies) && MemoOk(memo0, grants)
    requires Records(processed0, seen0, grants, Touched(policies, keys))
    ensures MemoOk(memo, grants)
    ensures Records(processed, seen, grants, Touched(policies, keys + {key}))
  {
    memo, processed, seen := memo0, processed0, seen0;
    assert DoneUpTo(policies, keys, key, 0) == Touched(policies, keys);
    for k := 0 to |policies|
      invariant MemoOk(memo, grants) && Records(processed, seen, grants, DoneUpTo(policies, keys, key, k))
    {
      var policy := policies[k];
      DoneNext(policies, keys, key, k);
      if key in PolicyKeys(policy) && !policy.deleting {
        memo, processed, seen := ProcessPolicy(policy, policies, grants, memo, processed, seen,
                                               DoneUpTo(policies, keys, key, k));
      }
    }
    assert policies[..|policies|] == policies;
    TouchedUnion(policies, keys, key);
  }

  ghost function DoneUpTo(policies: seq<QuotaPolicy>, keys: set<string>, key: string, k: nat): set<QuotaPolicy>
    requires k <= |policies|
  {
    Touched(policies, keys) + Touched(policies[..k], {key})
  }

  lemma DoneNext(policies: seq<QuotaPolicy>, keys: set<string>, key: string, k: nat)
    requires k < |policies|
    ensures forall p :: p in DoneUpTo(policies, keys, key, k) ==> p in policies
    ensures DoneUpTo(policies, keys, key, k + 1) ==
            DoneUpTo(policies, keys, key, k) +
              if key in PolicyKeys(policies[k]) && !policies[k].deleting then {policies[k]} else {}
  {
    assert policies[..k + 1] == policies[..k] + [policies[k]];
    TouchedSnoc(policies[..k], policies[k], key);
  }

  lemma TouchedSnoc(policies: seq<QuotaPolicy>, policy: QuotaPolicy, key: string)
    ensures Touched(policies + [policy], {key}) ==
            Touched(policies, {key}) + if key in PolicyKeys(policy) && !policy.deleting then {policy} else {}
  {
    assert Hits(policy, {key}) <==> key in PolicyKeys(policy);
  }

  lemma TouchedUnion(policies: seq<QuotaPolicy>, keys: set<string>, key: string)
    ensures Touched(policies, keys + {key}) == Touched(policies, keys) + Touched(policies, {key})
  {
    forall p ensures Hits(p, keys + {key}) <==> Hits(p, keys) || Hits(p, {key}) {
      if Hits(p, {key}) {
        assert key in PolicyKeys(p) && key in keys + {key};
      }
      if Hits(p, keys) {
        var k :| k in keys && k in PolicyKeys(p);
        assert k in keys + {key};
      }
    }
  }

  /** fetchEffectiveQuotaPoliciesForRoute. Each backend key is listed once; a failing list
      of policies fails the search, a failing lookup of grants does not. The result is the
      definition over the grants seen, each policy once, in whatever order the map delivers. */
  method FetchEffective(r: Route, policies: seq<QuotaPolicy>, grants: Grants, listOk: string -> bool)
    returns (found: Option<seq<QuotaPolicy>>)
    requires ValidPolicies(policies)
    ensures found.Some? <==> forall k :: k in QuotaKeys(r) ==> listOk(k)
    ensures found.Some? ==> Once(found.value, EffectiveSet(Elements(policies), grants, QuotaKeys(r)))
  {
    var seen: map<string, QuotaPolicy> := map[];
    var processed: set<string> := {};
    var memo: map<string, bool> := map[];
    var listed: set<string> := {};
    var refs := Flatten(r.rules);
    for j := 0 to |refs|
      invariant listed == BackendKeys(refs[..j], r.namespace)
      invariant forall k :: k in listed ==> listOk(k)
      invariant MemoOk(memo, grants) && Records(processed, seen, grants, Touched(policies, listed))
    {
      KeysSnoc(refs, j, r.namespace);
      if refs[j].pool {
        continue;
      }
      var key := BackendKey(refs[j], r.namespace);
      if key in listed {
        assert listed + {key} == listed;
        continue;
      }
      if !listOk(key) {
        KeysPrefix(refs, j, r.namespace);
        return None;
      }
      memo, processed, seen := ProcessBackend(key, policies, grants, memo, processed, seen, listed);
      listed := listed + {key};
    }
    assert refs[..|refs|] == refs;
    var result := Values(seen);
    RecordedValues(processed, seen, grants, policies, listed);
    found := Some(result);
  }

  /** A failing lookup hides a target that the grants permit. */
  predicate Hidden(grants: Grants, p: QuotaPolicy, t: TargetRef) {
    && p.namespace != TargetNamespace(t, p.namespace)
    && TargetOf(p, t) in grants.unlisted && PermittedByIndex(grants.all, TargetOf(p, t))
  }

  predicate HidesSome(grants: Grants, p: QuotaPolicy, targets: seq<TargetRef>) {
    exists i :: 0 <= i < |targets| && Hidden(grants, p, targets[i])
  }

  lemma {:induction false} AllowedUnderFailures(grants: Grants, p: QuotaPolicy, targets: seq<TargetRef>)
    ensures |AllowedTargets(grants, p, targets)| <= |AllowedTargets(Seen(grants), p, targets)|
    ensures AllowedTargets(grants, p, targets) == AllowedTargets(Seen(grants), p, targets) <==>
            !HidesSome(grants, p, targets)
    ensures HidesSome(grants, p, targets) ==>
            |AllowedTargets(grants, p, targets)| < |AllowedTargets(Seen(grants), p, targets)|
  {
    if targets != [] {
      AllowedUnderFailures(grants, p, targets[1..]);
      assert HidesSome(grants, p, targets) <==> Hidden(grants, p, targets[0]) || HidesSome(grants, p, targets[1..]) by {
        assert forall i :: 0 <= i < |targets[1..]| ==> targets[1..][i] == targets[i + 1];
        if HidesSome(grants, p, targets) {
          var i :| 0 <= i < |targets| && Hidden(grants, p, targets[i]);
          assert i > 0 ==> targets[1..][i - 1] == targets[i];
        }
      }
    }
  }

  /** The search equals its direct definition exactly when no failing lookup hides a
      permitted target of a policy it processes. */
  lemma SearchIsDirectIff(policies: seq<QuotaPolicy>, grants: Grants, keys: set<string>)
    requires ValidPolicies(policies)
    ensures EffectiveSet(Elements(policies), grants, keys) == EffectiveSet(Elements(policies), Seen(grants), keys) <==>
            forall p :: p in policies && !p.deleting && Hits(p, keys) ==> !HidesSome(grants, p, p.targets)
  {
    var found := EffectiveSet(Elements(policies), grants, keys);
    var direct := EffectiveSet(Elements(policies), Seen(grants), keys);
    if p :| p in policies && !p.deleting && Hits(p, keys) && HidesSome(grants, p, p.targets) {
      AllowedUnderFailures(grants, p, p.targets);
      var e := Effective(Seen(grants), p);
      assert e in direct;
      assert forall q :: q in policies && q != p ==> Effective(grants, q) != e;
      assert e !in found;
    } else {
      forall p | p in policies && !p.deleting && Hits(p, keys)
        ensures Effective(grants, p) == Effective(Seen(grants), p)
      {
        AllowedUnderFailures(grants, p, p.targets);
      }
      assert forall e :: e in found <==> e in direct;
    }
  }

  /** It is not always: a failing lookup drops the only target of a policy, without an error. */
  lemma FailedLookupDropsPolicy(p: QuotaPolicy, g: Grant, keys: set<string>)
    requires !p.deleting && Hits(p, keys)
    requires |p.targets| == 1 && TargetNamespace(p.targets[0], p.namespace) != p.namespace
    requires PermittedByIndex([g], TargetOf(p, p.targets[0]))
    ensures var grants := Grants([g], {TargetOf(p, p.targets[0])});
            EffectiveSet({p}, grants, keys) == {} && EffectiveSet({p}, Seen(grants), keys) == {p}
  {
    var grants := Grants([g], {TargetOf(p, p.targets[0])});
    var t := p.targets[0];
    assert p.targets == [t] && p.targets[1..] == [];
    assert !Allowed(grants, p, t) && Allowed(Seen(grants), p, t);
    assert AllowedTargets(Seen(grants), p, p.targets) == [t] + AllowedTargets(Seen(grants), p, p.targets[1..]);
    assert AllowedTargets(grants, p, p.targets) == AllowedTargets(grants, p, p.targets[1..]);
    assert !Applies(grants, p, keys);
    assert Effective(Seen(grants), p) == p;
  }

  lemma KeysSnoc(refs: seq<BackendRef>, j: nat, namespace: string)
    requires j < |refs|
    ensures BackendKeys(refs[..j + 1], namespace) ==
            BackendKeys(refs[..j], namespace) + if refs[j].pool then {} else {BackendKey(refs[j], namespace)}
  {
    assert refs[..j + 1] == refs[..j] + [refs[j]];
    assert forall i :: 0 <= i < j ==> refs[..j + 1][i] == refs[..j][i];
    assert refs[..j + 1][j] == refs[j];
  }

  lemma KeysPrefix(refs: seq<BackendRef>, j: nat, namespace: string)
    requires j < |refs| && !refs[j].pool
    ensures BackendKey(refs[j], namespace) in BackendKeys(refs, namespace)
  {}

  /** A list holding exactly the elements of a set, each once. */
  ghost predicate Once<T>(s: seq<T>, elements: set<T>) {
    multiset(s) == multiset(elements)
  }

  ghost predicate KeyedByIdentity(seen: map<string, QuotaPolicy>) {
    forall k :: k in seen ==> KeyOf(seen[k]) == k
  }

  method Values(seen: map<string, QuotaPolicy>) returns (values: seq<QuotaPolicy>)
    ensures KeyedByIdentity(seen) ==> Once(values, seen.Values)
  {
    values := [];
    var rest := seen.Keys;
    ghost var taken: set<QuotaPolicy> := {};
    while rest != {}
      invariant rest <= seen.Keys
      invariant taken == set k | k in seen && k !in rest :: seen[k]
      invariant KeyedByIdentity(seen) ==> multiset(values) == multiset(taken)
    {
      var k :| k in rest;
      if KeyedByIdentity(seen) {
        forall k' | k' in seen && k' !in rest ensures seen[k'] != seen[k] {
          assert KeyOf(seen[k']) == k' && KeyOf(seen[k]) == k;
        }
        assert seen[k] !in taken;
      }
      values := values + [seen[k]];
      taken := taken + {seen[k]};
      rest := rest - {k};
    }
    assert taken == seen.Values;
  }

  lemma RecordedValues(processed: set<string>, seen: map<string, QuotaPolicy>, grants: Grants,
                       policies: seq<QuotaPolicy>, keys: set<string>)
    requires Records(processed, seen, grants, Touched(policies, keys))
    ensures KeyedByIdentity(seen)
    ensures seen.Values == EffectiveSet(Elements(policies), grants, keys)
  {
    var done := Touched(policies, keys);
    forall k | k in seen
      ensures exists p :: p in done && KeyOf(p) == k && Effective(grants, p).targets != []
                          && seen[k] == Effective(grants, p)
    {
      assert k in processed;
      var p :| p in done && KeyOf(p) == k;
    }
    forall e ensures e in seen.Values <==> e in EffectiveSet(Elements(policies), grants, keys) {
      if e in EffectiveSet(Elements(policies), grants, keys) {
        var p :| p in policies && Applies(grants, p, keys) && e == Effective(grants, p);
        assert p in done;
        assert seen[KeyOf(p)] == e;
      }
    }
  }

  // ------------------------------------------------------------------- the hash

  /** The comparison of hashQuotaPolicies. */
  predicate PairLe(p: QuotaPolicy, q: QuotaPolicy) {
    if p.namespace != q.namespace then Le(p.namespace, q.namespace) else Le(p.name, q.name)
  }

  datatype HashedPolicy = HashedPolicy(namespace: string, name: string, targets: seq<TargetRef>,
                                       models: seq<PerModelQuota>, rest: string)

  function Hashed(p: QuotaPolicy): HashedPolicy {
    HashedPolicy(p.namespace, p.name, p.targets, p.models, p.rest)
  }

  function HashedAll(ps: seq<QuotaPolicy>): seq<HashedPolicy> {
    seq(|ps|, i requires 0 <= i < |ps| => Hashed(ps[i]))
  }

  /** The list that is marshalled and hashed. */
  function HashInput(ps: seq<QuotaPolicy>): seq<HashedPolicy> {
    HashedAll(Sort(PairLe, ps))
  }

  ghost predicate DistinctPairs(ps: set<QuotaPolicy>) {
    forall p, q :: p in ps && q in ps && p.namespace == q.namespace && p.name == q.name ==> p == q
  }

  lemma PairLeOrders(ps: set<QuotaPolicy>)
    requires DistinctPairs(ps)
    ensures Orders(PairLe, ps)
  {
    forall p, q | p in ps && q in ps ensures PairLe(p, q) || PairLe(q, p) {
      LeTotal(p.namespace, q.namespace);
      LeTotal(p.name, q.name);
    }
    forall p, q | p in ps && q in ps && PairLe(p, q) && PairLe(q, p) ensures p == q {
      if p.namespace != q.namespace {
        LeAntisymmetric(p.namespace, q.namespace);
      } else {
        LeAntisymmetric(p.name, q.name);
      }
    }
    forall p, q, r | p in ps && q in ps && r in ps && PairLe(p, q) && PairLe(q, r) ensures PairLe(p, r) {
      if p.namespace == q.namespace == r.namespace {
        LeTransitive(p.name, q.name, r.name);
      } else if p.namespace != q.namespace && q.namespace != r.namespace {
        LeTransitive(p.namespace, q.namespace, r.namespace);
        if p.namespace == r.namespace {
          LeAntisymmetric(p.namespace, q.namespace);
        }
      }
    }
  }

  lemma EffectiveDistinct(policies: seq<QuotaPolicy>, grants: Grants, keys: set<string>)
    requires ValidPolicies(policies)
    ensures DistinctPairs(EffectiveSet(Elements(policies), grants, keys))
  {
    var all := Elements(policies);
    forall e, f | e in EffectiveSet(all, grants, keys) && f in EffectiveSet(all, grants, keys)
                  && e.namespace == f.namespace && e.name == f.name
      ensures e == f
    {
      var p :| p in policies && e == Effective(grants, p);
      var q :| q in policies && f == Effective(grants, q);
      assert e == Effective(grants, p) && f == Effective(grants, q);
      assert e.namespace == p.namespace;
      assert p.namespace == q.namespace && p.name == q.name;
    }
  }

  /** The hash input does not depend on the order or the repetition of rules,
      references and listed policies: only on the backends named and the policies held. */
  lemma HashInputIsCanonical(policies: seq<QuotaPolicy>, policies': seq<QuotaPolicy>, grants: Grants,
                             r: Route, r': Route, found: seq<QuotaPolicy>, found': seq<QuotaPolicy>)
    requires ValidPolicies(policies) && ValidPolicies(policies')
    requires Elements(policies) == Elements(policies')
    requires QuotaKeys(r) == QuotaKeys(r')
    requires Once(found, EffectiveSet(Elements(policies), grants, QuotaKeys(r)))
    requires Once(found', EffectiveSet(Elements(policies'), grants, QuotaKeys(r')))
    ensures HashInput(found) == HashInput(found')
  {
    EffectiveDistinct(policies, grants, QuotaKeys(r));
    SameSetSameInput(EffectiveSet(Elements(policies), grants, QuotaKeys(r)), found, found');
  }

  lemma SameSetSameInput(dom: set<QuotaPolicy>, found: seq<QuotaPolicy>, found': seq<QuotaPolicy>)
    requires DistinctPairs(dom) && Once(found, dom) && Once(found', dom)
    ensures HashInput(found) == HashInput(found')
  {
    PairLeOrders(dom);
    forall i | 0 <= i < |found| ensures found[i] in dom {
      assert found[i] in multiset(found);
      assert found[i] in multiset(dom);
    }
    SortCanonical(PairLe, found, found', dom);
  }

  /** And it shows every change: equal hash inputs mean equal effective policies. */
  lemma HashInputDetermines(found: seq<QuotaPolicy>, found': seq<QuotaPolicy>)
    requires forall p :: p in found || p in found' ==> !p.deleting
    requires HashInput(found) == HashInput(found')
    ensures multiset(found) == multiset(found')
  {
    var s, t := Sort(PairLe, found), Sort(PairLe, found');
    assert |s| == |HashInput(found)| == |HashInput(found')| == |t|;
    forall i | 0 <= i < |s| ensures s[i] == t[i] {
      assert HashInput(found)[i] == Hashed(s[i]) && HashInput(found')[i] == Hashed(t[i]);
      assert s[i] in multiset(s) && t[i] in multiset(t);
      assert s[i] in multiset(found) && t[i] in multiset(found');
    }
    assert s == t;
  }
}
