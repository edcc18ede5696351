/** Injection of QuotaPolicy cost expressions into the filter configuration, one
    AIGatewayRoute after the other, over a shared list of backends. */
module QuotaCost {
  import opened Text
  import opened Wrappers
  import opened Api
  import opened ReferenceGrants
  import opened QuotaEffective

  const QUOTA_COST_KEY := "quota_cost"
  const DEFAULT_EXPRESSION := "total_tokens"

  /** A backend of the filter configuration: "namespace/name" of its AIServiceBackend
      (empty for a pool) and the model override (empty for none). */
  datatype Backend = Backend(aiServiceBackend: string, modelOverride: string)
  datatype CostEntry = CostEntry(route: string, model: string, backend: string, cel: string)

  function RouteBackends(backends: seq<Backend>): set<string> {
    set b | b in backends && b.aiServiceBackend != "" :: b.aiServiceBackend
  }

  function RouteModels(backends: seq<Backend>): set<string> {
    set b | b in backends && b.modelOverride != "" :: b.modelOverride
  }

  /** What an injection works on: the grants, the collected backends, the models they
      override, and which expressions compile. */
  datatype Setting = Setting(grants: Grants, backends: set<string>, models: set<string>, compiles: string -> bool)

  function SettingOf(collected: seq<Backend>, grants: Grants, compiles: string -> bool): Setting {
    Setting(grants, RouteBackends(collected), RouteModels(collected), compiles)
  }

  /** The same with every lookup of grants succeeding. */
  function SeenIn(s: Setting): Setting {
    s.(grants := Seen(s.grants))
  }

  // --------------------------------------------------------------- what is wanted

  function BackendOf(p: QuotaPolicy, t: TargetRef): string {
    NamespacedKey(TargetNamespace(t, p.namespace), t.name)
  }

  function Expression(q: PerModelQuota): string {
    q.costExpression.GetOr(DEFAULT_EXPRESSION)
  }

  /** The model is served (every model, if no backend overrides one) and its expression compiles. */
  predicate Served(q: PerModelQuota, models: set<string>, compiles: string -> bool) {
    q.model.Some? && (models == {} || q.model.value in models) && compiles(Expression(q))
  }

  function ForTargets(p: QuotaPolicy, q: PerModelQuota, targets: seq<TargetRef>, route: string): (cs: seq<CostEntry>)
    requires q.model.Some?
    ensures |cs| == |targets|
    ensures forall i :: 0 <= i < |cs| ==>
              cs[i] == CostEntry(route, q.model.value, BackendOf(p, targets[i]), Expression(q))
  {
    seq(|targets|, i requires 0 <= i < |targets| =>
      CostEntry(route, q.model.value, BackendOf(p, targets[i]), Expression(q)))
  }

  /** The entries one policy asks for: served models times authorised targets. */
  function Candidates(p: QuotaPolicy, quotas: seq<PerModelQuota>, targets: seq<TargetRef>, models: set<string>,
                      compiles: string -> bool, route: string): seq<CostEntry> {
    if quotas == [] then []
    else (if Served(quotas[0], models, compiles) then ForTargets(p, quotas[0], targets, route) else [])
         + Candidates(p, quotas[1..], targets, models, compiles, route)
  }

  lemma {:induction false} CandidatesAre(p: QuotaPolicy, quotas: seq<PerModelQuota>, targets: seq<TargetRef>,
                                         models: set<string>, compiles: string -> bool, route: string, e: CostEntry)
    ensures e in Candidates(p, quotas, targets, models, compiles, route) <==>
            exists q, t :: q in quotas && t in targets && Served(q, models, compiles)
                           && e == CostEntry(route, q.model.value, BackendOf(p, t), Expression(q))
  {
    if quotas != [] {
      CandidatesAre(p, quotas[1..], targets, models, compiles, route, e);
      assert quotas == [quotas[0]] + quotas[1..];
      if Served(quotas[0], models, compiles) {
        var here := ForTargets(p, quotas[0], targets, route);
        assert e in here <==>
          exists t :: t in targets
                      && e == CostEntry(route, quotas[0].model.value, BackendOf(p, t), Expression(quotas[0])) by {
          if e in here {
            var i :| 0 <= i < |here| && here[i] == e;
            assert targets[i] in targets;
          }
          if t :| t in targets && e == CostEntry(route, quotas[0].model.value, BackendOf(p, t), Expression(quotas[0])) {
            var i :| 0 <= i < |targets| && targets[i] == t;
            assert here[i] == e;
          }
        }
      }
    }
  }

  predicate TargetsRoute(p: QuotaPolicy, targets: seq<TargetRef>, backends: set<string>) {
    exists i :: 0 <= i < |targets| && BackendOf(p, targets[i]) in backends
  }

  function PolicyCandidates(p: QuotaPolicy, s: Setting, route: string): seq<CostEntry> {
    var targets := AllowedTargets(s.grants, p, p.targets);
    if TargetsRoute(p, targets, s.backends) then Candidates(p, p.models, targets, s.models, s.compiles, route) else []
  }

  // ------------------------------------------------------- adding without repeats

  function DedupeKey(model: string, backend: string): string {
    QUOTA_COST_KEY + ['\0'] + (model + ['\0'] + backend)
  }

  function Add(entries: seq<CostEntry>, c: CostEntry): seq<CostEntry> {
    if exists e :: e in entries && DedupeKey(e.model, e.backend) == DedupeKey(c.model, c.backend)
    then entries else entries + [c]
  }

  function AddAll(entries: seq<CostEntry>, cs: seq<CostEntry>): seq<CostEntry> {
    if cs == [] then entries else Add(AddAll(entries, cs[..|cs| - 1]), cs[|cs| - 1])
  }

  lemma {:induction false} AddAllConcat(entries: seq<CostEntry>, a: seq<CostEntry>, b: seq<CostEntry>)
    ensures AddAll(entries, a + b) == AddAll(AddAll(entries, a), b)
  {
    if b == [] {
      assert a + b == a;
    } else {
      assert (a + b)[..|a + b| - 1] == a + b[..|b| - 1];
      AddAllConcat(entries, a, b[..|b| - 1]);
    }
  }

  predicate Unique(entries: seq<CostEntry>) {
    forall i, j :: 0 <= i < j < |entries| ==>
      !(entries[i].model == entries[j].model && entries[i].backend == entries[j].backend)
  }

  lemma {:induction false} AddAllFacts(entries: seq<CostEntry>, cs: seq<CostEntry>)
    requires Unique(entries)
    ensures Unique(AddAll(entries, cs))
    ensures forall e :: e in AddAll(entries, cs) ==> e in entries || e in cs
    ensures forall e :: e in entries ==> e in AddAll(entries, cs)
    ensures forall c :: c in cs ==>
      exists e :: e in AddAll(entries, cs) && DedupeKey(e.model, e.backend) == DedupeKey(c.model, c.backend)
  {
    if cs != [] {
      var init, c := cs[..|cs| - 1], cs[|cs| - 1];
      assert cs == init + [c];
      AddAllFacts(entries, init);
      var before := AddAll(entries, init);
      if !(exists e :: e in before && DedupeKey(e.model, e.backend) == DedupeKey(c.model, c.backend)) {
        forall i | 0 <= i < |before| ensures !(before[i].model == c.model && before[i].backend == c.backend) {
          assert before[i] in before;
        }
        assert c in before + [c];
      }
      assert forall e :: e in before ==> e in AddAll(entries, cs);
    }
  }

  lemma SameKeySameCost(e: CostEntry, c: CostEntry)
    requires '\0' !in e.model && '\0' !in c.model
    requires DedupeKey(e.model, e.backend) == DedupeKey(c.model, c.backend)
    ensures e.model == c.model && e.backend == c.backend
  {
    var a, b := e.model + ['\0'] + e.backend, c.model + ['\0'] + c.backend;
    assert DedupeKey(e.model, e.backend)[|QUOTA_COST_KEY| + 1..] == a;
    assert DedupeKey(c.model, c.backend)[|QUOTA_COST_KEY| + 1..] == b;
    CutFirst(e.model, e.backend, c.model, c.backend, '\0');
  }

  // --------------------------------------------------------------- one injection

  /** The index key of "namespace/name": cut at the first slash. */
  function IndexKeyOf(b: string): string {
    var i := Index(b, "/");
    if i <= 0 || i + 1 == |b| then "" else IndexKey(b[i + 1..], b[..i])
  }

  predicate Splits(b: string) {
    var i := Index(b, "/");
    i > 0 && i + 1 < |b|
  }

  /** Some lookup of the policies of a backend fails. */
  predicate ListFails(backends: set<string>, listOk: string -> bool) {
    exists b :: b in backends && Splits(b) && !listOk(IndexKeyOf(b))
  }

  ghost predicate Collected(ps: seq<QuotaPolicy>, policies: seq<QuotaPolicy>, backends: set<string>) {
    && (forall p :: p in ps <==>
          p in policies && (exists b :: b in backends && Splits(b) && IndexKeyOf(b) in PolicyKeys(p)))
    && (forall i, j :: 0 <= i < j < |ps| ==> KeyOf(ps[i]) != KeyOf(ps[j]))
  }

  /** The lookup loops: every policy found under some backend, once, in any order; None
      as soon as a list call fails. */
  method CollectPolicies(backends: set<string>, policies: seq<QuotaPolicy>, listOk: string -> bool)
    returns (ps: Option<seq<QuotaPolicy>>)
    requires ValidPolicies(policies)
    ensures ps.None? <==> ListFails(backends, listOk)
    ensures ps.Some? ==> Collected(ps.value, policies, backends)
  {
    var found: seq<QuotaPolicy> := [];
    var rest := backends;
    while rest != {}
      invariant rest <= backends
      invariant Collected(found, policies, backends - rest)
      invariant forall b :: b in backends - rest && Splits(b) ==> listOk(IndexKeyOf(b))
    {
      var b :| b in rest;
      ghost var done := backends - rest;
      rest := rest - {b};
      assert backends - rest == done + {b};
      if !Splits(b) {
        continue;
      }
      if !listOk(IndexKeyOf(b)) {
        return None;
      }
      found := AppendMatches(found, policies, IndexKeyOf(b));
    }
    assert backends - rest == backends;
    return Some(found);
  }

  method AppendMatches(before: seq<QuotaPolicy>, policies: seq<QuotaPolicy>, key: string)
    returns (found: seq<QuotaPolicy>)
    requires ValidPolicies(policies) && forall p :: p in before ==> p in policies
    requires forall i, j :: 0 <= i < j < |before| ==> KeyOf(before[i]) != KeyOf(before[j])
    ensures forall p :: p in found <==> p in before || (p in policies && key in PolicyKeys(p))
    ensures forall i, j :: 0 <= i < j < |found| ==> KeyOf(found[i]) != KeyOf(found[j])
  {
    found := before;
    var seen := set p | p in before :: KeyOf(p);
    for k := 0 to |policies|
      invariant forall p :: p in found <==> p in before || (p in policies[..k] && key in PolicyKeys(p))
      invariant forall i, j :: 0 <= i < j < |found| ==> KeyOf(found[i]) != KeyOf(found[j])
      invariant seen == set p | p in found :: KeyOf(p)
    {
      var policy := policies[k];
      assert policies[..k + 1] == policies[..k] + [policy];
      if key in PolicyKeys(policy) {
        if KeyOf(policy) in seen {
          assert policy in found by {
            var q :| q in found && KeyOf(q) == KeyOf(policy);
            KeysIdentify(policies);
            assert q in policies;
          }
        } else {
          forall i | 0 <= i < |found| ensures KeyOf(found[i]) != KeyOf(policy) {
            assert found[i] in found;
          }
          found := found + [policy];
          seen := seen + {KeyOf(policy)};
        }
      }
    }
  }

  /** The authorised targets of a policy and whether one of them is a collected backend. */
  method AuthorisedOnRoute(p: QuotaPolicy, grants: Grants, backends: set<string>)
    returns (targets: seq<TargetRef>, targetsRoute: bool)
    ensures targets == AllowedTargets(grants, p, p.targets)
    ensures targetsRoute <==> TargetsRoute(p, targets, backends)
  {
    targets, targetsRoute := [], false;
    for i := 0 to |p.targets|
      invariant targets == AllowedTargets(grants, p, p.targets[..i])
      invariant targetsRoute <==> TargetsRoute(p, targets, backends)
    {
      var ref := p.targets[i];
      assert p.targets[..i + 1] == p.targets[..i] + [ref];
      AllowedSnoc(grants, p, p.targets[..i], ref);
      var target := TargetOf(p, ref);
      var allowed := ValidateReference(grants.all, target, target !in grants.unlisted);
      if allowed {
        ghost var before := targets;
        targets := targets + [ref];
        assert forall k :: 0 <= k < |before| ==> targets[k] == before[k];
        assert targets[|before|] == ref;
        targetsRoute := targetsRoute || BackendOf(p, ref) in backends;
      }
    }
    assert p.targets[..|p.targets|] == p.targets;
  }

  function Keys(entries: seq<CostEntry>): set<string> {
    set e | e in entries :: DedupeKey(e.model, e.backend)
  }

  /** The injection of one policy, with the set of keys injected so far. */
  method InjectPolicy(p: QuotaPolicy, s: Setting, route: string, entries0: seq<CostEntry>, injected0: set<string>)
    returns (entries: seq<CostEntry>, injected: set<string>)
    requires injected0 == Keys(entries0)
    ensures injected == Keys(entries)
    ensures entries == AddAll(entries0, PolicyCandidates(p, s, route))
  {
    entries, injected := entries0, injected0;
    var targets, targetsRoute := AuthorisedOnRoute(p, s.grants, s.backends);
    if !targetsRoute {
      return;
    }
    for i := 0 to |p.models|
      invariant injected == Keys(entries)
      invariant AddAll(entries, Candidates(p, p.models[i..], targets, s.models, s.compiles, route))
             == AddAll(entries0, Candidates(p, p.models, targets, s.models, s.compiles, route))
    {
      var pmq := p.models[i];
      CandidatesStep(p, i, targets, s.models, s.compiles, route);
      if pmq.model.None? {
        continue;
      }
      if s.models != {} && pmq.model.value !in s.models {
        continue;
      }
      var expr := DEFAULT_EXPRESSION;
      if pmq.costExpression.Some? {
        expr := pmq.costExpression.value;
      }
      if !s.compiles(expr) {
        continue;
      }
      AddAllConcat(entries, ForTargets(p, pmq, targets, route),
                   Candidates(p, p.models[i + 1..], targets, s.models, s.compiles, route));
      entries, injected := InjectTargets(p, pmq, targets, route, entries, injected);
    }
  }

  lemma CandidatesStep(p: QuotaPolicy, i: nat, targets: seq<TargetRef>, models: set<string>, compiles: string -> bool,
                       route: string)
    requires i < |p.models|
    ensures Candidates(p, p.models[i..], targets, models, compiles, route) ==
            (if Served(p.models[i], models, compiles) then ForTargets(p, p.models[i], targets, route) else [])
            + Candidates(p, p.models[i + 1..], targets, models, compiles, route)
    ensures !Served(p.models[i], models, compiles) ==>
              Candidates(p, p.models[i..], targets, models, compiles, route)
              == Candidates(p, p.models[i + 1..], targets, models, compiles, route)
  {
    assert p.models[i..][1..] == p.models[i + 1..];
  }

  method InjectTargets(p: QuotaPolicy, pmq: PerModelQuota, targets: seq<TargetRef>, route: string,
                       entries0: seq<CostEntry>, injected0: set<string>)
    returns (entries: seq<CostEntry>, injected: set<string>)
    requires pmq.model.Some? && injected0 == Keys(entries0)
    ensures injected == Keys(entries)
    ensures entries == AddAll(entries0, ForTargets(p, pmq, targets, route))
  {
    entries, injected := entries0, injected0;
    ghost var cs := ForTargets(p, pmq, targets, route);
    for k := 0 to |targets|
      invariant injected == Keys(entries)
      invariant entries == AddAll(entries0, cs[..k])
    {
      var c := CostEntry(route, pmq.model.value, BackendOf(p, targets[k]), Expression(pmq));
      assert cs[..k + 1][..k] == cs[..k] && cs[..k + 1][k] == c;
      var key := DedupeKey(c.model, c.backend);
      if key !in injected {
        entries := entries + [c];
        injected := injected + {key};
      }
    }
    assert cs[..|targets|] == cs;
  }

  // ------------------------------------------------- the result, independently

  /** (p, q, t) asks for a cost entry. */
  predicate Asks(p: QuotaPolicy, q: PerModelQuota, t: TargetRef, s: Setting) {
    && q in p.models && t in AllowedTargets(s.grants, p, p.targets)
    && TargetsRoute(p, AllowedTargets(s.grants, p, p.targets), s.backends) && Served(q, s.models, s.compiles)
  }

  /** The (model, backend) pairs that must be charged: a policy hits a backend by an
      authorised target, and then every served model of it is charged on every
      authorised target. */
  ghost function Asked(policies: seq<QuotaPolicy>, s: Setting): set<(string, string)> {
    set p, q, t | p in policies && q in p.models && t in AllowedTargets(s.grants, p, p.targets)
                  && Asks(p, q, t, s) :: (q.model.value, BackendOf(p, t))
  }

  function Charged(entries: seq<CostEntry>): set<(string, string)> {
    set e | e in entries :: (e.model, e.backend)
  }

  /** The expression of an entry comes from a policy that asks for it. */
  ghost predicate Justified(e: CostEntry, policies: seq<QuotaPolicy>, s: Setting) {
    exists p, q, t :: p in policies && Asks(p, q, t, s)
      && e.model == q.model.value && e.backend == BackendOf(p, t) && e.cel == Expression(q)
  }

  predicate Covers(entries: seq<CostEntry>, cs: seq<CostEntry>) {
    forall c :: c in cs ==> exists e :: e in entries && DedupeKey(e.model, e.backend) == DedupeKey(c.model, c.backend)
  }

  lemma CoversGrows(entries: seq<CostEntry>, more: seq<CostEntry>, cs: seq<CostEntry>)
    requires Covers(entries, cs) && forall e :: e in entries ==> e in more
    ensures Covers(more, cs)
  {}

  /** Admitted names: no NUL in a model, no empty target name. */
  predicate Admitted(p: QuotaPolicy) {
    && (forall q :: q in p.models ==> q.model.None? || '\0' !in q.model.value)
    && (forall t :: t in p.targets ==> t.name != "")
  }

  /** injectQuotaPolicyCostExpressions for one route, over the backends collected so far:
      nothing on a list error, else exactly the asked pairs, each once. */
  method InjectQuotaCosts(collected: seq<Backend>, policies: seq<QuotaPolicy>, grants: Grants, compiles: string -> bool,
                          listOk: string -> bool, route: string)
    returns (entries: seq<CostEntry>, ghost order: seq<QuotaPolicy>)
    requires ValidPolicies(policies) && forall p :: p in policies ==> Admitted(p)
    ensures Unique(entries) && forall e :: e in entries ==> e.route == route
    ensures var s := SettingOf(collected, grants, compiles);
            if ListFails(s.backends, listOk) then entries == []
            else
              && Charged(entries) == Asked(policies, s) && (forall e :: e in entries ==> Justified(e, policies, s))
              && Collected(order, policies, s.backends) && entries == Injected(order, s, route)
  {
    order := [];
    var s := SettingOf(collected, grants, compiles);
    entries := [];
    var found := CollectPolicies(s.backends, policies, listOk);
    if found.None? {
      return;
    }
    order := found.value;
    entries := InjectFound(found.value, s, route);
    InjectedFacts(found.value, policies, s, route);
    ChargedIsAsked(entries, found.value, policies, s, route);
  }

  /** The entries after the policies found, in the order found. */
  function Injected(ps: seq<QuotaPolicy>, s: Setting, route: string): seq<CostEntry> {
    if ps == [] then []
    else
      AddAll(Injected(ps[..|ps| - 1], s, route),
             PolicyCandidates(ps[|ps| - 1], s, route))
  }

  /** The loop over the policies found. */
  method InjectFound(ps: seq<QuotaPolicy>, s: Setting, route: string) returns (entries: seq<CostEntry>)
    ensures entries == Injected(ps, s, route)
  {
    entries := [];
    var injected: set<string> := {};
    for i := 0 to |ps|
      invariant entries == Injected(ps[..i], s, route)
      invariant injected == Keys(entries)
    {
      assert ps[..i + 1][..i] == ps[..i];
      entries, injected := InjectPolicy(ps[i], s, route, entries, injected);
    }
    assert ps[..|ps|] == ps;
  }

  /** No pair twice, every entry justified, every candidate covered. */
  lemma {:induction false} InjectedFacts(ps: seq<QuotaPolicy>, policies: seq<QuotaPolicy>, s: Setting, route: string)
    requires forall p :: p in ps ==> p in policies
    ensures var entries := Injected(ps, s, route);
            && Unique(entries)
            && (forall e :: e in entries ==> e.route == route && Justified(e, policies, s))
            && (forall k :: 0 <= k < |ps| ==> Covers(entries, PolicyCandidates(ps[k], s, route)))
  {
    if ps != [] {
      var init, p := ps[..|ps| - 1], ps[|ps| - 1];
      InjectedFacts(init, policies, s, route);
      var before, entries := Injected(init, s, route), Injected(ps, s, route);
      assert p in ps;
      AddAllFacts(before, PolicyCandidates(p, s, route));
      CandidatesJustified(policies, p, s, route);
      forall k | 0 <= k < |ps| ensures Covers(entries, PolicyCandidates(ps[k], s, route)) {
        if k < |init| {
          assert init[k] == ps[k];
          CoversGrows(before, entries, PolicyCandidates(ps[k], s, route));
        }
      }
    }
  }

  lemma CandidatesJustified(policies: seq<QuotaPolicy>, p: QuotaPolicy, s: Setting, route: string)
    requires p in policies
    ensures forall e :: e in PolicyCandidates(p, s, route) ==>
              e.route == route && Justified(e, policies, s)
  {
    var targets := AllowedTargets(s.grants, p, p.targets);
    forall e | e in PolicyCandidates(p, s, route)
      ensures e.route == route && Justified(e, policies, s)
    {
      CandidatesAre(p, p.models, targets, s.models, s.compiles, route, e);
      var q, t :| q in p.models && t in targets && Served(q, s.models, s.compiles)
                  && e == CostEntry(route, q.model.value, BackendOf(p, t), Expression(q));
      assert Asks(p, q, t, s);
    }
  }

  lemma {:induction false} AllowedAreTargets(grants: Grants, p: QuotaPolicy, targets: seq<TargetRef>, t: TargetRef)
    requires t in AllowedTargets(grants, p, targets)
    ensures t in targets
  {
    if t in AllowedTargets(grants, p, targets[1..]) {
      AllowedAreTargets(grants, p, targets[1..], t);
    }
  }

  /** A policy that hits a collected backend is found under that backend's index key. */
  lemma HitIsFound(p: QuotaPolicy, t: TargetRef)
    requires ValidPolicy(p) && t in p.targets && t.name != ""
    ensures Splits(BackendOf(p, t)) && IndexKeyOf(BackendOf(p, t)) in PolicyKeys(p)
  {
    var i :| 0 <= i < |p.targets| && p.targets[i] == t;
    var ns, b := TargetNamespace(t, p.namespace), BackendOf(p, t);
    LabelSeparators(ns);
    var k := Index(b, "/");
    assert HasPrefix(b[|ns|..], "/");
    assert k >= 0 && k <= |ns|;
    assert b[k] == b[k..][..1][0] == '/';
    assert k == |ns|;
    assert b[..k] == ns && b[k + 1..] == t.name;
    assert PolicyKeys(p)[i] == IndexKey(t.name, ns);
  }

  lemma ChargedIsAsked(entries: seq<CostEntry>, ps: seq<QuotaPolicy>, policies: seq<QuotaPolicy>, s: Setting,
                       route: string)
    requires ValidPolicies(policies) && forall p :: p in policies ==> Admitted(p)
    requires Collected(ps, policies, s.backends)
    requires forall e :: e in entries ==> Justified(e, policies, s)
    requires forall k :: 0 <= k < |ps| ==> Covers(entries, PolicyCandidates(ps[k], s, route))
    ensures Charged(entries) == Asked(policies, s)
  {
    forall p, q, t | p in policies && Asks(p, q, t, s)
      ensures (q.model.value, BackendOf(p, t)) in Charged(entries)
    {
      AskedIsCharged(entries, ps, policies, s, route, p, q, t);
    }
    forall e | e in entries ensures (e.model, e.backend) in Asked(policies, s) {
      var p, q, t :| p in policies && Asks(p, q, t, s)
        && e.model == q.model.value && e.backend == BackendOf(p, t) && e.cel == Expression(q);
    }
  }

  lemma AskedIsCharged(entries: seq<CostEntry>, ps: seq<QuotaPolicy>, policies: seq<QuotaPolicy>, s: Setting,
                       route: string, p: QuotaPolicy, q: PerModelQuota, t: TargetRef)
    requires ValidPolicies(policies) && forall p :: p in policies ==> Admitted(p)
    requires Collected(ps, policies, s.backends)
    requires forall e :: e in entries ==> Justified(e, policies, s)
    requires forall k :: 0 <= k < |ps| ==> Covers(entries, PolicyCandidates(ps[k], s, route))
    requires p in policies && Asks(p, q, t, s)
    ensures (q.model.value, BackendOf(p, t)) in Charged(entries)
  {
    var targets := AllowedTargets(s.grants, p, p.targets);
    var i :| 0 <= i < |targets| && BackendOf(p, targets[i]) in s.backends;
    AllowedAreTargets(s.grants, p, p.targets, targets[i]);
    assert ValidPolicy(p);
    HitIsFound(p, targets[i]);
    assert p in ps;
    var k :| 0 <= k < |ps| && ps[k] == p;
    var c := CostEntry(route, q.model.value, BackendOf(p, t), Expression(q));
    CandidatesAre(p, p.models, targets, s.models, s.compiles, route, c);
    assert c in PolicyCandidates(ps[k], s, route);
    var e :| e in entries && DedupeKey(e.model, e.backend) == DedupeKey(c.model, c.backend);
    assert '\0' !in e.model by {
      var p', q', t' :| p' in policies && Asks(p', q', t', s)
        && e.model == q'.model.value && e.backend == BackendOf(p', t') && e.cel == Expression(q');
    }
    SameKeySameCost(e, c);
  }

  // ---------------------------------------------------- which expression is charged

  /** The expression of the first entry under a key. */
  function First(cs: seq<CostEntry>, key: string): Option<string> {
    if cs == [] then None
    else if DedupeKey(cs[0].model, cs[0].backend) == key then Some(cs[0].cel)
    else First(cs[1..], key)
  }

  lemma {:induction false} FirstConcat(a: seq<CostEntry>, b: seq<CostEntry>, key: string)
    ensures First(a + b, key) == if First(a, key).Some? then First(a, key) else First(b, key)
  {
    if a == [] {
      assert a + b == b;
    } else {
      assert (a + b)[1..] == a[1..] + b;
      FirstConcat(a[1..], b, key);
    }
  }

  lemma {:induction false} FirstIn(cs: seq<CostEntry>, key: string)
    ensures First(cs, key).Some? <==> key in Keys(cs)
  {
    if cs != [] {
      FirstIn(cs[1..], key);
      assert cs == [cs[0]] + cs[1..];
    }
  }

  lemma {:induction false} AddAllFirst(entries: seq<CostEntry>, cs: seq<CostEntry>, key: string)
    ensures First(AddAll(entries, cs), key) == if First(entries, key).Some? then First(entries, key) else First(cs, key)
  {
    if cs != [] {
      var init, c := cs[..|cs| - 1], cs[|cs| - 1];
      var before := AddAll(entries, init);
      assert cs == init + [c];
      AddAllFirst(entries, init, key);
      FirstConcat(init, [c], key);
      FirstConcat(before, [c], key);
      FirstIn(before, DedupeKey(c.model, c.backend));
      assert DedupeKey(c.model, c.backend) in Keys(before) <==>
        exists e :: e in before && DedupeKey(e.model, e.backend) == DedupeKey(c.model, c.backend);
    }
  }

  /** What one policy would charge under a key: its first quota that asks for it. */
  function Charge(p: QuotaPolicy, s: Setting, route: string, key: string): Option<string> {
    First(PolicyCandidates(p, s, route), key)
  }

  /** The first policy in the order found that asks for a key decides its expression. */
  lemma {:induction false} FirstPolicyDecides(ps: seq<QuotaPolicy>, s: Setting, route: string, key: string, k: nat)
    requires k <= |ps| && forall i :: 0 <= i < k ==> Charge(ps[i], s, route, key).None?
    requires k < |ps| ==> Charge(ps[k], s, route, key).Some?
    ensures First(Injected(ps, s, route), key) ==
            if k < |ps| then Charge(ps[k], s, route, key) else None
  {
    if ps != [] {
      var init, p := ps[..|ps| - 1], ps[|ps| - 1];
      FirstPolicyDecides(init, s, route, key, if k < |init| then k else |init|);
      AddAllFirst(Injected(init, s, route),
                  PolicyCandidates(p, s, route), key);
    }
  }

  /** The same policies with one of them moved to the front. */
  lemma Promote(ps: seq<QuotaPolicy>, i: nat, policies: seq<QuotaPolicy>, backends: set<string>)
    requires i < |ps| && Collected(ps, policies, backends)
    ensures Collected([ps[i]] + ps[..i] + ps[i + 1..], policies, backends)
  {
    var qs := [ps[i]] + ps[..i] + ps[i + 1..];
    forall x | 0 <= x < |qs| ensures qs[x] == ps[if x == 0 then i else if x <= i then x - 1 else x] {}
    forall p ensures p in qs <==> p in ps {
      if p in ps {
        var x :| 0 <= x < |ps| && ps[x] == p;
        assert qs[if x == i then 0 else if x < i then x + 1 else x] == p;
      }
    }
    forall x, y | 0 <= x < y < |qs| ensures KeyOf(qs[x]) != KeyOf(qs[y]) {
      var a, b := if x == 0 then i else if x <= i then x - 1 else x, if y <= i then y - 1 else y;
      assert a != b && qs[x] == ps[a] && qs[y] == ps[b];
    }
  }

  lemma FirstAsker(ps: seq<QuotaPolicy>, s: Setting, route: string, key: string) returns (k: nat)
    ensures k <= |ps| && forall i :: 0 <= i < k ==> Charge(ps[i], s, route, key).None?
    ensures k < |ps| ==> Charge(ps[k], s, route, key).Some?
  {
    k := 0;
    while k < |ps| && Charge(ps[k], s, route, key).None?
      invariant 0 <= k <= |ps|
      invariant forall i :: 0 <= i < k ==> Charge(ps[i], s, route, key).None?
    {
      k := k + 1;
    }
  }

  /** All policies that ask for a key would charge the same. */
  ghost predicate Agree(ps: seq<QuotaPolicy>, s: Setting, route: string, key: string) {
    forall i, j :: 0 <= i < |ps| && 0 <= j < |ps| ==>
      SameCharge(Charge(ps[i], s, route, key), Charge(ps[j], s, route, key))
  }

  predicate SameCharge(a: Option<string>, b: Option<string>) {
    a.Some? && b.Some? ==> a == b
  }

  /** What the order `ps` charges under a key. */
  function Result(ps: seq<QuotaPolicy>, s: Setting, route: string, key: string): Option<string> {
    First(Injected(ps, s, route), key)
  }

  lemma PromotedDecides(ps: seq<QuotaPolicy>, i: nat, policies: seq<QuotaPolicy>, s: Setting, route: string,
                        key: string) returns (qs: seq<QuotaPolicy>)
    requires Collected(ps, policies, s.backends) && i < |ps| && Charge(ps[i], s, route, key).Some?
    ensures Collected(qs, policies, s.backends)
    ensures Result(qs, s, route, key) == Charge(ps[i], s, route, key)
  {
    qs := [ps[i]] + ps[..i] + ps[i + 1..];
    Promote(ps, i, policies, s.backends);
    FirstPolicyDecides(qs, s, route, key, 0);
  }

  /** Go's map order does not show in the expression charged under a key exactly when all
      policies that ask for it would charge the same. */
  lemma ExpressionDeterminedIff(ps: seq<QuotaPolicy>, policies: seq<QuotaPolicy>, s: Setting, route: string,
                                key: string)
    requires Collected(ps, policies, s.backends)
    ensures (forall qs :: Collected(qs, policies, s.backends) ==>
               Result(qs, s, route, key) == Result(ps, s, route, key))
            <==> Agree(ps, s, route, key)
  {
    if Agree(ps, s, route, key) {
      forall qs | Collected(qs, policies, s.backends)
        ensures Result(qs, s, route, key) == Result(ps, s, route, key)
      {
        AgreeingOrders(ps, qs, policies, s, route, key);
      }
    } else {
      var i, j :| 0 <= i < |ps| && 0 <= j < |ps| &&
        !SameCharge(Charge(ps[i], s, route, key), Charge(ps[j], s, route, key));
      var qs := PromotedDecides(ps, i, policies, s, route, key);
      var rs := PromotedDecides(ps, j, policies, s, route, key);
    }
  }

  lemma AgreeingOrders(ps: seq<QuotaPolicy>, qs: seq<QuotaPolicy>, policies: seq<QuotaPolicy>, s: Setting,
                       route: string, key: string)
    requires Collected(ps, policies, s.backends) && Collected(qs, policies, s.backends)
    requires Agree(ps, s, route, key)
    ensures Result(qs, s, route, key) == Result(ps, s, route, key)
  {
    var k := FirstAsker(ps, s, route, key);
    var l := FirstAsker(qs, s, route, key);
    FirstPolicyDecides(ps, s, route, key, k);
    FirstPolicyDecides(qs, s, route, key, l);
    if l < |qs| {
      assert qs[l] in qs && qs[l] in ps;
      var i :| 0 <= i < |ps| && ps[i] == qs[l];
      assert k < |ps|;
    }
    if k < |ps| {
      assert ps[k] in ps && ps[k] in qs;
      var j :| 0 <= j < |qs| && qs[j] == ps[k];
      assert l < |qs|;
    }
  }

  /** A policy for model "x" on backend "n/b" with the given name and expression. */
  function Charging(name: string, expression: string): QuotaPolicy {
    QuotaPolicy("n", name, false, [TargetRef("b", None)], [PerModelQuota(Some("x"), Some(expression))], "")
  }

  lemma ChargingCharges(name: string, expression: string, s: Setting, route: string)
    requires s.backends == {"n/b"} && s.models == {} && s.compiles(expression)
    ensures Charge(Charging(name, expression), s, route, DedupeKey("x", "n/b")) == Some(expression)
  {
    var p := Charging(name, expression);
    var t, q := p.targets[0], p.models[0];
    assert p.targets[1..] == [] && p.models[1..] == [];
    assert AllowedTargets(s.grants, p, p.targets) == [t];
    assert BackendOf(p, t) == "n" + ['/'] + "b" == "n/b";
    assert TargetsRoute(p, [t], s.backends) by {
      assert BackendOf(p, [t][0]) in s.backends;
    }
    assert ForTargets(p, q, [t], route) == [CostEntry(route, "x", "n/b", expression)];
    assert Served(q, s.models, s.compiles) && Candidates(p, p.models[1..], [t], s.models, s.compiles, route) == [];
    assert PolicyCandidates(p, s, route) == [CostEntry(route, "x", "n/b", expression)];
  }

  lemma ChargingKeys(name: string, expression: string)
    ensures PolicyKeys(Charging(name, expression)) == ["b.n"] && KeyOf(Charging(name, expression)) == "n" + ['/'] + name
    ensures Splits("n/b") && IndexKeyOf("n/b") == "b.n"
  {
    var p, b := Charging(name, expression), "n/b";
    assert TargetKey(p.targets[0], "n") == ['b', '.', 'n'] == "b.n";
    assert b[..1] == "n" && b[2..] == "b" && b[1..2] == "/" && b[0..1] == "n";
    assert IndexKey("b", "n") == "b.n";
  }

  lemma BothCollected(e: string, f: string)
    ensures var p, q := Charging("p", e), Charging("q", f);
            Collected([p, q], [p, q], {"n/b"}) && Collected([q, p], [p, q], {"n/b"})
  {
    var p, q := Charging("p", e), Charging("q", f);
    ChargingKeys("p", e);
    ChargingKeys("q", f);
    assert "n/b" in {"n/b"} && "b.n" in PolicyKeys(p) && "b.n" in PolicyKeys(q);
    assert KeyOf(p)[2] != KeyOf(q)[2];
  }

  /** It shows when two policies disagree: each of two orders charges its own expression. */
  lemma TwoOrdersTwoExpressions(e: string, f: string, s: Setting, route: string)
    requires s.backends == {"n/b"} && s.models == {} && s.compiles(e) && s.compiles(f)
    ensures var p, q, key := Charging("p", e), Charging("q", f), DedupeKey("x", "n/b");
            && Collected([p, q], [p, q], s.backends) && Collected([q, p], [p, q], s.backends)
            && Result([p, q], s, route, key) == Some(e) && Result([q, p], s, route, key) == Some(f)
  {
    var p, q, key := Charging("p", e), Charging("q", f), DedupeKey("x", "n/b");
    ChargingCharges("p", e, s, route);
    ChargingCharges("q", f, s, route);
    FirstPolicyDecides([p, q], s, route, key, 0);
    FirstPolicyDecides([q, p], s, route, key, 0);
    BothCollected(e, f);
  }

  // ------------------------------------------------- lookups of grants that fail

  /** The asker survives the failing lookups: its target is not hidden, and the policy
      still reaches a collected backend. */
  predicate Survives(p: QuotaPolicy, t: TargetRef, grants: Grants, backends: set<string>) {
    && !Hidden(grants, p, t)
    && exists i :: 0 <= i < |p.targets| && Allowed(grants, p, p.targets[i]) && BackendOf(p, p.targets[i]) in backends
  }

  lemma {:induction false} AllowedIff(grants: Grants, p: QuotaPolicy, targets: seq<TargetRef>, t: TargetRef)
    ensures t in AllowedTargets(grants, p, targets) <==> t in targets && Allowed(grants, p, t)
  {
    if targets != [] {
      AllowedIff(grants, p, targets[1..], t);
      assert targets == [targets[0]] + targets[1..];
    }
  }

  lemma TargetsRouteIff(grants: Grants, p: QuotaPolicy, backends: set<string>)
    ensures TargetsRoute(p, AllowedTargets(grants, p, p.targets), backends) <==>
            exists i :: 0 <= i < |p.targets| && Allowed(grants, p, p.targets[i])
                        && BackendOf(p, p.targets[i]) in backends
  {
    var ts := AllowedTargets(grants, p, p.targets);
    if k :| 0 <= k < |ts| && BackendOf(p, ts[k]) in backends {
      AllowedIff(grants, p, p.targets, ts[k]);
      assert ts[k] in ts;
    }
    if i :| 0 <= i < |p.targets| && Allowed(grants, p, p.targets[i]) && BackendOf(p, p.targets[i]) in backends {
      AllowedIff(grants, p, p.targets, p.targets[i]);
      assert p.targets[i] in ts;
    }
  }

  lemma AsksUnderFailures(p: QuotaPolicy, q: PerModelQuota, t: TargetRef, s: Setting)
    ensures Asks(p, q, t, s) <==>
            Asks(p, q, t, SeenIn(s)) && Survives(p, t, s.grants, s.backends)
  {
    AllowedIff(s.grants, p, p.targets, t);
    AllowedIff(Seen(s.grants), p, p.targets, t);
    TargetsRouteIff(s.grants, p, s.backends);
    TargetsRouteIff(Seen(s.grants), p, s.backends);
    assert forall i :: 0 <= i < |p.targets| && Allowed(s.grants, p, p.targets[i]) ==>
      Allowed(Seen(s.grants), p, p.targets[i]);
  }

  ghost predicate HasSurvivor(w: (string, string), policies: seq<QuotaPolicy>, s: Setting) {
    exists p, q, t :: p in policies && Asks(p, q, t, SeenIn(s))
      && w == (q.model.value, BackendOf(p, t)) && Survives(p, t, s.grants, s.backends)
  }

  /** Failing lookups lose pairs silently: what is charged is what the grants ask for
      exactly when every asked pair keeps an asker. */
  lemma ChargedUnderFailuresIff(policies: seq<QuotaPolicy>, s: Setting)
    ensures Asked(policies, s) <= Asked(policies, SeenIn(s))
    ensures Asked(policies, s) == Asked(policies, SeenIn(s)) <==>
            forall w :: w in Asked(policies, SeenIn(s)) ==> HasSurvivor(w, policies, s)
  {
    var asked, wanted := Asked(policies, s), Asked(policies, SeenIn(s));
    forall w ensures w in asked ==> w in wanted && HasSurvivor(w, policies, s) {
      if w in asked {
        var p, q, t :| p in policies && q in p.models && t in AllowedTargets(s.grants, p, p.targets)
          && Asks(p, q, t, s) && w == (q.model.value, BackendOf(p, t));
        AsksUnderFailures(p, q, t, s);
      }
    }
    forall w ensures HasSurvivor(w, policies, s) ==> w in asked {
      if HasSurvivor(w, policies, s) {
        var p, q, t :| p in policies && Asks(p, q, t, SeenIn(s))
          && w == (q.model.value, BackendOf(p, t)) && Survives(p, t, s.grants, s.backends);
        AsksUnderFailures(p, q, t, s);
      }
    }
  }

  /** The only target of a policy, on a backend of another namespace. */
  const FOREIGN := QuotaPolicy("n", "p", false, [TargetRef("b", Some("m"))], [PerModelQuota(Some("x"), None)], "")

  /** It happens: with the lookup for the only target failing, nothing is charged. */
  lemma FailedLookupLosesCharge(g: Grant, backends: set<string>, compiles: string -> bool)
    requires PermittedByIndex([g], TargetOf(FOREIGN, FOREIGN.targets[0])) && compiles(DEFAULT_EXPRESSION)
    requires BackendOf(FOREIGN, FOREIGN.targets[0]) in backends
    ensures var s := Setting(Grants([g], {TargetOf(FOREIGN, FOREIGN.targets[0])}), backends, {}, compiles);
            && Asked([FOREIGN], s) == {}
            && ("x", BackendOf(FOREIGN, FOREIGN.targets[0])) in Asked([FOREIGN], SeenIn(s))
  {
    var p := FOREIGN;
    var t, q := p.targets[0], p.models[0];
    var s := Setting(Grants([g], {TargetOf(p, t)}), backends, {}, compiles);
    assert p.targets[1..] == [];
    assert AllowedTargets(s.grants, p, p.targets) == [];
    assert AllowedTargets(SeenIn(s).grants, p, p.targets) == [t];
    assert TargetsRoute(p, [t], backends) by {
      assert BackendOf(p, [t][0]) in backends;
    }
    assert Asks(p, q, t, SeenIn(s));
  }

  // ------------------------------------------------------------ a list of routes

  /** A route as this loop sees it: the backends it kept. */
  datatype RouteInput = RouteInput(name: string, deleting: bool, backends: seq<Backend>)

  /** The backends collected when the i-th route is processed: those of every live
      route up to and including it. */
  function Accumulated(routes: seq<RouteInput>): seq<Backend> {
    if routes == [] then []
    else
      var last := routes[|routes| - 1];
      Accumulated(routes[..|routes| - 1]) + if last.deleting then [] else last.backends
  }

  lemma OwnIsAccumulated(routes: seq<RouteInput>)
    requires routes != [] && !routes[|routes| - 1].deleting
    ensures var own := routes[|routes| - 1].backends;
            && RouteBackends(own) <= RouteBackends(Accumulated(routes))
            && RouteModels(own) <= RouteModels(Accumulated(routes))
  {
    var own := routes[|routes| - 1].backends;
    assert forall b :: b in own ==> b in Accumulated(routes);
  }

  /** What a route's own backends ask for is charged, exactly unless the route overrides
      no model, some route before it does, and that one hides an asked model. */
  lemma OwnCostsAreCharged(routes: seq<RouteInput>, policies: seq<QuotaPolicy>, grants: Grants,
                           compiles: string -> bool)
    requires routes != [] && !routes[|routes| - 1].deleting
    ensures var own, all := routes[|routes| - 1].backends, Accumulated(routes);
            var wanted := Asked(policies, SettingOf(own, grants, compiles));
            wanted <= Asked(policies, SettingOf(all, grants, compiles)) <==>
              (RouteModels(own) == {} && RouteModels(all) != {} ==> forall w :: w in wanted ==> w.0 in RouteModels(all))
  {
    OwnIsAccumulated(routes);
    var own, all := routes[|routes| - 1].backends, Accumulated(routes);
    var wanted := Asked(policies, SettingOf(own, grants, compiles));
    var charged := Asked(policies, SettingOf(all, grants, compiles));
    forall w | w in charged && RouteModels(all) != {} ensures w.0 in RouteModels(all) {
      var p, q, t :| p in policies && q in p.models && t in AllowedTargets(grants, p, p.targets)
        && Asks(p, q, t, SettingOf(all, grants, compiles)) && w == (q.model.value, BackendOf(p, t));
    }
    forall w | w in wanted && (RouteModels(own) == {} && RouteModels(all) != {} ==> w.0 in RouteModels(all))
      ensures w in charged
    {
      var p, q, t :| p in policies && q in p.models && t in AllowedTargets(grants, p, p.targets)
        && Asks(p, q, t, SettingOf(own, grants, compiles)) && w == (q.model.value, BackendOf(p, t));
      assert Asks(p, q, t, SettingOf(all, grants, compiles));
    }
  }

  const NO_GRANTS := Grants([], {})

  lemma AccumulatedTwo(r1: RouteInput, r2: RouteInput)
    requires !r1.deleting && !r2.deleting
    ensures Accumulated([r1, r2]) == r1.backends + r2.backends
  {
    var routes := [r1, r2];
    assert routes[..1] == [r1] && [r1][..0] == [];
    assert Accumulated([r1]) == Accumulated([r1][..0]) + r1.backends;
    assert Accumulated(routes) == Accumulated(routes[..1]) + r2.backends;
  }

  lemma OneTargetAllowed(p: QuotaPolicy, t: TargetRef)
    requires TargetNamespace(t, p.namespace) == p.namespace
    ensures AllowedTargets(NO_GRANTS, p, [t]) == [t]
  {
    assert Allowed(NO_GRANTS, p, t) && [t][1..] == [];
  }

  /** It is hidden: the first route overrides "m1", so the quota for "m2" on the second
      route's only backend is not charged. */
  lemma EarlierOverrideHidesQuota(p: QuotaPolicy, compiles: string -> bool, listOk: string -> bool)
    requires compiles(DEFAULT_EXPRESSION)
    requires p == QuotaPolicy("n", "p", false, [TargetRef("b", None)], [PerModelQuota(Some("m2"), None)], "")
    ensures var r1 := RouteInput("n/r1", false, [Backend("n/a", "m1")]);
            var r2 := RouteInput("n/r2", false, [Backend("n/b", "")]);
            && ("m2", BackendOf(p, p.targets[0])) in Asked([p], SettingOf(r2.backends, NO_GRANTS, compiles))
            && ("m2", BackendOf(p, p.targets[0])) !in Expected([r1, r2], 1, [p], NO_GRANTS, compiles, listOk)
  {
    var r1, r2 := RouteInput("n/r1", false, [Backend("n/a", "m1")]), RouteInput("n/r2", false, [Backend("n/b", "")]);
    var t, q := p.targets[0], p.models[0];
    OneTargetAllowed(p, t);
    assert BackendOf(p, t) == "n" + ['/'] + "b" == "n/b" && r2.backends[0] in r2.backends;
    assert "n/b" in RouteBackends(r2.backends) && RouteModels(r2.backends) == {};
    assert TargetsRoute(p, [t], RouteBackends(r2.backends)) by {
      assert [t][0] in [t];
    }
    assert Asks(p, q, t, SettingOf(r2.backends, NO_GRANTS, compiles));
    var routes := [r1, r2];
    assert routes[..2] == routes;
    AccumulatedTwo(r1, r2);
    assert (r1.backends + r2.backends)[0] == Backend("n/a", "m1");
    assert "m1" in RouteModels(r1.backends + r2.backends) && "m2" !in RouteModels(r1.backends + r2.backends);
  }

  /** One entry per route, model and backend over the whole list of routes. */
  predicate UniquePerRoute(entries: seq<CostEntry>) {
    forall i, j :: 0 <= i < j < |entries| ==>
      !(entries[i].route == entries[j].route && entries[i].model == entries[j].model &&
        entries[i].backend == entries[j].backend)
  }

  function ChargedTo(costs: seq<CostEntry>, route: string): set<(string, string)> {
    set e | e in costs && e.route == route :: (e.model, e.backend)
  }

  /** The pairs charged to the i-th route: none if a lookup for the backends collected by
      then fails. */
  ghost function Expected(routes: seq<RouteInput>, i: nat, policies: seq<QuotaPolicy>, grants: Grants,
                          compiles: string -> bool, listOk: string -> bool): set<(string, string)>
    requires i < |routes|
  {
    var s := SettingOf(Accumulated(routes[..i + 1]), grants, compiles);
    if routes[i].deleting || routes[i].backends == [] || ListFails(s.backends, listOk) then {}
    else Asked(policies, s)
  }

  lemma AppendEntries(costs: seq<CostEntry>, entries: seq<CostEntry>, name: string)
    requires UniquePerRoute(costs) && Unique(entries)
    requires forall e :: e in entries ==> e.route == name
    requires forall e :: e in costs ==> e.route != name
    ensures UniquePerRoute(costs + entries)
    ensures ChargedTo(costs + entries, name) == Charged(entries)
    ensures forall n :: n != name ==> ChargedTo(costs + entries, n) == ChargedTo(costs, n)
  {
    var both := costs + entries;
    forall i, j | 0 <= i < j < |both|
      ensures !(both[i].route == both[j].route && both[i].model == both[j].model && both[i].backend == both[j].backend)
    {
      if i < |costs| <= j {
        assert costs[i] in costs && entries[j - |costs|] in entries;
      }
    }
  }

  /** Every route before the i-th is charged what is expected, and no later one anything. */
  ghost predicate ChargedUpTo(costs: seq<CostEntry>, routes: seq<RouteInput>, i: nat, policies: seq<QuotaPolicy>,
                              grants: nat -> Grants, compiles: string -> bool, listOk: nat -> string -> bool)
    requires i <= |routes|
  {
    && (forall e, k :: e in costs && i <= k < |routes| ==> e.route != routes[k].name)
    && (forall k :: 0 <= k < i ==>
          ChargedTo(costs, routes[k].name) == Expected(routes, k, policies, grants(k), compiles, listOk(k)))
  }

  lemma ChargedNext(costs: seq<CostEntry>, entries: seq<CostEntry>, routes: seq<RouteInput>, i: nat,
                    policies: seq<QuotaPolicy>,
                    grants: nat -> Grants, compiles: string -> bool, listOk: nat -> string -> bool)
    requires forall i, j :: 0 <= i < j < |routes| ==> routes[i].name != routes[j].name
    requires i < |routes| && ChargedUpTo(costs, routes, i, policies, grants, compiles, listOk)
    requires UniquePerRoute(costs) && Unique(entries) && forall e :: e in entries ==> e.route == routes[i].name
    requires Charged(entries) == Expected(routes, i, policies, grants(i), compiles, listOk(i))
    ensures UniquePerRoute(costs + entries)
    ensures ChargedUpTo(costs + entries, routes, i + 1, policies, grants, compiles, listOk)
  {
    AppendEntries(costs, entries, routes[i].name);
  }

  /** The quota part of the route loop of reconcileFilterConfigSecret: every route is charged
      exactly the pairs its collected backends ask for, or none if one of their lookups
      fails. The lookups of each route are its own, with outcomes of their own. */
  method InjectForRoutes(routes: seq<RouteInput>, policies: seq<QuotaPolicy>, grants: nat -> Grants,
                         compiles: string -> bool, listOk: nat -> string -> bool) returns (costs: seq<CostEntry>)
    requires ValidPolicies(policies) && forall p :: p in policies ==> Admitted(p)
    requires forall i, j :: 0 <= i < j < |routes| ==> routes[i].name != routes[j].name
    ensures UniquePerRoute(costs)
    ensures forall i :: 0 <= i < |routes| ==>
      ChargedTo(costs, routes[i].name) == Expected(routes, i, policies, grants(i), compiles, listOk(i))
  {
    costs := [];
    var collected: seq<Backend> := [];
    for i := 0 to |routes|
      invariant collected == Accumulated(routes[..i])
      invariant UniquePerRoute(costs) && ChargedUpTo(costs, routes, i, policies, grants, compiles, listOk)
    {
      var r := routes[i];
      assert routes[..i + 1][..i] == routes[..i] && routes[..i + 1][i] == r;
      var entries: seq<CostEntry> := [];
      if !r.deleting {
        collected := collected + r.backends;
        if |r.backends| > 0 {
          ghost var order;
          entries, order := InjectQuotaCosts(collected, policies, grants(i), compiles, listOk(i), r.name);
        }
      }
      assert Charged(entries) == Expected(routes, i, policies, grants(i), compiles, listOk(i));
      ChargedNext(costs, entries, routes, i, policies, grants, compiles, listOk);
      costs := costs + entries;
    }
  }
}
