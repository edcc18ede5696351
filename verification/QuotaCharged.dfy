/** Which quota costs a filter configuration carries, said on the fields of the routes and
    policies alone. */
module QuotaCharged {
  import opened Text
  import opened Wrappers
  import opened Api
  import opened QuotaEffective
  import opened QuotaCost

  /** A backend of a route up to the i-th that is not being deleted. */
  ghost predicate Collects(routes: seq<RouteInput>, i: nat, b: Backend) {
    exists k :: 0 <= k < |routes| && k <= i && !routes[k].deleting && b in routes[k].backends
  }

  lemma {:induction false} AccumulatedIff(routes: seq<RouteInput>, n: nat, b: Backend)
    requires n <= |routes|
    ensures b in Accumulated(routes[..n]) <==>
            exists k :: 0 <= k < n && !routes[k].deleting && b in routes[k].backends
  {
    if n > 0 {
      assert routes[..n][..n - 1] == routes[..n - 1] && routes[..n][n - 1] == routes[n - 1];
      AccumulatedIff(routes, n - 1, b);
    }
  }

  lemma CollectsIff(routes: seq<RouteInput>, i: nat, b: Backend)
    requires i < |routes|
    ensures b in Accumulated(routes[..i + 1]) <==> Collects(routes, i, b)
  {
    AccumulatedIff(routes, i + 1, b);
  }

  // ---------------------------------------------------------- "namespace/name", cut again

  /** The identity of an AIServiceBackend: a namespace, a slash and a name. */
  predicate Names(backend: string, namespace: string, name: string) {
    backend == namespace + "/" + name && Label(namespace) && name != ""
  }

  lemma CutBackend(namespace: string, name: string)
    requires Label(namespace) && name != ""
    ensures Splits(namespace + "/" + name) && IndexKeyOf(namespace + "/" + name) == name + "." + namespace
  {
    var b, n := namespace + "/" + name, |namespace|;
    LabelSeparators(namespace);
    forall j | 0 <= j <= n ensures HasPrefix(b[j..], "/") <==> j == n {
      assert b[j..][..1] == [b[j]];
      assert j < n ==> b[j] == namespace[j];
    }
    assert HasPrefix(b[n..], "/");
    assert Text.Index(b, "/") == n;
    assert b[n + 1..] == name && b[..n] == namespace;
    assert IndexKey(name, namespace) == name + "." + namespace;
  }

  /** Every collected backend is an AIServiceBackend or a pool. */
  ghost predicate WellNamed(backends: set<string>) {
    forall b :: b in backends ==> exists namespace, name :: Names(b, namespace, name)
  }

  lemma ListFailsIff(backends: set<string>, listOk: string -> bool)
    requires WellNamed(backends)
    ensures ListFails(backends, listOk) <==>
            exists b, namespace, name :: b in backends && Names(b, namespace, name) && !listOk(name + "." + namespace)
  {
    forall b, namespace, name | b in backends && Names(b, namespace, name)
      ensures Splits(b) && IndexKeyOf(b) == name + "." + namespace
    {
      CutBackend(namespace, name);
    }
  }

  /** A policy is looked at exactly if it targets a collected backend, permitted or not. */
  lemma CollectedIff(ps: seq<QuotaPolicy>, policies: seq<QuotaPolicy>, backends: set<string>, p: QuotaPolicy)
    requires Collected(ps, policies, backends) && WellNamed(backends)
    requires ValidPolicy(p) && forall t :: t in p.targets ==> t.name != ""
    ensures p in ps <==>
            p in policies && exists t :: t in p.targets && TargetNamespace(t, p.namespace) + "/" + t.name in backends
  {
    if b :| b in backends && Splits(b) && IndexKeyOf(b) in PolicyKeys(p) {
      var i :| 0 <= i < |p.targets| && PolicyKeys(p)[i] == IndexKeyOf(b);
      var namespace, name :| Names(b, namespace, name);
      CutBackend(namespace, name);
      SameKeySameBackend(p.targets[i], p.namespace, namespace, name);
      assert p.targets[i] in p.targets;
    }
    if t :| t in p.targets && TargetNamespace(t, p.namespace) + "/" + t.name in backends {
      var home := TargetNamespace(t, p.namespace);
      HomeIsLabel(p, t);
      CutBackend(home, t.name);
      var i :| 0 <= i < |p.targets| && p.targets[i] == t;
      assert PolicyKeys(p)[i] == t.name + "." + home;
      assert PolicyKeys(p)[i] in PolicyKeys(p);
    }
  }

  lemma HomeIsLabel(p: QuotaPolicy, t: TargetRef)
    requires ValidPolicy(p) && t in p.targets
    ensures Label(TargetNamespace(t, p.namespace))
  {}

  lemma SameKeySameBackend(t: TargetRef, local: string, namespace: string, name: string)
    requires Label(namespace) && (ValidNamespace(t.namespace) && Label(local))
    requires TargetKey(t, local) == name + "." + namespace
    ensures TargetNamespace(t, local) == namespace && t.name == name
  {
    LabelSeparators(namespace);
    LabelSeparators(TargetNamespace(t, local));
    assert name + "." + namespace == IndexKey(name, namespace);
    IndexKeyInjective(t.name, TargetNamespace(t, local), name, namespace);
  }

  // ------------------------------------------------------------------- what is charged

  /** A policy asks for a cost of a model on a backend: the backend is a permitted target, the
      model has a quota whose expression, or the default one, compiles. */
  ghost predicate AsksFor(p: QuotaPolicy, grants: Grants, compiles: string -> bool, model: string, backend: string) {
    && (exists t :: t in p.targets && Allowed(grants, p, t)
                    && TargetNamespace(t, p.namespace) + "/" + t.name == backend)
    && (exists q :: q in p.models && q.model == Some(model) && compiles(q.costExpression.GetOr("total_tokens")))
  }

  /** One of its permitted targets is among these backends. */
  ghost predicate Reaches(p: QuotaPolicy, grants: Grants, backends: set<string>) {
    exists t :: t in p.targets && Allowed(grants, p, t) && TargetNamespace(t, p.namespace) + "/" + t.name in backends
  }

  lemma AskedIff(policies: seq<QuotaPolicy>, s: Setting, model: string, backend: string)
    ensures (model, backend) in Asked(policies, s) <==>
            && (s.models == {} || model in s.models)
            && exists p :: p in policies && AsksFor(p, s.grants, s.compiles, model, backend)
                           && Reaches(p, s.grants, s.backends)
  {
    if (model, backend) in Asked(policies, s) {
      var p, q, t :| p in policies && q in p.models && t in AllowedTargets(s.grants, p, p.targets)
        && Asks(p, q, t, s) && (model, backend) == (q.model.value, BackendOf(p, t));
      AllowedIff(s.grants, p, p.targets, t);
      BackendIs(p, t);
      ReachesIff(p, s);
      assert AsksFor(p, s.grants, s.compiles, model, backend);
    }
    if p :| p in policies && AsksFor(p, s.grants, s.compiles, model, backend) && Reaches(p, s.grants, s.backends)
            && (s.models == {} || model in s.models) {
      var t :| t in p.targets && Allowed(s.grants, p, t) && TargetNamespace(t, p.namespace) + "/" + t.name == backend;
      var q :| q in p.models && q.model == Some(model) && s.compiles(q.costExpression.GetOr("total_tokens"));
      AllowedIff(s.grants, p, p.targets, t);
      BackendIs(p, t);
      ReachesIff(p, s);
      assert Asks(p, q, t, s);
    }
  }

  lemma BackendIs(p: QuotaPolicy, t: TargetRef)
    ensures BackendOf(p, t) == TargetNamespace(t, p.namespace) + "/" + t.name
  {}

  lemma ReachesIff(p: QuotaPolicy, s: Setting)
    ensures TargetsRoute(p, AllowedTargets(s.grants, p, p.targets), s.backends) <==> Reaches(p, s.grants, s.backends)
  {
    TargetsRouteIff(s.grants, p, s.backends);
    forall t ensures BackendOf(p, t) == TargetNamespace(t, p.namespace) + "/" + t.name {
      BackendIs(p, t);
    }
    if Reaches(p, s.grants, s.backends) {
      var t :| t in p.targets && Allowed(s.grants, p, t)
        && TargetNamespace(t, p.namespace) + "/" + t.name in s.backends;
      var i :| 0 <= i < |p.targets| && p.targets[i] == t;
      assert BackendOf(p, p.targets[i]) in s.backends;
    }
  }

  /** The identities and the overridden models of the backends up to the i-th route. */
  ghost predicate Serves(routes: seq<RouteInput>, i: nat, backend: string) {
    backend != "" && exists b :: Collects(routes, i, b) && b.aiServiceBackend == backend
  }

  ghost predicate Overrides(routes: seq<RouteInput>, i: nat, model: string) {
    model != "" && exists b :: Collects(routes, i, b) && b.modelOverride == model
  }

  lemma SettingIs(routes: seq<RouteInput>, i: nat)
    requires i < |routes|
    ensures var all := Accumulated(routes[..i + 1]);
            && (forall x :: x in RouteBackends(all) <==> Serves(routes, i, x))
            && (forall x :: x in RouteModels(all) <==> Overrides(routes, i, x))
  {
    forall b ensures b in Accumulated(routes[..i + 1]) <==> Collects(routes, i, b) {
      CollectsIff(routes, i, b);
    }
  }

  /** A lookup of the policies of some backend collected by the i-th route fails. */
  ghost predicate LookupFails(routes: seq<RouteInput>, i: nat, listOk: string -> bool) {
    exists namespace, name :: Serves(routes, i, namespace + "/" + name)
                              && Names(namespace + "/" + name, namespace, name)
                              && !listOk(name + "." + namespace)
  }

  /** One of the policy's permitted targets is a backend collected by the i-th route. */
  ghost predicate ReachesRoutes(p: QuotaPolicy, grants: Grants, routes: seq<RouteInput>, i: nat) {
    exists t :: t in p.targets && Allowed(grants, p, t)
                && Serves(routes, i, TargetNamespace(t, p.namespace) + "/" + t.name)
  }

  lemma ReachesRoutesIff(p: QuotaPolicy, grants: Grants, routes: seq<RouteInput>, i: nat, backends: set<string>)
    requires forall x :: x in backends <==> Serves(routes, i, x)
    ensures Reaches(p, grants, backends) <==> ReachesRoutes(p, grants, routes, i)
  {
    if t :| t in p.targets && Allowed(grants, p, t) && TargetNamespace(t, p.namespace) + "/" + t.name in backends {
      assert Serves(routes, i, TargetNamespace(t, p.namespace) + "/" + t.name);
    }
    if t :| t in p.targets && Allowed(grants, p, t)
            && Serves(routes, i, TargetNamespace(t, p.namespace) + "/" + t.name) {
      assert TargetNamespace(t, p.namespace) + "/" + t.name in backends;
    }
  }

  lemma NoOverrideIff(routes: seq<RouteInput>, i: nat, models: set<string>)
    requires forall x :: x in models <==> Overrides(routes, i, x)
    ensures models == {} <==> forall m :: !Overrides(routes, i, m)
  {
    if models != {} {
      var m :| m in models;
      assert Overrides(routes, i, m);
    }
  }

  lemma LookupFailsIff(routes: seq<RouteInput>, i: nat, backends: set<string>, listOk: string -> bool)
    requires forall x :: x in backends <==> Serves(routes, i, x)
    requires forall b :: Serves(routes, i, b) ==> exists namespace, name :: Names(b, namespace, name)
    ensures ListFails(backends, listOk) <==> LookupFails(routes, i, listOk)
  {
    forall b | b in backends ensures exists namespace, name :: Names(b, namespace, name) {
      assert Serves(routes, i, b);
    }
    ListFailsIff(backends, listOk);
    LookupIsListed(routes, i, backends, listOk);
  }

  /** A policy asks for the pair and reaches a collected backend; and one of these backends
      overrides to the model, or none overrides any. */
  ghost predicate AskedFor(routes: seq<RouteInput>, i: nat, policies: seq<QuotaPolicy>, grants: Grants,
                           compiles: string -> bool, model: string, backend: string) {
    && (Overrides(routes, i, model) || forall m :: !Overrides(routes, i, m))
    && exists p :: p in policies && AsksFor(p, grants, compiles, model, backend) && ReachesRoutes(p, grants, routes, i)
  }

  lemma AskedOnRoutes(routes: seq<RouteInput>, i: nat, policies: seq<QuotaPolicy>, s: Setting, model: string,
                      backend: string)
    requires forall x :: x in s.backends <==> Serves(routes, i, x)
    requires forall x :: x in s.models <==> Overrides(routes, i, x)
    ensures (model, backend) in Asked(policies, s) <==>
            AskedFor(routes, i, policies, s.grants, s.compiles, model, backend)
  {
    AskedIff(policies, s, model, backend);
    NoOverrideIff(routes, i, s.models);
    forall p ensures Reaches(p, s.grants, s.backends) <==> ReachesRoutes(p, s.grants, routes, i) {
      ReachesRoutesIff(p, s.grants, routes, i, s.backends);
    }
  }

  /** What a route is charged for: nothing if it is being deleted, has no backends, or a lookup
      fails for a backend of it or of any live route before it. Else exactly the models and
      backends that a policy asks for which reaches one of those backends; a model only if
      one of them overrides to it, or none overrides any. */
  lemma ExpectedIff(routes: seq<RouteInput>, i: nat, policies: seq<QuotaPolicy>, grants: Grants,
                    compiles: string -> bool, listOk: string -> bool, model: string, backend: string)
    requires i < |routes|
    requires forall b :: Serves(routes, i, b) ==> exists namespace, name :: Names(b, namespace, name)
    ensures (model, backend) in Expected(routes, i, policies, grants, compiles, listOk) <==>
            && !routes[i].deleting && |routes[i].backends| > 0 && !LookupFails(routes, i, listOk)
            && AskedFor(routes, i, policies, grants, compiles, model, backend)
  {
    var s := SettingOf(Accumulated(routes[..i + 1]), grants, compiles);
    SettingIs(routes, i);
    LookupFailsIff(routes, i, s.backends, listOk);
    AskedOnRoutes(routes, i, policies, s, model, backend);
  }

  lemma LookupIsListed(routes: seq<RouteInput>, i: nat, backends: set<string>, listOk: string -> bool)
    requires forall x :: x in backends <==> Serves(routes, i, x)
    ensures LookupFails(routes, i, listOk) <==>
            exists b, namespace, name :: b in backends && Names(b, namespace, name) && !listOk(name + "." + namespace)
  {
    if b, namespace, name :| b in backends && Names(b, namespace, name) && !listOk(name + "." + namespace) {
      assert Serves(routes, i, namespace + "/" + name);
    }
    if namespace, name :| Serves(routes, i, namespace + "/" + name)
                          && Names(namespace + "/" + name, namespace, name) && !listOk(name + "." + namespace) {
      assert namespace + "/" + name in backends;
    }
  }
}
