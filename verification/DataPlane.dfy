/** What one AIGatewayRoute becomes in the data plane: the HTTPRoute that Envoy Gateway
    translates, the filter config that ext_proc reads, and the backend names the extension
    server stamps on the translated endpoints, which tie the two together. */
module DataPlane {
  import opened Text
  import opened Wrappers
  import opened Api
  import opened ReferenceGrants

  datatype RuleRef = RuleRef(target: BackendRef, weight: Option<nat>)
  datatype AiRoute = AiRoute(namespace: string, name: string, rules: seq<seq<RuleRef>>)

  /** A BackendSecurityPolicy: its targets (pool or backend, by name) and whether the
      credentials it names can be read. */
  datatype Policy = Policy(namespace: string, targets: seq<(bool, string)>, authOk: bool)

  datatype Snapshot = Snapshot(grants: seq<Grant>, backends: set<(string, string)>, policies: seq<Policy>)

  // --------------------------------------------------------------- positions in a list

  /** The positions that are marked. */
  function Where(marks: seq<bool>): seq<nat> {
    if marks == [] then []
    else Where(marks[..|marks| - 1]) + if marks[|marks| - 1] then [|marks| - 1] else []
  }

  lemma {:induction false} WhereIff(marks: seq<bool>, i: nat)
    ensures i in Where(marks) <==> i < |marks| && marks[i]
  {
    if marks != [] {
      WhereIff(marks[..|marks| - 1], i);
    }
  }

  lemma {:induction false} WhereAscends(marks: seq<bool>, x: nat, y: nat)
    requires x < y < |Where(marks)|
    ensures Where(marks)[x] < Where(marks)[y]
  {
    var init := marks[..|marks| - 1];
    if y < |Where(init)| {
      WhereAscends(init, x, y);
    } else {
      WhereIff(init, Where(init)[x]);
    }
  }

  predicate Within(b: seq<bool>, a: seq<bool>) {
    |a| == |b| && forall i :: 0 <= i < |a| ==> b[i] ==> a[i]
  }

  lemma {:induction false} WhereSame(a: seq<bool>, b: seq<bool>)
    requires Within(b, a)
    ensures |Where(b)| <= |Where(a)|
    ensures Where(a) == Where(b) <==> a == b
    ensures |Where(a)| == |Where(b)| ==> a == b
  {
    if a != [] {
      var n := |a| - 1;
      WhereSame(a[..n], b[..n]);
      assert a == a[..n] + [a[n]] && b == b[..n] + [b[n]];
    }
  }

  /** The marks of `b` are the first ones of `a`. */
  predicate Leading(b: seq<bool>, a: seq<bool>)
    requires Within(b, a)
  {
    forall i, j :: 0 <= i < j < |a| && a[i] && b[j] ==> b[i]
  }

  /** Reading off `a` in order finds `b` first exactly when `b` leads. */
  lemma {:induction false} PrefixIffLeading(a: seq<bool>, b: seq<bool>)
    requires Within(b, a)
    ensures Where(b) <= Where(a) <==> Leading(b, a)
  {
    if a != [] {
      var n := |a| - 1;
      var a', b' := a[..n], b[..n];
      PrefixIffLeading(a', b');
      WhereSame(a', b');
      assert forall i :: 0 <= i < n ==> a'[i] == a[i] && b'[i] == b[i];
      if b[n] {
        assert Leading(b, a) <==> a' == b' by {
          if Leading(b, a) {
            assert forall i :: 0 <= i < n && a[i] ==> b[i];
          }
        }
        if |Where(b')| < |Where(a')| {
          assert Where(a)[|Where(b')|] == Where(a')[|Where(b')|];
          WhereIff(a', Where(a')[|Where(b')|]);
          assert Where(b)[|Where(b')|] == n;
        }
        if Where(b) <= Where(a) {
          assert |Where(a')| == |Where(b')|;
        }
      } else {
        assert Leading(b, a) <==> Leading(b', a');
        assert Where(a) == Where(a') || Where(a) == Where(a') + [n];
        assert Where(a)[..|Where(a')|] == Where(a');
        assert Where(a)[..|Where(b')|] == Where(a')[..|Where(b')|];
      }
    }
  }

  // ------------------------------------------------------------ which references survive

  function TargetOf(namespace: string, r: RuleRef): Reference {
    var ns := BackendNamespace(r.target, namespace);
    if r.target.pool then RouteToPool(namespace, ns, r.target.name) else RouteToBackend(namespace, ns, r.target.name)
  }

  /** A reference the HTTPRoute keeps. */
  predicate Kept(s: Snapshot, namespace: string, r: RuleRef) {
    && Permitted(s.grants, TargetOf(namespace, r))
    && (r.target.pool || (BackendNamespace(r.target, namespace), r.target.name) in s.backends)
  }

  /** One entry per matching target of a policy in the backend's namespace. */
  function Matching(policies: seq<Policy>, namespace: string, pool: bool, name: string): seq<Policy> {
    if policies == [] then []
    else
      var p := policies[|policies| - 1];
      Matching(policies[..|policies| - 1], namespace, pool, name) +
      if p.namespace == namespace then Repeat(p, Count(p.targets, (pool, name))) else []
  }

  function Count(targets: seq<(bool, string)>, t: (bool, string)): nat {
    if targets == [] then 0 else Count(targets[..|targets| - 1], t) + if targets[|targets| - 1] == t then 1 else 0
  }

  function Repeat<T>(x: T, n: nat): seq<T> {
    seq(n, _ => x)
  }

  /** No ambiguous policy and no unreadable credential. */
  predicate Secured(s: Snapshot, namespace: string, r: RuleRef) {
    var ps := Matching(s.policies, BackendNamespace(r.target, namespace), r.target.pool, r.target.name);
    ps == [] || (|ps| == 1 && ps[0].authOk)
  }

  predicate Configured(s: Snapshot, namespace: string, r: RuleRef) {
    Kept(s, namespace, r) && Secured(s, namespace, r)
  }

  function KeptMarks(s: Snapshot, namespace: string, refs: seq<RuleRef>): (marks: seq<bool>)
    ensures |marks| == |refs| && forall j :: 0 <= j < |refs| ==> marks[j] == Kept(s, namespace, refs[j])
  {
    seq(|refs|, j requires 0 <= j < |refs| => Kept(s, namespace, refs[j]))
  }

  function ConfigMarks(s: Snapshot, namespace: string, refs: seq<RuleRef>): (marks: seq<bool>)
    ensures |marks| == |refs| && forall j :: 0 <= j < |refs| ==> marks[j] == Configured(s, namespace, refs[j])
  {
    seq(|refs|, j requires 0 <= j < |refs| => Configured(s, namespace, refs[j]))
  }

  /** The namespace of a reference, on its fields. */
  function Home(namespace: string, r: RuleRef): string {
    match r.target.namespace
    case Some(ns) => if ns != "" then ns else namespace
    case None => namespace
  }

  /** A live grant in the backend's namespace that lets AIGatewayRoutes of the route's
      namespace refer to this pool or this backend. */
  predicate GrantsRoute(g: Grant, namespace: string, r: RuleRef) {
    && !g.deleting && g.namespace == Home(namespace, r)
    && (exists i :: 0 <= i < |g.from| && g.from[i] == From("aigateway.envoyproxy.io", "AIGatewayRoute", namespace))
    && (exists i :: 0 <= i < |g.to| && (g.to[i].name == None || g.to[i].name == Some(r.target.name))
                    && (g.to[i].group, g.to[i].kind) == if r.target.pool
                                                        then ("inference.networking.k8s.io", "InferencePool")
                                                        else ("aigateway.envoyproxy.io", "AIServiceBackend"))
  }

  /** Which references survive, on the fields of the objects: those that stay in the route's
      namespace or are granted, and whose AIServiceBackend exists, if it is not a pool. */
  lemma KeptIff(s: Snapshot, namespace: string, r: RuleRef)
    ensures Kept(s, namespace, r) <==>
            && (Home(namespace, r) == namespace
                || exists i :: 0 <= i < |s.grants| && GrantsRoute(s.grants[i], namespace, r))
            && (!r.target.pool ==> (Home(namespace, r), r.target.name) in s.backends)
  {
    var ref := TargetOf(namespace, r);
    assert ref.namespace == Home(namespace, r) && ref.fromNamespace == namespace;
    forall i | 0 <= i < |s.grants|
      ensures s.grants[i].namespace == ref.namespace && Allows(s.grants[i], ref) <==>
              GrantsRoute(s.grants[i], namespace, r)
    {
      GrantIff(s.grants[i], namespace, r);
    }
  }

  lemma GrantIff(g: Grant, namespace: string, r: RuleRef)
    ensures g.namespace == TargetOf(namespace, r).namespace && Allows(g, TargetOf(namespace, r)) <==>
            GrantsRoute(g, namespace, r)
  {
    var ref := TargetOf(namespace, r);
    assert forall i :: 0 <= i < |g.from| ==>
      (MatchesFrom(g.from[i], ref) <==> g.from[i] == From("aigateway.envoyproxy.io", "AIGatewayRoute", namespace));
    if r.target.pool {
      assert ref.group == "inference.networking.k8s.io" && ref.kind == "InferencePool";
    } else {
      assert ref.group == "aigateway.envoyproxy.io" && ref.kind == "AIServiceBackend";
    }
    assert forall i :: 0 <= i < |g.to| ==> (MatchesTo(g.to[i], ref) <==>
      g.to[i].group == ref.group && g.to[i].kind == ref.kind
      && (g.to[i].name == None || g.to[i].name == Some(r.target.name)));
  }

  /** The a-th target of the k-th policy is this reference. */
  predicate Attaches(s: Snapshot, namespace: string, r: RuleRef, k: int, a: int) {
    && 0 <= k < |s.policies| && 0 <= a < |s.policies[k].targets|
    && s.policies[k].namespace == Home(namespace, r) && s.policies[k].targets[a] == (r.target.pool, r.target.name)
  }

  lemma {:induction false} CountIff(targets: seq<(bool, string)>, t: (bool, string))
    ensures Count(targets, t) == 0 <==> t !in targets
    ensures Count(targets, t) <= 1 <==>
            forall a, b :: 0 <= a < |targets| && 0 <= b < |targets| && targets[a] == t && targets[b] == t ==> a == b
  {
    if targets != [] {
      var n := |targets| - 1;
      CountIff(targets[..n], t);
      assert forall a :: 0 <= a < n ==> targets[..n][a] == targets[a];
      if targets[n] == t && t in targets[..n] {
        var a :| 0 <= a < n && targets[..n][a] == t;
        assert targets[a] == t && a != n;
      }
    }
  }

  /** The same among the first `n` policies. */
  predicate AttachesIn(s: Snapshot, namespace: string, r: RuleRef, n: nat, k: int, a: int) {
    Attaches(s, namespace, r, k, a) && k < n
  }

  ghost predicate NoneIn(s: Snapshot, namespace: string, r: RuleRef, n: nat) {
    forall k, a :: !AttachesIn(s, namespace, r, n, k, a)
  }

  ghost predicate OneIn(s: Snapshot, namespace: string, r: RuleRef, n: nat) {
    forall k, a, l, b :: AttachesIn(s, namespace, r, n, k, a) && AttachesIn(s, namespace, r, n, l, b) ==>
      k == l && a == b
  }

  /** How the last of the first `n` policies attaches. */
  function Times(s: Snapshot, namespace: string, r: RuleRef, n: nat): nat
    requires 0 < n <= |s.policies|
  {
    var p := s.policies[n - 1];
    if p.namespace == Home(namespace, r) then Count(p.targets, (r.target.pool, r.target.name)) else 0
  }

  predicate LastAttaches(s: Snapshot, namespace: string, r: RuleRef, n: nat, a: int) {
    Attaches(s, namespace, r, n - 1, a)
  }

  lemma TimesIff(s: Snapshot, namespace: string, r: RuleRef, n: nat)
    requires 0 < n <= |s.policies|
    ensures Times(s, namespace, r, n) == 0 <==> forall a :: !LastAttaches(s, namespace, r, n, a)
    ensures Times(s, namespace, r, n) <= 1 <==>
            forall a, b :: LastAttaches(s, namespace, r, n, a) && LastAttaches(s, namespace, r, n, b) ==> a == b
  {
    var p, t := s.policies[n - 1], (r.target.pool, r.target.name);
    CountIff(p.targets, t);
    assert forall a :: LastAttaches(s, namespace, r, n, a) <==>
      p.namespace == Home(namespace, r) && 0 <= a < |p.targets| && p.targets[a] == t;
    if p.namespace == Home(namespace, r) && t in p.targets {
      var a :| 0 <= a < |p.targets| && p.targets[a] == t;
      assert LastAttaches(s, namespace, r, n, a);
    }
  }

  lemma SplitNone(s: Snapshot, namespace: string, r: RuleRef, m: nat, n: nat)
    requires m + 1 == n <= |s.policies|
    ensures NoneIn(s, namespace, r, n) <==> NoneIn(s, namespace, r, m) && Times(s, namespace, r, n) == 0
  {
    TimesIff(s, namespace, r, n);
    LastOrBefore(s, namespace, r, m, n);
  }

  lemma SplitOne(s: Snapshot, namespace: string, r: RuleRef, m: nat, n: nat)
    requires m + 1 == n <= |s.policies|
    ensures OneIn(s, namespace, r, n) <==>
            || (NoneIn(s, namespace, r, m) && Times(s, namespace, r, n) <= 1)
            || (OneIn(s, namespace, r, m) && Times(s, namespace, r, n) == 0)
  {
    TimesIff(s, namespace, r, n);
    LastOrBefore(s, namespace, r, m, n);
    if OneIn(s, namespace, r, n) {
      assert OneIn(s, namespace, r, m);
      if k, a :| AttachesIn(s, namespace, r, m, k, a) {
        forall b ensures !LastAttaches(s, namespace, r, n, b) {
          assert AttachesIn(s, namespace, r, n, k, a) && k != m;
          assert LastAttaches(s, namespace, r, n, b) ==> AttachesIn(s, namespace, r, n, m, b);
        }
      } else {
        forall a, b | LastAttaches(s, namespace, r, n, a) && LastAttaches(s, namespace, r, n, b) ensures a == b {
          assert AttachesIn(s, namespace, r, n, m, a) && AttachesIn(s, namespace, r, n, m, b);
        }
      }
    }
  }

  lemma LastOrBefore(s: Snapshot, namespace: string, r: RuleRef, m: nat, n: nat)
    requires m + 1 == n <= |s.policies|
    ensures forall k, a :: AttachesIn(s, namespace, r, n, k, a) ==>
              AttachesIn(s, namespace, r, m, k, a) || (k == m && LastAttaches(s, namespace, r, n, a))
    ensures forall a :: LastAttaches(s, namespace, r, n, a) ==> AttachesIn(s, namespace, r, n, m, a)
    ensures forall k, a :: AttachesIn(s, namespace, r, m, k, a) ==> AttachesIn(s, namespace, r, n, k, a) && k < m
  {}

  lemma {:induction false} MatchingIff(s: Snapshot, namespace: string, r: RuleRef, n: nat)
    requires n <= |s.policies|
    ensures var ps := Matching(s.policies[..n], Home(namespace, r), r.target.pool, r.target.name);
            && (ps == [] <==> NoneIn(s, namespace, r, n))
            && (|ps| <= 1 <==> OneIn(s, namespace, r, n))
            && (|ps| == 1 ==> forall k, a :: AttachesIn(s, namespace, r, n, k, a) ==> s.policies[k] == ps[0])
  {
    if n > 0 {
      assert s.policies[..n][..n - 1] == s.policies[..n - 1] && s.policies[..n][n - 1] == s.policies[n - 1];
      MatchingIff(s, namespace, r, n - 1);
      SplitNone(s, namespace, r, n - 1, n);
      SplitOne(s, namespace, r, n - 1, n);
      TimesIff(s, namespace, r, n);
      LastOrBefore(s, namespace, r, n - 1, n);
    }
  }

  /** A reference is in order exactly if at most one policy attaches to it, once, and the
      credentials of that one can be read. */
  lemma SecuredIff(s: Snapshot, namespace: string, r: RuleRef)
    ensures Secured(s, namespace, r) <==>
            && (forall k, a, l, b :: Attaches(s, namespace, r, k, a) && Attaches(s, namespace, r, l, b) ==>
                  k == l && a == b)
            && (forall k, a :: Attaches(s, namespace, r, k, a) ==> s.policies[k].authOk)
  {
    var n := |s.policies|;
    assert BackendNamespace(r.target, namespace) == Home(namespace, r) && s.policies[..n] == s.policies;
    assert forall k, a :: Attaches(s, namespace, r, k, a) <==> AttachesIn(s, namespace, r, n, k, a);
    MatchingIff(s, namespace, r, n);
    var ps := Matching(s.policies, Home(namespace, r), r.target.pool, r.target.name);
    if |ps| == 1 {
      var k, a :| AttachesIn(s, namespace, r, n, k, a);
      assert Attaches(s, namespace, r, k, a) && s.policies[k] == ps[0];
    }
  }

  // ------------------------------------------------------------------- the HTTPRoute

  lemma WhereSnoc(marks: seq<bool>, n: nat)
    requires n < |marks|
    ensures Where(marks[..n + 1]) == Where(marks[..n]) + if marks[n] then [n] else []
  {
    assert marks[..n + 1][..n] == marks[..n];
  }

  ghost predicate Dropped(s: Snapshot, route: AiRoute, i: nat, j: nat) {
    i < |route.rules| && j < |route.rules[i]| && !Kept(s, route.namespace, route.rules[i][j])
  }

  /** newHTTPRoute: per rule the positions of the references kept, and an error per dropped
      one; computing the quota hash is taken to succeed. */
  method NewHTTPRoute(s: Snapshot, route: AiRoute) returns (rules: seq<seq<nat>>, errs: seq<(nat, nat)>)
    ensures |rules| == |route.rules|
    ensures forall i :: 0 <= i < |rules| ==> rules[i] == Where(KeptMarks(s, route.namespace, route.rules[i]))
    ensures forall e :: e in errs <==> Dropped(s, route, e.0, e.1)
  {
    rules, errs := [], [];
    for i := 0 to |route.rules|
      invariant |rules| == i
      invariant forall k :: 0 <= k < i ==> rules[k] == Where(KeptMarks(s, route.namespace, route.rules[k]))
      invariant forall e :: e in errs <==> Dropped(s, route, e.0, e.1) && e.0 < i
    {
      var refs, dropped := KeepRefs(s, route.namespace, route.rules[i]);
      ghost var before := errs;
      for k := 0 to |dropped|
        invariant forall e :: e in errs <==> e in before || (e.0 == i && e.1 in dropped[..k])
      {
        assert dropped[..k + 1] == dropped[..k] + [dropped[k]];
        errs := errs + [(i, dropped[k])];
      }
      assert dropped[..|dropped|] == dropped;
      rules := rules + [refs];
    }
  }

  /** The loop over the references of one rule. */
  method KeepRefs(s: Snapshot, namespace: string, refs: seq<RuleRef>) returns (kept: seq<nat>, dropped: seq<nat>)
    ensures kept == Where(KeptMarks(s, namespace, refs))
    ensures forall j: nat :: j in dropped <==> j < |refs| && !Kept(s, namespace, refs[j])
  {
    kept, dropped := [], [];
    ghost var marks := KeptMarks(s, namespace, refs);
    for j := 0 to |refs|
      invariant kept == Where(marks[..j])
      invariant forall k: nat :: k in dropped <==> k < j && !Kept(s, namespace, refs[k])
    {
      WhereSnoc(marks, j);
      var br := refs[j];
      var ns := BackendNamespace(br.target, namespace);
      if ns != namespace && !Permitted(s.grants, TargetOf(namespace, br)) {
        dropped := dropped + [j];
        continue;
      }
      if !br.target.pool && (ns, br.target.name) !in s.backends {
        dropped := dropped + [j];
        continue;
      }
      kept := kept + [j];
    }
    assert marks[..|refs|] == marks;
  }

  /** newHTTPRoute reports an error exactly when it dropped a reference. */
  lemma ErrorIffDropped(s: Snapshot, route: AiRoute, errs: seq<(nat, nat)>)
    requires forall e :: e in errs <==> Dropped(s, route, e.0, e.1)
    ensures errs == [] <==>
            forall i :: 0 <= i < |route.rules| ==>
              |Where(KeptMarks(s, route.namespace, route.rules[i]))| == |route.rules[i]|
  {
    forall i | 0 <= i < |route.rules|
      ensures |Where(KeptMarks(s, route.namespace, route.rules[i]))| == |route.rules[i]| <==>
              forall j: nat :: !Dropped(s, route, i, j)
    {
      var marks := KeptMarks(s, route.namespace, route.rules[i]);
      var all := seq(|marks|, _ => true);
      AllWhere(|marks|);
      WhereSame(all, marks);
      if |Where(marks)| == |marks| {
        assert all == marks;
      }
      if forall j: nat :: !Dropped(s, route, i, j) {
        forall j | 0 <= j < |marks| ensures marks[j] {
          assert !Dropped(s, route, i, j);
        }
        assert all == marks;
      }
    }
    if errs != [] {
      assert errs[0] in errs;
      assert Dropped(s, route, errs[0].0, errs[0].1);
    } else {
      forall i: nat, j: nat ensures !Dropped(s, route, i, j) {
        assert (i, j) !in errs;
      }
    }
  }

  lemma {:induction false} AllWhere(n: nat)
    ensures |Where(seq(n, _ => true))| == n
  {
    if n > 0 {
      AllWhere(n - 1);
      var all := seq(n, _ => true);
      assert all[..n - 1] == seq(n - 1, _ => true);
    }
  }

  // ----------------------------------------------------------------- the filter config

  /** PerRouteRuleRefBackendName. */
  function BackendName(namespace: string, name: string, route: string, rule: nat, ref: nat): string {
    namespace + ['/'] +
      (name + ['/'] + ("route/" + (route + ['/'] + ("rule/" + (Decimal(rule) + ['/'] + ("ref/" + Decimal(ref)))))))
  }

  lemma BackendNameInjective(ns: string, n: string, r: string, i: nat, j: nat, ns': string, n': string, r': string,
                             i': nat, j': nat)
    requires forall x :: x in {ns, n, r, ns', n', r'} ==> '/' !in x
    ensures BackendName(ns, n, r, i, j) == BackendName(ns', n', r', i', j') ==>
            ns == ns' && n == n' && r == r' && i == i' && j == j'
  {
    if BackendName(ns, n, r, i, j) == BackendName(ns', n', r', i', j') {
      var f, f' := "ref/" + Decimal(j), "ref/" + Decimal(j');
      var e, e' := Decimal(i) + ['/'] + f, Decimal(i') + ['/'] + f';
      var d, d' := r + ['/'] + ("rule/" + e), r' + ['/'] + ("rule/" + e');
      var c, c' := n + ['/'] + ("route/" + d), n' + ['/'] + ("route/" + d');
      CutFirst(ns, c, ns', c', '/');
      CutFirst(n, "route/" + d, n', "route/" + d', '/');
      assert d == ("route/" + d)[6..] && d' == ("route/" + d')[6..];
      CutFirst(r, "rule/" + e, r', "rule/" + e', '/');
      assert e == ("rule/" + e)[5..] && e' == ("rule/" + e')[5..];
      DecimalDigits(i);
      DecimalDigits(i');
      CutFirst(Decimal(i), f, Decimal(i'), f', '/');
      assert Decimal(j) == f[4..] && Decimal(j') == f'[4..];
      DecimalInjective(i, i');
      DecimalInjective(j, j');
    }
  }

  /** The format that the external processor's config and the stamped endpoints share. */
  lemma BackendNameIs(namespace: string, name: string, route: string, rule: nat, ref: nat)
    ensures BackendName(namespace, name, route, rule, ref) ==
            namespace + "/" + name + "/route/" + route + "/rule/" + Decimal(rule) + "/ref/" + Decimal(ref)
  {}

  datatype Backend = Backend(name: string, rule: nat, ref: nat)

  function RefName(route: AiRoute, i: nat, j: nat): string
    requires i < |route.rules| && j < |route.rules[i]|
  {
    BackendName(route.namespace, route.rules[i][j].target.name, route.name, i, j)
  }

  /** One backend per marked reference of a rule. */
  function RuleBackends(marks: seq<bool>, route: AiRoute, i: nat, n: nat): seq<Backend>
    requires i < |route.rules| && n <= |route.rules[i]| == |marks|
  {
    if n == 0 then []
    else
      RuleBackends(marks, route, i, n - 1) +
      if marks[n - 1] then [Backend(RefName(route, i, n - 1), i, n - 1)] else []
  }

  function Backends(s: Snapshot, route: AiRoute, n: nat): seq<Backend>
    requires n <= |route.rules|
  {
    if n == 0 then []
    else
      var refs := route.rules[n - 1];
      Backends(s, route, n - 1) + RuleBackends(ConfigMarks(s, route.namespace, refs), route, n - 1, |refs|)
  }

  /** The second pass of reconcileFilterConfigSecret over one route. */
  method ConfigBackends(s: Snapshot, route: AiRoute) returns (backends: seq<Backend>)
    ensures backends == Backends(s, route, |route.rules|)
  {
    backends := [];
    for i := 0 to |route.rules|
      invariant backends == Backends(s, route, i)
    {
      ghost var marks := ConfigMarks(s, route.namespace, route.rules[i]);
      for j := 0 to |route.rules[i]|
        invariant backends == Backends(s, route, i) + RuleBackends(marks, route, i, j)
      {
        var r := route.rules[i][j];
        var ns := BackendNamespace(r.target, route.namespace);
        if ns != route.namespace && !Permitted(s.grants, TargetOf(route.namespace, r)) {
          continue;
        }
        if !r.target.pool && (ns, r.target.name) !in s.backends {
          continue;
        }
        var ps := Matching(s.policies, ns, r.target.pool, r.target.name);
        if |ps| > 1 {
          continue;
        }
        if |ps| == 1 && !ps[0].authOk {
          continue;
        }
        backends := backends + [Backend(RefName(route, i, j), i, j)];
      }
    }
  }

  predicate Before(a: Backend, b: Backend) {
    a.rule < b.rule || (a.rule == b.rule && a.ref < b.ref)
  }

  predicate InOrder(bs: seq<Backend>) {
    forall x, y :: 0 <= x < y < |bs| ==> Before(bs[x], bs[y])
  }

  ghost predicate ComesFrom(s: Snapshot, route: AiRoute, b: Backend) {
    && b.rule < |route.rules| && b.ref < |route.rules[b.rule]| && b.name == RefName(route, b.rule, b.ref)
    && b.ref in Where(KeptMarks(s, route.namespace, route.rules[b.rule]))
    && Secured(s, route.namespace, route.rules[b.rule][b.ref])
  }

  predicate Stands(s: Snapshot, route: AiRoute, b: Backend) {
    && b.rule < |route.rules| && b.ref < |route.rules[b.rule]| && b.name == RefName(route, b.rule, b.ref)
    && Configured(s, route.namespace, route.rules[b.rule][b.ref])
  }

  lemma StandsComesFrom(s: Snapshot, route: AiRoute, b: Backend)
    ensures Stands(s, route, b) <==> ComesFrom(s, route, b)
  {
    if b.rule < |route.rules| && b.ref < |route.rules[b.rule]| {
      WhereIff(KeptMarks(s, route.namespace, route.rules[b.rule]), b.ref);
    }
  }

  lemma {:induction false} RuleBackendsIff(marks: seq<bool>, route: AiRoute, i: nat, n: nat, b: Backend)
    requires i < |route.rules| && n <= |route.rules[i]| == |marks|
    ensures b in RuleBackends(marks, route, i, n) <==>
            b.rule == i && b.ref < n && marks[b.ref] && b.name == RefName(route, i, b.ref)
  {
    if n > 0 {
      RuleBackendsIff(marks, route, i, n - 1, b);
    }
  }

  lemma {:induction false} RuleBackendsInOrder(marks: seq<bool>, route: AiRoute, i: nat, n: nat)
    requires i < |route.rules| && n <= |route.rules[i]| == |marks|
    ensures InOrder(RuleBackends(marks, route, i, n))
  {
    if n > 0 {
      var init := RuleBackends(marks, route, i, n - 1);
      RuleBackendsInOrder(marks, route, i, n - 1);
      forall x | 0 <= x < |init| ensures init[x].rule == i && init[x].ref < n - 1 {
        RuleBackendsIff(marks, route, i, n - 1, init[x]);
        assert init[x] in init;
      }
    }
  }

  lemma {:induction false} BackendsIff(s: Snapshot, route: AiRoute, n: nat, b: Backend)
    requires n <= |route.rules|
    ensures b in Backends(s, route, n) <==> Stands(s, route, b) && b.rule < n
  {
    if n > 0 {
      BackendsIff(s, route, n - 1, b);
      var refs := route.rules[n - 1];
      RuleBackendsIff(ConfigMarks(s, route.namespace, refs), route, n - 1, |refs|, b);
    }
  }

  lemma {:induction false} BackendsInOrder(s: Snapshot, route: AiRoute, n: nat)
    requires n <= |route.rules|
    ensures InOrder(Backends(s, route, n))
  {
    if n > 0 {
      var refs := route.rules[n - 1];
      var marks := ConfigMarks(s, route.namespace, refs);
      var init, last := Backends(s, route, n - 1), RuleBackends(marks, route, n - 1, |refs|);
      BackendsInOrder(s, route, n - 1);
      RuleBackendsInOrder(marks, route, n - 1, |refs|);
      forall x | 0 <= x < |init| ensures init[x].rule < n - 1 {
        BackendsIff(s, route, n - 1, init[x]);
        assert init[x] in init;
      }
      forall y | 0 <= y < |last| ensures last[y].rule == n - 1 {
        RuleBackendsIff(marks, route, n - 1, |refs|, last[y]);
        assert last[y] in last;
      }
    }
  }

  /** The config holds exactly the references that the HTTPRoute keeps and whose policy is
      in order, each once, in the order of the spec. */
  lemma ConfigComesFromHTTPRoute(s: Snapshot, route: AiRoute)
    ensures InOrder(Backends(s, route, |route.rules|))
    ensures forall b :: b in Backends(s, route, |route.rules|) <==> ComesFrom(s, route, b)
  {
    BackendsInOrder(s, route, |route.rules|);
    forall b ensures b in Backends(s, route, |route.rules|) <==> ComesFrom(s, route, b) {
      BackendsIff(s, route, |route.rules|, b);
      StandsComesFrom(s, route, b);
    }
  }

  // ----------------------------------------------------------- stamping the endpoints

  predicate Weighted(r: RuleRef) {
    r.weight != Some(0)
  }

  function WeightedMarks(refs: seq<RuleRef>): (marks: seq<bool>)
    ensures |marks| == |refs| && forall j :: 0 <= j < |refs| ==> marks[j] == Weighted(refs[j])
  {
    seq(|refs|, j requires 0 <= j < |refs| => Weighted(refs[j]))
  }

  /** Envoy Gateway makes one endpoint group per reference of the HTTPRoute, without those
      of weight 0: the positions the groups stem from. */
  function GroupMarks(s: Snapshot, namespace: string, refs: seq<RuleRef>): (marks: seq<bool>)
    ensures |marks| == |refs|
    ensures forall j :: 0 <= j < |refs| ==> marks[j] == (Kept(s, namespace, refs[j]) && Weighted(refs[j]))
  {
    seq(|refs|, j requires 0 <= j < |refs| => Kept(s, namespace, refs[j]) && Weighted(refs[j]))
  }

  function Min(a: nat, b: nat): nat {
    if a < b then a else b
  }

  /** The extension server goes through the references of the spec, not of the HTTPRoute,
      and stamps group after group. */
  method StampEndpoints(refs: seq<RuleRef>, groups: nat) returns (stamps: seq<nat>)
    ensures stamps == Where(WeightedMarks(refs))[..Min(groups, |Where(WeightedMarks(refs))|)]
  {
    stamps := [];
    ghost var marks := WeightedMarks(refs);
    ghost var all := Where(marks);
    var lbEndpointIndex := 0;
    for i := 0 to |refs|
      invariant lbEndpointIndex == |stamps| <= groups
      invariant stamps == Where(marks[..i])
      invariant Where(marks[..i]) <= all
    {
      WhereSnoc(marks, i);
      WherePrefix(marks, i + 1);
      if refs[i].weight == Some(0) {
        continue;
      }
      if lbEndpointIndex >= groups {
        return;
      }
      stamps := stamps + [i];
      lbEndpointIndex := lbEndpointIndex + 1;
    }
    assert marks[..|refs|] == marks;
  }

  lemma {:induction false} WherePrefix(marks: seq<bool>, n: nat)
    requires n <= |marks|
    ensures Where(marks[..n]) <= Where(marks)
    decreases |marks| - n
  {
    if n == |marks| {
      assert marks[..n] == marks;
    } else {
      WhereSnoc(marks, n);
      WherePrefix(marks, n + 1);
    }
  }

  /** No reference that would carry traffic is dropped ahead of one that does. */
  predicate DropsTrail(s: Snapshot, namespace: string, refs: seq<RuleRef>) {
    forall i, j :: 0 <= i < j < |refs| && Weighted(refs[i]) && Weighted(refs[j]) && Kept(s, namespace, refs[j]) ==>
      Kept(s, namespace, refs[i])
  }

  /** Every endpoint group of a rule carries the config name of the reference it stems from
      exactly when the dropped references trail. */
  lemma StampsAgreeIff(s: Snapshot, route: AiRoute, i: nat, stamps: seq<nat>)
    requires i < |route.rules|
    requires && '/' !in route.namespace && '/' !in route.name
             && forall j :: 0 <= j < |route.rules[i]| ==> '/' !in route.rules[i][j].target.name
    requires var refs := route.rules[i];
             var groups := |Where(GroupMarks(s, route.namespace, refs))|;
             stamps == Where(WeightedMarks(refs))[..Min(groups, |Where(WeightedMarks(refs))|)]
    ensures var origin := Where(GroupMarks(s, route.namespace, route.rules[i]));
            && |stamps| == |origin|
            && (forall g :: 0 <= g < |stamps| ==> stamps[g] < |route.rules[i]| && origin[g] < |route.rules[i]|)
            && ((forall g :: 0 <= g < |stamps| ==> RefName(route, i, stamps[g]) == RefName(route, i, origin[g]))
                <==> DropsTrail(s, route.namespace, route.rules[i]))
  {
    var refs := route.rules[i];
    var a, b := WeightedMarks(refs), GroupMarks(s, route.namespace, refs);
    var origin := Where(b);
    WhereSame(a, b);
    PrefixIffLeading(a, b);
    assert |stamps| == |origin|;
    forall g | 0 <= g < |stamps|
      ensures stamps[g] < |refs| && origin[g] < |refs|
    {
      WhereIff(a, stamps[g]);
      WhereIff(b, origin[g]);
      assert stamps[g] in Where(a) && origin[g] in Where(b);
    }
    forall g | 0 <= g < |stamps|
      ensures RefName(route, i, stamps[g]) == RefName(route, i, origin[g]) <==> stamps[g] == origin[g]
    {
      var j, k := stamps[g], origin[g];
      BackendNameInjective(route.namespace, refs[j].target.name, route.name, i, j, route.namespace, refs[k].target.name,
                           route.name, i, k);
    }
    assert Leading(b, a) <==> DropsTrail(s, route.namespace, refs);
    assert origin <= Where(a) <==> stamps == origin;
    assert stamps == origin <==> forall g :: 0 <= g < |stamps| ==> stamps[g] == origin[g];
  }

  /** It does go wrong: with the first of three references missing, the endpoints of the
      third are stamped as the second, whose config is then applied to them. */
  lemma DroppedRefShiftsStamps()
    ensures var refs := [RuleRef(BackendRef("a", None, false, ""), None),
                         RuleRef(BackendRef("b", None, false, ""), None),
                         RuleRef(BackendRef("c", None, false, ""), None)];
            var s := Snapshot([], {("n", "b"), ("n", "c")}, []);
            var origin := Where(GroupMarks(s, "n", refs));
            var stamps := Where(WeightedMarks(refs))[..Min(2, |Where(WeightedMarks(refs))|)];
            && origin == [1, 2] && stamps == [0, 1]
            && Backend(BackendName("n", "b", "r", 0, 1), 0, 1) in Backends(s, AiRoute("n", "r", [refs]), 1)
  {
    var refs := [RuleRef(BackendRef("a", None, false, ""), None),
                 RuleRef(BackendRef("b", None, false, ""), None),
                 RuleRef(BackendRef("c", None, false, ""), None)];
    var s := Snapshot([], {("n", "b"), ("n", "c")}, []);
    var route := AiRoute("n", "r", [refs]);
    var origins := GroupMarks(s, "n", refs);
    assert origins == [false, true, true] && WeightedMarks(refs) == [true, true, true];
    WhereSnoc(origins, 0);
    WhereSnoc(origins, 1);
    WhereSnoc(origins, 2);
    assert origins[..3] == origins && origins[..0] == [];
    var all := WeightedMarks(refs);
    WhereSnoc(all, 0);
    WhereSnoc(all, 1);
    WhereSnoc(all, 2);
    assert all[..3] == all && all[..0] == [];
    BackendsIff(s, route, 1, Backend(BackendName("n", "b", "r", 0, 1), 0, 1));
  }
}
