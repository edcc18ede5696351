/** Cross-namespace references: ReferenceGrant of the Gateway API
    (gateway.networking.k8s.io/v1beta1), looked up through a string-keyed index. */
module ReferenceGrants {
  import opened Text
  import opened Wrappers
  import opened Api

  datatype From = From(group: string, kind: string, namespace: string)
  datatype To = To(group: string, kind: string, name: Option<string>)
  datatype Grant = Grant(namespace: string, deleting: bool, from: seq<From>, to: seq<To>)

  datatype Reference = Reference(fromGroup: string, fromKind: string, fromNamespace: string,
                                 group: string, kind: string, namespace: string, name: string)

  const AI_GROUP := "aigateway.envoyproxy.io"
  const BACKEND_KIND := "AIServiceBackend"
  const ROUTE_KIND := "AIGatewayRoute"
  const QUOTA_KIND := "QuotaPolicy"
  const POOL_GROUP := "inference.networking.k8s.io"
  const POOL_KIND := "InferencePool"

  function RouteToBackend(routeNamespace: string, namespace: string, name: string): Reference {
    Reference(AI_GROUP, ROUTE_KIND, routeNamespace, AI_GROUP, BACKEND_KIND, namespace, name)
  }

  function RouteToPool(routeNamespace: string, namespace: string, name: string): Reference {
    Reference(AI_GROUP, ROUTE_KIND, routeNamespace, POOL_GROUP, POOL_KIND, namespace, name)
  }

  function QuotaToBackend(policyNamespace: string, namespace: string, name: string): Reference {
    Reference(AI_GROUP, QUOTA_KIND, policyNamespace, AI_GROUP, BACKEND_KIND, namespace, name)
  }

  predicate MatchesFrom(f: From, ref: Reference) {
    f.group == ref.fromGroup && f.kind == ref.fromKind && f.namespace == ref.fromNamespace
  }

  predicate MatchesTo(t: To, ref: Reference) {
    t.group == ref.group && t.kind == ref.kind && (t.name.None? || t.name.value == ref.name)
  }

  /** A live grant with a matching `from` and a matching `to`; its own namespace plays no part. */
  predicate Allows(g: Grant, ref: Reference) {
    && !g.deleting
    && (exists i :: 0 <= i < |g.from| && MatchesFrom(g.from[i], ref))
    && (exists i :: 0 <= i < |g.to| && MatchesTo(g.to[i], ref))
  }

  /** The rule of the standard: a grant counts in its own namespace only. */
  predicate Permitted(grants: seq<Grant>, ref: Reference) {
    ref.fromNamespace == ref.namespace
    || exists i :: 0 <= i < |grants| && grants[i].namespace == ref.namespace && Allows(grants[i], ref)
  }

  function GrantKey(namespace: string, kind: string): string {
    namespace + ['.'] + kind
  }

  /** referenceGrantToTargetKindIndexFunc. */
  function GrantKeys(g: Grant): (keys: seq<string>)
    ensures |keys| == |g.to|
    ensures forall i :: 0 <= i < |keys| ==> keys[i] == GrantKey(g.namespace, g.to[i].kind)
  {
    seq(|g.to|, i requires 0 <= i < |g.to| => GrantKey(g.namespace, g.to[i].kind))
  }

  /** What the lookup by index key finds. */
  predicate PermittedByIndex(grants: seq<Grant>, ref: Reference) {
    ref.fromNamespace == ref.namespace
    || exists i :: 0 <= i < |grants| && GrantKey(ref.namespace, ref.kind) in GrantKeys(grants[i])
                   && Allows(grants[i], ref)
  }

  /** With dot-free namespaces, the lookup by key decides exactly what the standard says. */
  lemma IndexRefinesScan(grants: seq<Grant>, ref: Reference)
    requires '.' !in ref.namespace && forall i :: 0 <= i < |grants| ==> '.' !in grants[i].namespace
    ensures PermittedByIndex(grants, ref) <==> Permitted(grants, ref)
  {
    var key := GrantKey(ref.namespace, ref.kind);
    forall i | 0 <= i < |grants| && Allows(grants[i], ref)
      ensures key in GrantKeys(grants[i]) <==> grants[i].namespace == ref.namespace
    {
      var g := grants[i];
      if key in GrantKeys(g) {
        var j :| 0 <= j < |g.to| && GrantKeys(g)[j] == key;
        CutFirst(ref.namespace, ref.kind, g.namespace, g.to[j].kind, '.');
      }
      var j :| 0 <= j < |g.to| && MatchesTo(g.to[j], ref);
      assert GrantKeys(g)[j] == GrantKey(g.namespace, ref.kind);
    }
  }

  /** The validator never looks at a grant's namespace, so dotted namespaces would
      let a grant of namespace "a" speak for namespace "a.b". */
  lemma DottedNamespaceWouldLeak()
    ensures var g := Grant("a", false, [From(AI_GROUP, QUOTA_KIND, "c")],
                           [To("", "b." + BACKEND_KIND, None), To(AI_GROUP, BACKEND_KIND, None)]);
            var ref := QuotaToBackend("c", "a.b", "x");
            PermittedByIndex([g], ref) && !Permitted([g], ref)
  {
    var g := Grant("a", false, [From(AI_GROUP, QUOTA_KIND, "c")],
                   [To("", "b." + BACKEND_KIND, None), To(AI_GROUP, BACKEND_KIND, None)]);
    var ref := QuotaToBackend("c", "a.b", "x");
    assert GrantKeys(g)[0] == GrantKey("a.b", BACKEND_KIND);
    assert MatchesFrom(g.from[0], ref) && MatchesTo(g.to[1], ref);
    assert Allows([g][0], ref);
  }

  /** isReferenceGrantValid. */
  method IsReferenceGrantValid(g: Grant, ref: Reference) returns (ok: bool)
    ensures ok <==> Allows(g, ref)
  {
    if g.deleting {
      return false;
    }
    var fromAllowed := false;
    for i := 0 to |g.from|
      invariant !fromAllowed && forall k :: 0 <= k < i ==> !MatchesFrom(g.from[k], ref)
    {
      if MatchesFrom(g.from[i], ref) {
        fromAllowed := true;
        break;
      }
    }
    if !fromAllowed {
      return false;
    }
    for i := 0 to |g.to|
      invariant forall k :: 0 <= k < i ==> !MatchesTo(g.to[k], ref)
    {
      if MatchesTo(g.to[i], ref) {
        return true;
      }
    }
    return false;
  }

  /** validateReference: permitted or not; a failing list call denies. */
  method ValidateReference(grants: seq<Grant>, ref: Reference, listOk: bool) returns (ok: bool)
    ensures ok <==> ref.fromNamespace == ref.namespace || (listOk && PermittedByIndex(grants, ref))
  {
    if ref.fromNamespace == ref.namespace {
      return true;
    }
    if !listOk {
      return false;
    }
    var key := GrantKey(ref.namespace, ref.kind);
    for i := 0 to |grants|
      invariant forall k :: 0 <= k < i ==> !(key in GrantKeys(grants[k]) && Allows(grants[k], ref))
    {
      if key in GrantKeys(grants[i]) {
        var valid := IsReferenceGrantValid(grants[i], ref);
        if valid {
          return true;
        }
      }
    }
    return false;
  }

  // ------------------------------------------------------ routes of a gateway

  datatype ParentRef = ParentRef(name: string, namespace: Option<string>)

  /** An AIGatewayRoute or MCPRoute as far as attachment goes. */
  datatype Attached = Attached(namespace: string, name: string, parents: seq<ParentRef>)

  predicate ValidAttached(r: Attached) {
    Label(r.namespace) && forall i :: 0 <= i < |r.parents| ==> ValidNamespace(r.parents[i].namespace)
  }

  /** aiGatewayRouteToAttachedGatewayIndexFunc and mcpRouteToAttachedGatewayIndexFunc. */
  function GatewayKeys(r: Attached): (keys: seq<string>)
    ensures |keys| == |r.parents|
    ensures forall i :: 0 <= i < |keys| ==>
      keys[i] == IndexKey(r.parents[i].name, Resolve(r.parents[i].namespace, r.namespace))
  {
    seq(|r.parents|, i requires 0 <= i < |r.parents| =>
      IndexKey(r.parents[i].name, Resolve(r.parents[i].namespace, r.namespace)))
  }

  /** parentRefsMatchGateway as a definition: some parent resolves to the gateway. */
  predicate AttachedTo(r: Attached, name: string, namespace: string) {
    exists i :: 0 <= i < |r.parents| && r.parents[i].name == name
                && Resolve(r.parents[i].namespace, r.namespace) == namespace
  }

  function Select(routes: seq<Attached>, pick: Attached -> bool): seq<Attached> {
    if routes == [] then []
    else if pick(routes[0]) then [routes[0]] + Select(routes[1..], pick)
    else Select(routes[1..], pick)
  }

  function ByIndex(routes: seq<Attached>, name: string, namespace: string): seq<Attached> {
    Select(routes, r => IndexKey(name, namespace) in GatewayKeys(r))
  }

  function ByScan(routes: seq<Attached>, name: string, namespace: string): seq<Attached> {
    Select(routes, r => AttachedTo(r, name, namespace))
  }

  lemma {:induction false} SelectConcat(a: seq<Attached>, b: seq<Attached>, pick: Attached -> bool)
    ensures Select(a + b, pick) == Select(a, pick) + Select(b, pick)
  {
    if a == [] {
      assert a + b == b;
    } else {
      assert (a + b)[1..] == a[1..] + b;
      SelectConcat(a[1..], b, pick);
    }
  }

  /** What is selected: each route once per listing, in the order listed, exactly if a parent
      names the gateway and, omitted or not, its namespace. */
  lemma SelectedExactly(before: seq<Attached>, r: Attached, after: seq<Attached>, name: string, namespace: string)
    ensures ByScan(before + [r] + after, name, namespace) ==
            ByScan(before, name, namespace)
            + (if exists i :: 0 <= i < |r.parents| && r.parents[i].name == name
                              && ((r.parents[i].namespace == Some(namespace) && namespace != "")
                                  || (r.namespace == namespace
                                      && (r.parents[i].namespace == None || r.parents[i].namespace == Some(""))))
               then [r] else [])
            + ByScan(after, name, namespace)
  {
    var pick := (r: Attached) => AttachedTo(r, name, namespace);
    SelectConcat(before + [r], after, pick);
    SelectConcat(before, [r], pick);
    assert [r][1..] == [];
    assert Select([r], pick) == if pick(r) then [r] else [];
    assert ByScan(before + [r] + after, name, namespace) == Select(before + [r] + after, pick);
    assert ByScan(before, name, namespace) == Select(before, pick);
    assert ByScan(after, name, namespace) == Select(after, pick);
  }

  /** The indexed listing and the scan select the same routes, dots in names or not. */
  lemma {:induction false} ListingsAgree(routes: seq<Attached>, name: string, namespace: string)
    requires Label(namespace) && forall i :: 0 <= i < |routes| ==> ValidAttached(routes[i])
    ensures ByIndex(routes, name, namespace) == ByScan(routes, name, namespace)
  {
    if routes != [] {
      KeyMeansAttached(routes[0], name, namespace);
      ListingsAgree(routes[1..], name, namespace);
    }
  }

  lemma KeyMeansAttached(r: Attached, name: string, namespace: string)
    requires Label(namespace) && ValidAttached(r)
    ensures IndexKey(name, namespace) in GatewayKeys(r) <==> AttachedTo(r, name, namespace)
  {
    LabelSeparators(namespace);
    forall i | 0 <= i < |r.parents|
      ensures GatewayKeys(r)[i] == IndexKey(name, namespace) <==>
              r.parents[i].name == name && Resolve(r.parents[i].namespace, r.namespace) == namespace
    {
      var ns := Resolve(r.parents[i].namespace, r.namespace);
      LabelSeparators(ns);
      IndexKeyInjective(r.parents[i].name, ns, name, namespace);
    }
  }

  method ParentRefsMatchGateway(r: Attached, name: string, namespace: string) returns (ok: bool)
    ensures ok <==> AttachedTo(r, name, namespace)
  {
    for i := 0 to |r.parents|
      invariant forall k :: 0 <= k < i ==>
        !(r.parents[k].name == name && Resolve(r.parents[k].namespace, r.namespace) == namespace)
    {
      var ref := r.parents[i];
      var ns := r.namespace;
      if ref.namespace.Some? && ref.namespace.value != "" {
        ns := ref.namespace.value;
      }
      if ref.name == name && ns == namespace {
        return true;
      }
    }
    return false;
  }

  datatype Listing = Listed(routes: seq<Attached>) | ListError

  /** The indexed cache answers if it finds something, else the live reader by a scan. */
  function Answer(cached: Option<seq<Attached>>, hasLive: bool, live: Option<seq<Attached>>,
                  name: string, namespace: string): Listing {
    var hits := if cached.Some? then ByIndex(cached.value, name, namespace) else [];
    if cached.Some? && hits != [] then Listed(hits)
    else if !hasLive then (if cached.Some? then Listed(hits) else ListError)
    else if live.None? then ListError
    else Listed(ByScan(live.value, name, namespace))
  }

  /** listAIGatewayRoutesForGateway / listMCPRoutesForGateway. `cached` and `live` are what
      the two readers hold (None: the call fails); the reconciler passes no live reader. */
  method ListRoutesForGateway(cached: Option<seq<Attached>>, hasLive: bool, live: Option<seq<Attached>>,
                              name: string, namespace: string) returns (r: Listing)
    ensures r == Answer(cached, hasLive, live, name, namespace)
  {
    if cached.Some? && |ByIndex(cached.value, name, namespace)| > 0 {
      return Listed(ByIndex(cached.value, name, namespace));
    }
    if !hasLive {
      return if cached.Some? then Listed(ByIndex(cached.value, name, namespace)) else ListError;
    }
    if live.None? {
      return ListError;
    }
    var filtered := [];
    for i := 0 to |live.value|
      invariant filtered + ByScan(live.value[i..], name, namespace) == ByScan(live.value, name, namespace)
    {
      assert live.value[i..][1..] == live.value[i + 1..];
      var ok := ParentRefsMatchGateway(live.value[i], name, namespace);
      if ok {
        filtered := filtered + [live.value[i]];
      }
    }
    return Listed(filtered);
  }

  /** What a reader of a cluster's routes returns. */
  function Read(all: seq<Attached>, ok: bool): Option<seq<Attached>> {
    if ok then Some(all) else None
  }

  /** Webhook and reconciler see the same routes of a gateway: with the live reader or
      without it, and whichever reads fail, an answer lists exactly the attached routes. The
      reconciler has none exactly if the cache fails, the webhook exactly if the live read
      fails and the cache did or found nothing. */
  lemma WebhookAndReconcilerAgree(all: seq<Attached>, name: string, namespace: string, cacheOk: bool, liveOk: bool)
    requires Label(namespace) && forall i :: 0 <= i < |all| ==> ValidAttached(all[i])
    ensures var attached := ByScan(all, name, namespace);
            var reconciler := Answer(Read(all, cacheOk), false, None, name, namespace);
            var webhook := Answer(Read(all, cacheOk), true, Read(all, liveOk), name, namespace);
            && reconciler == (if cacheOk then Listed(attached) else ListError)
            && webhook == (if liveOk || (cacheOk && attached != []) then Listed(attached) else ListError)
  {
    ListingsAgree(all, name, namespace);
  }
}
