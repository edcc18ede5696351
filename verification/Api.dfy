/** The parts of the custom resources that the quota and route controllers read,
    with the references between them and the string keys of the field indexes. */
module Api {
  import opened Text
  import opened Wrappers

  datatype TargetRef = TargetRef(name: string, namespace: Option<string>)
  datatype PerModelQuota = PerModelQuota(model: Option<string>, costExpression: Option<string>)

  /** `rest` stands for the remaining spec fields. */
  datatype QuotaPolicy = QuotaPolicy(namespace: string, name: string, deleting: bool, targets: seq<TargetRef>,
                                     models: seq<PerModelQuota>, rest: string)

  datatype BackendRef = BackendRef(name: string, namespace: Option<string>, pool: bool, modelOverride: string)
  datatype Route = Route(namespace: string, name: string, rules: seq<seq<BackendRef>>)

  /** An omitted or empty namespace means the referring object's namespace. */
  function Resolve(namespace: Option<string>, local: string): string {
    if namespace.None? || namespace.value == "" then local else namespace.value
  }

  function TargetNamespace(ref: TargetRef, policyNamespace: string): string {
    Resolve(ref.namespace, policyNamespace)
  }

  function BackendNamespace(ref: BackendRef, routeNamespace: string): string {
    Resolve(ref.namespace, routeNamespace)
  }

  /** A namespace is a DNS label (section 2.1 of RFC 1123). */
  predicate Label(s: string) {
    s != "" && forall c :: c in s ==> ('a' <= c <= 'z') || ('0' <= c <= '9') || c == '-'
  }

  predicate ValidNamespace(namespace: Option<string>) {
    namespace.None? || namespace.value == "" || Label(namespace.value)
  }

  /** What the API server has admitted. */
  predicate ValidPolicy(p: QuotaPolicy) {
    Label(p.namespace) && forall i :: 0 <= i < |p.targets| ==> ValidNamespace(p.targets[i].namespace)
  }

  predicate ValidRoute(r: Route) {
    Label(r.namespace)
    && forall i, j :: 0 <= i < |r.rules| && 0 <= j < |r.rules[i]| ==> ValidNamespace(r.rules[i][j].namespace)
  }

  lemma LabelSeparators(s: string)
    requires Label(s)
    ensures '.' !in s && '/' !in s && '\0' !in s
  {}

  // ------------------------------------------------------------------ index keys

  function TargetKey(ref: TargetRef, policyNamespace: string): string {
    IndexKey(ref.name, TargetNamespace(ref, policyNamespace))
  }

  /** quotaPolicyTargetRefsIndexFunc. */
  function PolicyKeys(p: QuotaPolicy): (keys: seq<string>)
    ensures |keys| == |p.targets|
    ensures forall i :: 0 <= i < |keys| ==> keys[i] == TargetKey(p.targets[i], p.namespace)
  {
    seq(|p.targets|, i requires 0 <= i < |p.targets| => TargetKey(p.targets[i], p.namespace))
  }

  function BackendKey(ref: BackendRef, routeNamespace: string): string {
    IndexKey(ref.name, BackendNamespace(ref, routeNamespace))
  }

  function RefKeys(refs: seq<BackendRef>, routeNamespace: string): (keys: seq<string>)
    ensures |keys| == |refs|
    ensures forall i :: 0 <= i < |refs| ==> keys[i] == BackendKey(refs[i], routeNamespace)
  {
    seq(|refs|, i requires 0 <= i < |refs| => BackendKey(refs[i], routeNamespace))
  }

  /** All references of a route in spec order. */
  function Flatten<T>(rules: seq<seq<T>>): seq<T> {
    if rules == [] then [] else rules[0] + Flatten(rules[1..])
  }

  /** aiGatewayRouteIndexFunc: every reference, pools included. */
  function RouteKeys(r: Route): seq<string> {
    RefKeys(Flatten(r.rules), r.namespace)
  }

  lemma RefKeysConcat(a: seq<BackendRef>, b: seq<BackendRef>, routeNamespace: string)
    ensures RefKeys(a + b, routeNamespace) == RefKeys(a, routeNamespace) + RefKeys(b, routeNamespace)
  {}

  lemma NextRule(rules: seq<seq<BackendRef>>, i: nat, routeNamespace: string)
    requires i < |rules|
    ensures RefKeys(Flatten(rules[i..]), routeNamespace) ==
            RefKeys(rules[i], routeNamespace) + RefKeys(Flatten(rules[i + 1..]), routeNamespace)
  {
    assert rules[i..][1..] == rules[i + 1..];
    RefKeysConcat(rules[i], Flatten(rules[i + 1..]), routeNamespace);
  }

  /** The loop of aiGatewayRouteIndexFunc. */
  method AiGatewayRouteIndexFunc(r: Route) returns (ret: seq<string>)
    ensures ret == RouteKeys(r)
  {
    ret := [];
    assert r.rules[0..] == r.rules;
    for i := 0 to |r.rules|
      invariant ret + RefKeys(Flatten(r.rules[i..]), r.namespace) == RouteKeys(r)
    {
      NextRule(r.rules, i, r.namespace);
      ghost var rest := RefKeys(Flatten(r.rules[i + 1..]), r.namespace);
      ret := AppendRuleKeys(ret, r.rules[i], r.namespace, rest);
    }
  }

  /** The inner loop, over the references of one rule. */
  method AppendRuleKeys(done: seq<string>, refs: seq<BackendRef>, routeNamespace: string, ghost rest: seq<string>)
    returns (ret: seq<string>)
    ensures ret == done + RefKeys(refs, routeNamespace)
    ensures ret + rest == done + (RefKeys(refs, routeNamespace) + rest)
  {
    ret := done;
    for j := 0 to |refs|
      invariant ret == done + RefKeys(refs[..j], routeNamespace)
    {
      ret := ret + [BackendKey(refs[j], routeNamespace)];
    }
    assert refs[..|refs|] == refs;
  }

  function IdOf(r: Route): (string, string) {
    (r.namespace, r.name)
  }

  /** Listing routes by an index key, in list order. */
  function RoutesUnder(routes: seq<Route>, key: string): (ids: seq<(string, string)>)
    ensures forall r :: r in routes && key in RouteKeys(r) ==> IdOf(r) in ids
    ensures forall id :: id in ids ==> exists r :: r in routes && key in RouteKeys(r) && IdOf(r) == id
  {
    if routes == [] then []
    else if key in RouteKeys(routes[0]) then [IdOf(routes[0])] + RoutesUnder(routes[1..], key)
    else RoutesUnder(routes[1..], key)
  }
}
