/** Which routes a QuotaPolicy change must reach: the notifications of the policy
    controller against the effective policies that the route controller stamps. */
module QuotaNotify {
  import opened Wrappers
  import opened Api
  import opened ReferenceGrants
  import opened QuotaEffective
  import Q = QuotaController

  // ---------------------------------------------------------- one change, framed

  /** What a policy contributes to a route's effective policies. */
  function Contribution(grants: Grants, p: Option<QuotaPolicy>, r: Route): Option<QuotaPolicy> {
    if p.Some? && Applies(grants, p.value, QuotaKeys(r)) then Some(Effective(grants, p.value)) else None
  }

  function KeysOf(p: Option<QuotaPolicy>): seq<string> {
    if p.None? then [] else PolicyKeys(p.value)
  }

  /** The route is indexed under one of the keys. */
  predicate Reached(r: Route, keys: seq<string>) {
    exists k :: k in keys && k in RouteKeys(r)
  }

  lemma QuotaKeysAreRouteKeys(r: Route, k: string)
    requires k in QuotaKeys(r)
    ensures k in RouteKeys(r)
  {
    var refs := Flatten(r.rules);
    var i :| 0 <= i < |refs| && !refs[i].pool && k == BackendKey(refs[i], r.namespace);
    assert RouteKeys(r)[i] == k;
  }

  lemma ContributionReaches(grants: Grants, p: Option<QuotaPolicy>, r: Route)
    requires Contribution(grants, p, r).Some?
    ensures Reached(r, KeysOf(p))
  {
    var k :| k in QuotaKeys(r) && k in PolicyKeys(p.value);
    QuotaKeysAreRouteKeys(r, k);
  }

  /** A policy that can contribute to some route at all. */
  predicate Contributes(grants: Grants, p: Option<QuotaPolicy>) {
    p.Some? && !p.value.deleting && Effective(grants, p.value).targets != []
  }

  predicate Covered(keys: seq<string>, these: seq<string>, those: seq<string>) {
    forall k :: k in keys ==> k in these || k in those
  }

  /** No route outside the notified keys sees a change. */
  ghost predicate Framed(grants: Grants, before: Option<QuotaPolicy>, after: Option<QuotaPolicy>,
                         retained: seq<string>) {
    forall r: Route :: ValidRoute(r) && !Reached(r, KeysOf(after)) && !Reached(r, retained) ==>
      Contribution(grants, before, r) == Contribution(grants, after, r)
  }

  /** Every route that is not notified keeps its effective policies, exactly when the
      previous targets are all among the retained and the new ones (or the previous
      policy contributed nothing). */
  lemma FrameIsExact(grants: Grants, before: Option<QuotaPolicy>, after: Option<QuotaPolicy>, retained: seq<string>)
    requires before.Some? ==> ValidPolicy(before.value)
    ensures Framed(grants, before, after, retained) <==>
            (Contributes(grants, before) ==> Covered(KeysOf(before), retained, KeysOf(after)))
  {
    if Contributes(grants, before) && !Covered(KeysOf(before), retained, KeysOf(after)) {
      var k :| k in KeysOf(before) && k !in retained && k !in KeysOf(after);
      UncoveredRoute(grants, before.value, after, retained, k);
    } else {
      forall r: Route | ValidRoute(r) && !Reached(r, KeysOf(after)) && !Reached(r, retained)
        ensures Contribution(grants, before, r) == Contribution(grants, after, r)
      {
        if Contribution(grants, before, r).Some? {
          ContributionReaches(grants, before, r);
        }
        if Contribution(grants, after, r).Some? {
          ContributionReaches(grants, after, r);
        }
      }
    }
  }

  /** A route on a forgotten target loses the policy without being told. */
  lemma UncoveredRoute(grants: Grants, p: QuotaPolicy, after: Option<QuotaPolicy>, retained: seq<string>, k: string)
    requires ValidPolicy(p) && Contributes(grants, Some(p))
    requires k in PolicyKeys(p) && k !in retained && k !in KeysOf(after)
    ensures !Framed(grants, Some(p), after, retained)
  {
    var i :| 0 <= i < |p.targets| && PolicyKeys(p)[i] == k;
    var ns := TargetNamespace(p.targets[i], p.namespace);
    var b := BackendRef(p.targets[i].name, None, false, "");
    var r := Route(ns, "r", [[b]]);
    assert r.rules[1..] == [] && Flatten(r.rules) == [b];
    assert BackendKey(b, ns) == k;
    assert RouteKeys(r) == [k];
    assert Flatten(r.rules)[0] == b;
    assert k in QuotaKeys(r);
    assert Contribution(grants, Some(p), r).Some?;
    if Contribution(grants, after, r).Some? {
      ContributionReaches(grants, after, r);
    }
    assert ValidRoute(r) && !Reached(r, KeysOf(after)) && !Reached(r, retained);
  }

  /** Targets A, then B, then C, with one reconcile after the last change: the retained
      keys are still A's, so a route on B is neither told nor the same. */
  lemma CoalescedChangesLeaveStaleRoute()
    ensures var policy := (target: string) => QuotaPolicy("ns", "p", false, [TargetRef(target, None)], [], "");
            !Framed(Grants([], {}), Some(policy("b")), Some(policy("c")), PolicyKeys(policy("a")))
  {
    var b := QuotaPolicy("ns", "p", false, [TargetRef("b", None)], [], "");
    var k := PolicyKeys(b)[0];
    assert k == ['b', '.', 'n', 's'];
    assert TargetKey(TargetRef("a", None), "ns") == ['a', '.', 'n', 's'];
    assert TargetKey(TargetRef("c", None), "ns") == ['c', '.', 'n', 's'];
    assert k[0] == 'b';
    assert b.targets[1..] == [];
    assert Allowed(Grants([], {}), b, b.targets[0]);
    UncoveredRoute(Grants([], {}), b, Some(QuotaPolicy("ns", "p", false, [TargetRef("c", None)], [], "")),
                   PolicyKeys(QuotaPolicy("ns", "p", false, [TargetRef("a", None)], [], "")), k);
  }

  // ------------------------------------- the controller sends what the frame needs

  lemma {:induction false} SkippingReaches(env: Q.Env, keys: seq<string>, r: Route)
    requires r in env.routes && Reached(r, keys) && Q.AllListed(env, keys)
    ensures IdOf(r) in Q.SentSkipping(env, keys)
  {
    var k :| k in keys && k in RouteKeys(r);
    assert keys[0] in keys && forall x :: x in keys[1..] ==> x in keys;
    if k != keys[0] {
      assert k in keys[1..];
      SkippingReaches(env, keys[1..], r);
    }
  }

  lemma {:induction false} UntilErrorReaches(env: Q.Env, keys: seq<string>, r: Route)
    requires r in env.routes && Reached(r, keys) && Q.AllListed(env, keys)
    ensures IdOf(r) in Q.SentUntilError(env, keys)
  {
    var k :| k in keys && k in RouteKeys(r);
    assert keys[0] in keys && forall x :: x in keys[1..] ==> x in keys;
    if k != keys[0] {
      assert k in keys[1..];
      UntilErrorReaches(env, keys[1..], r);
    }
  }

  /** A reconcile of the current policy, with its list calls succeeding and the previous
      targets retained, leaves no un-notified route with other effective policies. */
  lemma UpdateFrame(grants: Grants, key: string, before: Option<QuotaPolicy>, now: QuotaPolicy, finalizer: bool,
                    targets: map<string, seq<string>>, env: Q.Env, r: Route)
    requires !now.deleting || finalizer
    requires before.Some? && now.deleting ==> Covered(PolicyKeys(before.value), PolicyKeys(now), [])
    requires before.Some? && !now.deleting ==> Q.RetainedKeys(targets, key) == PolicyKeys(before.value)
    requires Q.AllListed(env, PolicyKeys(now)) && Q.AllListed(env, Q.RetainedKeys(targets, key))
    requires r in env.routes && IdOf(r) !in Q.SentBy(key, Q.Object(now, finalizer), targets, env)
    ensures Contribution(grants, before, r) == Contribution(grants, Some(now), r)
  {
    var prev := Q.RetainedKeys(targets, key);
    if Reached(r, PolicyKeys(now)) {
      SkippingReaches(env, PolicyKeys(now), r);
    }
    if !now.deleting && Reached(r, prev) {
      UntilErrorReaches(env, prev, r);
    }
    if Contribution(grants, before, r).Some? {
      ContributionReaches(grants, before, r);
    }
    if Contribution(grants, Some(now), r).Some? {
      ContributionReaches(grants, Some(now), r);
    }
  }

  /** A reconcile of a vanished policy does the same; with nothing retained it tells everyone. */
  lemma DeletionFrame(grants: Grants, key: string, before: QuotaPolicy, targets: map<string, seq<string>>,
                      env: Q.Env, r: Route)
    requires Q.RetainedKeys(targets, key) == [] || Q.RetainedKeys(targets, key) == PolicyKeys(before)
    requires env.pushOk && env.listAllOk && Q.AllListed(env, Q.RetainedKeys(targets, key))
    requires r in env.routes && IdOf(r) !in Q.SentBy(key, Q.NoObject, targets, env)
    ensures Contribution(grants, Some(before), r) == Contribution(grants, None, r)
  {
    var prev := Q.RetainedKeys(targets, key);
    assert IdOf(r) in Q.AllRoutes(env.routes) by {
      var i :| 0 <= i < |env.routes| && env.routes[i] == r;
      assert Q.AllRoutes(env.routes)[i] == IdOf(r);
    }
    if prev != [] && Contribution(grants, Some(before), r).Some? {
      ContributionReaches(grants, Some(before), r);
      UntilErrorReaches(env, prev, r);
    }
  }

  // ----------------------------------------- exactly which routes are sent an event

  /** A list call that finds the route succeeds. */
  predicate SomeListed(env: Q.Env, keys: seq<string>, r: Route) {
    exists k :: k in keys && k in RouteKeys(r) && env.listOk(k)
  }

  /** A list call that finds the route succeeds, and so does every one before it. */
  predicate ListedInTurn(env: Q.Env, keys: seq<string>, r: Route) {
    exists i :: 0 <= i < |keys| && keys[i] in RouteKeys(r) && Q.AllListed(env, keys[..i + 1])
  }

  /** The routes of the cluster, one per name. */
  ghost predicate Lists(listed: seq<Route>, routes: map<RouteId, Route>) {
    forall r :: r in listed <==> IdOf(r) in routes && routes[IdOf(r)] == r
  }

  lemma UnderIff(env: Q.Env, routes: map<RouteId, Route>, r: Route, k: string)
    requires Lists(env.routes, routes) && r in env.routes
    ensures IdOf(r) in RoutesUnder(env.routes, k) <==> k in RouteKeys(r)
  {
    if IdOf(r) in RoutesUnder(env.routes, k) {
      var x :| x in env.routes && k in RouteKeys(x) && IdOf(x) == IdOf(r);
      assert x == r;
    }
  }

  lemma {:induction false} SentSkippingIff(env: Q.Env, routes: map<RouteId, Route>, keys: seq<string>, r: Route)
    requires Lists(env.routes, routes) && r in env.routes
    ensures IdOf(r) in Q.SentSkipping(env, keys) <==> SomeListed(env, keys, r)
  {
    if keys != [] {
      UnderIff(env, routes, r, keys[0]);
      SentSkippingIff(env, routes, keys[1..], r);
      assert keys == [keys[0]] + keys[1..];
    }
  }

  lemma {:induction false} SentUntilErrorIff(env: Q.Env, routes: map<RouteId, Route>, keys: seq<string>, r: Route)
    requires Lists(env.routes, routes) && r in env.routes
    ensures IdOf(r) in Q.SentUntilError(env, keys) <==> ListedInTurn(env, keys, r)
  {
    if keys == [] {
    } else if !env.listOk(keys[0]) {
      forall i | 0 <= i < |keys| ensures !(keys[i] in RouteKeys(r) && Q.AllListed(env, keys[..i + 1])) {
        assert keys[..i + 1][0] == keys[0];
      }
    } else {
      UnderIff(env, routes, r, keys[0]);
      SentUntilErrorIff(env, routes, keys[1..], r);
      InTurnCons(env, keys, r);
    }
  }

  lemma InTurnCons(env: Q.Env, keys: seq<string>, r: Route)
    requires keys != [] && env.listOk(keys[0])
    ensures ListedInTurn(env, keys, r) <==> keys[0] in RouteKeys(r) || ListedInTurn(env, keys[1..], r)
  {
    var rest := keys[1..];
    if i :| 0 <= i < |keys| && keys[i] in RouteKeys(r) && Q.AllListed(env, keys[..i + 1]) {
      if i > 0 {
        assert rest[i - 1] == keys[i] && keys[..i + 1] == [keys[0]] + rest[..i];
        assert Q.AllListed(env, rest[..(i - 1) + 1]);
      }
    }
    if keys[0] in RouteKeys(r) {
      assert Q.AllListed(env, keys[..0 + 1]);
    }
    if i :| 0 <= i < |rest| && rest[i] in RouteKeys(r) && Q.AllListed(env, rest[..i + 1]) {
      assert keys[..(i + 1) + 1] == [keys[0]] + rest[..i + 1];
      assert keys[i + 1] == rest[i] && Q.AllListed(env, keys[..(i + 1) + 1]);
    }
  }

  /** With every list call succeeding, a route is sent an event exactly if it is reached. */
  lemma ListedReaches(env: Q.Env, keys: seq<string>, r: Route)
    requires Q.AllListed(env, keys)
    ensures SomeListed(env, keys, r) <==> Reached(r, keys)
    ensures ListedInTurn(env, keys, r) <==> Reached(r, keys)
  {
    if Reached(r, keys) {
      var k :| k in keys && k in RouteKeys(r);
      var i :| 0 <= i < |keys| && keys[i] == k;
      assert Q.AllListed(env, keys[..i + 1]);
    }
  }

  // --------------------------------------------- both controllers over whole runs

  type RouteId = (string, string)
  type Stamp = map<string, QuotaPolicy>

  /** The cluster's policies by key, those that carry the controller's finalizer, the
      routes, the memory and the pending keys of the policy controller, the queue of the
      route controller, and what each route was last stamped with. */
  datatype World = World(policies: map<string, QuotaPolicy>, finalizers: set<string>, routes: map<RouteId, Route>,
                         memory: Q.State, dirty: set<string>, queue: set<RouteId>, stamps: map<RouteId, Stamp>)

  datatype Action =
    | Change(key: string, policy: QuotaPolicy)           // a user creates a policy or edits its spec
    | Delete(key: string)                                // a user deletes a policy
    | Vanish(key: string)                                // the API server drops a deleted policy
    | ReconcilePolicy(key: string, readOk: bool, finalizerOk: bool, env: Q.Env)
    | ChangeRoute(id: RouteId, route: Option<Route>)     // a user creates, edits or deletes a route
    | ReconcileRoute(id: RouteId, unlisted: set<Reference>)
    | Restart                                            // both controllers start over

  function Get<V>(m: map<string, V>, key: string): Option<V> {
    if key in m then Some(m[key]) else None
  }

  function Retained(w: World, key: string): seq<string> {
    Q.RetainedKeys(w.memory.targets, key)
  }

  /** What a search for a route stamps. */
  function StampOf(policies: map<string, QuotaPolicy>, grants: Grants, r: Route): Stamp {
    map k | k in policies && Applies(grants, policies[k], QuotaKeys(r)) :: Effective(grants, policies[k])
  }

  /** Edits keep the deletion mark, and a name is one object. */
  ghost predicate Enabled(w: World, a: Action) {
    match a
    case Change(key, policy) =>
      KeyOf(policy) == key && (policy.deleting <==> key in w.policies && w.policies[key].deleting)
    case Delete(key) => key in w.policies && !w.policies[key].deleting
    case Vanish(key) => key in w.policies && w.policies[key].deleting && key !in w.finalizers
    case ReconcilePolicy(_, _, _, env) => Lists(env.routes, w.routes)
    case ChangeRoute(id, route) => route.Some? ==> IdOf(route.value) == id
    case ReconcileRoute(_, _) => true
    case Restart => true
  }

  function Fetched(w: World, key: string, readOk: bool): Q.Fetched {
    if !readOk then Q.ReadFailed
    else if key in w.policies then Q.Object(w.policies[key], key in w.finalizers)
    else Q.NoObject
  }

  /** The policy controller's part is its own step: its event on the memory, its
      notifications, and its error, which is what keeps a key pending. The reconcile of a
      route that is gone only takes it off the queue. */
  ghost function Next(w: World, gs: seq<Grant>, a: Action): World
    requires Enabled(w, a)
  {
    match a
    case Change(key, policy) => w.(policies := w.policies[key := policy], dirty := w.dirty + {key})
    case Delete(key) =>
      w.(policies := if key in w.finalizers then w.policies[key := w.policies[key].(deleting := true)]
                     else w.policies - {key},
         dirty := w.dirty + {key})
    case Vanish(key) => w.(policies := w.policies - {key}, dirty := w.dirty + {key})
    case ReconcilePolicy(key, readOk, finalizerOk, env) =>
      var obj := Fetched(w, key, readOk);
      var marked := if !obj.Object? || !finalizerOk then w.finalizers
                    else if obj.policy.deleting then w.finalizers - {key} else w.finalizers + {key};
      w.(finalizers := marked,
         memory := Q.Step(w.memory, Q.EventOf(key, obj, w.memory.targets, env)),
         dirty := if Q.Errs(key, obj, w.memory.targets, env) then w.dirty + {key} else w.dirty - {key},
         queue := w.queue + Elements(Q.SentBy(key, obj, w.memory.targets, env)))
    case ChangeRoute(id, route) =>
      w.(routes := if route.Some? then w.routes[id := route.value] else w.routes - {id}, queue := w.queue + {id})
    case ReconcileRoute(id, unlisted) =>
      if id in w.routes then
        w.(stamps := w.stamps[id := StampOf(w.policies, Grants(gs, unlisted), w.routes[id])], queue := w.queue - {id})
      else w.(queue := w.queue - {id})
    case Restart => w.(memory := Q.START, dirty := w.policies.Keys, queue := w.routes.Keys)
  }

  // -------------------------------------------------------------- what is kept

  /** The route is stamped with what the policy contributes now. */
  ghost predicate Fresh(w: World, gs: seq<Grant>, id: RouteId, key: string)
    requires id in w.routes
  {
    id in w.stamps && Get(w.stamps[id], key) == Contribution(Grants(gs, {}), Get(w.policies, key), w.routes[id])
  }

  /** A reconcile that is still to come, with its lists succeeding, will tell the route: of
      a vanished policy by the retained keys, or all routes if there are none; of a deleted
      one the same once it vanishes, or by its own targets in the finalizer; of any other
      by the retained keys or its own targets. */
  predicate Traced(r: Route, prev: seq<string>, now: Option<QuotaPolicy>, pending: bool, finalizer: bool) {
    if now.None? then pending && (prev == [] || Reached(r, prev))
    else if now.value.deleting then
      prev == [] || Reached(r, prev) || (pending && finalizer && Reached(r, PolicyKeys(now.value)))
    else pending && (Reached(r, prev) || Reached(r, PolicyKeys(now.value)))
  }

  predicate Recoverable(w: World, id: RouteId, key: string)
    requires id in w.routes
  {
    Traced(w.routes[id], Retained(w, key), Get(w.policies, key), key in w.dirty, key in w.finalizers)
  }

  ghost predicate RouteOk(w: World, gs: seq<Grant>, id: RouteId, key: string)
    requires id in w.routes
  {
    id in w.stamps && (Fresh(w, gs, id, key) || Recoverable(w, id, key))
  }

  /** After a reconcile without error the retained keys are the policy's own. */
  predicate RetainedOk(w: World, key: string) {
    key in w.policies && key !in w.dirty && !w.policies[key].deleting ==>
      Retained(w, key) == PolicyKeys(w.policies[key])
  }

  /** What every step keeps, whatever fails. */
  ghost predicate Sound(w: World) {
    (forall id :: id in w.routes ==> IdOf(w.routes[id]) == id) && forall key :: RetainedOk(w, key)
  }

  /** What is promised of one route and one policy. */
  ghost predicate InvAt(w: World, gs: seq<Grant>, id: RouteId, key: string) {
    id in w.routes && id !in w.queue ==> RouteOk(w, gs, id, key)
  }

  ghost predicate Inv(w: World, gs: seq<Grant>) {
    Sound(w) && forall id, key :: InvAt(w, gs, id, key)
  }

  // ------------------------------------------------ exactly which steps keep it

  /** Failing lookups of grants hide a permitted target of a policy that applies to the route. */
  predicate Misses(gs: seq<Grant>, unlisted: set<Reference>, p: QuotaPolicy, r: Route) {
    Applies(Grants(gs, {}), p, QuotaKeys(r)) && HidesSome(Grants(gs, unlisted), p, p.targets)
  }

  /** What a step must meet for one route and one policy.
      A change, or a deletion without finalizer, of a policy whose stamp the route carries
      must leave the route traced. A reconcile must reach a stale route by a list that
      succeeds, unless the failure is returned and the route stays traced. A search must
      not miss a permitted target, unless the policy is pending anyway. */
  ghost predicate KeepsAt(w: World, gs: seq<Grant>, a: Action, id: RouteId, key: string)
    requires id in w.routes
  {
    var r, prev := w.routes[id], Retained(w, key);
    match a
    case Change(k, policy) =>
      k == key && id !in w.queue && id in w.stamps && key in w.stamps[id] ==>
        Traced(r, prev, Some(policy), true, key in w.finalizers)
    case Delete(k) =>
      k == key && key !in w.finalizers && id !in w.queue && id in w.stamps && key in w.stamps[id] ==>
        prev == [] || Reached(r, prev)
    case ReconcilePolicy(k, readOk, _, env) =>
      k == key && readOk && key in w.policies && id !in w.queue && !Fresh(w, gs, id, key) ==>
        var now := w.policies[key];
        if now.deleting then
          key in w.finalizers ==> prev == [] || Reached(r, prev) || SomeListed(env, PolicyKeys(now), r)
        else
          || SomeListed(env, PolicyKeys(now), r) || ListedInTurn(env, prev, r)
          || (Q.SyncFails(now, env) && (Reached(r, PolicyKeys(now)) || (Q.Built(now, env).None? && Reached(r, prev))))
    case ReconcileRoute(x, unlisted) =>
      x == id && key in w.policies && Misses(gs, unlisted, w.policies[key], r) ==> key in w.dirty
    case _ => true
  }

  ghost predicate Keeps(w: World, gs: seq<Grant>, a: Action) {
    forall id, key :: id in w.routes ==> KeepsAt(w, gs, a, id, key)
  }

  lemma StampIsContribution(policies: map<string, QuotaPolicy>, grants: Grants, r: Route, key: string)
    ensures Get(StampOf(policies, grants, r), key) == Contribution(grants, Get(policies, key), r)
  {}

  lemma SearchAt(w: World, gs: seq<Grant>, id: RouteId, unlisted: set<Reference>, key: string)
    requires id in w.routes
    ensures var a := ReconcileRoute(id, unlisted);
            RouteOk(Next(w, gs, a), gs, id, key) <==> KeepsAt(w, gs, a, id, key)
  {
    var w', r, now := Next(w, gs, ReconcileRoute(id, unlisted)), w.routes[id], Get(w.policies, key);
    var seen, all := Grants(gs, unlisted), Grants(gs, {});
    StampIsContribution(w.policies, seen, r, key);
    if now.Some? {
      AllowedUnderFailures(seen, now.value, now.value.targets);
      assert Seen(seen) == all;
      if Contribution(all, now, r).Some? {
        ContributionReaches(all, now, r);
      }
    }
  }

  lemma ReconcileLiveAt(w: World, gs: seq<Grant>, a: Action, id: RouteId, key: string)
    requires Sound(w) && InvAt(w, gs, id, key) && Enabled(w, a) && id in w.routes && id !in w.queue
    requires a.ReconcilePolicy? && a.key == key && a.readOk && key in w.policies && !w.policies[key].deleting
    ensures var w' := Next(w, gs, a); id in w'.queue || RouteOk(w', gs, id, key) <==> KeepsAt(w, gs, a, id, key)
  {
    var w', r, now, prev := Next(w, gs, a), w.routes[id], w.policies[key], Retained(w, key);
    assert r in a.env.routes;
    SentSkippingIff(a.env, w.routes, PolicyKeys(now), r);
    SentUntilErrorIff(a.env, w.routes, prev, r);
    assert id in w'.queue <==> SomeListed(a.env, PolicyKeys(now), r) || ListedInTurn(a.env, prev, r);
    assert RouteOk(w, gs, id, key);
    assert Retained(w', key) == if Q.Built(now, a.env).None? then prev else PolicyKeys(now);
    assert Recoverable(w', id, key) <==>
      Q.SyncFails(now, a.env) && (Reached(r, PolicyKeys(now)) || (Q.Built(now, a.env).None? && Reached(r, prev)));
  }

  lemma ReconcileDeletingAt(w: World, gs: seq<Grant>, a: Action, id: RouteId, key: string)
    requires Sound(w) && InvAt(w, gs, id, key) && Enabled(w, a) && id in w.routes && id !in w.queue
    requires a.ReconcilePolicy? && a.key == key && a.readOk && key in w.policies && w.policies[key].deleting
    ensures var w' := Next(w, gs, a); id in w'.queue || RouteOk(w', gs, id, key) <==> KeepsAt(w, gs, a, id, key)
  {
    var w', r, now := Next(w, gs, a), w.routes[id], w.policies[key];
    assert r in a.env.routes;
    SentSkippingIff(a.env, w.routes, PolicyKeys(now), r);
    assert RouteOk(w, gs, id, key);
    assert Retained(w', key) == Retained(w, key);
  }

  lemma ReconcileGoneAt(w: World, gs: seq<Grant>, a: Action, id: RouteId, key: string)
    requires Sound(w) && InvAt(w, gs, id, key) && Enabled(w, a) && id in w.routes && id !in w.queue
    requires a.ReconcilePolicy? && a.key == key && a.readOk && key !in w.policies
    ensures var w' := Next(w, gs, a); id in w'.queue || RouteOk(w', gs, id, key)
  {
    var w', r, prev, env := Next(w, gs, a), w.routes[id], Retained(w, key), a.env;
    assert r in env.routes;
    assert RouteOk(w, gs, id, key);
    if !Q.Errs(key, Q.NoObject, w.memory.targets, env) {
      if prev == [] {
        var i :| 0 <= i < |env.routes| && env.routes[i] == r;
        assert Q.AllRoutes(env.routes)[i] == id;
      } else if Reached(r, prev) {
        ListedReaches(env, prev, r);
        SentUntilErrorIff(env, w.routes, prev, r);
      }
    }
  }

  lemma OtherAt(w: World, gs: seq<Grant>, a: Action, id: RouteId, key: string)
    requires Sound(w) && InvAt(w, gs, id, key) && Enabled(w, a) && id in w.routes && id !in w.queue
    requires a.Change? || a.Delete? || a.Vanish?
    ensures RouteOk(Next(w, gs, a), gs, id, key) <==> KeepsAt(w, gs, a, id, key)
  {
    var w', r, now := Next(w, gs, a), w.routes[id], Get(w.policies, key);
    var all := Grants(gs, {});
    assert RouteOk(w, gs, id, key) && RetainedOk(w, key);
    if Contribution(all, now, r).Some? {
      ContributionReaches(all, now, r);
    }
    if Contribution(all, Get(w'.policies, key), r).Some? {
      ContributionReaches(all, Get(w'.policies, key), r);
    }
  }

  lemma ReconcileElsewhereAt(w: World, gs: seq<Grant>, a: Action, id: RouteId, key: string)
    requires Sound(w) && InvAt(w, gs, id, key) && Enabled(w, a) && id in w.routes && id !in w.queue
    requires a.ReconcilePolicy? && !(a.key == key && a.readOk)
    ensures RouteOk(Next(w, gs, a), gs, id, key)
  {
    assert RouteOk(w, gs, id, key);
    assert Retained(Next(w, gs, a), key) == Retained(w, key);
  }

  lemma ReconcileAt(w: World, gs: seq<Grant>, a: Action, id: RouteId, key: string)
    requires Sound(w) && InvAt(w, gs, id, key) && Enabled(w, a) && id in w.routes && id !in w.queue
    requires a.ReconcilePolicy?
    ensures var w' := Next(w, gs, a); id in w'.queue || RouteOk(w', gs, id, key) <==> KeepsAt(w, gs, a, id, key)
  {
    if !(a.key == key && a.readOk) {
      ReconcileElsewhereAt(w, gs, a, id, key);
    } else if key !in w.policies {
      ReconcileGoneAt(w, gs, a, id, key);
    } else if w.policies[key].deleting {
      ReconcileDeletingAt(w, gs, a, id, key);
    } else {
      ReconcileLiveAt(w, gs, a, id, key);
    }
  }

  lemma StepAt(w: World, gs: seq<Grant>, a: Action, id: RouteId, key: string)
    requires Sound(w) && InvAt(w, gs, id, key) && Enabled(w, a) && id in w.routes && id in Next(w, gs, a).routes
    ensures var w' := Next(w, gs, a); id in w'.queue || RouteOk(w', gs, id, key) <==> KeepsAt(w, gs, a, id, key)
  {
    if a.ReconcileRoute? && a.id == id {
      SearchAt(w, gs, id, a.unlisted, key);
    } else if id !in w.queue {
      if a.Change? || a.Delete? || a.Vanish? {
        OtherAt(w, gs, a, id, key);
      } else if a.ReconcilePolicy? {
        ReconcileAt(w, gs, a, id, key);
      } else {
        assert RouteOk(w, gs, id, key);
      }
    }
  }

  lemma StepSound(w: World, gs: seq<Grant>, a: Action)
    requires Sound(w) && Enabled(w, a)
    ensures Sound(Next(w, gs, a))
  {
    forall key ensures RetainedOk(Next(w, gs, a), key) {
      assert RetainedOk(w, key);
    }
  }

  /** A step of either controller, of users, of the API server or a restart keeps what is
      promised of a route and a policy exactly when it meets its condition for the two. */
  lemma StepKeepsAtIff(w: World, gs: seq<Grant>, a: Action, id: RouteId, key: string)
    requires Sound(w) && InvAt(w, gs, id, key) && Enabled(w, a)
    ensures InvAt(Next(w, gs, a), gs, id, key) <==> (id in w.routes ==> KeepsAt(w, gs, a, id, key))
  {
    if id in w.routes && id in Next(w, gs, a).routes {
      StepAt(w, gs, a, id, key);
    }
  }

  /** The same for all routes and policies at once. */
  lemma StepKeepsIff(w: World, gs: seq<Grant>, a: Action)
    requires Inv(w, gs) && Enabled(w, a)
    ensures Inv(Next(w, gs, a), gs) <==> Keeps(w, gs, a)
  {
    StepSound(w, gs, a);
    forall id, key ensures InvAt(Next(w, gs, a), gs, id, key) <==> (id in w.routes ==> KeepsAt(w, gs, a, id, key)) {
      assert InvAt(w, gs, id, key);
      StepKeepsAtIff(w, gs, a, id, key);
    }
  }

  // ------------------------------------------------------------------- whole runs

  function Start(): World {
    World(map[], {}, map[], Q.START, {}, {}, map[])
  }

  ghost predicate IsRun(trace: seq<World>, actions: seq<Action>, gs: seq<Grant>) {
    && |trace| == |actions| + 1
    && trace[0] == Start()
    && forall i :: 0 <= i < |actions| ==>
         Enabled(trace[i], actions[i]) && trace[i + 1] == Next(trace[i], gs, actions[i])
  }

  lemma {:induction false} RunsAreSound(trace: seq<World>, actions: seq<Action>, gs: seq<Grant>, n: nat)
    requires IsRun(trace, actions, gs) && n < |trace|
    ensures Sound(trace[n])
  {
    if n > 0 {
      RunsAreSound(trace, actions, gs, n - 1);
      assert Enabled(trace[n - 1], actions[n - 1]);
      StepSound(trace[n - 1], gs, actions[n - 1]);
    }
  }

  /** Every step from `m` on meets its condition for the route and the policy. */
  ghost predicate KeepsSince(trace: seq<World>, actions: seq<Action>, gs: seq<Grant>, m: nat, n: nat, id: RouteId,
                             key: string)
    requires n <= |actions| <= |trace|
  {
    forall i :: m <= i < n && id in trace[i].routes ==> KeepsAt(trace[i], gs, actions[i], id, key)
  }

  lemma {:induction false} RunKeepsInv(trace: seq<World>, actions: seq<Action>, gs: seq<Grant>, m: nat, n: nat,
                                       id: RouteId, key: string)
    requires IsRun(trace, actions, gs) && m <= n < |trace| && InvAt(trace[m], gs, id, key)
    requires KeepsSince(trace, actions, gs, m, n, id, key)
    ensures InvAt(trace[n], gs, id, key)
  {
    if n > m {
      RunKeepsInv(trace, actions, gs, m, n - 1, id, key);
      RunsAreSound(trace, actions, gs, n - 1);
      assert Enabled(trace[n - 1], actions[n - 1]);
      StepKeepsAtIff(trace[n - 1], gs, actions[n - 1], id, key);
    }
  }

  /** The route does not exist yet, or it is about to be reconciled. */
  predicate Anew(w: World, id: RouteId) {
    id !in w.routes || id in w.queue
  }

  /** Nothing is pending for the route and the policy, which is not being deleted. */
  predicate Settled(w: World, id: RouteId, key: string) {
    id in w.routes && id !in w.queue && key !in w.dirty && (key in w.policies ==> !w.policies[key].deleting)
  }

  /** In every run, if each step since some point where the route did not exist or was
      queued meets its condition for the route and the policy, then whenever nothing is
      pending for these two the route carries what the policy contributes now. What goes
      wrong with other routes and policies, and what went wrong before, does not matter. */
  lemma SettledIsFresh(trace: seq<World>, actions: seq<Action>, gs: seq<Grant>, m: nat, n: nat, id: RouteId,
                       key: string)
    requires IsRun(trace, actions, gs) && m <= n < |trace| && Anew(trace[m], id)
    requires KeepsSince(trace, actions, gs, m, n, id, key) && Settled(trace[n], id, key)
    ensures Fresh(trace[n], gs, id, key)
  {
    RunKeepsInv(trace, actions, gs, m, n, id, key);
  }

  /** Hence, with nothing pending for any policy, the stamp is that of the current effective
      policies. */
  lemma QuietRunsAreFresh(trace: seq<World>, actions: seq<Action>, gs: seq<Grant>, m: nat, n: nat, id: RouteId)
    requires IsRun(trace, actions, gs) && m <= n < |trace| && Anew(trace[m], id)
    requires forall key :: KeepsSince(trace, actions, gs, m, n, id, key) && Settled(trace[n], id, key)
    ensures var w := trace[n]; id in w.stamps && w.stamps[id] == StampOf(w.policies, Grants(gs, {}), w.routes[id])
  {
    var w, all := trace[n], Grants(gs, {});
    assert Settled(w, id, "");
    var r := w.routes[id];
    forall key
      ensures Fresh(w, gs, id, key)
      ensures Get(StampOf(w.policies, all, r), key) == Contribution(all, Get(w.policies, key), r)
    {
      assert Settled(w, id, key);
      SettledIsFresh(trace, actions, gs, m, n, id, key);
      StampIsContribution(w.policies, all, r, key);
    }
    assert Fresh(w, gs, id, "");
    SameStamps(w.stamps[id], StampOf(w.policies, all, r));
  }

  lemma SameStamps(a: Stamp, b: Stamp)
    requires forall key :: Get(a, key) == Get(b, key)
    ensures a == b
  {
    assert forall key :: (key in a <==> Get(a, key).Some?) && (key in b <==> Get(b, key).Some?);
    assert forall key :: key in a ==> Get(a, key).value == a[key] && Get(b, key).value == b[key];
  }

  // ------------------------------------------- steps that always meet their condition

  /** The policy is edited only when its last change was reconciled, it is deleted only with
      the finalizer in place, and its lists and the route's lookups succeed. */
  predicate Calm(w: World, a: Action, id: RouteId, key: string) {
    match a
    case Change(k, policy) => k == key ==> key !in w.dirty && !policy.deleting
    case Delete(k) => k == key ==> key in w.finalizers
    case ReconcilePolicy(k, readOk, _, env) =>
      k == key && readOk && key in w.policies ==>
        Q.AllListed(env, PolicyKeys(w.policies[key])) && Q.AllListed(env, Retained(w, key))
    case ReconcileRoute(x, unlisted) => x == id ==> unlisted == {}
    case _ => true
  }

  lemma CalmStepsKeep(w: World, gs: seq<Grant>, a: Action, id: RouteId, key: string)
    requires Sound(w) && InvAt(w, gs, id, key) && Enabled(w, a) && Calm(w, a, id, key) && id in w.routes
    ensures KeepsAt(w, gs, a, id, key)
  {
    if id !in w.queue {
      assert RouteOk(w, gs, id, key) && RetainedOk(w, key);
      var r, now := w.routes[id], Get(w.policies, key);
      if a.Change? && a.key == key && key in w.stamps[id] && now.Some? {
        ContributionReaches(Grants(gs, {}), now, r);
      }
      if a.ReconcilePolicy? && a.key == key && a.readOk && now.Some? {
        ListedReaches(a.env, PolicyKeys(now.value), r);
        ListedReaches(a.env, Retained(w, key), r);
      }
    }
  }

  ghost predicate CalmSince(trace: seq<World>, actions: seq<Action>, m: nat, n: nat, id: RouteId, key: string)
    requires n <= |actions| <= |trace|
  {
    forall i :: m <= i < n ==> Calm(trace[i], actions[i], id, key)
  }

  lemma CalmNext(trace: seq<World>, actions: seq<Action>, gs: seq<Grant>, m: nat, k: nat, id: RouteId, key: string)
    requires IsRun(trace, actions, gs) && m <= k < |actions| && Anew(trace[m], id)
    requires KeepsSince(trace, actions, gs, m, k, id, key) && Calm(trace[k], actions[k], id, key)
    ensures id in trace[k].routes ==> KeepsAt(trace[k], gs, actions[k], id, key)
  {
    RunKeepsInv(trace, actions, gs, m, k, id, key);
    RunsAreSound(trace, actions, gs, k);
    assert Enabled(trace[k], actions[k]);
    if id in trace[k].routes {
      CalmStepsKeep(trace[k], gs, actions[k], id, key);
    }
  }

  /** In every run that is calm for a route and a policy, each step meets its condition. */
  lemma {:induction false} CalmRunsKeep(trace: seq<World>, actions: seq<Action>, gs: seq<Grant>, m: nat, n: nat,
                                        id: RouteId, key: string)
    requires IsRun(trace, actions, gs) && m <= n < |trace| && Anew(trace[m], id)
    requires CalmSince(trace, actions, m, n, id, key)
    ensures KeepsSince(trace, actions, gs, m, n, id, key)
  {
    if n > m {
      CalmRunsKeep(trace, actions, gs, m, n - 1, id, key);
      CalmNext(trace, actions, gs, m, n - 1, id, key);
    }
  }

  /** Hence settled means fresh there. */
  lemma CalmRunsAreFresh(trace: seq<World>, actions: seq<Action>, gs: seq<Grant>, m: nat, n: nat, id: RouteId,
                         key: string)
    requires IsRun(trace, actions, gs) && m <= n < |trace| && Anew(trace[m], id)
    requires CalmSince(trace, actions, m, n, id, key) && Settled(trace[n], id, key)
    ensures Fresh(trace[n], gs, id, key)
  {
    CalmRunsKeep(trace, actions, gs, m, n, id, key);
    SettledIsFresh(trace, actions, gs, m, n, id, key);
  }

  // ---------------------------------------------------------- stale for good

  /** A stale route that no reconcile of the live policy can find. */
  ghost predicate Lost(w: World, gs: seq<Grant>, id: RouteId, key: string) {
    && id in w.routes && id !in w.queue && IdOf(w.routes[id]) == id && !Fresh(w, gs, id, key)
    && key in w.policies && !w.policies[key].deleting
    && !Reached(w.routes[id], PolicyKeys(w.policies[key])) && !Reached(w.routes[id], Retained(w, key))
  }

  /** A list of the previous targets that fails is logged and forgotten: the reconcile
      returns no error, the new targets are retained, and the route on an old target keeps
      its stamp. */
  lemma SwallowedFailureLosesRoute(w: World, gs: seq<Grant>, a: Action, id: RouteId, key: string)
    requires Sound(w) && Enabled(w, a) && a.ReconcilePolicy? && a.key == key && a.readOk
    requires key in w.policies && !w.policies[key].deleting && !Q.SyncFails(w.policies[key], a.env)
    requires id in w.routes && id !in w.queue && id in w.stamps && key in w.stamps[id]
    requires !Reached(w.routes[id], PolicyKeys(w.policies[key])) && !ListedInTurn(a.env, Retained(w, key), w.routes[id])
    ensures var w' := Next(w, gs, a); key !in w'.dirty && Lost(w', gs, id, key)
  {
    var w', r, now := Next(w, gs, a), w.routes[id], w.policies[key];
    assert r in a.env.routes;
    SentSkippingIff(a.env, w.routes, PolicyKeys(now), r);
    SentUntilErrorIff(a.env, w.routes, Retained(w, key), r);
    if Contribution(Grants(gs, {}), Some(now), r).Some? {
      ContributionReaches(Grants(gs, {}), Some(now), r);
    }
    assert Contribution(Grants(gs, {}), Some(now), r).None?;
  }

  /** It stays so until the policy or the route is changed, the route is reconciled or sent an
      event for another policy, or the controllers restart: in particular no reconcile of
      the policy ends it, whatever succeeds. */
  lemma LostStays(w: World, gs: seq<Grant>, a: Action, id: RouteId, key: string)
    requires Lost(w, gs, id, key) && Enabled(w, a) && !a.Restart?
    requires a.Change? || a.Delete? || a.Vanish? ==> a.key != key
    requires a.ChangeRoute? || a.ReconcileRoute? ==> a.id != id
    requires a.ReconcilePolicy? && a.key != key ==> id !in Next(w, gs, a).queue
    ensures Lost(Next(w, gs, a), gs, id, key)
  {
    if a.ReconcilePolicy? && a.key == key && a.readOk {
      var r, now := w.routes[id], w.policies[key];
      assert r in a.env.routes;
      SentSkippingIff(a.env, w.routes, PolicyKeys(now), r);
      SentUntilErrorIff(a.env, w.routes, Retained(w, key), r);
    }
  }

  const ROUTE := Route("ns", "r", [[BackendRef("a", None, false, "")]])
  const ON_A := QuotaPolicy("ns", "p", false, [TargetRef("a", None)], [], "")
  const ON_B := QuotaPolicy("ns", "p", false, [TargetRef("b", None)], [], "")

  lemma ExampleKeys()
    ensures RouteKeys(ROUTE) == ["a.ns"] && PolicyKeys(ON_A) == ["a.ns"] && PolicyKeys(ON_B) == ["b.ns"]
    ensures "b.ns" != "a.ns" && KeyOf(ON_A) == KeyOf(ON_B)
  {
    var b := BackendRef("a", None, false, "");
    assert TargetKey(TargetRef("a", None), "ns") == ['a', '.', 'n', 's'] == BackendKey(b, "ns") == "a.ns";
    assert TargetKey(TargetRef("b", None), "ns") == ['b', '.', 'n', 's'] == "b.ns";
    assert ROUTE.rules[1..] == [] && Flatten(ROUTE.rules) == [b];
    assert "b.ns"[0] != "a.ns"[0];
  }

  lemma NothingSent(env: Q.Env, targets: map<string, seq<string>>)
    requires env.routes == [ROUTE] && !env.listOk("a.ns") && Q.RetainedKeys(targets, KeyOf(ON_A)) == PolicyKeys(ON_A)
    ensures Q.SentBy(KeyOf(ON_A), Q.Object(ON_B, true), targets, env) == []
  {
    ExampleKeys();
    assert Q.SentUntilError(env, ["a.ns"]) == [];
    assert "b.ns" !in RouteKeys(ROUTE) && [ROUTE][1..] == [];
    assert RoutesUnder([ROUTE], "b.ns") == RoutesUnder([ROUTE][1..], "b.ns");
    assert ["b.ns"][1..] == [];
    assert Q.SentSkipping(env, ["b.ns"]) == [];
  }

  lemma {:induction false} OnlyRouteSent(env: Q.Env, keys: seq<string>)
    requires env.routes == [ROUTE]
    ensures Elements(Q.SentSkipping(env, keys)) <= {IdOf(ROUTE)}
  {
    if keys != [] {
      OnlyRouteSent(env, keys[1..]);
      assert forall id :: id in RoutesUnder(env.routes, keys[0]) ==> id == IdOf(ROUTE);
    }
  }

  predicate Succeeds(env: Q.Env, p: QuotaPolicy) {
    env.routes == [ROUTE] && !Q.SyncFails(p, env)
  }

  /** The one policy and the one route, after a first reconcile of the policy on a. */
  predicate Example(w: World, p: QuotaPolicy, dirty: set<string>, queue: set<RouteId>, stamps: map<RouteId, Stamp>) {
    && w.policies == map[KeyOf(ON_A) := p] && w.finalizers == {KeyOf(ON_A)} && w.routes == map[IdOf(ROUTE) := ROUTE]
    && Retained(w, KeyOf(ON_A)) == PolicyKeys(ON_A) && w.dirty == dirty && w.queue == queue && w.stamps == stamps
  }

  /** A route on a and a policy on a are created. */
  function Created(): World {
    Start().(routes := map[IdOf(ROUTE) := ROUTE], queue := {IdOf(ROUTE)},
             policies := map[KeyOf(ON_A) := ON_A], dirty := {KeyOf(ON_A)})
  }

  lemma FirstReconcile(first: Q.Env)
    requires Succeeds(first, ON_A)
    ensures var a := ReconcilePolicy(KeyOf(ON_A), true, true, first);
            Enabled(Created(), a) && Example(Next(Created(), [], a), ON_A, {}, {IdOf(ROUTE)}, map[])
  {
    var w := Created();
    var key, obj := KeyOf(ON_A), Q.Object(ON_A, false);
    assert Q.RetainedKeys(w.memory.targets, key) == [];
    OnlyRouteSent(first, PolicyKeys(ON_A));
    assert Q.SentBy(key, obj, w.memory.targets, first) == Q.SentSkipping(first, PolicyKeys(ON_A));
  }

  const STAMPED: map<RouteId, Stamp> := map[IdOf(ROUTE) := map[KeyOf(ON_A) := ON_A]]

  lemma ExampleApplies()
    ensures StampOf(map[KeyOf(ON_A) := ON_A], Grants([], {}), ROUTE) == map[KeyOf(ON_A) := ON_A]
  {
    ExampleKeys();
    assert ON_A.targets[1..] == [];
    assert AllowedTargets(Grants([], {}), ON_A, ON_A.targets) == ON_A.targets;
    var b := BackendRef("a", None, false, "");
    assert ROUTE.rules[1..] == [] && Flatten(ROUTE.rules) == [b] && [b][0] == b;
    assert RouteKeys(ROUTE)[0] == "a.ns" && "a.ns" in PolicyKeys(ON_A);
    assert BackendKey(b, "ns") in QuotaKeys(ROUTE);
    assert BackendKey(b, "ns") == "a.ns";
  }

  lemma FirstStamp(w: World)
    requires Example(w, ON_A, {}, {IdOf(ROUTE)}, map[])
    ensures Example(Next(w, [], ReconcileRoute(IdOf(ROUTE), {})), ON_A, {}, {}, STAMPED)
  {
    ExampleApplies();
  }

  lemma LastReconcile(last: Q.Env, w: World)
    requires Succeeds(last, ON_B) && !last.listOk("a.ns") && Example(w, ON_B, {KeyOf(ON_A)}, {}, STAMPED) && Sound(w)
    ensures var a := ReconcilePolicy(KeyOf(ON_A), true, true, last);
            Enabled(w, a) && Lost(Next(w, [], a), [], IdOf(ROUTE), KeyOf(ON_A))
  {
    var key := KeyOf(ON_A);
    var a := ReconcilePolicy(key, true, true, last);
    ExampleKeys();
    assert !Reached(ROUTE, PolicyKeys(ON_B));
    assert !ListedInTurn(last, ["a.ns"], ROUTE) by {
      assert ["a.ns"][..1] == ["a.ns"];
    }
    SwallowedFailureLosesRoute(w, [], a, IdOf(ROUTE), key);
  }

  lemma LastIsQuiet(last: Q.Env, w: World)
    requires Succeeds(last, ON_B) && !last.listOk("a.ns") && Example(w, ON_B, {KeyOf(ON_A)}, {}, STAMPED)
    ensures var a := ReconcilePolicy(KeyOf(ON_A), true, true, last);
            Enabled(w, a) && Next(w, [], a).dirty == {} && Next(w, [], a).queue == {}
  {
    NothingSent(last, w.memory.targets);
  }

  lemma Continue(trace: seq<World>, actions: seq<Action>, a: Action) returns (longer: seq<World>, more: seq<Action>)
    requires IsRun(trace, actions, []) && Enabled(trace[|actions|], a)
    ensures IsRun(longer, more, []) && longer[|more|] == Next(trace[|actions|], [], a)
  {
    longer, more := trace + [Next(trace[|actions|], [], a)], actions + [a];
    forall i | 0 <= i < |more| ensures Enabled(longer[i], more[i]) && longer[i + 1] == Next(longer[i], [], more[i]) {
      if i < |actions| {
        assert longer[i] == trace[i] && longer[i + 1] == trace[i + 1] && more[i] == actions[i];
      }
    }
  }

  lemma CreatedRun() returns (trace: seq<World>, actions: seq<Action>)
    ensures IsRun(trace, actions, []) && trace[|actions|] == Created()
  {
    trace, actions := [Start()], [];
    trace, actions := Continue(trace, actions, ChangeRoute(IdOf(ROUTE), Some(ROUTE)));
    trace, actions := Continue(trace, actions, Change(KeyOf(ON_A), ON_A));
  }

  lemma Move(w: World)
    requires Example(w, ON_A, {}, {}, STAMPED)
    ensures var a := Change(KeyOf(ON_A), ON_B);
            Enabled(w, a) && Example(Next(w, [], a), ON_B, {KeyOf(ON_A)}, {}, STAMPED)
  {
    assert KeyOf(ON_B) == KeyOf(ON_A);
  }

  /** The policy is reconciled with every call but lists succeeding, then the route, and the
      policy moves to b. */
  lemma MovedRun(first: Q.Env) returns (trace: seq<World>, actions: seq<Action>)
    requires Succeeds(first, ON_A)
    ensures IsRun(trace, actions, []) && Example(trace[|actions|], ON_B, {KeyOf(ON_A)}, {}, STAMPED)
  {
    trace, actions := CreatedRun();
    FirstReconcile(first);
    trace, actions := Continue(trace, actions, ReconcilePolicy(KeyOf(ON_A), true, true, first));
    FirstStamp(trace[|actions|]);
    trace, actions := Continue(trace, actions, ReconcileRoute(IdOf(ROUTE), {}));
    Move(trace[|actions|]);
    trace, actions := Continue(trace, actions, Change(KeyOf(ON_A), ON_B));
  }

  /** It happens in a run from the start: one list of routes fails, once, and then nothing is
      pending while the route on a still carries a policy that is not its any more. */
  lemma FailedListLeavesStaleRoute(first: Q.Env, last: Q.Env) returns (trace: seq<World>, actions: seq<Action>)
    requires Succeeds(first, ON_A) && Succeeds(last, ON_B) && !last.listOk("a.ns")
    ensures IsRun(trace, actions, [])
    ensures var w := trace[|actions|]; w.dirty == {} && w.queue == {} && Lost(w, [], IdOf(ROUTE), KeyOf(ON_A))
  {
    trace, actions := MovedRun(first);
    RunsAreSound(trace, actions, [], |actions|);
    LastReconcile(last, trace[|actions|]);
    LastIsQuiet(last, trace[|actions|]);
    trace, actions := Continue(trace, actions, ReconcilePolicy(KeyOf(ON_A), true, true, last));
  }

  // ----------------------------------------------------------------- the hash

  /** A stamp is what the search finds. */
  lemma StampIsSearch(policies: map<string, QuotaPolicy>, grants: Grants, r: Route)
    ensures StampOf(policies, grants, r).Values == EffectiveSet(policies.Values, grants, QuotaKeys(r))
  {
    var stamp, found := StampOf(policies, grants, r), EffectiveSet(policies.Values, grants, QuotaKeys(r));
    forall e ensures e in stamp.Values <==> e in found {
      if e in stamp.Values {
        var k :| k in stamp && stamp[k] == e;
        assert policies[k] in policies.Values;
      }
      if e in found {
        var p :| p in policies.Values && Applies(grants, p, QuotaKeys(r)) && e == Effective(grants, p);
        var k :| k in policies && policies[k] == p;
        assert stamp[k] == e;
      }
    }
  }

  predicate Keyed(policies: map<string, QuotaPolicy>) {
    forall k :: k in policies ==> KeyOf(policies[k]) == k
  }

  /** A route for which the one changed policy contributes the same has the same hash input
      before and after, in whatever order the searches deliver. */
  lemma SameContributionSameHash(before: map<string, QuotaPolicy>, after: map<string, QuotaPolicy>, key: string,
                                 grants: Grants, r: Route, found: seq<QuotaPolicy>, found': seq<QuotaPolicy>)
    requires Keyed(before) && Keyed(after) && before - {key} == after - {key}
    requires Contribution(grants, Get(before, key), r) == Contribution(grants, Get(after, key), r)
    requires Once(found, EffectiveSet(before.Values, grants, QuotaKeys(r)))
    requires Once(found', EffectiveSet(after.Values, grants, QuotaKeys(r)))
    ensures HashInput(found) == HashInput(found')
  {
    forall k ensures Get(StampOf(before, grants, r), k) == Get(StampOf(after, grants, r), k) {
      StampIsContribution(before, grants, r, k);
      StampIsContribution(after, grants, r, k);
      if k != key {
        assert k in before <==> k in before - {key};
        assert k in after <==> k in after - {key};
      }
    }
    SameStamps(StampOf(before, grants, r), StampOf(after, grants, r));
    StampIsSearch(before, grants, r);
    StampIsSearch(after, grants, r);
    KeyedDistinct(before, grants, r);
    SameSetSameInput(EffectiveSet(before.Values, grants, QuotaKeys(r)), found, found');
  }

  lemma KeyedDistinct(policies: map<string, QuotaPolicy>, grants: Grants, r: Route)
    requires Keyed(policies)
    ensures DistinctPairs(EffectiveSet(policies.Values, grants, QuotaKeys(r)))
  {
    var found := EffectiveSet(policies.Values, grants, QuotaKeys(r));
    forall e, f | e in found && f in found && e.namespace == f.namespace && e.name == f.name ensures e == f {
      var p :| p in policies.Values && Applies(grants, p, QuotaKeys(r)) && e == Effective(grants, p);
      var q :| q in policies.Values && Applies(grants, q, QuotaKeys(r)) && f == Effective(grants, q);
      assert KeyOf(p) == KeyOf(e) == KeyOf(f) == KeyOf(q);
    }
  }
}
