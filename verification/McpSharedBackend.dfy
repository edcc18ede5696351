/** The Backend that all MCPRoutes of a namespace share: created by any sync, removed
    with the last route, next to the legacy per-route Backends and the users' own. */
module McpSharedBackend {
  import opened Wrappers

  const SHARED := "ai-eg-mcp-proxy"

  datatype McpRoute = McpRoute(uid: nat, deleting: bool, finalizer: bool)
  datatype Backend = Backend(managed: bool, owner: Option<nat>)

  /** One namespace: its MCPRoutes and Backends by name, and the routes whose sync has
      ensured the shared Backend since anybody else last removed it. */
  datatype State = State(namespace: string, routes: map<string, McpRoute>, backends: map<string, Backend>,
                         synced: set<string>)

  function LegacyName(namespace: string, route: string): string {
    namespace + ['-'] + (route + "-mcp-proxy")
  }

  /** The legacy name is the shared name for one namespace and route only, the one the
      cleanup excludes by comparison. */
  lemma LegacyNameClash(namespace: string, route: string)
    ensures LegacyName(namespace, route) == SHARED <==> namespace == "ai" && route == "eg"
  {
    var n := LegacyName(namespace, route);
    assert LegacyName("ai", "eg") == SHARED;
    if n == SHARED {
      assert |namespace| + |route| == 4;
      assert n[|namespace|] == '-';
      assert SHARED[|namespace|] == '-' && |namespace| <= 4;
      assert SHARED == "ai" + "-" + "eg" + "-mcp-proxy";
      assert |namespace| == 2;
      assert namespace == n[..2] && SHARED[..2] == "ai";
      assert route == n[3..5] && SHARED[3..5] == "eg";
    }
  }

  // ------------------------------------------------------------------------ steps

  predicate OtherLive(s: State, name: string) {
    exists r :: r in s.routes && r != name && !s.routes[r].deleting
  }

  predicate Managed(s: State) {
    SHARED in s.backends && s.backends[SHARED].managed
  }

  /** ensureMCPProxyBackend. */
  function Ensured(s: State): State {
    if SHARED in s.backends then s else s.(backends := s.backends[SHARED := Backend(true, None)])
  }

  /** deleteOldMCPRouteBackend: only a Backend that this very route owns, never the shared one. */
  function WithoutLegacy(s: State, name: string, uid: nat): State {
    var legacy := LegacyName(s.namespace, name);
    if legacy != SHARED && legacy in s.backends && s.backends[legacy].owner == Some(uid)
    then s.(backends := s.backends - {legacy})
    else s
  }

  /** cleanupSharedMCPProxyBackend. */
  function Cleaned(s: State, name: string): State {
    if !OtherLive(s, name) && Managed(s) then s.(backends := s.backends - {SHARED}) else s
  }

  /** How one sync goes: adding the finalizer may fail silently, validation may reject the
      route, the shared Backend may not be ensured, the legacy cleanup may fail silently. */
  datatype Replies = Replies(finalizerOk: bool, valid: bool, getOk: bool, createOk: bool, legacyOk: bool)

  predicate Ensures(s: State, r: Replies) {
    r.valid && r.getOk && (SHARED in s.backends || r.createOk)
  }

  datatype Step =
    | CreateRoute(name: string, uid: nat)
    | DeleteRoute(name: string)                                        // vanishes at once without a finalizer
    | SyncRoute(name: string, replies: Replies)                        // reconcile of a live route
    | FinalizeRoute(name: string, cleanupOk: bool, updateOk: bool)     // reconcile of a deleting route
    | UserAddsBackend(backend: string, b: Backend)
    | UserRemovesBackend(backend: string)

  predicate Enabled(s: State, a: Step) {
    match a
    case CreateRoute(name, _) => name !in s.routes
    case DeleteRoute(name) => name in s.routes && !s.routes[name].deleting
    case SyncRoute(name, _) => name in s.routes && !s.routes[name].deleting
    case FinalizeRoute(name, _, _) => name in s.routes && s.routes[name].deleting && s.routes[name].finalizer
    case UserAddsBackend(backend, b) => backend !in s.backends && !b.managed
    case UserRemovesBackend(_) => true
  }

  function Next(s: State, a: Step): State
    requires Enabled(s, a)
  {
    match a
    case CreateRoute(name, uid) =>
      s.(routes := s.routes[name := McpRoute(uid, false, false)], synced := s.synced - {name})
    case DeleteRoute(name) =>
      if s.routes[name].finalizer then s.(routes := s.routes[name := s.routes[name].(deleting := true)])
      else s.(routes := s.routes - {name})
    case SyncRoute(name, r) =>
      var t := if r.finalizerOk then s.(routes := s.routes[name := s.routes[name].(finalizer := true)]) else s;
      if !Ensures(t, r) then t
      else
        var u := Ensured(t).(synced := t.synced + {name});
        if r.legacyOk then WithoutLegacy(u, name, s.routes[name].uid) else u
    case FinalizeRoute(name, cleanupOk, updateOk) =>
      var t := if cleanupOk then Cleaned(s, name) else s;
      if updateOk then t.(routes := t.routes - {name}) else t
    case UserAddsBackend(backend, b) => s.(backends := s.backends[backend := b])
    case UserRemovesBackend(backend) =>
      s.(backends := s.backends - {backend}, synced := if backend == SHARED then {} else s.synced)
  }

  predicate Controller(a: Step) {
    a.SyncRoute? || a.FinalizeRoute?
  }

  /** What a sync leaves, field by field: the finalizer unless its update failed; the shared
      Backend, a managed one if the sync had to make it, unless the route is invalid or a
      call failed; and then no legacy Backend of this route, unless that call failed. */
  lemma SyncOutcome(s: State, a: Step)
    requires Enabled(s, a) && a.SyncRoute?
    ensures var t, r, legacy := Next(s, a), a.replies, s.namespace + "-" + a.name + "-mcp-proxy";
            var ensured := r.valid && r.getOk && (r.createOk || SHARED in s.backends);
            var dropped := ensured && r.legacyOk && legacy != SHARED && legacy in s.backends
                           && s.backends[legacy].owner == Some(s.routes[a.name].uid);
            && t.routes == (if r.finalizerOk then s.routes[a.name := s.routes[a.name].(finalizer := true)]
                            else s.routes)
            && t.synced == (if ensured then s.synced + {a.name} else s.synced)
            && t.backends == (if ensured && SHARED !in s.backends then s.backends[SHARED := Backend(true, None)]
                              else s.backends) - (if dropped then {legacy} else {})
  {
    assert LegacyName(s.namespace, a.name) == s.namespace + "-" + a.name + "-mcp-proxy";
  }

  /** What the finalizer leaves: the shared Backend goes exactly if it is managed, the cleanup
      ran, and every other route is being deleted too; the route goes if its update did not
      fail; no other Backend changes. */
  lemma FinalizeOutcome(s: State, a: Step)
    requires Enabled(s, a) && a.FinalizeRoute?
    ensures var t := Next(s, a);
            var last := forall r :: r in s.routes && r != a.name ==> s.routes[r].deleting;
            && t.routes == (if a.updateOk then s.routes - {a.name} else s.routes)
            && t.backends == s.backends - (if a.cleanupOk && last && SHARED in s.backends && s.backends[SHARED].managed
                                           then {SHARED} else {})
            && t.synced == s.synced
  {}

  // ------------------------------------------------------------- what every step keeps

  /** The shared Backend exists whenever some synced route is live. */
  ghost predicate Served(s: State) {
    (exists r :: r in s.synced && r in s.routes && !s.routes[r].deleting) ==> SHARED in s.backends
  }

  lemma StepServed(s: State, a: Step)
    requires Served(s) && Enabled(s, a)
    ensures Served(Next(s, a))
  {
    var t := Next(s, a);
    if r :| r in t.synced && r in t.routes && !t.routes[r].deleting {
      if !a.SyncRoute? {
        assert r in s.synced && r in s.routes && !s.routes[r].deleting;
      }
      if a.FinalizeRoute? {
        assert OtherLive(s, a.name);
      }
    }
  }

  /** The controller never removes a Backend it did not make: an unmanaged shared one stays,
      and any other Backend goes only if the synced route owns it under its legacy name. */
  lemma StepSpares(s: State, a: Step, b: string)
    requires Enabled(s, a) && Controller(a) && b in s.backends && b !in Next(s, a).backends
    ensures if b == SHARED then a.FinalizeRoute? && s.backends[b].managed && !OtherLive(s, a.name)
            else
              && a.SyncRoute? && b == LegacyName(s.namespace, a.name)
              && s.backends[b].owner == Some(s.routes[a.name].uid)
  {}

  /** A managed shared Backend is held by some route. */
  predicate Held(s: State) {
    Managed(s) ==> s.routes != map[]
  }

  /** The two ways to leak it, both with the last route: it is deleted before any sync gave it
      the finalizer, while the Backend of an earlier route is still there; or its finalizer
      run could not clean up, an error that is only logged. */
  predicate Leaks(s: State, a: Step) {
    && Managed(s)
    && match a
       case DeleteRoute(name) => s.routes.Keys == {name} && !s.routes[name].finalizer
       case FinalizeRoute(name, cleanupOk, updateOk) => s.routes.Keys == {name} && updateOk && !cleanupOk
       case _ => false
  }

  /** Every step, whatever fails, orphans the managed Backend exactly if it leaks it. */
  lemma StepHeldIff(s: State, a: Step)
    requires Held(s) && Enabled(s, a)
    ensures Held(Next(s, a)) <==> !Leaks(s, a)
  {
    var t := Next(s, a);
    match a
    case DeleteRoute(name) =>
      if !s.routes[name].finalizer {
        assert t.routes.Keys == s.routes.Keys - {name};
        assert t.routes == map[] <==> t.routes.Keys == {};
        assert s.routes.Keys == {name} <==> s.routes.Keys - {name} == {};
      } else {
        assert name in t.routes;
      }
    case FinalizeRoute(name, _, updateOk) =>
      if updateOk {
        assert t.routes.Keys == s.routes.Keys - {name};
        assert t.routes == map[] <==> t.routes.Keys == {};
        assert s.routes.Keys == {name} <==> s.routes.Keys - {name} == {};
      } else {
        assert name in t.routes;
      }
      if r :| r in s.routes && r != name && !s.routes[r].deleting {
        assert r in s.routes.Keys;
      }
    case CreateRoute(name, _) => assert name in t.routes;
    case SyncRoute(name, _) => assert name in t.routes;
    case UserAddsBackend(_, _) =>
    case UserRemovesBackend(_) =>
  }

  // ------------------------------------------------------------------- whole runs

  ghost predicate IsRun(trace: seq<State>, steps: seq<Step>) {
    && |trace| == |steps| + 1
    && forall i :: 0 <= i < |steps| ==> Enabled(trace[i], steps[i]) && trace[i + 1] == Next(trace[i], steps[i])
  }

  /** In every run of syncs and deletions of any number of routes, failing or not, the
      Backend is there whenever some synced route is live. */
  lemma {:induction false} SharedBackendServes(trace: seq<State>, steps: seq<Step>, n: nat)
    requires IsRun(trace, steps) && n < |trace| && Served(trace[0])
    ensures Served(trace[n])
  {
    if n > 0 {
      SharedBackendServes(trace, steps, n - 1);
      assert Enabled(trace[n - 1], steps[n - 1]);
      StepServed(trace[n - 1], steps[n - 1]);
    }
  }

  /** In every run, failing or not, as long as no step leaks it, a managed Backend is gone
      once the last route is; and a leaking step really leaves it behind. */
  lemma {:induction false} SharedBackendGoesLast(trace: seq<State>, steps: seq<Step>, n: nat)
    requires IsRun(trace, steps) && n < |trace| && Held(trace[0])
    requires forall i :: 0 <= i < n - 1 ==> !Leaks(trace[i], steps[i])
    ensures Held(trace[n]) <==> !(n > 0 && Leaks(trace[n - 1], steps[n - 1]))
    ensures trace[n].routes == map[] && !(n > 0 && Leaks(trace[n - 1], steps[n - 1])) ==> !Managed(trace[n])
  {
    if n > 0 {
      SharedBackendGoesLast(trace, steps, n - 1);
      assert Enabled(trace[n - 1], steps[n - 1]);
      StepHeldIff(trace[n - 1], steps[n - 1]);
    }
  }

  /** Leaking does happen: r1 is synced, r2 created, r1 deleted and finalised, r2 deleted
      before its first sync. */
  lemma UnsyncedRouteLeaks(namespace: string, r1: string, r2: string)
    requires r1 != r2
    ensures var s0 := State(namespace, map[], map[], {});
            var s1 := Next(s0, CreateRoute(r1, 1));
            var s2 := Next(s1, SyncRoute(r1, Replies(true, true, true, true, true)));
            var s3 := Next(s2, CreateRoute(r2, 2));
            var s4 := Next(s3, DeleteRoute(r1));
            var s5 := Next(s4, FinalizeRoute(r1, true, true));
            var s6 := Next(s5, DeleteRoute(r2));
            s6.routes == map[] && Managed(s6)
  {
    var s0 := State(namespace, map[], map[], {});
    var s1 := Next(s0, CreateRoute(r1, 1));
    var s2 := Next(s1, SyncRoute(r1, Replies(true, true, true, true, true)));
    assert s2.backends == map[SHARED := Backend(true, None)];
    var s4 := Next(Next(s2, CreateRoute(r2, 2)), DeleteRoute(r1));
    assert r2 in s4.routes && !s4.routes[r2].deleting;
  }

  // ------------------------------------------------------------------- the code

  class McpBackends {
    var state: State

    constructor (s: State)
      ensures state == s
    {
      state := s;
    }

    /** `getOk` and `createOk` say whether the API calls succeed. */
    method EnsureMCPProxyBackend(getOk: bool, createOk: bool) returns (ok: bool)
      modifies this
      ensures ok <==> getOk && (SHARED in old(state).backends || createOk)
      ensures state == if ok then Ensured(old(state)) else old(state)
    {
      if !getOk {
        return false;
      }
      if SHARED !in state.backends {
        if !createOk {
          return false;
        }
        state := state.(backends := state.backends[SHARED := Backend(true, None)]);
      }
      return true;
    }

    method DeleteOldMCPRouteBackend(name: string, uid: nat, ok: bool)
      modifies this
      ensures state == if ok then WithoutLegacy(old(state), name, uid) else old(state)
    {
      var legacy := LegacyName(state.namespace, name);
      if legacy == SHARED {
        return;
      }
      if !ok || legacy !in state.backends {
        return;
      }
      if state.backends[legacy].owner != Some(uid) {
        return;
      }
      state := state.(backends := state.backends - {legacy});
    }

    method CleanupSharedMCPProxyBackend(name: string, ok: bool)
      modifies this
      ensures state == if ok then Cleaned(old(state), name) else old(state)
    {
      if !ok {
        return;
      }
      var rest := state.routes.Keys;
      while rest != {}
        invariant state == old(state) && rest <= state.routes.Keys
        invariant forall r :: r in state.routes && r !in rest ==> r == name || state.routes[r].deleting
      {
        var r :| r in rest;
        rest := rest - {r};
        if r != name && !state.routes[r].deleting {
          return;
        }
      }
      if SHARED !in state.backends || !state.backends[SHARED].managed {
        return;
      }
      state := state.(backends := state.backends - {SHARED});
    }

    /** handleFinalizer and the start of syncMCPRoute: one reconcile is one step. */
    method SyncMCPRoute(name: string, r: Replies, cleanupOk: bool, updateOk: bool) returns (ok: bool)
      requires name in state.routes
      modifies this
      ensures !old(state).routes[name].deleting ==>
                state == Next(old(state), SyncRoute(name, r)) && (ok <==> Ensures(old(state), r))
      ensures old(state).routes[name].deleting ==>
                && ok
                && state == if old(state).routes[name].finalizer
                            then Next(old(state), FinalizeRoute(name, cleanupOk, updateOk))
                            else old(state)
    {
      var route := state.routes[name];
      if route.deleting {
        if route.finalizer {
          CleanupSharedMCPProxyBackend(name, cleanupOk);
          if updateOk {
            state := state.(routes := state.routes - {name});
          }
        }
        return true;
      }
      if r.finalizerOk {
        state := state.(routes := state.routes[name := route.(finalizer := true)]);
      }
      if !r.valid {
        return false;
      }
      ok := EnsureMCPProxyBackend(r.getOk, r.createOk);
      if ok {
        state := state.(synced := state.synced + {name});
        DeleteOldMCPRouteBackend(name, route.uid, r.legacyOk);
      }
    }
  }
}
