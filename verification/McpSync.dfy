/** The per-backend resources of an MCPRoute: one HTTPRoute, one HTTPRouteFilter and,
    for credential injection, one Secret per backend reference, in the route's namespace. */
module McpSync {
  import opened Text
  import opened Wrappers

  const ROUTE_PREFIX := "ai-eg-mcp-br-"
  const FILTER_PREFIX := "ai-eg-mcp-brf-"
  const CRED_PREFIX := "ai-eg-mcp-cred-"

  datatype ApiKey = ApiKey(secretRef: Option<string>, literal: Option<string>, header: Option<string>,
                           queryParam: Option<string>, ifNotPresent: bool)
  datatype Ref = Ref(name: string, crossNamespace: bool, path: string, apiKey: Option<ApiKey>)

  datatype Credential = Credential(secret: string, header: Option<string>, overwrite: bool)
  datatype Filter = Filter(owner: string, credential: Option<Credential>)

  /** The generated rule: the backend it matches, its filter, an inline header, the path. */
  datatype HttpRoute = HttpRoute(owner: string, backend: string, filter: string, header: Option<(string, string)>,
                                 path: string)
  datatype Secret = Secret(owner: string, value: string)

  datatype Store = Store(routes: map<string, HttpRoute>, filters: map<string, Filter>, secrets: map<string, Secret>)

  // ------------------------------------------------------------------------ names

  function RouteName(route: string, backend: string): string {
    ROUTE_PREFIX + (route + ['-'] + backend)
  }

  function FilterName(route: string, backend: string): string {
    FILTER_PREFIX + (route + ['-'] + backend)
  }

  function CredName(route: string, backend: string): string {
    CRED_PREFIX + (route + ['-'] + backend)
  }

  /** The names that the orphan cleanup derives from an HTTPRoute's name. */
  function FilterNameOf(routeName: string): string {
    ReplaceFirst(routeName, ROUTE_PREFIX, FILTER_PREFIX)
  }

  function CredNameOf(routeName: string): string {
    CRED_PREFIX + TrimPrefix(routeName, ROUTE_PREFIX)
  }

  /** What cleanup derives from an orphaned route is what the sync created beside it. */
  lemma DerivedNames(route: string, backend: string)
    ensures FilterNameOf(RouteName(route, backend)) == FilterName(route, backend)
    ensures CredNameOf(RouteName(route, backend)) == CredName(route, backend)
  {
    var n, base := RouteName(route, backend), route + ['-'] + backend;
    assert HasPrefix(n, ROUTE_PREFIX) && n[|ROUTE_PREFIX|..] == base;
    assert n[0..] == n;
    assert Text.Index(n, ROUTE_PREFIX) == 0;
  }

  /** Within one route, different backends never share a name. */
  lemma NamesInjective(route: string, b: string, b': string)
    ensures RouteName(route, b) == RouteName(route, b') <==> b == b'
    ensures FilterName(route, b) == FilterName(route, b') <==> b == b'
    ensures CredName(route, b) == CredName(route, b') <==> b == b'
  {
    assert b == (route + ['-'] + b)[|route| + 1..] && b' == (route + ['-'] + b')[|route| + 1..];
    assert RouteName(route, b)[|ROUTE_PREFIX|..] == route + ['-'] + b &&
      RouteName(route, b')[|ROUTE_PREFIX|..] == route + ['-'] + b';
    assert FilterName(route, b)[|FILTER_PREFIX|..] == route + ['-'] + b &&
      FilterName(route, b')[|FILTER_PREFIX|..] == route + ['-'] + b';
    assert CredName(route, b)[|CRED_PREFIX|..] == route + ['-'] + b &&
      CredName(route, b')[|CRED_PREFIX|..] == route + ['-'] + b';
  }

  /** Across routes they can: route "a" with backend "b-c" and route "a-b" with backend "c". */
  lemma NamesClashAcrossRoutes()
    ensures RouteName("a", "b-c") == RouteName("a-b", "c")
  {
    assert "a" + ['-'] + "b-c" == "a-b" + ['-'] + "c";
  }

  // -------------------------------------------------------------- desired contents

  /** readAPIKey: the inline key, else the referenced Secret. */
  function KeyOf(k: ApiKey, lookup: string -> Option<string>): Option<string> {
    if k.literal.GetOr("") != "" then k.literal
    else if k.secretRef.Some? then lookup(k.secretRef.value)
    else None
  }

  /** The backend's key goes into a managed Secret and is injected by the filter. */
  predicate UsesCredential(r: Ref) {
    r.apiKey.Some?
    && var k := r.apiKey.value;
       k.queryParam.None? && !(k.literal.Some? && !k.ifNotPresent) && (k.secretRef.Some? || k.literal.Some?)
  }

  predicate NeedsKey(r: Ref) {
    r.apiKey.Some? && (r.apiKey.value.queryParam.Some? || UsesCredential(r))
  }

  /** Everything the sync of this backend has to read is there. */
  predicate Syncable(r: Ref, lookup: string -> Option<string>) {
    !r.crossNamespace && (NeedsKey(r) ==> KeyOf(r.apiKey.value, lookup).Some?)
  }

  function Bearer(header: Option<string>, key: string): string {
    if header.GetOr("Authorization") == "Authorization" then "Bearer " + key else key
  }

  function CredentialFor(route: string, r: Ref): Option<Credential> {
    if UsesCredential(r)
    then Some(Credential(CredName(route, r.name), r.apiKey.value.header, !r.apiKey.value.ifNotPresent))
    else None
  }

  function RouteFor(route: string, r: Ref, lookup: string -> Option<string>): HttpRoute
    requires Syncable(r, lookup)
  {
    var query := r.apiKey.Some? && r.apiKey.value.queryParam.Some?;
    var literal := r.apiKey.Some? && !query && r.apiKey.value.literal.Some? && !r.apiKey.value.ifNotPresent;
    HttpRoute(route, r.name, FilterName(route, r.name),
              if literal then
                var h := r.apiKey.value.header;
                Some((h.GetOr("Authorization"), Bearer(h, r.apiKey.value.literal.value)))
              else None,
              if query then r.path + "?" + r.apiKey.value.queryParam.value + "=" + KeyOf(r.apiKey.value, lookup).value
              else r.path)
  }

  // --------------------------------------------------------- one backend, step by step

  /** ensureCredentialSecret, when the backend uses one. */
  function WithSecret(s: Store, route: string, r: Ref, lookup: string -> Option<string>): Store
    requires Syncable(r, lookup)
  {
    if !UsesCredential(r) then s
    else
      var name, value := CredName(route, r.name), Bearer(r.apiKey.value.header, KeyOf(r.apiKey.value, lookup).value);
      s.(secrets := s.secrets[name := Secret(if name in s.secrets then s.secrets[name].owner else route, value)])
  }

  /** ensureMCPBackendRefHTTPFilter: a Secret the old filter used and the new one does not is deleted. */
  function WithFilter(s: Store, route: string, r: Ref): Store {
    var name, cred := FilterName(route, r.name), CredentialFor(route, r);
    if name !in s.filters then s.(filters := s.filters[name := Filter(route, cred)])
    else
      var prev := s.filters[name].credential;
      var stale := prev.Some? && (cred.None? || prev.value.secret != cred.value.secret);
      s.(filters := s.filters[name := s.filters[name].(credential := cred)],
         secrets := if stale then s.secrets - {prev.value.secret} else s.secrets)
  }

  function WithRoute(s: Store, route: string, r: Ref, lookup: string -> Option<string>): Store
    requires Syncable(r, lookup)
  {
    s.(routes := s.routes[RouteName(route, r.name) := RouteFor(route, r, lookup)])
  }

  function Applied(s: Store, route: string, r: Ref, lookup: string -> Option<string>): Store
    requires Syncable(r, lookup)
  {
    WithRoute(WithFilter(WithSecret(s, route, r, lookup), route, r), route, r, lookup)
  }

  predicate AllSyncable(refs: seq<Ref>, lookup: string -> Option<string>) {
    forall i :: 0 <= i < |refs| ==> Syncable(refs[i], lookup)
  }

  function AppliedAll(s: Store, route: string, refs: seq<Ref>, lookup: string -> Option<string>): Store
    requires AllSyncable(refs, lookup)
  {
    if refs == [] then s
    else Applied(AppliedAll(s, route, refs[..|refs| - 1], lookup), route, refs[|refs| - 1], lookup)
  }

  /** Names of the per-backend HTTPRoutes owned by this route. */
  function Owned(s: Store, route: string): set<string> {
    set n | n in s.routes && s.routes[n].owner == route && HasPrefix(n, ROUTE_PREFIX)
  }

  function Names(route: string, refs: seq<Ref>): set<string> {
    set i | 0 <= i < |refs| :: RouteName(route, refs[i].name)
  }

  /** deleteOrphanedPerBackendResources. */
  function WithoutOrphans(s: Store, orphans: set<string>): Store {
    Store(s.routes - orphans, s.filters - (set n | n in orphans :: FilterNameOf(n)),
          s.secrets - (set n | n in orphans :: CredNameOf(n)))
  }

  /** A completed sync: every backend applied, everything else that was owned removed. */
  function Synced(s: Store, route: string, refs: seq<Ref>, lookup: string -> Option<string>): Store
    requires AllSyncable(refs, lookup)
  {
    WithoutOrphans(AppliedAll(s, route, refs, lookup), Owned(s, route) - Names(route, refs))
  }

  // ----------------------------------------------------------------- the invariant

  /** No object of somebody else carries one of this route's names, and what is owned
      was created by this controller under such a name. */
  ghost predicate WellFormed(s: Store, route: string) {
    && (forall b :: RouteName(route, b) in s.routes ==> s.routes[RouteName(route, b)].owner == route)
    && (forall b :: FilterName(route, b) in s.filters ==>
          var f := s.filters[FilterName(route, b)];
          f.owner == route && (f.credential.Some? ==> f.credential.value.secret == CredName(route, b)))
    && (forall n :: n in s.routes && s.routes[n].owner == route && HasPrefix(n, "ai-eg-mcp-br-") ==>
          exists b :: n == RouteName(route, b))
  }

  predicate UniqueNames(refs: seq<Ref>) {
    forall i, j :: 0 <= i < j < |refs| ==> refs[i].name != refs[j].name
  }

  /** The position of a backend among the references, or their number. */
  function Find(refs: seq<Ref>, b: string): (i: nat)
    ensures i <= |refs|
    ensures i < |refs| ==> refs[i].name == b
    ensures forall j :: 0 <= j < i ==> refs[j].name != b
  {
    if refs == [] || refs[0].name == b then 0 else 1 + Find(refs[1..], b)
  }

  predicate Listed(refs: seq<Ref>, b: string) {
    Find(refs, b) < |refs|
  }

  // ------------------------------------------------- one backend name at a time

  /** Everything the store holds under the names of one backend. */
  datatype View = View(route: Option<HttpRoute>, filter: Option<Filter>, secret: Option<string>)

  const NOTHING := View(None, None, None)

  function ViewOf(s: Store, route: string, b: string): View {
    View(if RouteName(route, b) in s.routes then Some(s.routes[RouteName(route, b)]) else None,
         if FilterName(route, b) in s.filters then Some(s.filters[FilterName(route, b)]) else None,
         if CredName(route, b) in s.secrets then Some(s.secrets[CredName(route, b)].value) else None)
  }

  predicate Injects(v: View) {
    v.filter.Some? && v.filter.value.credential.Some?
  }

  function SecretFor(r: Ref, lookup: string -> Option<string>): Option<string>
    requires Syncable(r, lookup)
  {
    if UsesCredential(r) then Some(Bearer(r.apiKey.value.header, KeyOf(r.apiKey.value, lookup).value)) else None
  }

  /** What a reference asks for. */
  function Wanted(route: string, r: Ref, lookup: string -> Option<string>): View
    requires Syncable(r, lookup)
  {
    View(Some(RouteFor(route, r, lookup)), Some(Filter(route, CredentialFor(route, r))), SecretFor(r, lookup))
  }

  /** Applying a reference gives what it asks for, but an old Secret goes only if the old
      filter injected it. */
  function AppliedView(v: View, route: string, r: Ref, lookup: string -> Option<string>): View
    requires Syncable(r, lookup)
  {
    var w := Wanted(route, r, lookup);
    if UsesCredential(r) || Injects(v) then w else w.(secret := v.secret)
  }

  lemma AppliedWellFormed(s: Store, route: string, r: Ref, lookup: string -> Option<string>)
    requires WellFormed(s, route) && Syncable(r, lookup)
    ensures WellFormed(WithSecret(s, route, r, lookup), route)
    ensures WellFormed(WithFilter(WithSecret(s, route, r, lookup), route, r), route)
    ensures WellFormed(Applied(s, route, r, lookup), route)
  {
    forall b ensures RouteName(route, b) == RouteName(route, r.name) <==> b == r.name
             ensures FilterName(route, b) == FilterName(route, r.name) <==> b == r.name {
      NamesInjective(route, b, r.name);
    }
    var t := Applied(s, route, r, lookup);
    forall n | n in Owned(t, route) ensures exists b :: n == RouteName(route, b) {
      if n != RouteName(route, r.name) {
        assert n in Owned(s, route);
      }
    }
    assert Owned(WithFilter(WithSecret(s, route, r, lookup), route, r), route) == Owned(s, route);
    assert Owned(WithSecret(s, route, r, lookup), route) == Owned(s, route);
  }

  lemma AppliedAt(s: Store, route: string, r: Ref, lookup: string -> Option<string>, b: string)
    requires WellFormed(s, route) && Syncable(r, lookup)
    ensures ViewOf(Applied(s, route, r, lookup), route, b) ==
            if b == r.name then AppliedView(ViewOf(s, route, b), route, r, lookup) else ViewOf(s, route, b)
  {
    NamesInjective(route, b, r.name);
  }

  lemma {:induction false} AppliedAllWellFormed(s: Store, route: string, refs: seq<Ref>,
                                                lookup: string -> Option<string>)
    requires WellFormed(s, route) && AllSyncable(refs, lookup)
    ensures WellFormed(AppliedAll(s, route, refs, lookup), route)
  {
    if refs != [] {
      AppliedAllWellFormed(s, route, refs[..|refs| - 1], lookup);
      AppliedWellFormed(AppliedAll(s, route, refs[..|refs| - 1], lookup), route, refs[|refs| - 1], lookup);
    }
  }

  function AppliedIfListed(v: View, route: string, refs: seq<Ref>, lookup: string -> Option<string>, b: string): View
    requires AllSyncable(refs, lookup)
  {
    if Listed(refs, b) then AppliedView(v, route, refs[Find(refs, b)], lookup) else v
  }

  lemma ListedSnoc(v: View, route: string, init: seq<Ref>, r: Ref, lookup: string -> Option<string>, b: string)
    requires AllSyncable(init, lookup) && Syncable(r, lookup) && UniqueNames(init + [r])
    ensures AllSyncable(init + [r], lookup)
    ensures AppliedIfListed(v, route, init + [r], lookup, b) ==
            var u := AppliedIfListed(v, route, init, lookup, b);
            if b == r.name then AppliedView(u, route, r, lookup) else u
  {
    FindSnoc(init, r, b);
    assert (init + [r])[|init|] == r;
    assert forall i :: 0 <= i < |init| ==> (init + [r])[i] == init[i];
  }

  lemma {:induction false} AppliedAllAt(s: Store, route: string, refs: seq<Ref>, lookup: string -> Option<string>,
                                        b: string)
    requires WellFormed(s, route) && AllSyncable(refs, lookup) && UniqueNames(refs)
    ensures ViewOf(AppliedAll(s, route, refs, lookup), route, b) ==
            AppliedIfListed(ViewOf(s, route, b), route, refs, lookup, b)
  {
    if refs != [] {
      var init, r := refs[..|refs| - 1], refs[|refs| - 1];
      assert refs == init + [r];
      AppliedAllAt(s, route, init, lookup, b);
      AppliedAllWellFormed(s, route, init, lookup);
      AppliedAt(AppliedAll(s, route, init, lookup), route, r, lookup, b);
      ListedSnoc(ViewOf(s, route, b), route, init, r, lookup, b);
    }
  }

  lemma FindSnoc(init: seq<Ref>, r: Ref, b: string)
    requires UniqueNames(init + [r])
    ensures Find(init + [r], b) ==
            if Find(init, b) < |init| then Find(init, b) else if r.name == b then |init| else |init| + 1
    ensures r.name == b ==> Find(init, b) == |init|
  {
    var refs := init + [r];
    assert refs[|init|] == r;
    assert forall i :: 0 <= i < |init| ==> refs[i] == init[i];
  }

  /** The exact outcome of a completed sync from any well-formed store, backend by backend. */
  lemma SyncedExactly(s: Store, route: string, refs: seq<Ref>, lookup: string -> Option<string>, b: string)
    requires WellFormed(s, route) && AllSyncable(refs, lookup) && UniqueNames(refs)
    ensures ViewOf(Synced(s, route, refs, lookup), route, b) ==
            var v := ViewOf(s, route, b);
            if Listed(refs, b) then AppliedView(v, route, refs[Find(refs, b)], lookup)
            else if v.route.Some? then NOTHING
            else v
  {
    AppliedAllAt(s, route, refs, lookup, b);
    OrphanNames(s, route, refs, b);
  }

  lemma OrphanNames(s: Store, route: string, refs: seq<Ref>, b: string)
    requires WellFormed(s, route)
    ensures var orphans := Owned(s, route) - Names(route, refs);
            && (RouteName(route, b) in orphans <==> RouteName(route, b) in s.routes && !Listed(refs, b))
            && (FilterName(route, b) in (set n | n in orphans :: FilterNameOf(n)) <==> RouteName(route, b) in orphans)
            && (CredName(route, b) in (set n | n in orphans :: CredNameOf(n)) <==> RouteName(route, b) in orphans)
  {
    var orphans := Owned(s, route) - Names(route, refs);
    assert HasPrefix(RouteName(route, b), ROUTE_PREFIX);
    assert RouteName(route, b) in Names(route, refs) <==> Listed(refs, b) by {
      forall i | 0 <= i < |refs| ensures RouteName(route, b) == RouteName(route, refs[i].name) <==> refs[i].name == b {
        NamesInjective(route, b, refs[i].name);
      }
      if Listed(refs, b) {
        assert RouteName(route, refs[Find(refs, b)].name) in Names(route, refs);
      }
    }
    DerivedNames(route, b);
    forall n | n in orphans && (FilterNameOf(n) == FilterName(route, b) || CredNameOf(n) == CredName(route, b))
      ensures n == RouteName(route, b)
    {
      var b' :| n == RouteName(route, b');
      DerivedNames(route, b');
      NamesInjective(route, b, b');
    }
  }

  // ------------------------------------------------------------------- whole runs

  /** Per backend, the store holds exactly what the references ask for. */
  ghost predicate Exact(s: Store, route: string, refs: seq<Ref>, lookup: string -> Option<string>)
    requires AllSyncable(refs, lookup)
  {
    forall b :: ViewOf(s, route, b) == if Listed(refs, b) then Wanted(route, refs[Find(refs, b)], lookup) else NOTHING
  }

  /** Filters come with routes, and a Secret exists exactly for an injecting filter. */
  ghost predicate Paired(s: Store, route: string) {
    forall b :: PairedView(ViewOf(s, route, b))
  }

  predicate PairedView(v: View) {
    (v.filter.Some? <==> v.route.Some?) && (v.secret.Some? <==> Injects(v))
  }

  predicate Uninjected(v: View) {
    v.secret.Some? && !Injects(v)
  }

  /** What the sync cannot clean up at a backend name: unlisted, a filter or Secret whose
      HTTPRoute is missing; listed without injection, a Secret that no filter injects. */
  predicate Leftover(v: View, refs: seq<Ref>, b: string) {
    if Listed(refs, b) then Uninjected(v) && !UsesCredential(refs[Find(refs, b)])
    else v.route.None? && v != NOTHING
  }

  lemma SyncedWellFormed(s: Store, route: string, refs: seq<Ref>, lookup: string -> Option<string>)
    requires WellFormed(s, route) && AllSyncable(refs, lookup) && UniqueNames(refs)
    ensures WellFormed(Synced(s, route, refs, lookup), route)
  {
    AppliedAllWellFormed(s, route, refs, lookup);
    var u := AppliedAll(s, route, refs, lookup);
    assert Owned(Synced(s, route, refs, lookup), route) <= Owned(u, route);
  }

  /** A completed sync is exact precisely when the store held no leftover. */
  lemma SyncIsExactIff(s: Store, route: string, refs: seq<Ref>, lookup: string -> Option<string>)
    requires WellFormed(s, route) && AllSyncable(refs, lookup) && UniqueNames(refs)
    ensures Exact(Synced(s, route, refs, lookup), route, refs, lookup) <==>
            forall b :: !Leftover(ViewOf(s, route, b), refs, b)
  {
    var t := Synced(s, route, refs, lookup);
    forall b
      ensures (ViewOf(t, route, b) == if Listed(refs, b) then Wanted(route, refs[Find(refs, b)], lookup) else NOTHING)
              <==> !Leftover(ViewOf(s, route, b), refs, b)
    {
      SyncedExactly(s, route, refs, lookup, b);
    }
  }

  datatype Sync = Sync(refs: seq<Ref>, lookup: string -> Option<string>)

  predicate ValidSync(x: Sync) {
    AllSyncable(x.refs, x.lookup) && UniqueNames(x.refs)
  }

  function SyncedAll(s: Store, route: string, syncs: seq<Sync>): Store
    requires forall k :: 0 <= k < |syncs| ==> ValidSync(syncs[k])
  {
    if syncs == [] then s
    else
      var last := syncs[|syncs| - 1];
      assert ValidSync(last);
      Synced(SyncedAll(s, route, syncs[..|syncs| - 1]), route, last.refs, last.lookup)
  }

  lemma WantedIsPaired(route: string, r: Ref, lookup: string -> Option<string>)
    requires Syncable(r, lookup)
    ensures PairedView(Wanted(route, r, lookup))
  {}

  /** Over any run of completed syncs of one MCPRoute with arbitrary spec changes, from a
      store that holds nothing of it, the resources are exactly those of the current
      references: routes, filters, and a Secret just where the filter injects. */
  lemma {:induction false} RunsStayExact(s: Store, route: string, syncs: seq<Sync>)
    requires WellFormed(s, route) && Paired(s, route)
    requires forall k :: 0 <= k < |syncs| ==> ValidSync(syncs[k])
    ensures WellFormed(SyncedAll(s, route, syncs), route) && Paired(SyncedAll(s, route, syncs), route)
    ensures syncs != [] ==> Exact(SyncedAll(s, route, syncs), route, syncs[|syncs| - 1].refs, syncs[|syncs| - 1].lookup)
  {
    if syncs != [] {
      var init, x := syncs[..|syncs| - 1], syncs[|syncs| - 1];
      RunsStayExact(s, route, init);
      var u := SyncedAll(s, route, init);
      SyncedWellFormed(u, route, x.refs, x.lookup);
      forall b ensures !Leftover(ViewOf(u, route, b), x.refs, b) {
        assert PairedView(ViewOf(u, route, b));
      }
      SyncIsExactIff(u, route, x.refs, x.lookup);
      var t := Synced(u, route, x.refs, x.lookup);
      forall b ensures PairedView(ViewOf(t, route, b)) {
        if Listed(x.refs, b) {
          WantedIsPaired(route, x.refs[Find(x.refs, b)], x.lookup);
        }
      }
    }
  }

  /** A sync of a new backend that is cut off between the filter and the HTTPRoute leaves
      the filter, and the Secret if it injects one, behind. */
  lemma CutOffSyncLeavesFilter(s: Store, route: string, r: Ref, lookup: string -> Option<string>)
    requires WellFormed(s, route) && Syncable(r, lookup) && ViewOf(s, route, r.name) == NOTHING
    ensures var t := WithFilter(WithSecret(s, route, r, lookup), route, r);
            WellFormed(t, route) && ViewOf(t, route, r.name) == Wanted(route, r, lookup).(route := None)
  {
    AppliedWellFormed(s, route, r, lookup);
    AppliedAt(s, route, r, lookup, r.name);
  }

  /** No later completed sync without that backend ever removes such a leftover. */
  lemma {:induction false} InterruptedSyncLeaks(s: Store, route: string, syncs: seq<Sync>, b: string)
    requires WellFormed(s, route) && ViewOf(s, route, b).route.None? && ViewOf(s, route, b) != NOTHING
    requires forall k :: 0 <= k < |syncs| ==> ValidSync(syncs[k]) && !Listed(syncs[k].refs, b)
    ensures WellFormed(SyncedAll(s, route, syncs), route)
    ensures ViewOf(SyncedAll(s, route, syncs), route, b) == ViewOf(s, route, b)
  {
    if syncs != [] {
      var init, x := syncs[..|syncs| - 1], syncs[|syncs| - 1];
      InterruptedSyncLeaks(s, route, init, b);
      SyncedWellFormed(SyncedAll(s, route, init), route, x.refs, x.lookup);
      SyncedExactly(SyncedAll(s, route, init), route, x.refs, x.lookup, b);
    }
  }

  // ------------------------------------------------------ what a request ends up with

  /** The key that has to be used: the inline one unless it is missing or empty, else what the
      referenced Secret holds. An empty inline key counts if it is set as a header directly. */
  predicate Reads(k: ApiKey, lookup: string -> Option<string>, key: string) {
    match k.literal
    case Some(text) =>
      if text != "" || (k.queryParam.None? && !k.ifNotPresent) then key == text
      else k.secretRef.Some? && lookup(k.secretRef.value) == Some(key)
    case None => k.secretRef.Some? && lookup(k.secretRef.value) == Some(key)
  }

  /** What the stored objects make the proxy do to a request for a backend: the header set by
      the rule itself, or the credential injected by the filter that the rule refers to, with
      the value in the Secret that the filter refers to, and whether it replaces one. */
  function Delivered(s: Store, route: string, b: string): Option<(string, string, bool)> {
    if RouteName(route, b) !in s.routes then None
    else
      var rule := s.routes[RouteName(route, b)];
      if rule.header.Some? then Some((rule.header.value.0, rule.header.value.1, true))
      else if rule.filter in s.filters && s.filters[rule.filter].credential.Some? then
        var c := s.filters[rule.filter].credential.value;
        if c.secret in s.secrets then Some((c.header.GetOr("Authorization"), s.secrets[c.secret].value, c.overwrite))
        else None
      else None
  }

  /** The backend that the rule matches and the path it rewrites to. */
  function Rule(s: Store, route: string, b: string): Option<(string, string)> {
    if RouteName(route, b) !in s.routes then None
    else Some((s.routes[RouteName(route, b)].backend, s.routes[RouteName(route, b)].path))
  }

  /** After a completed sync, from any store, a header key reaches the backend: as a bearer
      token in Authorization unless another header is named, the bare key there; and it
      replaces what the client sent unless the policy says otherwise. Whether it goes through
      the rule or through a Secret does not show. */
  lemma HeaderKeyIsDelivered(s: Store, route: string, refs: seq<Ref>, lookup: string -> Option<string>, i: nat,
                             key: string)
    requires WellFormed(s, route) && AllSyncable(refs, lookup) && UniqueNames(refs) && i < |refs|
    requires refs[i].apiKey.Some? && refs[i].apiKey.value.queryParam.None? && Reads(refs[i].apiKey.value, lookup, key)
    ensures var t, r := Synced(s, route, refs, lookup), refs[i];
            var k := r.apiKey.value;
            && Rule(t, route, r.name) == Some((r.name, r.path))
            && Delivered(t, route, r.name) ==
               if k.header.Some? && k.header.value != "Authorization" then Some((k.header.value, key, !k.ifNotPresent))
               else Some(("Authorization", "Bearer " + key, !k.ifNotPresent))
  {
    ListedAt(refs, i);
    SyncedExactly(s, route, refs, lookup, refs[i].name);
  }

  /** A key for a query parameter is in the path, and no header is touched. */
  lemma QueryKeyIsDelivered(s: Store, route: string, refs: seq<Ref>, lookup: string -> Option<string>, i: nat,
                            key: string)
    requires WellFormed(s, route) && AllSyncable(refs, lookup) && UniqueNames(refs) && i < |refs|
    requires refs[i].apiKey.Some? && refs[i].apiKey.value.queryParam.Some? && Reads(refs[i].apiKey.value, lookup, key)
    ensures var t, r := Synced(s, route, refs, lookup), refs[i];
            && Rule(t, route, r.name) == Some((r.name, r.path + "?" + r.apiKey.value.queryParam.value + "=" + key))
            && Delivered(t, route, r.name).None?
  {
    ListedAt(refs, i);
    SyncedExactly(s, route, refs, lookup, refs[i].name);
  }

  predicate HasKey(k: ApiKey) {
    k.literal.Some? || k.secretRef.Some? || k.queryParam.Some?
  }

  /** Without a key, path and headers are left alone. */
  lemma NoKeyNothingDelivered(s: Store, route: string, refs: seq<Ref>, lookup: string -> Option<string>, i: nat)
    requires WellFormed(s, route) && AllSyncable(refs, lookup) && UniqueNames(refs) && i < |refs|
    requires refs[i].apiKey.Some? ==> !HasKey(refs[i].apiKey.value)
    ensures var t, r := Synced(s, route, refs, lookup), refs[i];
            Rule(t, route, r.name) == Some((r.name, r.path)) && Delivered(t, route, r.name).None?
  {
    ListedAt(refs, i);
    SyncedExactly(s, route, refs, lookup, refs[i].name);
  }

  lemma ListedAt(refs: seq<Ref>, i: nat)
    requires UniqueNames(refs) && i < |refs|
    ensures Find(refs, refs[i].name) == i
  {}

  /** A backend can be synced exactly if it is in the route's namespace and, where a key is
      given, inline or by reference, it can be read. */
  lemma SyncableIff(r: Ref, lookup: string -> Option<string>)
    requires r.apiKey.Some? ==> var k := r.apiKey.value; k.literal.Some? || k.secretRef.Some?
    ensures Syncable(r, lookup) <==>
            !r.crossNamespace && (r.apiKey.Some? ==> exists key :: Reads(r.apiKey.value, lookup, key))
  {
    if r.apiKey.Some? {
      var k := r.apiKey.value;
      if KeyOf(k, lookup).Some? && !(k.literal == Some("") && k.queryParam.None? && !k.ifNotPresent) {
        assert Reads(k, lookup, KeyOf(k, lookup).value);
      }
      if k.literal.Some? && k.queryParam.None? && !k.ifNotPresent {
        assert Reads(k, lookup, k.literal.value);
      }
    }
  }

  // ----------------------------------------------------------- a sync that is cut off

  /** Where a sync stops: before the Secret, the stale Secret's deletion, the filter or the
      HTTPRoute of a backend is written; or with some orphans gone, before the first, the
      second or the third delete of another one. */
  datatype Cut = AtBackend(i: nat, stage: nat) | AtOrphan(gone: set<string>, name: string, stage: nat)

  function Staged(s: Store, route: string, r: Ref, lookup: string -> Option<string>, stage: nat): Store
    requires stage > 0 ==> Syncable(r, lookup)
  {
    if stage == 0 then s
    else if stage == 1 then WithSecret(s, route, r, lookup)
    else if stage == 2 then WithoutStale(WithSecret(s, route, r, lookup), route, r)
    else WithFilter(WithSecret(s, route, r, lookup), route, r)
  }

  /** The Secret that the old filter used and the new one does not is gone, the filter is old. */
  function WithoutStale(s: Store, route: string, r: Ref): Store {
    s.(secrets := WithFilter(s, route, r).secrets)
  }

  function PartlyGone(s: Store, name: string, stage: nat): Store {
    if stage == 0 then s
    else if stage == 1 then s.(routes := s.routes - {name})
    else s.(routes := s.routes - {name}, filters := s.filters - {FilterNameOf(name)})
  }

  predicate ValidCut(s: Store, route: string, refs: seq<Ref>, lookup: string -> Option<string>, cut: Cut) {
    match cut
    case AtBackend(i, stage) =>
      i < |refs| && stage <= 3 && AllSyncable(refs[..i], lookup) && (stage > 0 ==> Syncable(refs[i], lookup))
    case AtOrphan(gone, name, stage) =>
      var orphans := Owned(s, route) - Names(route, refs);
      AllSyncable(refs, lookup) && gone <= orphans && name in orphans - gone && stage <= 2
  }

  /** The store that is left. */
  function Stopped(s: Store, route: string, refs: seq<Ref>, lookup: string -> Option<string>, cut: Cut): Store
    requires ValidCut(s, route, refs, lookup, cut)
  {
    match cut
    case AtBackend(i, stage) => Staged(AppliedAll(s, route, refs[..i], lookup), route, refs[i], lookup, stage)
    case AtOrphan(gone, name, stage) =>
      PartlyGone(WithoutOrphans(AppliedAll(s, route, refs, lookup), gone), name, stage)
  }

  lemma StagedWellFormed(s: Store, route: string, r: Ref, lookup: string -> Option<string>, stage: nat)
    requires WellFormed(s, route) && (stage > 0 ==> Syncable(r, lookup))
    ensures WellFormed(Staged(s, route, r, lookup, stage), route)
  {
    if stage > 0 {
      AppliedWellFormed(s, route, r, lookup);
      var u := WithSecret(s, route, r, lookup);
      assert Owned(WithoutStale(u, route, r), route) == Owned(u, route);
    }
  }

  /** Deleting things keeps a store well formed. */
  lemma FewerWellFormed(t: Store, u: Store, route: string)
    requires WellFormed(t, route)
    requires forall n :: n in u.routes ==> n in t.routes && u.routes[n] == t.routes[n]
    requires forall n :: n in u.filters ==> n in t.filters && u.filters[n] == t.filters[n]
    ensures WellFormed(u, route)
  {
    assert Owned(u, route) <= Owned(t, route);
  }

  lemma StoppedWellFormed(s: Store, route: string, refs: seq<Ref>, lookup: string -> Option<string>, cut: Cut)
    requires WellFormed(s, route) && ValidCut(s, route, refs, lookup, cut)
    ensures WellFormed(Stopped(s, route, refs, lookup, cut), route)
  {
    match cut
    case AtBackend(i, stage) =>
      AppliedAllWellFormed(s, route, refs[..i], lookup);
      StagedWellFormed(AppliedAll(s, route, refs[..i], lookup), route, refs[i], lookup, stage);
    case AtOrphan(_, _, _) =>
      AppliedAllWellFormed(s, route, refs, lookup);
      FewerWellFormed(AppliedAll(s, route, refs, lookup), Stopped(s, route, refs, lookup, cut), route);
  }

  ghost predicate OwnNames(route: string, names: set<string>) {
    forall n :: n in names ==> exists b :: n == RouteName(route, b)
  }

  lemma WithoutAt(u: Store, route: string, gone: set<string>, b: string)
    requires OwnNames(route, gone)
    ensures ViewOf(WithoutOrphans(u, gone), route, b) ==
            if RouteName(route, b) in gone then NOTHING else ViewOf(u, route, b)
  {
    DerivedNames(route, b);
    forall n | n in gone ensures n == RouteName(route, b) <==> FilterNameOf(n) == FilterName(route, b)
                         ensures n == RouteName(route, b) <==> CredNameOf(n) == CredName(route, b) {
      var b' :| n == RouteName(route, b');
      DerivedNames(route, b');
      NamesInjective(route, b, b');
    }
    assert FilterName(route, b) in (set n | n in gone :: FilterNameOf(n)) <==> RouteName(route, b) in gone;
    assert CredName(route, b) in (set n | n in gone :: CredNameOf(n)) <==> RouteName(route, b) in gone;
  }

  function PartlyGoneView(v: View, stage: nat): View {
    if stage == 0 then v else if stage == 1 then v.(route := None) else v.(route := None, filter := None)
  }

  lemma PartlyGoneAt(u: Store, route: string, x: string, stage: nat, b: string)
    requires stage <= 2
    ensures ViewOf(PartlyGone(u, RouteName(route, x), stage), route, b) ==
            if b == x then PartlyGoneView(ViewOf(u, route, b), stage) else ViewOf(u, route, b)
  {
    DerivedNames(route, x);
    NamesInjective(route, b, x);
  }

  lemma SecretAt(s: Store, route: string, r: Ref, lookup: string -> Option<string>, b: string)
    requires Syncable(r, lookup)
    ensures var v, t := ViewOf(s, route, b), ViewOf(WithSecret(s, route, r, lookup), route, b);
            t.route == v.route && t.filter == v.filter && (b != r.name || !UsesCredential(r) ==> t == v)
  {
    NamesInjective(route, b, r.name);
  }

  lemma StaleAt(s: Store, route: string, r: Ref, b: string)
    requires WellFormed(s, route)
    ensures var v, t := ViewOf(s, route, b), ViewOf(WithFilter(s, route, r), route, b);
            && t.route == v.route && (b != r.name ==> t == v)
            && (b == r.name && !UsesCredential(r) ==> t.secret == if Injects(v) then None else v.secret)
            && (b == r.name ==> Injects(t) == UsesCredential(r))
  {
    NamesInjective(route, b, r.name);
  }

  lemma WithoutStaleAt(s: Store, route: string, r: Ref, b: string)
    ensures var v, t := ViewOf(s, route, b), ViewOf(WithoutStale(s, route, r), route, b);
            t == v.(secret := ViewOf(WithFilter(s, route, r), route, b).secret)
  {}

  lemma StagedAt(s: Store, route: string, r: Ref, lookup: string -> Option<string>, stage: nat, b: string)
    requires WellFormed(s, route) && stage <= 3 && (stage > 0 ==> Syncable(r, lookup))
    ensures var v, t := ViewOf(s, route, b), ViewOf(Staged(s, route, r, lookup, stage), route, b);
            if b != r.name then t == v
            else
              && t.route == v.route
              && (!UsesCredential(r) ==> (Uninjected(t) <==> Uninjected(v)))
  {
    if stage > 0 {
      SecretAt(s, route, r, lookup, b);
      AppliedWellFormed(s, route, r, lookup);
      StaleAt(WithSecret(s, route, r, lookup), route, r, b);
      WithoutStaleAt(WithSecret(s, route, r, lookup), route, r, b);
    }
  }

  /** A cut in the backend loop neither makes nor clears a leftover. */
  lemma BackendCutHeals(s: Store, route: string, refs: seq<Ref>, lookup: string -> Option<string>, cut: Cut, b: string)
    requires WellFormed(s, route) && UniqueNames(refs) && cut.AtBackend? && ValidCut(s, route, refs, lookup, cut)
    ensures Leftover(ViewOf(Stopped(s, route, refs, lookup, cut), route, b), refs, b) <==>
            Leftover(ViewOf(s, route, b), refs, b)
  {
    var init, r := refs[..cut.i], refs[cut.i];
    var t := AppliedAll(s, route, init, lookup);
    AppliedAllWellFormed(s, route, init, lookup);
    AppliedAllAt(s, route, init, lookup, b);
    StagedAt(t, route, r, lookup, cut.stage, b);
    assert forall k :: 0 <= k < |init| ==> init[k] == refs[k];
    if Listed(init, b) {
      assert Find(init, b) == Find(refs, b);
    }
    if b == r.name {
      assert refs[Find(refs, b)] == r;
      assert !Listed(init, b);
    }
  }

  /** The cut falls between the deletes of an orphan that still has something to delete. */
  predicate Tears(s: Store, cut: Cut) {
    && cut.AtOrphan? && cut.stage > 0
    && (CredNameOf(cut.name) in s.secrets || (cut.stage == 1 && FilterNameOf(cut.name) in s.filters))
  }

  /** A cut among the orphans leaves a leftover exactly if it tears one apart. */
  lemma OrphanCutLeaves(s: Store, route: string, refs: seq<Ref>, lookup: string -> Option<string>, cut: Cut, x: string,
                        b: string)
    requires WellFormed(s, route) && UniqueNames(refs) && cut.AtOrphan? && ValidCut(s, route, refs, lookup, cut)
    requires cut.name == RouteName(route, x)
    ensures Leftover(ViewOf(Stopped(s, route, refs, lookup, cut), route, b), refs, b) <==>
            Leftover(ViewOf(s, route, b), refs, b) || (b == x && Tears(s, cut))
  {
    var u := AppliedAll(s, route, refs, lookup);
    AppliedAllAt(s, route, refs, lookup, b);
    assert OwnNames(route, cut.gone);
    WithoutAt(u, route, cut.gone, b);
    PartlyGoneAt(WithoutOrphans(u, cut.gone), route, x, cut.stage, b);
    OrphanNames(s, route, refs, b);
    OrphanNames(s, route, refs, x);
    NamesInjective(route, b, x);
    DerivedNames(route, x);
  }

  ghost predicate Clean(s: Store, route: string, refs: seq<Ref>) {
    forall b :: !Leftover(ViewOf(s, route, b), refs, b)
  }

  /** A cut sync leaves a clean store exactly if it met one and tore no orphan apart. */
  lemma CutStaysClean(s: Store, route: string, refs: seq<Ref>, lookup: string -> Option<string>, cut: Cut)
    requires WellFormed(s, route) && UniqueNames(refs) && ValidCut(s, route, refs, lookup, cut)
    ensures Clean(Stopped(s, route, refs, lookup, cut), route, refs) <==> Clean(s, route, refs) && !Tears(s, cut)
  {
    var t := Stopped(s, route, refs, lookup, cut);
    if cut.AtBackend? {
      forall b ensures Leftover(ViewOf(t, route, b), refs, b) <==> Leftover(ViewOf(s, route, b), refs, b) {
        BackendCutHeals(s, route, refs, lookup, cut, b);
      }
    } else {
      var x :| cut.name == RouteName(route, x);
      forall b ensures Leftover(ViewOf(t, route, b), refs, b) <==>
                       Leftover(ViewOf(s, route, b), refs, b) || (b == x && Tears(s, cut)) {
        OrphanCutLeaves(s, route, refs, lookup, cut, x, b);
      }
      assert Tears(s, cut) ==> Leftover(ViewOf(t, route, x), refs, x);
    }
  }

  /** A sync that was cut off: what its lookups of keys found, and where it stopped. */
  datatype Attempt = Attempt(lookup: string -> Option<string>, cut: Cut)

  /** The store before each attempt and after the last one. */
  ghost predicate IsRetried(trace: seq<Store>, route: string, refs: seq<Ref>, attempts: seq<Attempt>) {
    && |trace| == |attempts| + 1
    && forall k :: 0 <= k < |attempts| ==>
         && ValidCut(trace[k], route, refs, attempts[k].lookup, attempts[k].cut)
         && trace[k + 1] == Stopped(trace[k], route, refs, attempts[k].lookup, attempts[k].cut)
  }

  lemma RetryStaysClean(s: Store, t: Store, route: string, refs: seq<Ref>, x: Attempt)
    requires WellFormed(s, route) && UniqueNames(refs) && ValidCut(s, route, refs, x.lookup, x.cut)
    requires t == Stopped(s, route, refs, x.lookup, x.cut)
    ensures WellFormed(t, route)
    ensures Clean(t, route, refs) <==> Clean(s, route, refs) && !Tears(s, x.cut)
  {
    StoppedWellFormed(s, route, refs, x.lookup, x.cut);
    CutStaysClean(s, route, refs, x.lookup, x.cut);
  }

  lemma {:induction false} RetriesWellFormed(trace: seq<Store>, route: string, refs: seq<Ref>, attempts: seq<Attempt>,
                                             n: nat)
    requires IsRetried(trace, route, refs, attempts) && n <= |attempts|
    requires WellFormed(trace[0], route) && UniqueNames(refs)
    ensures WellFormed(trace[n], route)
  {
    if n > 0 {
      RetriesWellFormed(trace, route, refs, attempts, n - 1);
      RetryStaysClean(trace[n - 1], trace[n], route, refs, attempts[n - 1]);
    }
  }

  /** A flag that is kept exactly by the good steps is up at the end if it was at first and
      every step was good. */
  lemma {:induction false} KeptByGoodSteps(flags: seq<bool>, good: seq<bool>, n: nat)
    requires |flags| == |good| + 1 && n <= |good|
    requires forall k :: 0 <= k < |good| ==> flags[k + 1] == (flags[k] && good[k])
    ensures flags[n] <==> flags[0] && forall k :: 0 <= k < n ==> good[k]
  {
    if n > 0 {
      KeptByGoodSteps(flags, good, n - 1);
      assert flags[n - 1 + 1] == (flags[n - 1] && good[n - 1]);
    }
  }

  lemma RetriesStayClean(trace: seq<Store>, route: string, refs: seq<Ref>, attempts: seq<Attempt>)
    requires IsRetried(trace, route, refs, attempts) && WellFormed(trace[0], route) && UniqueNames(refs)
    ensures Clean(trace[|attempts|], route, refs) <==>
            Clean(trace[0], route, refs) && forall k :: 0 <= k < |attempts| ==> !Tears(trace[k], attempts[k].cut)
  {
    var flags := seq(|trace|, k requires 0 <= k < |trace| => Clean(trace[k], route, refs));
    var good := seq(|attempts|, k requires 0 <= k < |attempts| => !Tears(trace[k], attempts[k].cut));
    forall k | 0 <= k < |good| ensures flags[k + 1] == (flags[k] && good[k]) {
      RetriesWellFormed(trace, route, refs, attempts, k);
      RetryStaysClean(trace[k], trace[k + 1], route, refs, attempts[k]);
    }
    KeptByGoodSteps(flags, good, |attempts|);
    assert forall k :: 0 <= k < |attempts| ==> good[k] == !Tears(trace[k], attempts[k].cut);
  }

  /** After any number of cut syncs of the same references, each cut anywhere, a completed one
      is exact if and only if the first store was clean and no cut tore an orphan apart. */
  lemma RetriesAreExactIff(trace: seq<Store>, route: string, refs: seq<Ref>, attempts: seq<Attempt>,
                           lookup: string -> Option<string>)
    requires IsRetried(trace, route, refs, attempts) && WellFormed(trace[0], route)
    requires AllSyncable(refs, lookup) && UniqueNames(refs)
    ensures Exact(Synced(trace[|attempts|], route, refs, lookup), route, refs, lookup) <==>
            Clean(trace[0], route, refs) && forall k :: 0 <= k < |attempts| ==> !Tears(trace[k], attempts[k].cut)
  {
    RetriesStayClean(trace, route, refs, attempts);
    RetriesWellFormed(trace, route, refs, attempts, |attempts|);
    SyncIsExactIff(trace[|attempts|], route, refs, lookup);
  }

  lemma PairedIsClean(s: Store, route: string, refs: seq<Ref>)
    requires Paired(s, route)
    ensures Clean(s, route, refs)
  {
    forall b ensures !Leftover(ViewOf(s, route, b), refs, b) {
      assert PairedView(ViewOf(s, route, b));
    }
  }

  /** From a store as completed syncs leave it, with one cut: a retry is exact exactly unless
      the cut fell after the first delete of an orphan, or after the second of one with a
      Secret. */
  lemma RetryIsExactIff(s: Store, route: string, refs: seq<Ref>, lookup: string -> Option<string>, cut: Cut)
    requires WellFormed(s, route) && Paired(s, route) && AllSyncable(refs, lookup) && UniqueNames(refs)
    requires ValidCut(s, route, refs, lookup, cut)
    ensures Exact(Synced(Stopped(s, route, refs, lookup, cut), route, refs, lookup), route, refs, lookup) <==>
            !(cut.AtOrphan? && (cut.stage == 1 || (cut.stage == 2 && CredNameOf(cut.name) in s.secrets)))
  {
    PairedIsClean(s, route, refs);
    RetriesAreExactIff([s, Stopped(s, route, refs, lookup, cut)], route, refs, [Attempt(lookup, cut)], lookup);
    if cut.AtOrphan? {
      var x :| cut.name == RouteName(route, x);
      DerivedNames(route, x);
      assert PairedView(ViewOf(s, route, x));
    }
    assert [Attempt(lookup, cut)][0].cut == cut;
  }

  /** It happens: cut after the first delete of an orphan, a sync leaves the filter, and its
      repetition does not remove it. */
  lemma TornOrphanLeaks(s: Store, route: string, refs: seq<Ref>, lookup: string -> Option<string>, x: string)
    requires WellFormed(s, route) && Paired(s, route) && AllSyncable(refs, lookup) && UniqueNames(refs)
    requires ViewOf(s, route, x).route.Some? && !Listed(refs, x)
    ensures var cut := AtOrphan({}, RouteName(route, x), 1);
            && ValidCut(s, route, refs, lookup, cut)
            && ViewOf(Synced(Stopped(s, route, refs, lookup, cut), route, refs, lookup), route, x).filter.Some?
  {
    var cut := AtOrphan({}, RouteName(route, x), 1);
    OrphanNames(s, route, refs, x);
    var t := Stopped(s, route, refs, lookup, cut);
    StoppedWellFormed(s, route, refs, lookup, cut);
    AppliedAllAt(s, route, refs, lookup, x);
    var u := AppliedAll(s, route, refs, lookup);
    assert OwnNames(route, {});
    WithoutAt(u, route, {}, x);
    PartlyGoneAt(WithoutOrphans(u, {}), route, x, 1, x);
    assert PairedView(ViewOf(s, route, x));
    SyncedExactly(t, route, refs, lookup, x);
  }

  // ------------------------------------------------------------- nobody else's things

  function At<V>(m: map<string, V>, n: string): Option<V> {
    if n in m then Some(m[n]) else None
  }

  ghost predicate Foreign(route: string, n: string) {
    forall b :: n != RouteName(route, b) && n != FilterName(route, b) && n != CredName(route, b)
  }

  predicate SameAt(s: Store, t: Store, n: string) {
    At(t.routes, n) == At(s.routes, n) && At(t.filters, n) == At(s.filters, n) && At(t.secrets, n) == At(s.secrets, n)
  }

  lemma AppliedFrame(s: Store, route: string, r: Ref, lookup: string -> Option<string>, n: string)
    requires WellFormed(s, route) && Syncable(r, lookup) && Foreign(route, n)
    ensures SameAt(s, Applied(s, route, r, lookup), n)
  {
    AppliedWellFormed(s, route, r, lookup);
    var u := WithSecret(s, route, r, lookup);
    assert SameAt(s, u, n);
    assert SameAt(u, WithFilter(u, route, r), n);
  }

  lemma {:induction false} AppliedAllFrame(s: Store, route: string, refs: seq<Ref>, lookup: string -> Option<string>,
                                           n: string)
    requires WellFormed(s, route) && AllSyncable(refs, lookup) && Foreign(route, n)
    ensures SameAt(s, AppliedAll(s, route, refs, lookup), n)
  {
    if refs != [] {
      var init, r := refs[..|refs| - 1], refs[|refs| - 1];
      AppliedAllFrame(s, route, init, lookup, n);
      AppliedAllWellFormed(s, route, init, lookup);
      AppliedFrame(AppliedAll(s, route, init, lookup), route, r, lookup, n);
    }
  }

  /** A completed sync touches no object outside this route's own names. */
  lemma SyncFrame(s: Store, route: string, refs: seq<Ref>, lookup: string -> Option<string>, n: string)
    requires WellFormed(s, route) && AllSyncable(refs, lookup) && Foreign(route, n)
    ensures SameAt(s, Synced(s, route, refs, lookup), n)
  {
    AppliedAllFrame(s, route, refs, lookup, n);
    var orphans := Owned(s, route) - Names(route, refs);
    forall m | m in orphans ensures m != n && FilterNameOf(m) != n && CredNameOf(m) != n {
      var b :| m == RouteName(route, b);
      DerivedNames(route, b);
    }
  }

  // ------------------------------------------------------------------- the code

  class McpRouteController {
    var store: Store
    var calls: nat   // API writes that still succeed

    constructor (s: Store, budget: nat)
      ensures store == s && calls == budget
    {
      store, calls := s, budget;
    }

    /** Spends one API write; false when it fails. */
    method Spend() returns (ok: bool)
      modifies this`calls
      ensures ok <==> old(calls) > 0
      ensures calls == if ok then old(calls) - 1 else 0
    {
      ok := calls > 0;
      if ok {
        calls := calls - 1;
      }
    }

    /** The listed owned per-backend routes, by name. */
    method ListExisting(route: string) returns (existing: set<string>)
      ensures existing == Owned(store, route)
    {
      existing := {};
      var rest := store.routes.Keys;
      while rest != {}
        invariant rest <= store.routes.Keys
        invariant existing == set n | n in Owned(store, route) && n !in rest
      {
        var n :| n in rest;
        rest := rest - {n};
        if store.routes[n].owner == route && HasPrefix(n, ROUTE_PREFIX) {
          existing := existing + {n};
        }
      }
    }

    method EnsureCredentialSecret(route: string, r: Ref, lookup: string -> Option<string>) returns (ok: bool)
      requires Syncable(r, lookup) && UsesCredential(r)
      modifies this
      ensures store == if ok then WithSecret(old(store), route, r, lookup) else old(store)
      ensures ok ==> CredName(route, r.name) in store.secrets
      ensures ok ==> forall key :: Reads(r.apiKey.value, lookup, key) ==>
                var header := r.apiKey.value.header;
                store.secrets[CredName(route, r.name)].value ==
                  if header == None || header == Some("Authorization") then "Bearer " + key else key
      ensures ok || calls == 0
    {
      var name := CredName(route, r.name);
      var value := Bearer(r.apiKey.value.header, KeyOf(r.apiKey.value, lookup).value);
      if name !in store.secrets {
        ok := Spend();
        if ok {
          store := store.(secrets := store.secrets[name := Secret(route, value)]);
        }
        return;
      }
      ok := true;
      if store.secrets[name].value != value {
        ok := Spend();
        if ok {
          store := store.(secrets := store.secrets[name := store.secrets[name].(value := value)]);
        }
      } else {
        assert store.secrets[name := store.secrets[name]] == store.secrets;
      }
    }

    method EnsureFilter(route: string, r: Ref) returns (ok: bool)
      modifies this
      ensures ok ==> store == WithFilter(old(store), route, r)
      ensures ok || store == old(store) || store == WithoutStale(old(store), route, r)
      ensures old(WellFormed(store, route)) ==> WellFormed(store, route)
      ensures ok || calls == 0
    {
      var name, cred := FilterName(route, r.name), CredentialFor(route, r);
      forall b ensures FilterName(route, b) == name <==> b == r.name {
        NamesInjective(route, b, r.name);
      }
      if name !in store.filters {
        ok := Spend();
        if ok {
          store := store.(filters := store.filters[name := Filter(route, cred)]);
          assert Owned(store, route) == Owned(old(store), route);
        }
        return;
      }
      var prev := store.filters[name].credential;
      if prev.Some? && (cred.None? || prev.value.secret != cred.value.secret) {
        ok := Spend();
        if !ok {
          return;
        }
        store := store.(secrets := store.secrets - {prev.value.secret});
        assert Owned(store, route) == Owned(old(store), route);
      }
      ok := Spend();
      if ok {
        store := store.(filters := store.filters[name := store.filters[name].(credential := cred)]);
        assert Owned(store, route) == Owned(old(store), route);
      }
    }

    /** The body of the backend loop of syncMCPRoute. */
    method SyncBackend(route: string, r: Ref, lookup: string -> Option<string>, existing: bool)
      returns (ok: bool, ghost stage: nat)
      requires WellFormed(store, route) && (existing <==> RouteName(route, r.name) in store.routes)
      modifies this
      ensures WellFormed(store, route)
      ensures ok ==> Syncable(r, lookup) && store == Applied(old(store), route, r, lookup)
      ensures !ok ==> stage <= 3 && (stage > 0 ==> Syncable(r, lookup))
      ensures !ok ==> store == Staged(old(store), route, r, lookup, stage)
      ensures ok || calls == 0 || !Syncable(r, lookup)
    {
      stage := 0;
      if r.crossNamespace {
        return false, 0;
      }
      if NeedsKey(r) && KeyOf(r.apiKey.value, lookup).None? {
        return false, 0;
      }
      AppliedWellFormed(store, route, r, lookup);
      if UsesCredential(r) {
        ok := EnsureCredentialSecret(route, r, lookup);
        if !ok {
          return;
        }
      }
      ghost var secured := store;
      ok := EnsureFilter(route, r);
      if !ok {
        stage := if store == secured then 1 else 2;
        return;
      }
      stage := 3;
      ok := Spend();
      if ok {
        store := store.(routes := store.routes[RouteName(route, r.name) := RouteFor(route, r, lookup)]);
      }
    }

    /** The backend loop of syncMCPRoute; `rest` are the owned routes it did not visit. */
    method SyncEach(route: string, refs: seq<Ref>, lookup: string -> Option<string>)
      returns (ok: bool, rest: set<string>, ghost cut: Cut)
      requires WellFormed(store, route) && UniqueNames(refs)
      modifies this
      ensures WellFormed(store, route)
      ensures ok ==> AllSyncable(refs, lookup) && store == AppliedAll(old(store), route, refs, lookup)
      ensures ok ==> rest == Owned(old(store), route) - Names(route, refs)
      ensures !ok ==> ValidCut(old(store), route, refs, lookup, cut)
      ensures !ok ==> store == Stopped(old(store), route, refs, lookup, cut)
      ensures ok || calls == 0 || !AllSyncable(refs, lookup)
    {
      cut := AtBackend(0, 0);
      ghost var s := store;
      rest := ListExisting(route);
      for i := 0 to |refs|
        invariant WellFormed(store, route) && Visited(s, store, route, refs[..i], lookup, rest)
      {
        ghost var stage;
        ok, rest, stage := SyncNext(route, refs, i, lookup, rest, s);
        if !ok {
          cut := AtBackend(i, stage);
          return;
        }
      }
      assert refs[..|refs|] == refs;
      ok := true;
    }

    /** The body of that loop, for the backend at `i`. */
    method SyncNext(route: string, refs: seq<Ref>, i: nat, lookup: string -> Option<string>, rest: set<string>,
                    ghost s: Store)
      returns (ok: bool, remaining: set<string>, ghost stage: nat)
      requires WellFormed(s, route) && WellFormed(store, route) && UniqueNames(refs) && i < |refs|
      requires Visited(s, store, route, refs[..i], lookup, rest)
      modifies this
      ensures WellFormed(store, route)
      ensures ok ==> Visited(s, store, route, refs[..i + 1], lookup, remaining)
      ensures !ok ==> stage <= 3 && (stage > 0 ==> Syncable(refs[i], lookup))
      ensures !ok ==> store == Staged(old(store), route, refs[i], lookup, stage)
      ensures ok || calls == 0 || !AllSyncable(refs, lookup)
    {
      var name := RouteName(route, refs[i].name);
      VisitedNext(s, store, route, refs, i, lookup, rest);
      ok, stage := SyncBackend(route, refs[i], lookup, name in rest);
      remaining := rest - {name};
    }

    /** The per-backend part of syncMCPRoute: a completed sync is `Synced`, and one that fails
        leaves the store of some cut. */
    method SyncPerBackend(route: string, refs: seq<Ref>, lookup: string -> Option<string>)
      returns (ok: bool, ghost cut: Cut)
      requires WellFormed(store, route) && UniqueNames(refs)
      modifies this
      ensures WellFormed(store, route)
      ensures ok ==> AllSyncable(refs, lookup) && store == Synced(old(store), route, refs, lookup)
      ensures !ok ==> ValidCut(old(store), route, refs, lookup, cut)
      ensures !ok ==> store == Stopped(old(store), route, refs, lookup, cut)
      ensures ok || calls == 0 || !AllSyncable(refs, lookup)
    {
      var orphans;
      ok, orphans, cut := SyncEach(route, refs, lookup);
      if ok {
        ghost var gone, name, stage;
        ok, gone, name, stage := DeleteOrphans(route, orphans);
        cut := AtOrphan(gone, name, stage);
      }
    }

    /** deleteOrphanedPerBackendResources: three deletes per orphan, in any order of orphans. */
    method DeleteOrphans(route: string, orphans: set<string>)
      returns (ok: bool, ghost gone: set<string>, ghost name: string, ghost stage: nat)
      requires WellFormed(store, route)
      modifies this
      ensures WellFormed(store, route)
      ensures ok ==> store == WithoutOrphans(old(store), orphans)
      ensures !ok ==> gone <= orphans && name in orphans - gone && stage <= 2
      ensures !ok ==> store == PartlyGone(WithoutOrphans(old(store), gone), name, stage)
      ensures ok || calls == 0
    {
      var rest := orphans;
      gone, name, stage := {}, "", 0;
      WithoutNone(store);
      while rest != {}
        invariant WellFormed(store, route)
        invariant gone == orphans - rest && rest <= orphans
        invariant store == WithoutOrphans(old(store), gone)
      {
        var next :| next in rest;
        name := next;
        ok, stage := DeleteOrphan(route, next);
        if !ok {
          return;
        }
        rest := rest - {next};
        WithoutOneMore(old(store), gone, next);
        gone := gone + {next};
      }
      ok := true;
    }

    method DeleteOrphan(route: string, name: string) returns (ok: bool, ghost stage: nat)
      requires WellFormed(store, route)
      modifies this
      ensures WellFormed(store, route)
      ensures ok ==> store == Store(old(store).routes - {name}, old(store).filters - {FilterNameOf(name)},
                                    old(store).secrets - {CredNameOf(name)})
      ensures !ok ==> stage <= 2 && store == PartlyGone(old(store), name, stage)
      ensures ok || calls == 0
    {
      stage := 0;
      ok := Spend();
      if !ok {
        return;
      }
      store := store.(routes := store.routes - {name});
      stage := 1;
      assert Owned(store, route) <= Owned(old(store), route);
      ok := Spend();
      if !ok {
        return;
      }
      stage := 2;
      store := store.(filters := store.filters - {FilterNameOf(name)});
      assert Owned(store, route) <= Owned(old(store), route);
      ok := Spend();
      if !ok {
        return;
      }
      store := store.(secrets := store.secrets - {CredNameOf(name)});
      assert Owned(store, route) <= Owned(old(store), route);
    }
  }

  /** `done` are applied, and `rest` are the owned routes among the others. */
  ghost predicate Visited(s: Store, t: Store, route: string, done: seq<Ref>, lookup: string -> Option<string>,
                          rest: set<string>) {
    && AllSyncable(done, lookup) && t == AppliedAll(s, route, done, lookup)
    && rest == Owned(s, route) - Names(route, done)
  }

  /** Before a backend, its HTTPRoute exists exactly if it is among the owned routes not
      yet visited; applying it extends what is visited. */
  lemma VisitedNext(s: Store, t: Store, route: string, refs: seq<Ref>, i: nat, lookup: string -> Option<string>,
                    rest: set<string>)
    requires WellFormed(s, route) && UniqueNames(refs) && i < |refs| && Visited(s, t, route, refs[..i], lookup, rest)
    ensures RouteName(route, refs[i].name) in rest <==> RouteName(route, refs[i].name) in t.routes
    ensures Syncable(refs[i], lookup) ==>
              Visited(s, Applied(t, route, refs[i], lookup), route, refs[..i + 1], lookup,
                      rest - {RouteName(route, refs[i].name)})
  {
    assert refs[..i + 1] == refs[..i] + [refs[i]];
    NotYetApplied(s, route, refs[..i], refs[i].name, lookup);
    if Syncable(refs[i], lookup) {
      AppliedSnoc(s, route, refs[..i], refs[i], lookup);
      NamesSnoc(route, refs[..i], refs[i]);
    }
  }

  lemma AppliedSnoc(s: Store, route: string, done: seq<Ref>, r: Ref, lookup: string -> Option<string>)
    requires AllSyncable(done, lookup) && Syncable(r, lookup)
    ensures AllSyncable(done + [r], lookup)
    ensures AppliedAll(s, route, done + [r], lookup) == Applied(AppliedAll(s, route, done, lookup), route, r, lookup)
  {
    assert (done + [r])[..|done|] == done;
  }

  lemma NamesSnoc(route: string, refs: seq<Ref>, r: Ref)
    ensures Names(route, refs + [r]) == Names(route, refs) + {RouteName(route, r.name)}
  {
    var all := refs + [r];
    assert all[|refs|] == r && forall k :: 0 <= k < |refs| ==> all[k] == refs[k];
  }

  lemma NotYetApplied(s: Store, route: string, done: seq<Ref>, b: string, lookup: string -> Option<string>)
    requires WellFormed(s, route) && UniqueNames(done) && AllSyncable(done, lookup)
    requires forall k :: 0 <= k < |done| ==> done[k].name != b
    ensures RouteName(route, b) in Owned(s, route) - Names(route, done) <==>
            RouteName(route, b) in AppliedAll(s, route, done, lookup).routes
  {
    AppliedAllAt(s, route, done, lookup, b);
    OrphanNames(s, route, done, b);
    assert !Listed(done, b);
    assert ViewOf(AppliedAll(s, route, done, lookup), route, b).route == ViewOf(s, route, b).route;
  }

  lemma WithoutNone(s: Store)
    ensures WithoutOrphans(s, {}) == s
  {
    assert s.routes - {} == s.routes;
  }

  lemma MinusMinus<V>(m: map<string, V>, keys: set<string>, k: string)
    ensures m - (keys + {k}) == (m - keys) - {k}
  {}

  lemma WithoutOneMore(s: Store, done: set<string>, name: string)
    ensures var t := WithoutOrphans(s, done);
            WithoutOrphans(s, done + {name}) ==
              Store(t.routes - {name}, t.filters - {FilterNameOf(name)}, t.secrets - {CredNameOf(name)})
  {
    var fs, cs := set n | n in done :: FilterNameOf(n), set n | n in done :: CredNameOf(n);
    assert (set n | n in done + {name} :: FilterNameOf(n)) == fs + {FilterNameOf(name)};
    assert (set n | n in done + {name} :: CredNameOf(n)) == cs + {CredNameOf(name)};
    MinusMinus(s.routes, done, name);
    MinusMinus(s.filters, fs, FilterNameOf(name));
    MinusMinus(s.secrets, cs, CredNameOf(name));
  }
}
