/** Tool and prompt names of an MCPRoute, end to end: the controller's admission check, the
    proxy's indexes, the names it advertises and the dispatch of a call by name. */
module McpPrefix {
  import opened Text
  import opened Wrappers

  const SEPARATOR := "__"

  datatype Mode = Always | Never
  datatype Kind = Tools | Prompts
  datatype Selector = Selector(includes: seq<string>, includeRegex: seq<string>, excludes: seq<string>,
                               excludeRegex: seq<string>)
  datatype BackendRef = BackendRef(name: string, mode: Option<Mode>, tools: Option<Selector>, prompts: Option<Selector>)
  datatype Route = Route(mode: Option<Mode>, refs: seq<BackendRef>)

  /** Whether a regular expression matches a name. */
  type Matcher = (string, string) -> bool

  function SelectorOf(ref: BackendRef, kind: Kind): Option<Selector> {
    if kind.Tools? then ref.tools else ref.prompts
  }

  /** `toolSelector.allows`: exclusion wins; exact names come before expressions. */
  predicate Allows(s: Selector, m: Matcher, name: string) {
    && name !in s.excludes
    && (forall i :: 0 <= i < |s.excludeRegex| ==> !m(s.excludeRegex[i], name))
    && (if s.includes != [] then name in s.includes
        else s.includeRegex == [] || exists i :: 0 <= i < |s.includeRegex| && m(s.includeRegex[i], name))
  }

  method AllowsName(s: Selector, m: Matcher, name: string) returns (ok: bool)
    ensures ok <==> Allows(s, m, name)
  {
    if name in s.excludes {
      return false;
    }
    for i := 0 to |s.excludeRegex|
      invariant forall k :: 0 <= k < i ==> !m(s.excludeRegex[k], name)
    {
      if m(s.excludeRegex[i], name) {
        return false;
      }
    }
    if |s.includes| > 0 {
      return name in s.includes;
    }
    if |s.includeRegex| > 0 {
      for i := 0 to |s.includeRegex|
        invariant forall k :: 0 <= k < i ==> !m(s.includeRegex[k], name)
      {
        if m(s.includeRegex[i], name) {
          return true;
        }
      }
      return false;
    }
    return true;
  }

  method SelectsName(ref: BackendRef, kind: Kind, m: Matcher, name: string) returns (ok: bool)
    ensures ok <==> Selected(ref, kind, m, name)
  {
    var s := if kind.Tools? then ref.tools else ref.prompts;
    if s.None? {
      return true;
    }
    ok := AllowsName(s.value, m, name);
  }

  predicate Selected(ref: BackendRef, kind: Kind, m: Matcher, name: string) {
    var s := SelectorOf(ref, kind);
    s.None? || Allows(s.value, m, name)
  }

  /** Required by the schema of the resource. */
  predicate UniqueNames(refs: seq<BackendRef>) {
    forall i, j :: 0 <= i < j < |refs| ==> refs[i].name != refs[j].name
  }

  // -------------------------------------------------------------------- admission

  predicate IsNever(route: Route, ref: BackendRef) {
    ref.mode.GetOr(route.mode.GetOr(Always)) == Never
  }

  /** The bare names a backend claims. */
  function Claims(route: Route, kind: Kind, ref: BackendRef): seq<string> {
    var s := SelectorOf(ref, kind);
    if IsNever(route, ref) && s.Some? then s.value.includes else []
  }

  function AllClaims(route: Route, kind: Kind, n: nat): seq<string>
    requires n <= |route.refs|
  {
    if n == 0 then [] else AllClaims(route, kind, n - 1) + Claims(route, kind, route.refs[n - 1])
  }

  predicate DupFree(s: seq<string>) {
    forall i, j :: 0 <= i < j < |s| ==> s[i] != s[j]
  }

  predicate Enumerates(route: Route, ref: BackendRef) {
    IsNever(route, ref) ==> ref.tools.Some? && ref.tools.value.includes != []
  }

  predicate AcceptsUpTo(route: Route, n: nat)
    requires n <= |route.refs|
  {
    && (forall i :: 0 <= i < n ==> Enumerates(route, route.refs[i]))
    && DupFree(AllClaims(route, Tools, n))
    && DupFree(AllClaims(route, Prompts, n))
  }

  predicate Accepts(route: Route) {
    AcceptsUpTo(route, |route.refs|)
  }

  datatype Verdict =
    | Accepted
    | NoInclude(backend: string)
    | Clash(kind: Kind, name: string, first: string, second: string)

  function Elements(s: seq<string>): set<string> {
    set x | x in s
  }

  function Tagged(names: set<string>, b: string): map<string, string> {
    map n | n in names :: b
  }

  lemma DupFreeConcat(s: seq<string>, t: seq<string>)
    ensures DupFree(s + t) <==> DupFree(s) && DupFree(t) && Elements(s) !! Elements(t)
  {
    var u := s + t;
    assert forall i :: 0 <= i < |s| ==> u[i] == s[i];
    assert forall i :: 0 <= i < |t| ==> u[|s| + i] == t[i];
    if DupFree(u) {
      forall i, j | 0 <= i < |s| && 0 <= j < |t| ensures s[i] != t[j] {
        assert u[i] != u[|s| + j];
      }
      forall i, j | 0 <= i < j < |t| ensures t[i] != t[j] {
        assert u[|s| + i] != u[|s| + j];
      }
    }
    if DupFree(s) && DupFree(t) && Elements(s) !! Elements(t) {
      forall i, j | 0 <= i < j < |u| ensures u[i] != u[j] {
        if i < |s| <= j {
          assert u[i] in Elements(s) && u[j] in Elements(t);
        } else if |s| <= i {
          assert t[i - |s|] != t[j - |s|];
        }
      }
    }
  }

  lemma {:induction false} DupFreePrefix(route: Route, kind: Kind, n: nat, m: nat)
    requires n <= m <= |route.refs| && DupFree(AllClaims(route, kind, m))
    ensures DupFree(AllClaims(route, kind, n))
    decreases m
  {
    if n < m {
      DupFreeConcat(AllClaims(route, kind, m - 1), Claims(route, kind, route.refs[m - 1]));
      DupFreePrefix(route, kind, n, m - 1);
    }
  }

  lemma AcceptsPrefix(route: Route, n: nat)
    requires n <= |route.refs| && Accepts(route)
    ensures AcceptsUpTo(route, n)
  {
    DupFreePrefix(route, Tools, n, |route.refs|);
    DupFreePrefix(route, Prompts, n, |route.refs|);
  }

  /** Every recorded name with the backend that claimed it first. */
  ghost predicate Recorded(seen: map<string, string>, route: Route, kind: Kind, n: nat)
    requires n <= |route.refs|
  {
    && seen.Keys == Elements(AllClaims(route, kind, n))
    && forall name :: name in seen ==> ClaimedBy(route, kind, n, name, seen[name])
  }

  ghost predicate ClaimedBy(route: Route, kind: Kind, n: nat, name: string, backend: string)
    requires n <= |route.refs|
  {
    exists i :: 0 <= i < n && route.refs[i].name == backend && name in Claims(route, kind, route.refs[i])
  }

  predicate Unclaimed(seen: set<string>, names: seq<string>) {
    DupFree(names) && seen !! Elements(names)
  }

  lemma UnclaimedNext(seen: set<string>, names: seq<string>, i: nat)
    requires i < |names| && Unclaimed(seen, names[..i])
    ensures Elements(names[..i + 1]) == Elements(names[..i]) + {names[i]}
    ensures Unclaimed(seen, names[..i + 1]) <==> names[i] !in seen + Elements(names[..i])
  {
    var init, x := names[..i], names[i];
    assert names[..i + 1] == init + [x];
    DupFreeConcat(init, [x]);
    assert Elements([x]) == {x};
  }

  lemma UnclaimedPrefix(seen: set<string>, names: seq<string>, i: nat)
    requires i <= |names| && Unclaimed(seen, names)
    ensures Unclaimed(seen, names[..i])
  {
    assert forall k :: 0 <= k < i ==> names[..i][k] == names[k];
    assert forall x :: x in Elements(names[..i]) ==> x in Elements(names);
  }

  lemma TaggedNext(seen: map<string, string>, names: set<string>, name: string, b: string)
    ensures (seen + Tagged(names, b))[name := b] == seen + Tagged(names + {name}, b)
    ensures (seen + Tagged(names, b)).Keys == seen.Keys + names
  {}

  /** The inner loop: claim every name for one backend, or stop at the first clash. */
  method Claim(seen: map<string, string>, names: seq<string>, backend: string)
    returns (all: map<string, string>, clash: Option<string>)
    ensures clash.None? <==> Unclaimed(seen.Keys, names)
    ensures clash.None? ==> all == seen + Tagged(Elements(names), backend)
    ensures clash.Some? ==> clash.value in names && clash.value in all
    ensures clash.Some? ==>
            all[clash.value] == backend || (clash.value in seen && all[clash.value] == seen[clash.value])
  {
    all := seen;
    for i := 0 to |names|
      invariant Unclaimed(seen.Keys, names[..i])
      invariant all == seen + Tagged(Elements(names[..i]), backend)
    {
      UnclaimedNext(seen.Keys, names, i);
      TaggedNext(seen, Elements(names[..i]), names[i], backend);
      if names[i] in all {
        if Unclaimed(seen.Keys, names) {
          UnclaimedPrefix(seen.Keys, names, i + 1);
        }
        return all, Some(names[i]);
      }
      all := all[names[i] := backend];
    }
    assert names[..|names|] == names;
    clash := None;
  }

  lemma RecordedNext(seen: map<string, string>, route: Route, kind: Kind, n: nat)
    requires n < |route.refs| && Recorded(seen, route, kind, n)
    ensures var names := Claims(route, kind, route.refs[n]);
            Recorded(seen + Tagged(Elements(names), route.refs[n].name), route, kind, n + 1)
  {
    var ref := route.refs[n];
    var names := Claims(route, kind, ref);
    var all := seen + Tagged(Elements(names), ref.name);
    assert all.Keys == Elements(AllClaims(route, kind, n + 1));
    forall name | name in all ensures ClaimedBy(route, kind, n + 1, name, all[name]) {
      if name in Elements(names) {
        assert route.refs[n].name == all[name];
      } else {
        assert ClaimedBy(route, kind, n, name, seen[name]);
      }
    }
  }

  /** Whether a rejection names a real fault. */
  ghost predicate Explains(route: Route, v: Verdict) {
    match v
    case Accepted => true
    case NoInclude(b) =>
      exists i :: 0 <= i < |route.refs| && route.refs[i].name == b && !Enumerates(route, route.refs[i])
    case Clash(kind, name, first, second) =>
      ClaimedBy(route, kind, |route.refs|, name, first) && ClaimedBy(route, kind, |route.refs|, name, second)
  }

  lemma NothingClaimed(route: Route, kind: Kind, i: nat)
    requires i < |route.refs| && Claims(route, kind, route.refs[i]) == []
    ensures AllClaims(route, kind, i + 1) == AllClaims(route, kind, i)
  {}

  /** Record the claims of the reference at `i`; a clash is between it and an earlier
      claimant, or within it. */
  method ClaimRef(route: Route, kind: Kind, i: nat, names: seq<string>, seen: map<string, string>)
    returns (all: map<string, string>, v: Verdict)
    requires i < |route.refs| && DupFree(AllClaims(route, kind, i)) && Recorded(seen, route, kind, i)
    requires names == Claims(route, kind, route.refs[i])
    ensures v.Accepted? <==> DupFree(AllClaims(route, kind, i + 1))
    ensures v.Accepted? ==> Recorded(all, route, kind, i + 1)
    ensures v.Accepted? || v.Clash?
    ensures Explains(route, v)
  {
    var b := route.refs[i].name;
    DupFreeConcat(AllClaims(route, kind, i), names);
    RecordedNext(seen, route, kind, i);
    var clash;
    all, clash := Claim(seen, names, b);
    if clash.None? {
      return all, Accepted;
    }
    var name := clash.value;
    v := Clash(kind, name, all[name], b);
    assert ClaimedBy(route, kind, i + 1, name, b);
    assert name in seen ==> ClaimedBy(route, kind, i, name, seen[name]);
  }

  /** The body of the loop, for the reference at `i`. */
  method ValidateRef(route: Route, i: nat, seenTools: map<string, string>, seenPrompts: map<string, string>)
    returns (v: Verdict, tools: map<string, string>, prompts: map<string, string>)
    requires i < |route.refs| && AcceptsUpTo(route, i)
    requires Recorded(seenTools, route, Tools, i) && Recorded(seenPrompts, route, Prompts, i)
    ensures v.Accepted? <==> AcceptsUpTo(route, i + 1)
    ensures v.Accepted? ==> Recorded(tools, route, Tools, i + 1) && Recorded(prompts, route, Prompts, i + 1)
    ensures Explains(route, v)
  {
    var ref := route.refs[i];
    tools, prompts, v := seenTools, seenPrompts, Accepted;
    if ref.mode.GetOr(route.mode.GetOr(Always)) != Never {
      NothingClaimed(route, Tools, i);
      NothingClaimed(route, Prompts, i);
      return;
    }
    if ref.tools.None? || ref.tools.value.includes == [] {
      return NoInclude(ref.name), tools, prompts;
    }
    tools, v := ClaimRef(route, Tools, i, ref.tools.value.includes, seenTools);
    if !v.Accepted? {
      return;
    }
    if ref.prompts.None? {
      NothingClaimed(route, Prompts, i);
      return;
    }
    prompts, v := ClaimRef(route, Prompts, i, ref.prompts.value.includes, seenPrompts);
  }

  /** validatePerBackendPrefixMode accepts exactly the routes whose Never backends enumerate
      their tools and claim no tool and no prompt twice; a clash names two real claimants. */
  method ValidatePerBackendPrefixMode(route: Route) returns (v: Verdict)
    ensures v.Accepted? <==> Accepts(route)
    ensures Explains(route, v)
  {
    var seenTools: map<string, string> := map[];
    var seenPrompts: map<string, string> := map[];
    for i := 0 to |route.refs|
      invariant AcceptsUpTo(route, i)
      invariant Recorded(seenTools, route, Tools, i) && Recorded(seenPrompts, route, Prompts, i)
    {
      v, seenTools, seenPrompts := ValidateRef(route, i, seenTools, seenPrompts);
      if !v.Accepted? {
        if Accepts(route) {
          AcceptsPrefix(route, i + 1);
        }
        return;
      }
    }
    v := Accepted;
  }

  // ------------------------------------------------------------- the proxy's config

  /** What the gateway controller writes and the proxy loads for one route; a missing mode
      is the empty string, and the route's mode is written only when it is Never. */
  datatype Proxy = Proxy(backends: map<string, BackendRef>, mode: Option<Mode>, index: map<string, string>)

  function BackendsOf(refs: seq<BackendRef>): map<string, BackendRef> {
    if refs == [] then map[] else BackendsOf(refs[..|refs| - 1])[refs[|refs| - 1].name := refs[|refs| - 1]]
  }

  lemma {:induction false} BackendsOfAt(refs: seq<BackendRef>, i: nat)
    requires UniqueNames(refs) && i < |refs|
    ensures refs[i].name in BackendsOf(refs) && BackendsOf(refs)[refs[i].name] == refs[i]
  {
    if i < |refs| - 1 {
      BackendsOfAt(refs[..|refs| - 1], i);
    }
  }

  function ProxyMode(mode: Option<Mode>): Option<Mode> {
    if mode == Some(Never) then Some(Never) else None
  }

  /** effectivePrefixMode(name) == Never. */
  predicate ProxyNever(p: Proxy, b: string) {
    (if b in p.backends && p.backends[b].mode.Some? then p.backends[b].mode else p.mode) == Some(Never)
  }

  /** The names one Never backend contributes: declared and not excluded. */
  function Indexed(route: Route, kind: Kind, m: Matcher, ref: BackendRef): set<string> {
    set n | n in Claims(route, kind, ref) && Selected(ref, kind, m, n)
  }

  /** The first claim is kept. */
  function IndexUpTo(route: Route, kind: Kind, m: Matcher, n: nat): map<string, string>
    requires n <= |route.refs|
  {
    if n == 0 then map[]
    else
      var was := IndexUpTo(route, kind, m, n - 1);
      Tagged(Indexed(route, kind, m, route.refs[n - 1]), route.refs[n - 1].name) + was
  }

  function Loaded(route: Route, kind: Kind, m: Matcher): Proxy {
    Proxy(BackendsOf(route.refs), ProxyMode(route.mode), IndexUpTo(route, kind, m, |route.refs|))
  }

  /** The controller and the proxy resolve every backend's mode alike. */
  lemma ModesAgree(route: Route, kind: Kind, m: Matcher, i: nat)
    requires UniqueNames(route.refs) && i < |route.refs|
    ensures ProxyNever(Loaded(route, kind, m), route.refs[i].name) <==> IsNever(route, route.refs[i])
  {
    BackendsOfAt(route.refs, i);
  }

  lemma IndexStep(route: Route, kind: Kind, m: Matcher, n: nat)
    requires n < |route.refs|
    ensures var ref, was := route.refs[n], IndexUpTo(route, kind, m, n);
            var s := SelectorOf(ref, kind);
            IndexUpTo(route, kind, m, n + 1) ==
            if IsNever(route, ref) && s.Some?
            then Tagged(AllowedOf(s.value, m, Elements(s.value.includes)), ref.name) + was
            else was
  {
    var ref := route.refs[n];
    var s := SelectorOf(ref, kind);
    if IsNever(route, ref) && s.Some? {
      assert Indexed(route, kind, m, ref) == AllowedOf(s.value, m, Elements(s.value.includes));
    } else {
      assert Indexed(route, kind, m, ref) == {};
    }
  }

  /** LoadConfig's loop; the include set is visited in an arbitrary order. */
  method LoadIndex(route: Route, kind: Kind, m: Matcher) returns (p: Proxy)
    requires UniqueNames(route.refs)
    ensures p == Loaded(route, kind, m)
  {
    p := Proxy(map[], ProxyMode(route.mode), map[]);
    for i := 0 to |route.refs|
      invariant p == Proxy(BackendsOf(route.refs[..i]), ProxyMode(route.mode), map[])
    {
      assert route.refs[..i + 1][..i] == route.refs[..i];
      p := p.(backends := p.backends[route.refs[i].name := route.refs[i]]);
    }
    assert route.refs[..|route.refs|] == route.refs;
    for i := 0 to |route.refs|
      invariant p == Proxy(BackendsOf(route.refs), ProxyMode(route.mode), IndexUpTo(route, kind, m, i))
    {
      var ref := route.refs[i];
      BackendsOfAt(route.refs, i);
      var s := SelectorOf(ref, kind);
      IndexStep(route, kind, m, i);
      if ProxyNever(p, ref.name) && s.Some? {
        var index := IndexBackend(p.index, s.value, m, ref.name);
        p := p.(index := index);
      }
    }
  }

  function AllowedOf(s: Selector, m: Matcher, names: set<string>): set<string> {
    set n | n in names && Allows(s, m, n)
  }

  method IndexBackend(was: map<string, string>, s: Selector, m: Matcher, b: string) returns (index: map<string, string>)
    ensures index == Tagged(AllowedOf(s, m, Elements(s.includes)), b) + was
  {
    index := was;
    var done, rest := {}, Elements(s.includes);
    while rest != {}
      invariant done + rest == Elements(s.includes)
      invariant index == Tagged(AllowedOf(s, m, done), b) + was
    {
      var n :| n in rest;
      done, rest := done + {n}, rest - {n};
      var ok := AllowsName(s, m, n);
      if ok && n !in index {
        index := index[n := b];
      }
    }
  }

  // ---------------------------------------------------------- advertising and dispatch

  /** downstreamResourceName. */
  function Prefixed(b: string, name: string): string {
    b + (SEPARATOR + name)
  }

  /** upstreamResourceName: cut at the first separator. */
  function Cut(full: string): Option<(string, string)> {
    var i := Index(full, SEPARATOR);
    if i < 0 then None else Some((full[..i], full[i + |SEPARATOR|..]))
  }

  datatype Entry = Entry(name: string, backend: string, upstream: string)
  datatype Response = Response(backend: string, items: seq<string>)

  /** The name under which an item is offered, unless it is dropped. */
  function Exposed(p: Proxy, kind: Kind, b: string, item: string): Option<string> {
    if ProxyNever(p, b) && (kind.Prompts? ==> item in p.index && p.index[item] == b) then Some(item)
    else if Prefixed(b, item) in p.index then None
    else Some(Prefixed(b, item))
  }

  predicate Offered(p: Proxy, kind: Kind, m: Matcher, auth: (string, string) -> bool, b: string, item: string) {
    (b in p.backends ==> Selected(p.backends[b], kind, m, item)) && auth(b, item)
  }

  function MergedItems(p: Proxy, kind: Kind, m: Matcher, auth: (string, string) -> bool, b: string,
                       items: seq<string>): seq<Entry> {
    if items == [] then []
    else
      var item := items[|items| - 1];
      var name := Exposed(p, kind, b, item);
      MergedItems(p, kind, m, auth, b, items[..|items| - 1]) +
      if Offered(p, kind, m, auth, b, item) && name.Some? then [Entry(name.value, b, item)] else []
  }

  function Merged(p: Proxy, kind: Kind, m: Matcher, auth: (string, string) -> bool, rs: seq<Response>): seq<Entry> {
    if rs == [] then []
    else
      var r := rs[|rs| - 1];
      Merged(p, kind, m, auth, rs[..|rs| - 1]) + MergedItems(p, kind, m, auth, r.backend, r.items)
  }

  method MergeToolsList(p: Proxy, m: Matcher, auth: (string, string) -> bool, rs: seq<Response>)
    returns (out: seq<Entry>)
    ensures out == Merged(p, Tools, m, auth, rs)
    ensures forall e :: e in out ==> e.backend in p.backends ==> AdmittedBy(p.backends[e.backend], Tools, m, e.upstream)
  {
    out := [];
    for i := 0 to |rs|
      invariant out == Merged(p, Tools, m, auth, rs[..i])
    {
      assert rs[..i + 1][..i] == rs[..i];
      var tools := ExposeTools(p, m, auth, rs[i].backend, rs[i].items);
      out := out + tools;
    }
    assert rs[..|rs|] == rs;
    forall e | e in out && e.backend in p.backends ensures AdmittedBy(p.backends[e.backend], Tools, m, e.upstream) {
      MergedIff(p, Tools, m, auth, rs, e);
      SelectedIsAdmitted(p.backends[e.backend], Tools, m, e.upstream);
    }
  }

  /** The inner loop, over the tools of one backend. */
  method ExposeTools(p: Proxy, m: Matcher, auth: (string, string) -> bool, b: string, items: seq<string>)
    returns (out: seq<Entry>)
    ensures out == MergedItems(p, Tools, m, auth, b, items)
  {
    out := [];
    var never := ProxyNever(p, b);
    for j := 0 to |items|
      invariant out == MergedItems(p, Tools, m, auth, b, items[..j])
    {
      assert items[..j + 1][..j] == items[..j];
      var tool := items[j];
      if b in p.backends {
        var ok := SelectsName(p.backends[b], Tools, m, tool);
        if !ok {
          continue;
        }
      }
      if !auth(b, tool) {
        continue;
      }
      var name := tool;
      if !never {
        name := Prefixed(b, tool);
        if name in p.index {
          continue;
        }
      }
      out := out + [Entry(name, b, tool)];
    }
    assert items[..|items|] == items;
  }

  function Anyone(): (string, string) -> bool {
    (_, _) => true
  }

  method MergePromptsList(p: Proxy, m: Matcher, rs: seq<Response>) returns (out: seq<Entry>)
    ensures out == Merged(p, Prompts, m, Anyone(), rs)
  {
    out := [];
    for i := 0 to |rs|
      invariant out == Merged(p, Prompts, m, Anyone(), rs[..i])
    {
      assert rs[..i + 1][..i] == rs[..i];
      var prompts := ExposePrompts(p, m, rs[i].backend, rs[i].items);
      out := out + prompts;
    }
    assert rs[..|rs|] == rs;
  }

  method ExposePrompts(p: Proxy, m: Matcher, b: string, items: seq<string>) returns (out: seq<Entry>)
    ensures out == MergedItems(p, Prompts, m, Anyone(), b, items)
  {
    out := [];
    for j := 0 to |items|
      invariant out == MergedItems(p, Prompts, m, Anyone(), b, items[..j])
    {
      assert items[..j + 1][..j] == items[..j];
      var prompt := items[j];
      if b in p.backends {
        var ok := SelectsName(p.backends[b], Prompts, m, prompt);
        if !ok {
          continue;
        }
      }
      if ProxyNever(p, b) && prompt in p.index && p.index[prompt] == b {
        out := out + [Entry(prompt, b, prompt)];
        continue;
      }
      var name := Prefixed(b, prompt);
      if name in p.index {
        continue;
      }
      out := out + [Entry(name, b, prompt)];
    }
    assert items[..|items|] == items;
  }

  datatype Outcome = Routed(backend: string, upstream: string) | InvalidName | UnknownBackend | NotSelected | Denied

  /** A call by name: the index first, then the prefix; then the checks of the handler. Its
      authorisation sees more of the request than the one of the listing. */
  function Dispatch(p: Proxy, kind: Kind, m: Matcher, auth: (string, string) -> bool, name: string): Outcome {
    var target := if name in p.index then Some((p.index[name], name)) else Cut(name);
    if target.None? then InvalidName
    else
      var (b, item) := target.value;
      if b !in p.backends then UnknownBackend
      else if !Selected(p.backends[b], kind, m, item) then NotSelected
      else if !auth(b, item) then Denied
      else Routed(b, item)
  }

  // ------------------------------------------------------------------ cutting names

  /** No separator can be read inside or across the end of the name; Kubernetes names carry
      no underscore at all. */
  predicate Plain(b: string) {
    Index(b, SEPARATOR) < 0 && (b == "" || b[|b| - 1] != '_')
  }

  lemma StartsWithSeparator(s: string)
    ensures HasPrefix(s, SEPARATOR) <==> |s| >= 2 && s[0] == '_' && s[1] == '_'
  {
    if |s| >= 2 {
      assert s[..2] == [s[0], s[1]];
    }
  }

  lemma PlainNames(b: string)
    requires '_' !in b
    ensures Plain(b)
  {
    forall i | 0 <= i <= |b| ensures !HasPrefix(b[i..], SEPARATOR) {
      StartsWithSeparator(b[i..]);
      assert i < |b| ==> b[i..][0] == b[i] && b[i] in b;
    }
  }

  /** Cutting recovers the backend and the item, whatever the item, exactly for plain names. */
  lemma CutIff(b: string)
    ensures (forall item :: Cut(Prefixed(b, item)) == Some((b, item))) <==> Plain(b)
  {
    if Plain(b) {
      forall item ensures Cut(Prefixed(b, item)) == Some((b, item)) {
        CutPlain(b, item);
      }
    }
    if Index(b, SEPARATOR) >= 0 {
      var i, full := Index(b, SEPARATOR), Prefixed(b, "");
      assert |b[i..]| >= 2;
      assert full[i..][..2] == b[i..][..2];
      assert Index(full, SEPARATOR) < |b|;
    } else if b != "" && b[|b| - 1] == '_' {
      var full := Prefixed(b, "");
      var i := |b| - 1;
      assert full[i] == '_' && full[i + 1] == '_';
      assert full[i..][..2] == SEPARATOR;
      assert Index(full, SEPARATOR) <= i;
    }
    assert Cut(Prefixed(b, "")) == Some((b, "")) ==> Index(Prefixed(b, ""), SEPARATOR) == |b|;
  }

  lemma CutPlain(b: string, item: string)
    requires Plain(b)
    ensures Cut(Prefixed(b, item)) == Some((b, item))
  {
    var full := Prefixed(b, item);
    assert full[|b|..] == SEPARATOR + item;
    assert HasPrefix(full[|b|..], SEPARATOR);
    forall i | 0 <= i < |b| ensures !HasPrefix(full[i..], SEPARATOR) {
      StartsWithSeparator(full[i..]);
      StartsWithSeparator(b[i..]);
      assert !HasPrefix(b[i..], SEPARATOR);
      assert full[i..][0] == b[i] == b[i..][0];
      assert i + 1 < |b| ==> full[i..][1] == b[i + 1] == b[i..][1];
    }
    assert Index(full, SEPARATOR) == |b|;
    assert full[..|b|] == b && full[|b| + 2..] == item;
  }

  // ------------------------------------------------------------------- the index

  lemma {:induction false} InAllClaims(route: Route, kind: Kind, n: nat, i: nat, name: string)
    requires i < n <= |route.refs| && name in Claims(route, kind, route.refs[i])
    ensures name in AllClaims(route, kind, n)
  {
    if i < n - 1 {
      InAllClaims(route, kind, n - 1, i, name);
    }
  }

  /** On an accepted route a bare name has one owner. */
  lemma {:induction false} OneClaimant(route: Route, kind: Kind, n: nat, i: nat, j: nat, name: string)
    requires n <= |route.refs| && DupFree(AllClaims(route, kind, n)) && i < n && j < n
    requires name in Claims(route, kind, route.refs[i]) && name in Claims(route, kind, route.refs[j])
    ensures i == j
  {
    DupFreeConcat(AllClaims(route, kind, n - 1), Claims(route, kind, route.refs[n - 1]));
    assert i < n - 1 ==> name in Elements(AllClaims(route, kind, n - 1)) by {
      if i < n - 1 {
        InAllClaims(route, kind, n - 1, i, name);
      }
    }
    assert j < n - 1 ==> name in Elements(AllClaims(route, kind, n - 1)) by {
      if j < n - 1 {
        InAllClaims(route, kind, n - 1, j, name);
      }
    }
    assert i == n - 1 || j == n - 1 ==> name in Elements(Claims(route, kind, route.refs[n - 1]));
    if i < n - 1 && j < n - 1 {
      OneClaimant(route, kind, n - 1, i, j, name);
    }
  }

  lemma {:induction false} IndexSound(route: Route, kind: Kind, m: Matcher, n: nat, name: string)
    requires n <= |route.refs| && name in IndexUpTo(route, kind, m, n)
    ensures exists i :: 0 <= i < n && name in Indexed(route, kind, m, route.refs[i])
                        && IndexUpTo(route, kind, m, n)[name] == route.refs[i].name
  {
    if name in IndexUpTo(route, kind, m, n - 1) {
      IndexSound(route, kind, m, n - 1, name);
    } else {
      assert name in Indexed(route, kind, m, route.refs[n - 1]);
    }
  }

  lemma {:induction false} IndexComplete(route: Route, kind: Kind, m: Matcher, n: nat, i: nat, name: string)
    requires i < n <= |route.refs| && name in Indexed(route, kind, m, route.refs[i])
    ensures name in IndexUpTo(route, kind, m, n)
  {
    if i < n - 1 {
      IndexComplete(route, kind, m, n - 1, i, name);
    }
  }

  /** The index holds exactly the declared, not excluded names, each under its one claimant. */
  lemma IndexExact(route: Route, kind: Kind, m: Matcher, i: nat, name: string)
    requires Accepts(route) && UniqueNames(route.refs) && i < |route.refs|
    ensures var index := Loaded(route, kind, m).index;
            name in Indexed(route, kind, m, route.refs[i]) <==> name in index && index[name] == route.refs[i].name
  {
    var n, index := |route.refs|, Loaded(route, kind, m).index;
    if name in Indexed(route, kind, m, route.refs[i]) {
      IndexComplete(route, kind, m, n, i, name);
    }
    if name in index {
      IndexSound(route, kind, m, n, name);
      var j :| 0 <= j < n && name in Indexed(route, kind, m, route.refs[j]) && index[name] == route.refs[j].name;
      if name in Indexed(route, kind, m, route.refs[i]) {
        OneClaimant(route, kind, n, i, j, name);
      }
    }
  }

  // ------------------------------------------------------------------ the theorems

  predicate Served(route: Route) {
    Accepts(route) && UniqueNames(route.refs) && forall i :: 0 <= i < |route.refs| ==> Plain(route.refs[i].name)
  }

  ghost predicate FromRefs(route: Route, rs: seq<Response>) {
    forall k :: 0 <= k < |rs| ==> exists i :: 0 <= i < |route.refs| && route.refs[i].name == rs[k].backend
  }

  /** Whatever an accepted route exposes, calling it by that name reaches the same item of
      the same backend, or is denied by the authorisation of the call. */
  lemma ExposedDispatches(route: Route, kind: Kind, m: Matcher, auth: (string, string) -> bool,
                          call: (string, string) -> bool, i: nat, item: string)
    requires Served(route) && i < |route.refs|
    requires var p, b := Loaded(route, kind, m), route.refs[i].name;
             Offered(p, kind, m, auth, b, item) && Exposed(p, kind, b, item).Some?
    ensures var p, b := Loaded(route, kind, m), route.refs[i].name;
            Dispatch(p, kind, m, call, Exposed(p, kind, b, item).value) ==
              if call(b, item) then Routed(b, item) else Denied
  {
    var p, ref := Loaded(route, kind, m), route.refs[i];
    BackendsOfAt(route.refs, i);
    ModesAgree(route, kind, m, i);
    IndexExact(route, kind, m, i, item);
    CutPlain(ref.name, item);
    if kind.Tools? && ProxyNever(p, ref.name) {
      assert Enumerates(route, ref);
      assert item in Claims(route, kind, ref);
    }
  }

  lemma {:induction false} MergedItemsIff(p: Proxy, kind: Kind, m: Matcher, auth: (string, string) -> bool, b: string,
                                          items: seq<string>, e: Entry)
    ensures e in MergedItems(p, kind, m, auth, b, items) <==>
            && e.backend == b && e.upstream in items && Offered(p, kind, m, auth, b, e.upstream)
            && Exposed(p, kind, b, e.upstream) == Some(e.name)
  {
    if items != [] {
      var init, item := items[..|items| - 1], items[|items| - 1];
      MergedItemsIff(p, kind, m, auth, b, init, e);
      assert items == init + [item];
    }
  }

  ghost predicate ListedBy(rs: seq<Response>, b: string, item: string) {
    exists k :: 0 <= k < |rs| && rs[k].backend == b && item in rs[k].items
  }

  /** The merged list holds exactly the offered items that are not dropped. */
  lemma {:induction false} MergedIff(p: Proxy, kind: Kind, m: Matcher, auth: (string, string) -> bool,
                                     rs: seq<Response>, e: Entry)
    ensures e in Merged(p, kind, m, auth, rs) <==>
            ListedBy(rs, e.backend, e.upstream) && Offered(p, kind, m, auth, e.backend, e.upstream) &&
            Exposed(p, kind, e.backend, e.upstream) == Some(e.name)
  {
    if rs != [] {
      var init, r := rs[..|rs| - 1], rs[|rs| - 1];
      MergedIff(p, kind, m, auth, init, e);
      MergedItemsIff(p, kind, m, auth, r.backend, r.items, e);
      assert ListedBy(rs, e.backend, e.upstream) <==>
        ListedBy(init, e.backend, e.upstream) || (r.backend == e.backend && e.upstream in r.items) by {
        assert forall k :: 0 <= k < |init| ==> init[k] == rs[k];
        if ListedBy(rs, e.backend, e.upstream) {
          var k :| 0 <= k < |rs| && rs[k].backend == e.backend && e.upstream in rs[k].items;
          assert k < |init| ==> init[k] == rs[k];
        }
        if ListedBy(init, e.backend, e.upstream) {
          var k :| 0 <= k < |init| && init[k].backend == e.backend && e.upstream in init[k].items;
          assert rs[k] == init[k];
        }
      }
    }
  }

  /** Every advertised name leads back to the backend and the item it was advertised for; the
      one check that can still fail is the authorisation of the call itself. */
  lemma AdvertisedDispatches(route: Route, kind: Kind, m: Matcher, auth: (string, string) -> bool,
                             call: (string, string) -> bool, rs: seq<Response>, e: Entry)
    requires Served(route) && FromRefs(route, rs)
    requires e in Merged(Loaded(route, kind, m), kind, m, auth, rs)
    ensures Dispatch(Loaded(route, kind, m), kind, m, call, e.name) ==
            if call(e.backend, e.upstream) then Routed(e.backend, e.upstream) else Denied
  {
    MergedIff(Loaded(route, kind, m), kind, m, auth, rs, e);
    var k :| 0 <= k < |rs| && rs[k].backend == e.backend && e.upstream in rs[k].items;
    var i :| 0 <= i < |route.refs| && route.refs[i].name == rs[k].backend;
    ExposedDispatches(route, kind, m, auth, call, i, e.upstream);
  }

  /** Hence two different items are never advertised under one name. */
  lemma AdvertisedUnique(route: Route, kind: Kind, m: Matcher, auth: (string, string) -> bool, rs: seq<Response>,
                         e: Entry, e': Entry)
    requires Served(route) && FromRefs(route, rs)
    requires e in Merged(Loaded(route, kind, m), kind, m, auth, rs)
    requires e' in Merged(Loaded(route, kind, m), kind, m, auth, rs)
    ensures e.name == e'.name ==> e == e'
  {
    AdvertisedDispatches(route, kind, m, auth, Anyone(), rs, e);
    AdvertisedDispatches(route, kind, m, auth, Anyone(), rs, e');
  }

  // --------------------------------------------- the same, on the fields of the resource

  /** The selector of the resource lets a name through: no exclusion names or matches it, and
      it is among the included names, or, if only expressions include, matches one. */
  predicate Admits(s: Selector, m: Matcher, name: string) {
    && !(name in s.excludes || exists k :: 0 <= k < |s.excludeRegex| && m(s.excludeRegex[k], name))
    && (|s.includes| > 0 ==> name in s.includes)
    && (|s.includes| == 0 && |s.includeRegex| > 0 ==>
          exists k :: 0 <= k < |s.includeRegex| && m(s.includeRegex[k], name))
  }

  predicate AdmittedBy(ref: BackendRef, kind: Kind, m: Matcher, name: string) {
    match kind
    case Tools => ref.tools.Some? ==> Admits(ref.tools.value, m, name)
    case Prompts => ref.prompts.Some? ==> Admits(ref.prompts.value, m, name)
  }

  /** The backend's own mode decides, else the route's; without either, names are prefixed. */
  predicate Unprefixed(route: Route, ref: BackendRef) {
    match ref.mode
    case Some(mode) => mode.Never?
    case None => route.mode.Some? && route.mode.value.Never?
  }

  /** The backend gives the name bare: it is unprefixed, enumerates the name and admits it. */
  predicate Declares(route: Route, ref: BackendRef, kind: Kind, m: Matcher, name: string) {
    && Unprefixed(route, ref) && AdmittedBy(ref, kind, m, name)
    && match kind
       case Tools => ref.tools.Some? && name in ref.tools.value.includes
       case Prompts => ref.prompts.Some? && name in ref.prompts.value.includes
  }

  lemma SelectedIsAdmitted(ref: BackendRef, kind: Kind, m: Matcher, name: string)
    ensures Selected(ref, kind, m, name) <==> AdmittedBy(ref, kind, m, name)
  {}

  lemma IndexedIsDeclared(route: Route, ref: BackendRef, kind: Kind, m: Matcher, name: string)
    ensures name in Indexed(route, kind, m, ref) <==> Declares(route, ref, kind, m, name)
    ensures IsNever(route, ref) <==> Unprefixed(route, ref)
  {
    SelectedIsAdmitted(ref, kind, m, name);
  }

  /** What clients see, on the fields alone: an item of a backend is advertised under a name
      exactly if the backend lists it, its selector admits it, the caller may see it, and the
      name is the bare one where the backend is unprefixed (for a prompt, if it is declared)
      or else the backend's name, two underscores and the item, with no backend declaring
      that spelling as its own. */
  lemma AdvertisedExactly(route: Route, kind: Kind, m: Matcher, auth: (string, string) -> bool, rs: seq<Response>,
                          i: nat, item: string, name: string)
    requires Accepts(route) && UniqueNames(route.refs) && i < |route.refs|
    ensures var ref := route.refs[i];
            var full := ref.name + "__" + item;
            Entry(name, ref.name, item) in Merged(Loaded(route, kind, m), kind, m, auth, rs) <==>
              && ListedBy(rs, ref.name, item) && AdmittedBy(ref, kind, m, item) && auth(ref.name, item)
              && if Unprefixed(route, ref) && (kind.Prompts? ==> Declares(route, ref, kind, m, item)) then name == item
                 else name == full &&
                      forall j :: 0 <= j < |route.refs| ==> !Declares(route, route.refs[j], kind, m, full)
  {
    var p, ref := Loaded(route, kind, m), route.refs[i];
    var full := ref.name + "__" + item;
    assert Prefixed(ref.name, item) == full;
    BackendsOfAt(route.refs, i);
    ModesAgree(route, kind, m, i);
    MergedIff(p, kind, m, auth, rs, Entry(name, ref.name, item));
    SelectedIsAdmitted(ref, kind, m, item);
    IndexExact(route, kind, m, i, item);
    IndexedIsDeclared(route, ref, kind, m, item);
    InIndexIff(route, kind, m, full);
  }

  lemma InIndexIff(route: Route, kind: Kind, m: Matcher, name: string)
    ensures name in Loaded(route, kind, m).index <==>
            exists j :: 0 <= j < |route.refs| && Declares(route, route.refs[j], kind, m, name)
  {
    var n := |route.refs|;
    if name in Loaded(route, kind, m).index {
      IndexSound(route, kind, m, n, name);
      var j :| 0 <= j < n && name in Indexed(route, kind, m, route.refs[j]);
      IndexedIsDeclared(route, route.refs[j], kind, m, name);
    }
    if j :| 0 <= j < n && Declares(route, route.refs[j], kind, m, name) {
      IndexedIsDeclared(route, route.refs[j], kind, m, name);
      IndexComplete(route, kind, m, n, j, name);
    }
  }

  /** A call that goes through reaches a backend of the route whose selector admits the item,
      with the caller allowed, under the bare name the backend declares or under the
      prefixed one. */
  lemma RoutedIsAdmitted(route: Route, kind: Kind, m: Matcher, auth: (string, string) -> bool, name: string)
    requires Accepts(route) && UniqueNames(route.refs)
    requires Dispatch(Loaded(route, kind, m), kind, m, auth, name).Routed?
    ensures var Routed(b, item) := Dispatch(Loaded(route, kind, m), kind, m, auth, name);
            && auth(b, item)
            && exists i :: 0 <= i < |route.refs| && route.refs[i].name == b
                           && AdmittedBy(route.refs[i], kind, m, item)
                           && (name == b + "__" + item ||
                               (name == item && Declares(route, route.refs[i], kind, m, item)))
  {
    var p := Loaded(route, kind, m);
    var Routed(b, item) := Dispatch(p, kind, m, auth, name);
    var i := BackendIsRef(route.refs, b);
    BackendsOfAt(route.refs, i);
    SelectedIsAdmitted(route.refs[i], kind, m, item);
    if name in p.index {
      IndexExact(route, kind, m, i, name);
      IndexedIsDeclared(route, route.refs[i], kind, m, name);
    } else {
      assert name == b + "__" + item;
    }
  }

  lemma {:induction false} BackendIsRef(refs: seq<BackendRef>, b: string) returns (i: nat)
    requires b in BackendsOf(refs)
    ensures i < |refs| && refs[i].name == b
  {
    if refs[|refs| - 1].name == b {
      i := |refs| - 1;
    } else {
      i := BackendIsRef(refs[..|refs| - 1], b);
    }
  }

  /** An item that keeps its bare name: any tool of a Never backend, and its prompts if it
      declares them. */
  predicate Bare(route: Route, kind: Kind, ref: BackendRef, item: string) {
    IsNever(route, ref) && (kind.Prompts? ==> item in Claims(route, kind, ref))
  }

  /** An offered item is missing from the list exactly when its name is prefixed and some
      Never backend declares, and does not exclude, the prefixed spelling. */
  lemma DroppedIff(route: Route, kind: Kind, m: Matcher, auth: (string, string) -> bool, rs: seq<Response>, i: nat,
                   item: string)
    requires Accepts(route) && UniqueNames(route.refs) && i < |route.refs|
    requires ListedBy(rs, route.refs[i].name, item)
    requires Offered(Loaded(route, kind, m), kind, m, auth, route.refs[i].name, item)
    ensures var out := Merged(Loaded(route, kind, m), kind, m, auth, rs);
            (forall name :: Entry(name, route.refs[i].name, item) !in out) <==>
              && !Bare(route, kind, route.refs[i], item)
              && exists j :: 0 <= j < |route.refs|
                             && Prefixed(route.refs[i].name, item) in Indexed(route, kind, m, route.refs[j])
  {
    var p, b := Loaded(route, kind, m), route.refs[i].name;
    var full := Prefixed(b, item);
    ModesAgree(route, kind, m, i);
    BackendsOfAt(route.refs, i);
    IndexExact(route, kind, m, i, item);
    forall name
      ensures Entry(name, b, item) in Merged(p, kind, m, auth, rs) <==> Exposed(p, kind, b, item) == Some(name)
    {
      MergedIff(p, kind, m, auth, rs, Entry(name, b, item));
    }
    if Exposed(p, kind, b, item).Some? {
      assert Entry(Exposed(p, kind, b, item).value, b, item) in Merged(p, kind, m, auth, rs);
    }
    if full in p.index {
      IndexSound(route, kind, m, |route.refs|, full);
    }
    if j :| 0 <= j < |route.refs| && full in Indexed(route, kind, m, route.refs[j]) {
      IndexComplete(route, kind, m, |route.refs|, j, full);
    }
  }

  /** The name an item has before collisions are dropped. */
  function Spelled(route: Route, ref: BackendRef, item: string): string {
    if IsNever(route, ref) then item else Prefixed(ref.name, item)
  }

  /** Two exposed tools of an accepted route share a spelling only across modes, and then
      exactly when the Never tool is spelled like the prefixed one. */
  lemma CollisionsCrossModes(route: Route, i: nat, item: string, j: nat, item': string)
    requires Served(route) && i < |route.refs| && j < |route.refs| && (i, item) != (j, item')
    requires IsNever(route, route.refs[i]) ==> item in Claims(route, Tools, route.refs[i])
    requires IsNever(route, route.refs[j]) ==> item' in Claims(route, Tools, route.refs[j])
    ensures Spelled(route, route.refs[i], item) == Spelled(route, route.refs[j], item') <==>
            || (!IsNever(route, route.refs[i]) && IsNever(route, route.refs[j]) &&
                item' == Prefixed(route.refs[i].name, item))
            || (IsNever(route, route.refs[i]) && !IsNever(route, route.refs[j]) &&
                item == Prefixed(route.refs[j].name, item'))
  {
    CutPlain(route.refs[i].name, item);
    CutPlain(route.refs[j].name, item');
    if IsNever(route, route.refs[i]) && IsNever(route, route.refs[j]) && item == item' {
      OneClaimant(route, Tools, |route.refs|, i, j, item);
    }
  }
}
