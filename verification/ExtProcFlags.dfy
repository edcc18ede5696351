/** What the injected container amounts to: its command line as the external processor's flag
    parser reads it, its image, and the pod around it. */
module ExtProcFlags {
  import opened Text
  import opened Wrappers
  import opened ExtProcBuilder

  // ------------------------------------------------------------- the command line, read back

  /** The flag package of Go, for this flag set: a boolean flag stands alone, every other flag
      takes the next argument, and the last occurrence counts. */
  function Parse(args: seq<string>): map<string, string> {
    if args == [] then map[]
    else if args[0] == "-enableRedaction" then map[args[0] := "true"] + Parse(args[1..])
    else if |args| == 1 then map[]
    else map[args[0] := args[1]] + Parse(args[2..])
  }

  function Value(m: map<string, string>, flag: string): Option<string> {
    if flag in m then Some(m[flag]) else None
  }

  /** The last value of a flag in a list of flags. */
  function Last(flags: seq<(string, string)>, flag: string): Option<string> {
    if flags == [] then None
    else if Last(flags[1..], flag).Some? then Last(flags[1..], flag)
    else if flags[0].0 == flag then Some(flags[0].1)
    else None
  }

  lemma {:induction false} LastConcat(a: seq<(string, string)>, b: seq<(string, string)>, flag: string)
    ensures Last(a + b, flag) == if Last(b, flag).Some? then Last(b, flag) else Last(a, flag)
  {
    if a == [] {
      assert a + b == b;
    } else {
      assert (a + b)[1..] == a[1..] + b;
      LastConcat(a[1..], b, flag);
    }
  }

  lemma LastWhen(present: bool, name: string, value: string, flag: string)
    ensures Last(When(present, name, value), flag) == if present && name == flag then Some(value) else None
  {
    if present {
      assert [(name, value)][1..] == [];
    }
  }

  lemma {:induction false} ParseFlat(flags: seq<(string, string)>, tail: seq<string>, flag: string)
    requires forall i :: 0 <= i < |flags| ==> flags[i].0 != "-enableRedaction"
    ensures Value(Parse(Flat(flags) + tail), flag) ==
            if flag in Parse(tail) then Value(Parse(tail), flag) else Last(flags, flag)
  {
    if flags == [] {
      assert Flat(flags) + tail == tail;
    } else {
      var args, rest := Flat(flags) + tail, Flat(flags[1..]) + tail;
      assert args[0] == flags[0].0 && args[1] == flags[0].1 && args[2..] == rest;
      ParseFlat(flags[1..], tail, flag);
    }
  }

  /** The flags in front of the optional ones. */
  lemma LastBase(b: Builder, flag: string)
    ensures Last(BaseFlags(b), flag) ==
            if flag == "-maxRecvMsgSize" then Some(Decimal(b.maxRecvMsgSize))
            else if flag == "-rootPrefix" then Some(b.rootPrefix)
            else if flag == "-adminPort" then Some("1064")
            else if flag == "-extProcAddr" then Some("unix://" + b.udsPath)
            else if flag == "-logLevel" then Some(b.logLevel)
            else None
  {
    var fs := BaseFlags(b);
    AdminPort();
    assert fs[1..][1..] == fs[2..] && fs[2..][1..] == fs[3..] && fs[3..][1..] == fs[4..] && fs[4..][1..] == [];
    assert Last(fs[4..], flag) == if flag == "-maxRecvMsgSize" then Some(fs[4].1) else None;
    assert Last(fs[3..], flag) ==
      if Last(fs[4..], flag).Some? then Last(fs[4..], flag) else if flag == "-rootPrefix" then Some(fs[3].1) else None;
    assert Last(fs[2..], flag) ==
      if Last(fs[3..], flag).Some? then Last(fs[3..], flag) else if flag == "-adminPort" then Some(fs[2].1) else None;
    assert Last(fs[1..], flag) ==
      if Last(fs[2..], flag).Some? then Last(fs[2..], flag) else if flag == "-extProcAddr" then Some(fs[1].1) else None;
  }

  lemma AdminPort()
    ensures Decimal(ADMIN_PORT) == "1064"
  {
    assert Decimal(1) == "1" && Decimal(10) == "10" && Decimal(106) == "106";
  }

  /** The optional flags, the last one first. */
  lemma LastLate(b: Builder, flag: string)
    ensures Last(LateFlags(b), flag) ==
            if flag == "-endpointPrefixes" && b.endpointPrefixes != "" then Some(b.endpointPrefixes)
            else if flag == "-logRequestHeaderAttributes" && b.logAttrs.Some? then b.logAttrs
            else if flag == "-metricsRequestHeaderAttributes" && b.metricsAttrs.Some? then b.metricsAttrs
            else if flag == "-spanRequestHeaderAttributes" && b.spanAttrs.Some? then b.spanAttrs
            else if flag == "-requestHeaderAttributes" && b.requestAttrs.Some? then b.requestAttrs
            else None
  {
    var r := When(b.requestAttrs.Some?, "-requestHeaderAttributes", b.requestAttrs.GetOr(""));
    var s := When(b.spanAttrs.Some?, "-spanRequestHeaderAttributes", b.spanAttrs.GetOr(""));
    var m := When(b.metricsAttrs.Some?, "-metricsRequestHeaderAttributes", b.metricsAttrs.GetOr(""));
    var l := When(b.logAttrs.Some?, "-logRequestHeaderAttributes", b.logAttrs.GetOr(""));
    var e := When(b.endpointPrefixes != "", "-endpointPrefixes", b.endpointPrefixes);
    LastWhen(b.requestAttrs.Some?, "-requestHeaderAttributes", b.requestAttrs.GetOr(""), flag);
    LastWhen(b.spanAttrs.Some?, "-spanRequestHeaderAttributes", b.spanAttrs.GetOr(""), flag);
    LastWhen(b.metricsAttrs.Some?, "-metricsRequestHeaderAttributes", b.metricsAttrs.GetOr(""), flag);
    LastWhen(b.logAttrs.Some?, "-logRequestHeaderAttributes", b.logAttrs.GetOr(""), flag);
    LastWhen(b.endpointPrefixes != "", "-endpointPrefixes", b.endpointPrefixes, flag);
    LastConcat(r + s + m + l, e, flag);
    LastConcat(r + s + m, l, flag);
    LastConcat(r + s, m, flag);
    LastConcat(r, s, flag);
  }

  lemma LastEarly(b: Builder, flag: string)
    ensures Last(EarlyFlags(b), flag) ==
            if flag == "-logFormat" && b.logFormat != "" && b.logFormat != "text" then Some(b.logFormat)
            else Last(BaseFlags(b), flag)
  {
    var format := NonDefaultLogFormat(b.logFormat);
    LastWhen(format != "", "-logFormat", format, flag);
    LastConcat(BaseFlags(b), When(format != "", "-logFormat", format), flag);
  }

  lemma LastFlags(b: Builder, needMCP: bool, flag: string)
    ensures Last(Flags(b, needMCP), flag) ==
            if Last(LateFlags(b), flag).Some? then Last(LateFlags(b), flag)
            else if flag == "-mcpAddr" && needMCP then Some("127.0.0.1:9856")
            else Last(EarlyFlags(b), flag)
  {
    LastWhen(needMCP, MCP_ADDR, MCP_PROXY_ADDR, flag);
    LastConcat(EarlyFlags(b) + When(needMCP, MCP_ADDR, MCP_PROXY_ADDR), LateFlags(b), flag);
    LastConcat(EarlyFlags(b), When(needMCP, MCP_ADDR, MCP_PROXY_ADDR), flag);
  }

  lemma {:induction false} NoneMeansAbsent(flags: seq<(string, string)>, flag: string, i: nat)
    requires i < |flags| && Last(flags, flag).None?
    ensures flags[i].0 != flag
  {
    if i > 0 {
      NoneMeansAbsent(flags[1..], flag, i - 1);
    }
  }

  lemma NoSwitch(b: Builder, needMCP: bool)
    ensures Last(Flags(b, needMCP), "-enableRedaction").None?
  {
    var flag := "-enableRedaction";
    LastFlags(b, needMCP, flag);
    LastLate(b, flag);
    LastEarly(b, flag);
    LastBase(b, flag);
    assert |flag| == 16;
  }

  lemma TailSwitch(b: Builder, flag: string)
    ensures Value(Parse(Tail(b)), flag) ==
            if flag == "-enableRedaction" && b.enableRedaction then Some("true") else None
  {
    if b.enableRedaction {
      assert Tail(b)[1..] == [];
    }
  }

  /** The command line of the injected container, read back flag by flag: the external
      processor gets exactly the configured values, optional ones just where they are set, and
      no other flag. Values that look like flags do not disturb it. */
  lemma ArgumentsReadBack(b: Builder, input: Input, dir: string -> string, flag: string)
    ensures Value(Parse(Injected(b, input, dir).args), flag) ==
            if flag == "-enableRedaction" && b.enableRedaction then Some("true")
            else if flag == "-endpointPrefixes" && b.endpointPrefixes != "" then Some(b.endpointPrefixes)
            else if flag == "-logRequestHeaderAttributes" && b.logAttrs.Some? then b.logAttrs
            else if flag == "-metricsRequestHeaderAttributes" && b.metricsAttrs.Some? then b.metricsAttrs
            else if flag == "-spanRequestHeaderAttributes" && b.spanAttrs.Some? then b.spanAttrs
            else if flag == "-requestHeaderAttributes" && b.requestAttrs.Some? then b.requestAttrs
            else if flag == "-mcpAddr" && input.needMCP then Some("127.0.0.1:9856")
            else if flag == "-logFormat" && b.logFormat != "" && b.logFormat != "text" then Some(b.logFormat)
            else if flag == "-maxRecvMsgSize" then Some(Decimal(b.maxRecvMsgSize))
            else if flag == "-rootPrefix" then Some(b.rootPrefix)
            else if flag == "-adminPort" then Some("1064")
            else if flag == "-extProcAddr" then Some("unix://" + b.udsPath)
            else if flag == "-logLevel" then Some(b.logLevel)
            else if flag == "-configBundlePath" then Some("/etc/filter-config-bundle")
            else None
  {
    var flags, rest := Flags(b, input.needMCP), Flat(Flags(b, input.needMCP)) + Tail(b);
    var args := Injected(b, input, dir).args;
    assert args[0] == "-configBundlePath" && args[1] == "/etc/filter-config-bundle" && args[2..] == rest;
    assert "-configBundlePath"[1] == 'c' && "-enableRedaction"[1] == 'e';
    NoSwitch(b, input.needMCP);
    forall i | 0 <= i < |flags| ensures flags[i].0 != "-enableRedaction" {
      NoneMeansAbsent(flags, "-enableRedaction", i);
    }
    ParseFlat(flags, Tail(b), flag);
    TailSwitch(b, flag);
    LastFlags(b, input.needMCP, flag);
    LastLate(b, flag);
    LastEarly(b, flag);
    LastBase(b, flag);
  }

  // ------------------------------------------------------------------------- the image

  lemma {:induction false} LastCharIs(s: string, c: char, i: int)
    requires -1 <= i < |s| && (i >= 0 ==> s[i] == c) && forall j :: i < j < |s| ==> s[j] != c
    ensures LastCharIndex(s, c) == i
  {
    if s != "" && s[|s| - 1] != c {
      LastCharIs(s[..|s| - 1], c, i);
    }
  }

  /** The digest of an image reference, its tag, or nothing: a colon in front of the last slash
      belongs to a port. */
  lemma TagOrDigestIs(repository: string, rest: string)
    requires '@' !in repository
    ensures TagOrDigest(repository + "@" + rest) == "@" + rest
    ensures '@' !in rest && '/' !in rest && ':' !in rest ==> TagOrDigest(repository + ":" + rest) == ":" + rest
    ensures (forall i :: 0 <= i < |repository| && repository[i] == ':' ==>
               exists j :: i < j < |repository| && repository[j] == '/') ==> TagOrDigest(repository) == ""
  {
    DigestIs(repository, rest);
    if '@' !in rest && '/' !in rest && ':' !in rest {
      TagIs(repository, rest);
    }
    if forall i :: 0 <= i < |repository| && repository[i] == ':' ==>
         exists j :: i < j < |repository| && repository[j] == '/' {
      PlainIs(repository);
    }
  }

  lemma AtPrefix(s: string)
    ensures HasPrefix(s, "@") <==> s != "" && s[0] == '@'
  {
    if s != "" {
      assert s[..1] == [s[0]];
    }
  }

  lemma AtIndex(s: string, i: nat)
    requires i < |s| && s[i] == '@' && '@' !in s[..i]
    ensures Text.Index(s, "@") == i
  {
    forall j | 0 <= j <= i ensures HasPrefix(s[j..], "@") <==> j == i {
      AtPrefix(s[j..]);
      assert j < i ==> s[..i][j] == s[j];
    }
    assert HasPrefix(s[i..], "@");
  }

  lemma NoAt(s: string)
    requires '@' !in s
    ensures Text.Index(s, "@") < 0
  {
    forall j | 0 <= j <= |s| ensures !HasPrefix(s[j..], "@") {
      AtPrefix(s[j..]);
    }
  }

  lemma DigestIs(repository: string, rest: string)
    requires '@' !in repository
    ensures TagOrDigest(repository + "@" + rest) == "@" + rest
  {
    var s := repository + "@" + rest;
    assert s[..|repository|] == repository;
    AtIndex(s, |repository|);
  }

  lemma TagIs(repository: string, tag: string)
    requires '@' !in repository && '@' !in tag && '/' !in tag && ':' !in tag
    ensures TagOrDigest(repository + ":" + tag) == ":" + tag
  {
    var s := repository + ":" + tag;
    NoAt(s);
    assert forall j :: |repository| < j < |s| ==> s[j] == tag[j - |repository| - 1];
    LastCharIs(s, ':', |repository|);
    var slash := LastCharIndex(s, '/');
    SlashAt(s);
    assert slash < |repository|;
  }

  lemma {:induction false} SlashAt(s: string)
    ensures LastCharIndex(s, '/') >= 0 ==> s[LastCharIndex(s, '/')] == '/'
    ensures forall j :: LastCharIndex(s, '/') < j < |s| ==> s[j] != '/'
  {
    if s != "" && s[|s| - 1] != '/' {
      SlashAt(s[..|s| - 1]);
    }
  }

  lemma {:induction false} ColonAt(s: string)
    ensures LastCharIndex(s, ':') >= 0 ==> s[LastCharIndex(s, ':')] == ':'
  {
    if s != "" && s[|s| - 1] != ':' {
      ColonAt(s[..|s| - 1]);
    }
  }

  lemma PlainIs(s: string)
    requires '@' !in s
    requires forall i :: 0 <= i < |s| && s[i] == ':' ==> exists j :: i < j < |s| && s[j] == '/'
    ensures TagOrDigest(s) == ""
  {
    NoAt(s);
    SlashAt(s);
    ColonAt(s);
  }

  /** The image that runs: an image override as it stands; else, with a repository override,
      that repository at the base image's tag or digest; else the base image. */
  lemma ImageIs(b: Builder, input: Input)
    ensures var k := if input.gatewayConfig.Some? && input.gatewayConfig.value.extProc.Some?
                     then input.gatewayConfig.value.extProc.value.kubernetes else None;
            ExtProcImage(b, input) ==
            match k
            case None => b.image
            case Some(spec) =>
              match (spec.image, spec.repository)
              case (Some(image), _) => image
              case (None, Some(repository)) => if repository == "" then b.image else repository + TagOrDigest(b.image)
              case (None, None) => b.image
  {}

  // --------------------------------------------------------------------------- the pod

  /** The container in the pod: started before the others as a sidecar, after them otherwise,
      once; with the socket directory, the mounts of the GatewayConfig and the bundle, the
      GatewayConfig's security context and resources where it has them. */
  lemma InjectedIs(b: Builder, input: Input, dir: string -> string)
    ensures var c := Injected(b, input, dir);
            var k := if input.gatewayConfig.Some? && input.gatewayConfig.value.extProc.Some?
                     then input.gatewayConfig.value.extProc.value.kubernetes else None;
            && c.name == "ai-gateway-extproc" && c.pullPolicy == b.pullPolicy && c.restartAlways == b.asSideCar
            && c.mounts == ["ai-gateway-extproc-uds=" + dir(b.udsPath)] + (if k.Some? then k.value.volumeMounts else [])
                           + ["filter-config-bundle=/etc/filter-config-bundle"]
            && (k.Some? && k.value.securityContext.Some? ==> c.securityContext == k.value.securityContext.value)
            && (k.None? || k.value.securityContext.None? ==> c.securityContext == DEFAULT_SECURITY)
            && c.resources == (if k.Some? && k.value.resources.Some? then k.value.resources.value else "")
  {
    var mount := "ai-gateway-extproc-uds" + "=" + dir(b.udsPath);
    assert mount == "ai-gateway-extproc-uds=" + dir(b.udsPath);
  }

  /** The pod around it: nothing else is added or reordered, every container named envoy gets
      the socket directory and no other one changes, and the pull secrets are added. */
  lemma MutatedPod(b: Builder, input: Input, dir: string -> string, pod: Pod)
    requires forall i :: 0 <= i < |pod.containers| ==> pod.containers[i].name != EXTPROC
    ensures var t, c := Mutate(b, input, dir, pod), Injected(b, input, dir);
            && t.pullSecrets == pod.pullSecrets + b.pullSecrets
            && t.init == (if b.asSideCar then pod.init + [c] else pod.init)
            && |t.containers| == |pod.containers| + (if b.asSideCar then 0 else 1)
            && (!b.asSideCar ==> t.containers[|pod.containers|] == c)
            && (forall i :: 0 <= i < |pod.containers| ==>
                  var was := pod.containers[i];
                  t.containers[i] == if was.name == "envoy"
                                     then was.(mounts := was.mounts + ["ai-gateway-extproc-uds=" + dir(b.udsPath)])
                                     else was)
  {
    assert EXTPROC[0] == 'a' && "envoy"[0] == 'e';
    var mount := UDS_VOLUME + "=" + dir(b.udsPath);
    assert mount == "ai-gateway-extproc-uds=" + dir(b.udsPath);
    var was := if b.asSideCar then pod.containers else pod.containers + [Injected(b, input, dir)];
    MountedAt(was, mount);
  }

  lemma MountedAt(cs: seq<Container>, mount: string)
    ensures forall i :: 0 <= i < |cs| ==>
              MountUds(cs, mount)[i] ==
                if cs[i].name == "envoy" then cs[i].(mounts := cs[i].mounts + [mount]) else cs[i]
  {}
}
