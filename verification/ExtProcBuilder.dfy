/** The extproc container: the builder shared by webhook and reconciler, the digest
    that drives rollouts, the webhook's injection and the reconciler's sidecar check. */
module ExtProcBuilder {
  import opened Text
  import opened Wrappers

  datatype EnvVar = EnvVar(name: string, value: string)

  /** The Kubernetes overrides of a GatewayConfig; opaque parts are strings. */
  datatype KubeSpec = KubeSpec(image: Option<string>, repository: Option<string>, env: seq<EnvVar>,
                               resources: Option<string>, securityContext: Option<string>, volumeMounts: seq<string>)
  datatype ExtProcSpec = ExtProcSpec(kubernetes: Option<KubeSpec>, metadataNamespaces: seq<string>)
  datatype GatewayConfig = GatewayConfig(extProc: Option<ExtProcSpec>, rest: string)
  datatype Input = Input(gatewayConfig: Option<GatewayConfig>, needMCP: bool)

  datatype Builder = Builder(image: string, pullPolicy: string, logLevel: string, logFormat: string,
                             enableRedaction: bool, udsPath: string, requestAttrs: Option<string>,
                             spanAttrs: Option<string>, metricsAttrs: Option<string>, logAttrs: Option<string>,
                             rootPrefix: string, endpointPrefixes: string, extraEnv: seq<EnvVar>,
                             pullSecrets: seq<string>, maxRecvMsgSize: nat, asSideCar: bool)

  datatype Container = Container(name: string, image: string, pullPolicy: string, args: seq<string>, env: seq<EnvVar>,
                                 mounts: seq<string>, securityContext: string, resources: string, restartAlways: bool)

  const EXTPROC := "ai-gateway-extproc"
  const UDS_VOLUME := "ai-gateway-extproc-uds"
  const ADMIN_PORT: nat := 1064
  const LOG_LEVEL := "-logLevel"
  const MCP_ADDR := "-mcpAddr"
  const MCP_PROXY_ADDR := "127.0.0.1:9856"
  const DEFAULT_SECURITY := "default-restricted"

  // ------------------------------------------------------------------ environment

  function Names(env: seq<EnvVar>): (names: seq<string>)
    ensures |names| == |env| && forall i :: 0 <= i < |env| ==> names[i] == env[i].name
  {
    seq(|env|, i requires 0 <= i < |env| => env[i].name)
  }

  /** The value a process sees for a name: the last one wins. */
  function LastValue(env: seq<EnvVar>, name: string): Option<string> {
    if env == [] then None
    else if env[|env| - 1].name == name then Some(env[|env| - 1].value)
    else LastValue(env[..|env| - 1], name)
  }

  /** The last position of a name, or -1. */
  function LastIndex(env: seq<EnvVar>, name: string): (i: int)
    ensures -1 <= i < |env|
    ensures i >= 0 ==> env[i].name == name
    ensures forall j :: i < j < |env| ==> env[j].name != name
  {
    if env == [] then -1
    else if env[|env| - 1].name == name then |env| - 1
    else LastIndex(env[..|env| - 1], name)
  }

  function Override(env: seq<EnvVar>, v: EnvVar): seq<EnvVar> {
    var i := LastIndex(env, v.name);
    if i >= 0 then env[i := v] else env + [v]
  }

  /** The merge: each override replaces the last entry of its name or is appended. */
  function MergeEnv(globals: seq<EnvVar>, overrides: seq<EnvVar>): seq<EnvVar> {
    if overrides == [] then globals
    else Override(MergeEnv(globals, overrides[..|overrides| - 1]), overrides[|overrides| - 1])
  }

  lemma {:induction false} LastValueAt(env: seq<EnvVar>, name: string)
    ensures var i := LastIndex(env, name); LastValue(env, name) == if i < 0 then None else Some(env[i].value)
  {
    if env != [] && env[|env| - 1].name != name {
      LastValueAt(env[..|env| - 1], name);
    }
  }

  lemma OverrideLast(env: seq<EnvVar>, v: EnvVar, name: string)
    ensures LastValue(Override(env, v), name) == if name == v.name then Some(v.value) else LastValue(env, name)
  {
    var r, i := Override(env, v), LastIndex(env, name);
    LastValueAt(env, name);
    LastValueAt(r, name);
    assert forall j :: 0 <= j < |env| ==> r[j].name == env[j].name;
    var k := LastIndex(r, name);
    if name != v.name {
      assert k == i;
    } else {
      assert k == if LastIndex(env, v.name) >= 0 then LastIndex(env, v.name) else |env|;
    }
  }

  /** GatewayConfig values take precedence, name by name, duplicates or not. */
  lemma {:induction false} MergeEnvValues(globals: seq<EnvVar>, overrides: seq<EnvVar>, name: string)
    ensures LastValue(MergeEnv(globals, overrides), name) ==
            if LastValue(overrides, name).Some? then LastValue(overrides, name) else LastValue(globals, name)
  {
    if overrides != [] {
      var init, v := overrides[..|overrides| - 1], overrides[|overrides| - 1];
      MergeEnvValues(globals, init, name);
      OverrideLast(MergeEnv(globals, init), v, name);
    }
  }

  /** Names that are not global, in order of first appearance. */
  function NewNames(globals: seq<string>, names: seq<string>): seq<string> {
    if names == [] then []
    else
      var seen, n := NewNames(globals, names[..|names| - 1]), names[|names| - 1];
      if n in globals || n in seen then seen else seen + [n]
  }

  /** Global positions keep their names; each new name is appended once, in order. */
  lemma {:induction false} MergeEnvOrder(globals: seq<EnvVar>, overrides: seq<EnvVar>)
    ensures Names(MergeEnv(globals, overrides)) == Names(globals) + NewNames(Names(globals), Names(overrides))
  {
    if overrides != [] {
      var init, v := overrides[..|overrides| - 1], overrides[|overrides| - 1];
      MergeEnvOrder(globals, init);
      assert Names(overrides)[..|overrides| - 1] == Names(init);
      OverrideNames(MergeEnv(globals, init), v);
    }
  }

  lemma OverrideNames(env: seq<EnvVar>, v: EnvVar)
    ensures Names(Override(env, v)) == if v.name in Names(env) then Names(env) else Names(env) + [v.name]
  {
    var i := LastIndex(env, v.name);
    if i >= 0 {
      assert Names(env)[i] == v.name;
      assert Names(Override(env, v)) == Names(env);
    }
  }

  function OverridesOf(config: Option<GatewayConfig>): seq<EnvVar> {
    if config.Some? && config.value.extProc.Some? && config.value.extProc.value.kubernetes.Some?
    then config.value.extProc.value.kubernetes.value.env else []
  }

  /** `index` maps every name of `env` to its last position. */
  ghost predicate Indexes(index: map<string, nat>, env: seq<EnvVar>) {
    forall n :: if n in index then index[n] == LastIndex(env, n) else LastIndex(env, n) < 0
  }

  /** mergeEnvVars. */
  method MergeEnvVars(b: Builder, config: Option<GatewayConfig>) returns (result: seq<EnvVar>)
    ensures result == MergeEnv(b.extraEnv, OverridesOf(config))
  {
    var index;
    result, index := IndexEnv(b.extraEnv);
    var overrides := OverridesOf(config);
    for i := 0 to |overrides|
      invariant result == MergeEnv(b.extraEnv, overrides[..i]) && Indexes(index, result)
    {
      MergeEnvNext(b.extraEnv, overrides, i);
      result, index := OverrideOne(result, index, overrides[i]);
    }
    assert overrides[..|overrides|] == overrides;
  }

  lemma MergeEnvNext(globals: seq<EnvVar>, overrides: seq<EnvVar>, i: nat)
    requires i < |overrides|
    ensures MergeEnv(globals, overrides[..i + 1]) == Override(MergeEnv(globals, overrides[..i]), overrides[i])
  {
    assert overrides[..i + 1][..i] == overrides[..i];
  }

  method IndexEnv(globals: seq<EnvVar>) returns (result: seq<EnvVar>, index: map<string, nat>)
    ensures result == globals && Indexes(index, globals)
  {
    result, index := [], map[];
    for i := 0 to |globals|
      invariant result == globals[..i] && Indexes(index, result)
    {
      var env := globals[i];
      AppendIndexes(index, result, env);
      result := result + [env];
      index := index[env.name := |result| - 1];
    }
  }

  method OverrideOne(env: seq<EnvVar>, index: map<string, nat>, v: EnvVar)
    returns (result: seq<EnvVar>, newIndex: map<string, nat>)
    requires Indexes(index, env)
    ensures result == Override(env, v) && Indexes(newIndex, result)
  {
    if v.name in index {
      SetIndexes(index, env, v);
      return env[index[v.name] := v], index;
    }
    AppendIndexes(index, env, v);
    return env + [v], index[v.name := |env|];
  }

  lemma AppendIndexes(index: map<string, nat>, env: seq<EnvVar>, v: EnvVar)
    requires Indexes(index, env)
    ensures Indexes(index[v.name := |env|], env + [v])
  {
    forall n ensures LastIndex(env + [v], n) == if n == v.name then |env| else LastIndex(env, n) {
      assert (env + [v])[..|env|] == env;
    }
  }

  lemma SetIndexes(index: map<string, nat>, env: seq<EnvVar>, v: EnvVar)
    requires Indexes(index, env) && v.name in index
    ensures index[v.name] < |env| && Indexes(index, env[index[v.name] := v])
  {
    var r := env[index[v.name] := v];
    assert forall j :: 0 <= j < |env| ==> r[j].name == env[j].name;
    forall n ensures LastIndex(r, n) == LastIndex(env, n) {}
  }

  // ------------------------------------------------------------------------ image

  function SpecOf(input: Input): Option<ExtProcSpec> {
    if input.gatewayConfig.None? then None else input.gatewayConfig.value.extProc
  }

  function LastCharIndex(s: string, c: char): (i: int)
    ensures -1 <= i < |s|
  {
    if s == "" then -1 else if s[|s| - 1] == c then |s| - 1 else LastCharIndex(s[..|s| - 1], c)
  }

  function TagOrDigest(image: string): string {
    var at := Text.Index(image, "@");
    var slash, colon := LastCharIndex(image, '/'), LastCharIndex(image, ':');
    if at >= 0 then image[at..]
    else if colon >= 0 && colon > slash then image[colon..]
    else ""
  }

  /** resolveExtProcImage: an image override, or the base tag on another repository. */
  function ImageFor(base: string, spec: Option<ExtProcSpec>): string {
    if spec.None? || spec.value.kubernetes.None? then base
    else
      var k := spec.value.kubernetes.value;
      if k.image.Some? then k.image.value
      else if k.repository.Some? && k.repository.value != "" then k.repository.value + TagOrDigest(base)
      else base
  }

  function ExtProcImage(b: Builder, input: Input): string {
    ImageFor(b.image, SpecOf(input))
  }

  // -------------------------------------------------------------------- arguments

  function NonDefaultLogFormat(format: string): string {
    if format == "text" then "" else format
  }

  function When(present: bool, flag: string, value: string): seq<(string, string)> {
    if present then [(flag, value)] else []
  }

  /** The flags with a value, in the order of the command line. */
  function Flags(b: Builder, needMCP: bool): seq<(string, string)> {
    EarlyFlags(b) + When(needMCP, MCP_ADDR, MCP_PROXY_ADDR) + LateFlags(b)
  }

  function EarlyFlags(b: Builder): seq<(string, string)> {
    BaseFlags(b) + When(NonDefaultLogFormat(b.logFormat) != "", "-logFormat", NonDefaultLogFormat(b.logFormat))
  }

  function LateFlags(b: Builder): seq<(string, string)> {
    When(b.requestAttrs.Some?, "-requestHeaderAttributes", b.requestAttrs.GetOr(""))
    + When(b.spanAttrs.Some?, "-spanRequestHeaderAttributes", b.spanAttrs.GetOr(""))
    + When(b.metricsAttrs.Some?, "-metricsRequestHeaderAttributes", b.metricsAttrs.GetOr(""))
    + When(b.logAttrs.Some?, "-logRequestHeaderAttributes", b.logAttrs.GetOr(""))
    + When(b.endpointPrefixes != "", "-endpointPrefixes", b.endpointPrefixes)
  }

  function BaseFlags(b: Builder): seq<(string, string)> {
    [(LOG_LEVEL, b.logLevel),
     ("-extProcAddr", "unix://" + b.udsPath),
     ("-adminPort", Decimal(ADMIN_PORT)),
     ("-rootPrefix", b.rootPrefix),
     ("-maxRecvMsgSize", Decimal(b.maxRecvMsgSize))]
  }

  function Flat(flags: seq<(string, string)>): seq<string> {
    if flags == [] then [] else [flags[0].0, flags[0].1] + Flat(flags[1..])
  }

  function Tail(b: Builder): seq<string> {
    if b.enableRedaction then ["-enableRedaction"] else []
  }

  lemma {:induction false} FlatConcat(a: seq<(string, string)>, b: seq<(string, string)>)
    ensures Flat(a + b) == Flat(a) + Flat(b)
  {
    if a == [] {
      assert a + b == b;
    } else {
      assert (a + b)[1..] == a[1..] + b;
      FlatConcat(a[1..], b);
    }
  }

  lemma FlatOne(f: string, v: string)
    ensures Flat([(f, v)]) == [f, v]
  {
    assert [(f, v)][1..] == [];
  }

  /** buildExtProcBaseArgs. */
  method BuildExtProcBaseArgs(b: Builder, needMCP: bool) returns (args: seq<string>)
    ensures args == Flat(Flags(b, needMCP)) + Tail(b)
  {
    args := [LOG_LEVEL, b.logLevel, "-extProcAddr", "unix://" + b.udsPath, "-adminPort", Decimal(ADMIN_PORT),
             "-rootPrefix", b.rootPrefix, "-maxRecvMsgSize", Decimal(b.maxRecvMsgSize)];
    ghost var fs := BaseFlags(b);
    FlatBase(b);
    args, fs := AppendWhen(args, fs, NonDefaultLogFormat(b.logFormat) != "", "-logFormat",
                           NonDefaultLogFormat(b.logFormat));
    args, fs := AppendWhen(args, fs, needMCP, MCP_ADDR, MCP_PROXY_ADDR);
    ghost var early := fs;
    args, fs := AppendWhen(args, fs, b.requestAttrs.Some?, "-requestHeaderAttributes", b.requestAttrs.GetOr(""));
    args, fs := AppendWhen(args, fs, b.spanAttrs.Some?, "-spanRequestHeaderAttributes", b.spanAttrs.GetOr(""));
    args, fs := AppendWhen(args, fs, b.metricsAttrs.Some?, "-metricsRequestHeaderAttributes", b.metricsAttrs.GetOr(""));
    args, fs := AppendWhen(args, fs, b.logAttrs.Some?, "-logRequestHeaderAttributes", b.logAttrs.GetOr(""));
    args, fs := AppendWhen(args, fs, b.endpointPrefixes != "", "-endpointPrefixes", b.endpointPrefixes);
    LateAssoc(early, b);
    if b.enableRedaction {
      args := args + ["-enableRedaction"];
    }
  }

  lemma LateAssoc(fs: seq<(string, string)>, b: Builder)
    ensures fs + When(b.requestAttrs.Some?, "-requestHeaderAttributes", b.requestAttrs.GetOr(""))
            + When(b.spanAttrs.Some?, "-spanRequestHeaderAttributes", b.spanAttrs.GetOr(""))
            + When(b.metricsAttrs.Some?, "-metricsRequestHeaderAttributes", b.metricsAttrs.GetOr(""))
            + When(b.logAttrs.Some?, "-logRequestHeaderAttributes", b.logAttrs.GetOr(""))
            + When(b.endpointPrefixes != "", "-endpointPrefixes", b.endpointPrefixes) == fs + LateFlags(b)
  {}

  lemma FlatBase(b: Builder)
    ensures Flat(BaseFlags(b)) ==
            [LOG_LEVEL, b.logLevel, "-extProcAddr", "unix://" + b.udsPath, "-adminPort", Decimal(ADMIN_PORT),
             "-rootPrefix", b.rootPrefix, "-maxRecvMsgSize", Decimal(b.maxRecvMsgSize)]
  {
    var fs := BaseFlags(b);
    FlatOne(fs[4].0, fs[4].1);
    assert fs[4..] == [fs[4]] && fs[3..][1..] == fs[4..] && fs[2..][1..] == fs[3..] && fs[1..][1..] == fs[2..];
    assert Flat(fs[3..]) == [fs[3].0, fs[3].1] + Flat(fs[4..]);
    assert Flat(fs[2..]) == [fs[2].0, fs[2].1] + Flat(fs[3..]);
    assert Flat(fs[1..]) == [fs[1].0, fs[1].1] + Flat(fs[2..]);
  }

  /** Appends a flag and its value if it is present. */
  method AppendWhen(args0: seq<string>, ghost fs0: seq<(string, string)>, present: bool, flag: string, value: string)
    returns (args: seq<string>, ghost fs: seq<(string, string)>)
    requires args0 == Flat(fs0)
    ensures fs == fs0 + When(present, flag, value) && args == Flat(fs)
  {
    FlatConcat(fs0, When(present, flag, value));
    FlatOne(flag, value);
    args, fs := args0, fs0 + When(present, flag, value);
    if present {
      args := args + [flag, value];
    }
  }

  // -------------------------------------------------------- container and digest

  function Mounts(spec: Option<ExtProcSpec>): seq<string> {
    if spec.Some? && spec.value.kubernetes.Some? then spec.value.kubernetes.value.volumeMounts else []
  }

  function SecurityContext(spec: Option<ExtProcSpec>): string {
    if spec.Some? && spec.value.kubernetes.Some?
    then spec.value.kubernetes.value.securityContext.GetOr(DEFAULT_SECURITY)
    else DEFAULT_SECURITY
  }

  function Resources(spec: Option<ExtProcSpec>): string {
    if spec.Some? && spec.value.kubernetes.Some? then spec.value.kubernetes.value.resources.GetOr("") else ""
  }

  /** buildExtProcContainer; `dir` is filepath.Dir. */
  function Build(b: Builder, input: Input, dir: string -> string): Container {
    Container(EXTPROC, ExtProcImage(b, input), b.pullPolicy, Flat(Flags(b, input.needMCP)) + Tail(b),
              MergeEnv(b.extraEnv, OverridesOf(input.gatewayConfig)),
              [UDS_VOLUME + "=" + dir(b.udsPath)] + Mounts(SpecOf(input)),
              SecurityContext(SpecOf(input)), Resources(SpecOf(input)), b.asSideCar)
  }

  /** extProcConfigDigest: what the template hash is computed from. */
  datatype Digest = Digest(image: string, pullPolicy: string, logLevel: string, logFormat: string,
                           enableRedaction: bool, udsPath: string, requestAttrs: Option<string>,
                           spanAttrs: Option<string>, metricsAttrs: Option<string>, logAttrs: Option<string>,
                           rootPrefix: string, endpointPrefixes: string, extraEnv: seq<EnvVar>,
                           pullSecrets: seq<string>, maxRecvMsgSize: nat, asSideCar: bool, needMCP: bool,
                           spec: Option<ExtProcSpec>)

  function DigestOf(b: Builder, input: Input): Digest {
    Digest(ExtProcImage(b, input), b.pullPolicy, b.logLevel, NonDefaultLogFormat(b.logFormat), b.enableRedaction,
           b.udsPath, b.requestAttrs, b.spanAttrs, b.metricsAttrs, b.logAttrs, b.rootPrefix, b.endpointPrefixes,
           b.extraEnv, b.pullSecrets, b.maxRecvMsgSize, b.asSideCar, input.needMCP, SpecOf(input))
  }

  /** The digest misses nothing: equal digests mean equal injected containers and pull
      secrets, so a pod whose template hash is current was built from the current config. */
  lemma DigestDeterminesContainer(b: Builder, input: Input, b': Builder, input': Input, dir: string -> string)
    requires DigestOf(b, input) == DigestOf(b', input')
    ensures Build(b, input, dir) == Build(b', input', dir) && b.pullSecrets == b'.pullSecrets
  {
    assert OverridesOf(input.gatewayConfig) == OverridesOf(input'.gatewayConfig);
    assert Flags(b, input.needMCP) == Flags(b', input'.needMCP);
  }

  /** Restating a default does not roll anything: an explicit "text" format and an absent
      one give the same digest and container. */
  lemma TextFormatIsDefault(b: Builder, input: Input, dir: string -> string)
    ensures DigestOf(b.(logFormat := "text"), input) == DigestOf(b.(logFormat := ""), input)
    ensures Build(b.(logFormat := "text"), input, dir) == Build(b.(logFormat := ""), input, dir)
  {
    DigestDeterminesContainer(b.(logFormat := "text"), input, b.(logFormat := ""), input, dir);
  }

  // -------------------------------------------------------------- webhook and check

  datatype Pod = Pod(init: seq<Container>, containers: seq<Container>, pullSecrets: seq<string>)

  const BUNDLE_ARGS := ["-configBundlePath", "/etc/filter-config-bundle"]
  const BUNDLE_MOUNT := "filter-config-bundle=/etc/filter-config-bundle"

  function MountUds(cs: seq<Container>, mount: string): (r: seq<Container>)
    ensures |r| == |cs| && forall i :: 0 <= i < |cs| ==>
      r[i].name == cs[i].name && r[i].image == cs[i].image && r[i].args == cs[i].args
  {
    seq(|cs|, i requires 0 <= i < |cs| =>
      if cs[i].name == "envoy" then cs[i].(mounts := cs[i].mounts + [mount]) else cs[i])
  }

  /** The container the webhook adds: the built one plus the bundle argument and mount. */
  function Injected(b: Builder, input: Input, dir: string -> string): Container {
    var c := Build(b, input, dir);
    c.(args := BUNDLE_ARGS + c.args, mounts := c.mounts + [BUNDLE_MOUNT])
  }

  /** mutatePod once routes and the index Secret exist. */
  function Mutate(b: Builder, input: Input, dir: string -> string, pod: Pod): Pod {
    var c, uds := Injected(b, input, dir), UDS_VOLUME + "=" + dir(b.udsPath);
    var secrets := pod.pullSecrets + b.pullSecrets;
    if b.asSideCar then Pod(pod.init + [c], MountUds(pod.containers, uds), secrets)
    else Pod(pod.init, MountUds(pod.containers + [c], uds), secrets)
  }

  /** Every value after a log level flag is the wanted one. */
  predicate LogLevelOk(args: seq<string>, level: string) {
    |args| < 2 || ((args[0] == LOG_LEVEL ==> args[1] == level) && LogLevelOk(args[1..], level))
  }

  /** The last value after an MCP address flag. */
  function McpAddr(args: seq<string>, acc: string): string {
    if |args| < 2 then acc else McpAddr(args[1..], if args[0] == MCP_ADDR then args[1] else acc)
  }

  function FindExtProc(cs: seq<Container>, image: string): (i: nat)
    ensures i <= |cs|
    ensures i < |cs| ==> cs[i].name == EXTPROC && cs[i].image == image
    ensures forall j :: 0 <= j < i ==> !(cs[j].name == EXTPROC && cs[j].image == image)
  {
    if cs == [] || (cs[0].name == EXTPROC && cs[0].image == image) then 0 else 1 + FindExtProc(cs[1..], image)
  }

  predicate Current(cs: seq<Container>, level: string, needMCP: bool, image: string) {
    var i := FindExtProc(cs, image);
    i < |cs| && LogLevelOk(cs[i].args, level) && (needMCP ==> McpAddr(cs[i].args, "") == MCP_PROXY_ADDR)
  }

  /** checkPodHasSideCar as a definition. */
  predicate HasSideCar(c: Builder, pod: Pod, needMCP: bool, image: string) {
    Current(if c.asSideCar then pod.init else pod.containers, c.logLevel, needMCP, image)
  }

  lemma {:induction false} LogLevelAt(args: seq<string>, j: nat, level: string)
    requires 0 < j < |args| && args[j - 1] == LOG_LEVEL && args[j] != level
    ensures !LogLevelOk(args, level)
  {
    if j > 1 {
      LogLevelAt(args[1..], j - 1, level);
    }
  }

  /** checkPodHasSideCar, both of its loops. */
  method CheckPodHasSideCar(c: Builder, pod: Pod, needMCP: bool, image: string) returns (has: bool)
    ensures has <==> HasSideCar(c, pod, needMCP, image)
  {
    var cs := if c.asSideCar then pod.init else pod.containers;
    has := false;
    for i := 0 to |cs|
      invariant !has && i <= FindExtProc(cs, image)
    {
      if cs[i].name == EXTPROC && cs[i].image == image {
        has := CheckArgs(cs[i].args, c.logLevel, needMCP);
        assert i == FindExtProc(cs, image);
        break;
      }
    }
  }

  method CheckArgs(args: seq<string>, level: string, needMCP: bool) returns (ok: bool)
    ensures ok <==> LogLevelOk(args, level) && (needMCP ==> McpAddr(args, "") == MCP_PROXY_ADDR)
  {
    ok := true;
    var mcpAddr := "";
    var j := 1;
    while j < |args|
      invariant 1 <= j && ok
      invariant j <= |args| ==> (LogLevelOk(args, level) <==> LogLevelOk(args[j - 1..], level))
      invariant j <= |args| ==> McpAddr(args, "") == McpAddr(args[j - 1..], mcpAddr)
      invariant j > |args| ==> |args| == 0 && mcpAddr == ""
    {
      assert args[j - 1..][1..] == args[j..];
      if args[j - 1] == LOG_LEVEL && args[j] != level {
        LogLevelAt(args, j, level);
        ok := false;
        break;
      }
      if args[j - 1] == MCP_ADDR {
        mcpAddr := args[j];
      }
      j := j + 1;
    }
    assert ok ==> LogLevelOk(args, level) && McpAddr(args, "") == mcpAddr;
    if ok && needMCP && mcpAddr != MCP_PROXY_ADDR {
      ok := false;
    }
  }

  // ------------------------------------------------------------------- agreement

  /** The argument after the value of the i-th flag. */
  function After(flags: seq<(string, string)>, tail: seq<string>, i: nat): Option<string>
    requires i < |flags|
  {
    if i + 1 < |flags| then Some(flags[i + 1].0) else if tail != [] then Some(tail[0]) else None
  }

  /** What is read as a log level at the i-th flag, by its name or by its value, is `level`. */
  predicate LevelAt(flags: seq<(string, string)>, tail: seq<string>, level: string, i: nat)
    requires i < |flags|
  {
    && (flags[i].0 == LOG_LEVEL ==> flags[i].1 == level)
    && (flags[i].1 == LOG_LEVEL ==> After(flags, tail, i).None? || After(flags, tail, i) == Some(level))
  }

  predicate Levels(flags: seq<(string, string)>, tail: seq<string>, level: string) {
    forall i :: 0 <= i < |flags| ==> LevelAt(flags, tail, level, i)
  }

  /** Reading on after the first flag and its value. */
  lemma FlatCons(flags: seq<(string, string)>, tail: seq<string>)
    requires flags != []
    ensures var args, rest := Flat(flags) + tail, Flat(flags[1..]) + tail;
            args == [flags[0].0, flags[0].1] + rest && args[1..] == [flags[0].1] + rest && args[1..][1..] == rest
  {
    var head, rest := [flags[0].0, flags[0].1], Flat(flags[1..]) + tail;
    assert Flat(flags) + tail == head + rest;
  }

  lemma FlatNext(flags: seq<(string, string)>, tail: seq<string>)
    requires flags != [] && |tail| <= 1
    ensures var rest := Flat(flags[1..]) + tail;
            (rest == [] <==> After(flags, tail, 0).None?) && (rest != [] ==> After(flags, tail, 0) == Some(rest[0]))
  {
    if |flags| > 1 {
      assert Flat(flags[1..])[0] == flags[1..][0].0 == flags[1].0;
    } else {
      assert Flat(flags[1..]) + tail == tail;
    }
  }

  lemma LevelsCons(flags: seq<(string, string)>, tail: seq<string>, level: string)
    requires flags != []
    ensures Levels(flags, tail, level) <==> LevelAt(flags, tail, level, 0) && Levels(flags[1..], tail, level)
  {
    var rest := flags[1..];
    assert forall i :: 0 <= i < |rest| ==>
      rest[i] == flags[i + 1] && (LevelAt(rest, tail, level, i) <==> LevelAt(flags, tail, level, i + 1));
    if Levels(rest, tail, level) && LevelAt(flags, tail, level, 0) {
      forall i | 0 <= i < |flags| ensures LevelAt(flags, tail, level, i) {
        assert i > 0 ==> LevelAt(rest, tail, level, i - 1);
      }
    }
  }

  lemma {:induction false} LevelsRead(flags: seq<(string, string)>, tail: seq<string>, level: string)
    requires |tail| <= 1
    ensures LogLevelOk(Flat(flags) + tail, level) <==> Levels(flags, tail, level)
  {
    if flags == [] {
      assert Flat(flags) + tail == tail;
    } else {
      FlatCons(flags, tail);
      FlatNext(flags, tail);
      LevelsCons(flags, tail, level);
      LevelsRead(flags[1..], tail, level);
    }
  }

  /** No value is read as an MCP address flag: it would have to be the very last argument. */
  predicate Unread(flags: seq<(string, string)>, tail: seq<string>) {
    forall i :: 0 <= i < |flags| && flags[i].1 == MCP_ADDR ==> After(flags, tail, i).None?
  }

  /** Names of other flags, and no addresses. */
  predicate OtherNames(flags: seq<(string, string)>) {
    forall i :: 0 <= i < |flags| ==> flags[i].0 != MCP_ADDR && flags[i].0 != MCP_PROXY_ADDR
  }

  predicate OtherTail(tail: seq<string>) {
    |tail| <= 1 && (tail != [] ==> tail[0] != MCP_PROXY_ADDR)
  }

  lemma {:induction false} NoMcpFlag(flags: seq<(string, string)>, tail: seq<string>, acc: string)
    requires OtherNames(flags) && OtherTail(tail)
    ensures McpAddr(Flat(flags) + tail, acc) == MCP_PROXY_ADDR <==> acc == MCP_PROXY_ADDR && Unread(flags, tail)
  {
    if flags == [] {
      assert Flat(flags) + tail == tail;
    } else {
      var rest := flags[1..];
      FlatCons(flags, tail);
      FlatNext(flags, tail);
      var next := After(flags, tail, 0);
      NoMcpFlag(rest, tail, if flags[0].1 == MCP_ADDR && next.Some? then next.value else acc);
      assert forall i :: 0 <= i < |rest| ==>
        rest[i] == flags[i + 1] && After(rest, tail, i) == After(flags, tail, i + 1);
      assert Unread(flags, tail) <==> (flags[0].1 == MCP_ADDR ==> next.None?) && Unread(rest, tail) by {
        if Unread(rest, tail) && (flags[0].1 == MCP_ADDR ==> next.None?) {
          forall i | 0 <= i < |flags| && flags[i].1 == MCP_ADDR ensures After(flags, tail, i).None? {
            assert i > 0 ==> rest[i - 1] == flags[i];
          }
        }
      }
    }
  }

  lemma {:induction false} McpFlag(early: seq<(string, string)>, late: seq<(string, string)>, tail: seq<string>,
                                   acc: string)
    requires OtherNames(late) && OtherTail(tail)
    ensures McpAddr(Flat(early + [(MCP_ADDR, MCP_PROXY_ADDR)] + late) + tail, acc) == MCP_PROXY_ADDR <==>
            Unread(late, tail)
  {
    var flags := early + [(MCP_ADDR, MCP_PROXY_ADDR)] + late;
    FlatCons(flags, tail);
    FlatNext(flags, tail);
    if early == [] {
      assert flags[1..] == late;
      NoMcpFlag(late, tail, MCP_PROXY_ADDR);
    } else {
      assert flags[1..] == early[1..] + [(MCP_ADDR, MCP_PROXY_ADDR)] + late;
      var acc1 := if flags[0].0 == MCP_ADDR then flags[0].1 else acc;
      var next := After(flags, tail, 0);
      McpFlag(early[1..], late, tail, if flags[0].1 == MCP_ADDR && next.Some? then next.value else acc1);
    }
  }

  /** The arguments of an injected container as flags. */
  function AllFlags(b: Builder, needMCP: bool): seq<(string, string)> {
    [(BUNDLE_ARGS[0], BUNDLE_ARGS[1])] + Flags(b, needMCP)
  }

  /** No flag of the list has one of these names. */
  predicate Avoids(flags: seq<(string, string)>, names: set<string>) {
    forall i :: 0 <= i < |flags| ==> flags[i].0 !in names
  }

  lemma AvoidsConcat(a: seq<(string, string)>, b: seq<(string, string)>, names: set<string>)
    requires Avoids(a, names) && Avoids(b, names)
    ensures Avoids(a + b, names)
  {}

  lemma LateNames(b: Builder)
    ensures Avoids(LateFlags(b), {LOG_LEVEL, MCP_ADDR, MCP_PROXY_ADDR})
  {
    var names := {LOG_LEVEL, MCP_ADDR, MCP_PROXY_ADDR};
    assert |LOG_LEVEL| == 9 && |MCP_ADDR| == 8 && |MCP_PROXY_ADDR| == 14;
    var fs := When(b.requestAttrs.Some?, "-requestHeaderAttributes", b.requestAttrs.GetOr(""));
    AvoidsConcat(fs, When(b.spanAttrs.Some?, "-spanRequestHeaderAttributes", b.spanAttrs.GetOr("")), names);
    fs := fs + When(b.spanAttrs.Some?, "-spanRequestHeaderAttributes", b.spanAttrs.GetOr(""));
    AvoidsConcat(fs, When(b.metricsAttrs.Some?, "-metricsRequestHeaderAttributes", b.metricsAttrs.GetOr("")), names);
    fs := fs + When(b.metricsAttrs.Some?, "-metricsRequestHeaderAttributes", b.metricsAttrs.GetOr(""));
    AvoidsConcat(fs, When(b.logAttrs.Some?, "-logRequestHeaderAttributes", b.logAttrs.GetOr("")), names);
    fs := fs + When(b.logAttrs.Some?, "-logRequestHeaderAttributes", b.logAttrs.GetOr(""));
    AvoidsConcat(fs, When(b.endpointPrefixes != "", "-endpointPrefixes", b.endpointPrefixes), names);
  }

  /** Everything before the MCP flag, past the log level. */
  lemma EarlyNames(b: Builder)
    ensures EarlyFlags(b) != [] && EarlyFlags(b)[0] == (LOG_LEVEL, b.logLevel)
    ensures Avoids(EarlyFlags(b)[1..], {LOG_LEVEL, MCP_ADDR, MCP_PROXY_ADDR})
  {
    var names := {LOG_LEVEL, MCP_ADDR, MCP_PROXY_ADDR};
    assert |LOG_LEVEL| == 9 && |MCP_ADDR| == 8 && |MCP_PROXY_ADDR| == 14;
    var base := BaseFlags(b)[1..];
    assert "-adminPort"[1] == 'a' && Avoids(base, names);
    AvoidsConcat(base, When(NonDefaultLogFormat(b.logFormat) != "", "-logFormat", NonDefaultLogFormat(b.logFormat)),
                 names);
    assert EarlyFlags(b)[1..] ==
      base + When(NonDefaultLogFormat(b.logFormat) != "", "-logFormat", NonDefaultLogFormat(b.logFormat));
  }

  /** The values read well: each one equal to "-logLevel" is the last argument or followed by
      the level, and, if the MCP address is looked for, none after it is read as its flag. */
  predicate ReadsWell(b: Builder, input: Input, level: string, needMCP: bool) {
    && (forall i :: 0 <= i < |AllFlags(b, input.needMCP)| && AllFlags(b, input.needMCP)[i].1 == LOG_LEVEL ==>
          var next := After(AllFlags(b, input.needMCP), Tail(b), i); next.None? || next.value == level)
    && (needMCP ==> Unread(LateFlags(b), Tail(b)))
  }

  lemma SecondOnly(first: (string, string), early: seq<(string, string)>, mcp: seq<(string, string)>,
                   late: seq<(string, string)>, name: string)
    requires early != [] && early[0].0 == name && first.0 != name
    requires Avoids(early[1..], {name}) && Avoids(mcp, {name}) && Avoids(late, {name})
    ensures var flags := [first] + (early + mcp + late);
            |flags| > 1 && flags[1] == early[0] && forall i :: 0 <= i < |flags| && flags[i].0 == name ==> i == 1
  {
    var flags, rest := [first] + (early + mcp + late), early[1..] + mcp + late;
    AvoidsConcat(early[1..], mcp, {name});
    AvoidsConcat(early[1..] + mcp, late, {name});
    assert flags == [first, early[0]] + rest;
    assert forall i :: 2 <= i < |flags| ==> flags[i] == rest[i - 2];
  }

  /** The log level flag comes second, and once. */
  lemma LevelFlag(b: Builder, needMCP: bool)
    ensures |AllFlags(b, needMCP)| > 1 && AllFlags(b, needMCP)[1] == (LOG_LEVEL, b.logLevel)
    ensures forall i :: 0 <= i < |AllFlags(b, needMCP)| && AllFlags(b, needMCP)[i].0 == LOG_LEVEL ==> i == 1
  {
    EarlyNames(b);
    LateNames(b);
    assert |LOG_LEVEL| == 9 && |MCP_ADDR| == 8 && |BUNDLE_ARGS[0]| == 17;
    SecondOnly((BUNDLE_ARGS[0], BUNDLE_ARGS[1]), EarlyFlags(b), When(needMCP, MCP_ADDR, MCP_PROXY_ADDR), LateFlags(b),
               LOG_LEVEL);
  }

  /** The arguments of an injected container, as the check reads them. */
  lemma InjectedArgs(b: Builder, input: Input, dir: string -> string, level: string)
    ensures var args, flags := Injected(b, input, dir).args, AllFlags(b, input.needMCP);
            && (LogLevelOk(args, level) <==> Levels(flags, Tail(b), level))
            && (McpAddr(args, "") == MCP_PROXY_ADDR <==> input.needMCP && Unread(LateFlags(b), Tail(b)))
  {
    ArgsAreFlags(b, input, dir);
    LevelsRead(AllFlags(b, input.needMCP), Tail(b), level);
    McpRead(b, input.needMCP);
  }

  lemma ArgsAreFlags(b: Builder, input: Input, dir: string -> string)
    ensures Injected(b, input, dir).args == Flat(AllFlags(b, input.needMCP)) + Tail(b)
  {
    var flags := AllFlags(b, input.needMCP);
    assert flags[1..] == Flags(b, input.needMCP);
    assert Flat(flags) == BUNDLE_ARGS + Flat(Flags(b, input.needMCP));
  }

  lemma McpRead(b: Builder, needMCP: bool)
    ensures McpAddr(Flat(AllFlags(b, needMCP)) + Tail(b), "") == MCP_PROXY_ADDR <==>
            needMCP && Unread(LateFlags(b), Tail(b))
  {
    var bundle := [(BUNDLE_ARGS[0], BUNDLE_ARGS[1])];
    var early := bundle + EarlyFlags(b);
    assert |LOG_LEVEL| == 9 && |MCP_ADDR| == 8 && |BUNDLE_ARGS[0]| == 17 && |MCP_PROXY_ADDR| == 14 &&
      |"-enableRedaction"| == 16;
    LateNames(b);
    assert OtherNames(LateFlags(b)) && OtherTail(Tail(b));
    if needMCP {
      assert AllFlags(b, needMCP) == early + [(MCP_ADDR, MCP_PROXY_ADDR)] + LateFlags(b);
      McpFlag(early, LateFlags(b), Tail(b), "");
    } else {
      EarlyNames(b);
      EarlyOthers(b);
      assert AllFlags(b, needMCP) == early + LateFlags(b);
      NoMcpFlag(early + LateFlags(b), Tail(b), "");
    }
  }

  lemma EarlyOthers(b: Builder)
    ensures OtherNames([(BUNDLE_ARGS[0], BUNDLE_ARGS[1])] + EarlyFlags(b) + LateFlags(b))
  {
    var names, bundle := {MCP_ADDR, MCP_PROXY_ADDR}, [(BUNDLE_ARGS[0], BUNDLE_ARGS[1])];
    EarlyNames(b);
    LateNames(b);
    assert |LOG_LEVEL| == 9 && |MCP_ADDR| == 8 && |BUNDLE_ARGS[0]| == 17 && |MCP_PROXY_ADDR| == 14;
    var early := EarlyFlags(b);
    assert early == [early[0]] + early[1..];
    AvoidsConcat([early[0]], early[1..], names);
    AvoidsConcat(bundle, early, names);
    AvoidsConcat(bundle + early, LateFlags(b), names);
  }

  lemma LevelsAre(b: Builder, input: Input, level: string)
    ensures Levels(AllFlags(b, input.needMCP), Tail(b), level) <==>
            b.logLevel == level && ReadsWell(b, input, level, false)
  {
    var flags := AllFlags(b, input.needMCP);
    LevelFlag(b, input.needMCP);
    if Levels(flags, Tail(b), level) {
      assert LevelAt(flags, Tail(b), level, 1);
      forall i | 0 <= i < |flags| && flags[i].1 == LOG_LEVEL
        ensures var next := After(flags, Tail(b), i); next.None? || next.value == level
      {
        assert LevelAt(flags, Tail(b), level, i);
      }
    }
  }

  /** A pod template as Envoy Gateway writes it: no container of ours in it. */
  predicate PlainTemplate(pod: Pod) {
    && (forall i :: 0 <= i < |pod.init| ==> pod.init[i].name != EXTPROC)
    && (forall i :: 0 <= i < |pod.containers| ==> pod.containers[i].name != EXTPROC)
  }

  /** A pod built by one configuration passes the check of another exactly when image and
      log level agree, the MCP proxy is there if it is needed, and the values read well. */
  lemma BuilderCheckerAgree(b: Builder, input: Input, c: Builder, needMCP: bool, image: string, dir: string -> string,
                            template: Pod)
    requires b.asSideCar == c.asSideCar && PlainTemplate(template)
    ensures HasSideCar(c, Mutate(b, input, dir, template), needMCP, image) <==>
            && image == ExtProcImage(b, input) && b.logLevel == c.logLevel && (needMCP ==> input.needMCP)
            && ReadsWell(b, input, c.logLevel, needMCP)
  {
    InjectedFound(b, input, c, needMCP, image, dir, template);
    InjectedArgs(b, input, dir, c.logLevel);
    LevelsAre(b, input, c.logLevel);
  }

  /** The check looks at the injected container and at no other. */
  lemma InjectedFound(b: Builder, input: Input, c: Builder, needMCP: bool, image: string, dir: string -> string,
                      template: Pod)
    requires b.asSideCar == c.asSideCar && PlainTemplate(template)
    ensures var args := Injected(b, input, dir).args;
            HasSideCar(c, Mutate(b, input, dir, template), needMCP, image) <==>
            image == ExtProcImage(b, input) && LogLevelOk(args, c.logLevel) &&
              (needMCP ==> McpAddr(args, "") == MCP_PROXY_ADDR)
  {
    var pod, inj := Mutate(b, input, dir, template), Injected(b, input, dir);
    var cs := if c.asSideCar then pod.init else pod.containers;
    var n := |cs| - 1;
    assert cs[n].name == inj.name && cs[n].image == inj.image && cs[n].args == inj.args;
    assert forall i :: 0 <= i < n ==> cs[i].name != EXTPROC;
    FoundLast(cs, image);
  }

  lemma FoundLast(cs: seq<Container>, image: string)
    requires cs != [] && cs[|cs| - 1].name == EXTPROC && forall i :: 0 <= i < |cs| - 1 ==> cs[i].name != EXTPROC
    ensures FindExtProc(cs, image) == if cs[|cs| - 1].image == image then |cs| - 1 else |cs|
  {}

  predicate Plain(value: string) {
    value != LOG_LEVEL && value != MCP_ADDR
  }

  /** No configured argument value is spelled like one of the two flags the check looks for. */
  predicate NoFlagValues(b: Builder) {
    && Plain(b.logLevel) && Plain(b.logFormat) && Plain(b.rootPrefix) && Plain(b.endpointPrefixes)
    && Plain(b.requestAttrs.GetOr("")) && Plain(b.spanAttrs.GetOr("")) && Plain(b.metricsAttrs.GetOr(""))
    && Plain(b.logAttrs.GetOr(""))
  }

  lemma FixedValuesPlain(b: Builder)
    ensures Plain("unix://" + b.udsPath) && Plain(BUNDLE_ARGS[1])
    ensures Plain(Decimal(ADMIN_PORT)) && Plain(Decimal(b.maxRecvMsgSize))
  {
    DecimalDigits(ADMIN_PORT);
    DecimalDigits(b.maxRecvMsgSize);
    assert Decimal(ADMIN_PORT)[0] in Decimal(ADMIN_PORT) && Decimal(b.maxRecvMsgSize)[0] in Decimal(b.maxRecvMsgSize);
    assert ("unix://" + b.udsPath)[0] == 'u' && LOG_LEVEL[0] == '-' && MCP_ADDR[0] == '-' && BUNDLE_ARGS[1][0] == '/';
  }

  predicate PlainFlags(flags: seq<(string, string)>) {
    forall i :: 0 <= i < |flags| ==> Plain(flags[i].1)
  }

  lemma NoFlagValuesPlain(b: Builder, needMCP: bool)
    requires NoFlagValues(b)
    ensures PlainFlags(LateFlags(b)) && PlainFlags(AllFlags(b, needMCP))
  {
    FixedValuesPlain(b);
    assert MCP_PROXY_ADDR[0] == '1' && Plain(MCP_PROXY_ADDR);
    assert PlainFlags(LateFlags(b));
    assert PlainFlags(EarlyFlags(b));
    assert PlainFlags(EarlyFlags(b) + When(needMCP, MCP_ADDR, MCP_PROXY_ADDR));
  }

  /** Such values read well, whatever is checked. */
  lemma PlainValuesReadWell(b: Builder, input: Input, level: string, needMCP: bool)
    requires NoFlagValues(b)
    ensures ReadsWell(b, input, level, needMCP)
  {
    NoFlagValuesPlain(b, input.needMCP);
  }

  /** They need not be: a root prefix spelled "-logLevel" is followed by a flag, so no pod
      passes, not even one built by the checking configuration itself. */
  lemma FlagValueFailsOwnCheck(b: Builder, input: Input, needMCP: bool, dir: string -> string, template: Pod)
    requires b.rootPrefix == LOG_LEVEL && b.logLevel != "-maxRecvMsgSize" && PlainTemplate(template)
    ensures !HasSideCar(b, Mutate(b, input, dir, template), needMCP, ExtProcImage(b, input))
  {
    BuilderCheckerAgree(b, input, b, needMCP, ExtProcImage(b, input), dir, template);
    BaseFlagAt(b, input.needMCP, 3);
    BaseFlagAt(b, input.needMCP, 4);
    assert After(AllFlags(b, input.needMCP), Tail(b), 4) == Some("-maxRecvMsgSize");
  }

  lemma BaseFlagAt(b: Builder, needMCP: bool, k: nat)
    requires k < 5
    ensures |AllFlags(b, needMCP)| > k + 1 && AllFlags(b, needMCP)[k + 1] == BaseFlags(b)[k]
  {
    assert EarlyFlags(b)[k] == BaseFlags(b)[k];
    assert Flags(b, needMCP)[k] == EarlyFlags(b)[k];
  }

  /** And spelled like a flag they may still pass: as the last argument of all. */
  lemma LastValueMayBeAnything(b: Builder, input: Input, needMCP: bool, dir: string -> string, template: Pod)
    requires b.endpointPrefixes == LOG_LEVEL && !b.enableRedaction && NoFlagValues(b.(endpointPrefixes := ""))
    requires PlainTemplate(template) && (needMCP ==> input.needMCP)
    ensures HasSideCar(b, Mutate(b, input, dir, template), needMCP, ExtProcImage(b, input))
  {
    BuilderCheckerAgree(b, input, b, needMCP, ExtProcImage(b, input), dir, template);
    LastValueReadsWell(b, input, needMCP);
  }

  lemma LastValueReadsWell(b: Builder, input: Input, needMCP: bool)
    requires b.endpointPrefixes == LOG_LEVEL && !b.enableRedaction && NoFlagValues(b.(endpointPrefixes := ""))
    ensures ReadsWell(b, input, b.logLevel, needMCP)
  {
    var b', last := b.(endpointPrefixes := ""), [("-endpointPrefixes", LOG_LEVEL)];
    NoFlagValuesPlain(b', input.needMCP);
    assert LateFlags(b) == LateFlags(b') + last;
    assert Flags(b, input.needMCP) == Flags(b', input.needMCP) + last;
    assert AllFlags(b, input.needMCP) == AllFlags(b', input.needMCP) + last;
  }

  /** A pod that the webhook leaves alone never passes. */
  lemma UninjectedFails(c: Builder, needMCP: bool, image: string, template: Pod)
    requires PlainTemplate(template)
    ensures !HasSideCar(c, template, needMCP, image)
  {}
}
