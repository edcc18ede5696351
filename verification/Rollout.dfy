/** The rollout loop: the Gateway reconciler patches workload templates, Kubernetes
    replaces pods, and the webhook injects the container into each new pod. */
module Rollout {
  import opened Wrappers
  import opened ExtProcBuilder

  datatype Kind = Deployment | DaemonSet

  /** A pod of a workload, with the template generation it was created from. */
  datatype Replica = Replica(pod: Pod, version: nat, terminating: bool)

  /** A Deployment or DaemonSet: the hash annotation of its template ("" if absent), its
      generation, and the status it last reported. */
  datatype Workload = Workload(kind: Kind, hash: string, generation: nat, observed: nat, replicas: nat, updated: nat,
                               pods: seq<Replica>)

  /** What stays fixed: the builder and its input, whether any route is attached, whether
      one of them is not being deleted, the desired hash and the plain pod template. */
  datatype Config = Config(builder: Builder, input: Input, dir: string -> string, routes: bool, effective: bool,
                           hash: string, template: Pod)

  predicate ValidConfig(cfg: Config) {
    && PlainTemplate(cfg.template) && (cfg.effective ==> cfg.routes)
    && ReadsWell(cfg.builder, cfg.input, cfg.builder.logLevel, cfg.input.needMCP)
  }

  datatype Cluster = Cluster(workloads: seq<Workload>, indexWritten: bool)

  // ----------------------------------------------------------- what is looked at

  predicate Rolling(w: Workload) {
    w.observed < w.generation || w.replicas > w.updated
  }

  /** isRolloutInProgress: a DaemonSet whose status was never written is passed over. */
  predicate InProgress(ws: seq<Workload>) {
    exists i :: 0 <= i < |ws| && Rolling(ws[i]) && !(ws[i].kind.DaemonSet? && ws[i].observed == 0)
  }

  predicate Passes(cfg: Config, pod: Pod) {
    HasSideCar(cfg.builder, pod, cfg.input.needMCP, ExtProcImage(cfg.builder, cfg.input))
  }

  /** The pod has the sidecar exactly if it should. */
  predicate Right(cfg: Config, pod: Pod) {
    Passes(cfg, pod) <==> cfg.effective
  }

  predicate LiveWith(cfg: Config, r: Replica) {
    !r.terminating && Passes(cfg, r.pod)
  }

  predicate LiveWithout(cfg: Config, r: Replica) {
    !r.terminating && !Passes(cfg, r.pod)
  }

  predicate Any(ok: Replica -> bool, pods: seq<Replica>) {
    exists i :: 0 <= i < |pods| && ok(pods[i])
  }

  lemma AnySnoc(ok: Replica -> bool, pods: seq<Replica>, i: nat)
    requires i < |pods|
    ensures Any(ok, pods[..i + 1]) <==> Any(ok, pods[..i]) || ok(pods[i])
    ensures Any(ok, pods[..i + 1]) ==> Any(ok, pods)
  {
    assert pods[..i + 1][i] == pods[i];
    assert forall k :: 0 <= k < i ==> pods[..i + 1][k] == pods[..i][k];
    if Any(ok, pods[..i + 1]) {
      var k :| 0 <= k < i + 1 && ok(pods[..i + 1][k]);
      assert ok(pods[k]);
    }
  }

  predicate SeenWith(cfg: Config, pods: seq<Replica>) {
    Any(r => LiveWith(cfg, r), pods)
  }

  predicate SeenWithout(cfg: Config, pods: seq<Replica>) {
    Any(r => LiveWithout(cfg, r), pods)
  }

  predicate NeedsState(cfg: Config, pods: seq<Replica>) {
    var having, without := SeenWith(cfg, pods), SeenWithout(cfg, pods);
    cfg.effective != (having && !without) || (having && without)
  }

  predicate NeedsHash(cfg: Config, w: Workload) {
    cfg.effective && cfg.hash != "" && w.hash != cfg.hash
  }

  function Patched(cfg: Config, w: Workload, state: bool): Workload {
    if !state && !NeedsHash(cfg, w) then w
    else w.(generation := w.generation + 1, hash := if NeedsHash(cfg, w) then cfg.hash else w.hash)
  }

  /** The first `n` workloads patched: all of them on success, fewer when a call fails. */
  function PatchFirst(cfg: Config, ws: seq<Workload>, state: bool, n: nat): (r: seq<Workload>)
    requires n <= |ws|
    ensures |r| == |ws|
    ensures forall i :: 0 <= i < |ws| ==> r[i] == if i < n then Patched(cfg, ws[i], state) else ws[i]
  {
    seq(|ws|, i requires 0 <= i < |ws| => if i < n then Patched(cfg, ws[i], state) else ws[i])
  }

  function AllPods(ws: seq<Workload>): seq<Replica> {
    if ws == [] then [] else ws[0].pods + AllPods(ws[1..])
  }

  /** A reconcile whose pod list is `pods`: the index Secret is written, then nothing is
      patched during a rollout, else the first `n` workloads are. */
  function Reconciled(cfg: Config, c: Cluster, pods: seq<Replica>, n: nat): Cluster
    requires n <= |c.workloads|
  {
    Cluster(if InProgress(c.workloads) then c.workloads else PatchFirst(cfg, c.workloads, NeedsState(cfg, pods), n),
            true)
  }

  // ----------------------------------------------------------------- the code

  class GatewayController {
    var workloads: seq<Workload>

    constructor (ws: seq<Workload>)
      ensures workloads == ws
    {
      workloads := ws;
    }

    method IsRolloutInProgress() returns (rolling: bool)
      ensures rolling <==> InProgress(workloads)
    {
      for i := 0 to |workloads|
        invariant forall k :: 0 <= k < i ==>
          !(Rolling(workloads[k]) && !(workloads[k].kind.DaemonSet? && workloads[k].observed == 0))
      {
        var w := workloads[i];
        if w.kind.DaemonSet? && w.observed == 0 {
          continue;
        }
        if w.observed < w.generation {
          return true;
        }
        if w.replicas > w.updated {
          return true;
        }
      }
      return false;
    }

    /** The first loop of annotateGatewayPods; it ends once both kinds of pods are seen. */
    static method LookAtPods(cfg: Config, pods: seq<Replica>) returns (having: bool, without: bool)
      ensures having <==> SeenWith(cfg, pods)
      ensures without <==> SeenWithout(cfg, pods)
    {
      having, without := ScanPods(cfg, pods, r => LiveWith(cfg, r), r => LiveWithout(cfg, r));
    }

    static method ScanPods(cfg: Config, pods: seq<Replica>, ghost good: Replica -> bool, ghost bad: Replica -> bool)
      returns (having: bool, without: bool)
      requires good == (r => LiveWith(cfg, r)) && bad == (r => LiveWithout(cfg, r))
      ensures having <==> Any(good, pods)
      ensures without <==> Any(bad, pods)
    {
      having, without := false, false;
      for i := 0 to |pods|
        invariant having <==> Any(good, pods[..i])
        invariant without <==> Any(bad, pods[..i])
      {
        AnySnoc(good, pods, i);
        AnySnoc(bad, pods, i);
        var has, live := LookAtPod(cfg, pods[i], good, bad);
        if live {
          if has {
            having := true;
          } else {
            without := true;
          }
          if having && without {
            return;
          }
        }
      }
      assert pods[..|pods|] == pods;
    }

    static method LookAtPod(cfg: Config, r: Replica, ghost good: Replica -> bool, ghost bad: Replica -> bool)
      returns (has: bool, live: bool)
      requires good == (r => LiveWith(cfg, r)) && bad == (r => LiveWithout(cfg, r))
      ensures good(r) <==> live && has
      ensures bad(r) <==> live && !has
    {
      live := !r.terminating;
      has := CheckPodHasSideCar(cfg.builder, r.pod, cfg.input.needMCP, ExtProcImage(cfg.builder, cfg.input));
    }

    /** annotateGatewayPods. `calls` is how many API calls succeed before one fails. */
    method AnnotateGatewayPods(cfg: Config, pods: seq<Replica>, calls: nat)
      returns (requeue: bool, err: bool, ghost n: nat)
      modifies this
      ensures requeue <==> InProgress(old(workloads))
      ensures n <= |old(workloads)| && (!err && !requeue ==> n == |old(workloads)|)
      ensures workloads == if requeue then old(workloads) else PatchFirst(cfg, old(workloads), NeedsState(cfg, pods), n)
      ensures !requeue && !err && cfg.effective && cfg.hash != "" ==>
                forall i :: 0 <= i < |workloads| ==>
                  && workloads[i].hash == cfg.hash
                  && (workloads[i].generation > old(workloads)[i].generation <==>
                        old(workloads)[i].hash != cfg.hash || PodsCall(cfg, pods))
    {
      NeedsStateIsCall(cfg, pods);
      n := 0;
      requeue := IsRolloutInProgress();
      if requeue {
        return true, false, 0;
      }
      var having, without := LookAtPods(cfg, pods);
      var left;
      left, err := AnnotatePods(pods, calls);
      if err {
        return;
      }
      var state := cfg.effective != (having && !without) || (having && without);
      err, n := PatchWorkloads(cfg, state, left);
    }

    /** Annotates every live pod; the annotations themselves play no part here. */
    static method AnnotatePods(pods: seq<Replica>, calls: nat) returns (left: nat, err: bool)
      ensures left <= calls && (err ==> left == 0)
    {
      left, err := calls, false;
      for i := 0 to |pods|
        invariant left <= calls
      {
        if pods[i].terminating {
          continue;
        }
        if left == 0 {
          return 0, true;
        }
        left := left - 1;
      }
    }

    method PatchWorkloads(cfg: Config, state: bool, calls: nat) returns (err: bool, ghost n: nat)
      modifies this
      ensures n <= |old(workloads)| && (!err ==> n == |old(workloads)|)
      ensures workloads == PatchFirst(cfg, old(workloads), state, n)
    {
      n := 0;
      var left := calls;
      for i := 0 to |workloads|
        invariant |workloads| == |old(workloads)| && n == i
        invariant workloads == PatchFirst(cfg, old(workloads), state, i)
      {
        var w := workloads[i];
        var hash := NeedsHash(cfg, w);
        if state || hash {
          if left == 0 {
            return true, i;
          }
          left := left - 1;
          workloads := workloads[i := w.(generation := w.generation + 1, hash := if hash then cfg.hash else w.hash)];
        }
        n := i + 1;
      }
      err := false;
    }
  }

  // ------------------------------------------------------------ the whole system

  /** mutatePod on a new pod. */
  function Webhook(cfg: Config, indexWritten: bool): Pod {
    if cfg.routes && indexWritten then Mutate(cfg.builder, cfg.input, cfg.dir, cfg.template) else cfg.template
  }

  datatype Step =
    | Reconcile(pods: seq<Replica>, n: nat)     // on this pod list; n workloads are patched, all on success
    | CreatePod(w: nat, version: nat)           // a replica set or daemon controller creates a pod
    | TerminatePod(w: nat, pod: nat)
    | RemovePod(w: nat, pod: nat)
    | Report(w: nat)                            // the workload controller writes its status

  function Count(pods: seq<Replica>, version: Option<nat>): nat {
    if pods == [] then 0
    else
      var here := !pods[0].terminating && (version.None? || pods[0].version == version.value);
      (if here then 1 else 0) + Count(pods[1..], version)
  }

  predicate Live(c: Cluster) {
    exists i :: 0 <= i < |AllPods(c.workloads)| && !AllPods(c.workloads)[i].terminating
  }

  /** Old-template pods are created only while the rollout is not reported complete. The
      pod list of a reconcile is any list: it was read before the workloads were. */
  predicate Enabled(c: Cluster, s: Step) {
    match s
    case Reconcile(_, n) => n <= |c.workloads|
    case CreatePod(w, v) =>
      w < |c.workloads| && v <= c.workloads[w].generation && (v < c.workloads[w].generation ==> Rolling(c.workloads[w]))
    case TerminatePod(w, p) => w < |c.workloads| && p < |c.workloads[w].pods|
    case RemovePod(w, p) => w < |c.workloads| && p < |c.workloads[w].pods| && c.workloads[w].pods[p].terminating
    case Report(w) => w < |c.workloads|
  }

  function Moved(cfg: Config, w: Workload, s: Step, indexWritten: bool): Workload
    requires s.TerminatePod? || s.RemovePod? ==> s.pod < |w.pods|
  {
    match s
    case Reconcile(_, _) => w
    case CreatePod(_, v) => w.(pods := w.pods + [Replica(Webhook(cfg, indexWritten), v, false)])
    case TerminatePod(_, p) => w.(pods := w.pods[p := w.pods[p].(terminating := true)])
    case RemovePod(_, p) => w.(pods := w.pods[..p] + w.pods[p + 1..])
    case Report(_) =>
      w.(observed := w.generation, replicas := Count(w.pods, None), updated := Count(w.pods, Some(w.generation)))
  }

  function Next(cfg: Config, c: Cluster, s: Step): Cluster
    requires Enabled(c, s)
  {
    if s.Reconcile? then Reconciled(cfg, c, s.pods, s.n)
    else c.(workloads := c.workloads[s.w := Moved(cfg, c.workloads[s.w], s, c.indexWritten)])
  }

  // --------------------------------------------------------- status that is honest

  /** A status never runs ahead of the generation, and a reported end of a rollout means
      that no live pod has an older template. */
  ghost predicate Honest(w: Workload) {
    && w.observed <= w.generation
    && (!Rolling(w) ==> forall i :: 0 <= i < |w.pods| && !w.pods[i].terminating ==> w.pods[i].version == w.generation)
  }

  ghost predicate AllHonest(c: Cluster) {
    forall i :: 0 <= i < |c.workloads| ==> Honest(c.workloads[i])
  }

  lemma {:induction false} CountUpdated(pods: seq<Replica>, g: nat)
    ensures Count(pods, Some(g)) <= Count(pods, None)
    ensures Count(pods, None) <= Count(pods, Some(g)) ==>
              forall i :: 0 <= i < |pods| && !pods[i].terminating ==> pods[i].version == g
  {
    if pods != [] {
      CountUpdated(pods[1..], g);
      assert forall i :: 1 <= i < |pods| ==> pods[i] == pods[1..][i - 1];
    }
  }

  lemma {:induction false} CountCurrent(pods: seq<Replica>, g: nat)
    requires forall i :: 0 <= i < |pods| && !pods[i].terminating ==> pods[i].version == g
    ensures Count(pods, None) == Count(pods, Some(g))
  {
    if pods != [] {
      CountCurrent(pods[1..], g);
    }
  }

  /** A reported rollout is over exactly when every live pod has the current template. */
  lemma ReportedDoneIff(cfg: Config, w: Workload, n: nat, indexWritten: bool)
    ensures !Rolling(Moved(cfg, w, Report(n), indexWritten)) <==>
            forall i :: 0 <= i < |w.pods| && !w.pods[i].terminating ==> w.pods[i].version == w.generation
  {
    CountUpdated(w.pods, w.generation);
    if forall i :: 0 <= i < |w.pods| && !w.pods[i].terminating ==> w.pods[i].version == w.generation {
      CountCurrent(w.pods, w.generation);
    }
  }

  lemma MovedHonest(cfg: Config, w: Workload, s: Step, indexWritten: bool)
    requires Honest(w) && !s.Reconcile?
    requires s.TerminatePod? || s.RemovePod? ==> s.pod < |w.pods|
    requires s.CreatePod? ==> s.version <= w.generation && (s.version < w.generation ==> Rolling(w))
    ensures Honest(Moved(cfg, w, s, indexWritten))
  {
    CountUpdated(w.pods, w.generation);
  }

  lemma StepHonest(cfg: Config, c: Cluster, s: Step)
    requires AllHonest(c) && Enabled(c, s)
    ensures AllHonest(Next(cfg, c, s))
  {
    if !s.Reconcile? {
      MovedHonest(cfg, c.workloads[s.w], s, c.indexWritten);
    }
  }

  // ------------------------------------------------------------------ convergence

  /** Every live pod that is wrong predates its workload's template, and the templates
      carry the desired hash: all that is left is for rollouts to finish. */
  ghost predicate Armed(cfg: Config, c: Cluster) {
    && c.indexWritten
    && (forall i :: 0 <= i < |c.workloads| ==> WorkloadArmed(cfg, c.workloads[i]))
  }

  ghost predicate WorkloadArmed(cfg: Config, w: Workload) {
    && !NeedsHash(cfg, w)
    && (forall j :: 0 <= j < |w.pods| ==> PodArmed(cfg, w.pods[j], w.generation))
  }

  predicate PodArmed(cfg: Config, r: Replica, generation: nat) {
    !r.terminating && !Right(cfg, r.pod) ==> r.version < generation
  }

  /** Creating, terminating and removing pods and reporting status keep a workload armed. */
  lemma MovedArmed(cfg: Config, w: Workload, s: Step)
    requires !s.Reconcile? && (s.TerminatePod? || s.RemovePod? ==> s.pod < |w.pods|)
    requires WorkloadArmed(cfg, w) && Right(cfg, Webhook(cfg, true))
    ensures WorkloadArmed(cfg, Moved(cfg, w, s, true))
  {
    var t := Moved(cfg, w, s, true);
    assert t.generation == w.generation && t.hash == w.hash;
    forall j | 0 <= j < |t.pods| ensures PodArmed(cfg, t.pods[j], t.generation) {
      if s.CreatePod? && j == |w.pods| {
        assert t.pods[j].pod == Webhook(cfg, true);
      } else if s.RemovePod? && j >= s.pod {
        assert t.pods[j] == w.pods[j + 1];
      } else if !(s.TerminatePod? && j == s.pod) {
        assert t.pods[j] == w.pods[j];
      }
    }
  }

  /** The webhook builds what the check accepts. */
  lemma WebhookIsRight(cfg: Config)
    requires ValidConfig(cfg) && cfg.routes == cfg.effective
    ensures Right(cfg, Webhook(cfg, true))
  {
    BuilderCheckerAgree(cfg.builder, cfg.input, cfg.builder, cfg.input.needMCP, ExtProcImage(cfg.builder, cfg.input),
                        cfg.dir, cfg.template);
    UninjectedFails(cfg.builder, cfg.input.needMCP, ExtProcImage(cfg.builder, cfg.input), cfg.template);
  }

  lemma {:induction false} PodOf(ws: seq<Workload>, k: nat) returns (i: nat, j: nat)
    requires k < |AllPods(ws)|
    ensures i < |ws| && j < |ws[i].pods| && ws[i].pods[j] == AllPods(ws)[k]
  {
    if k < |ws[0].pods| {
      i, j := 0, k;
    } else {
      i, j := PodOf(ws[1..], k - |ws[0].pods|);
      i := i + 1;
    }
  }

  lemma {:induction false} PodAt(ws: seq<Workload>, i: nat, j: nat) returns (k: nat)
    requires i < |ws| && j < |ws[i].pods|
    ensures k < |AllPods(ws)| && AllPods(ws)[k] == ws[i].pods[j]
  {
    if i == 0 {
      k := j;
    } else {
      k := PodAt(ws[1..], i - 1, j);
      k := k + |ws[0].pods|;
    }
  }

  /** With a live pod (or no sidecar wanted), no state rollout is needed exactly when
      every live pod is right. */
  lemma StateNeeded(cfg: Config, pods: seq<Replica>)
    requires cfg.effective ==> exists i :: 0 <= i < |pods| && !pods[i].terminating
    ensures !NeedsState(cfg, pods) <==> forall i :: 0 <= i < |pods| && !pods[i].terminating ==> Right(cfg, pods[i].pod)
  {}

  /** The pod list leads to another decision than the pods themselves would. */
  predicate Misjudged(cfg: Config, c: Cluster, pods: seq<Replica>) {
    NeedsState(cfg, pods) != NeedsState(cfg, AllPods(c.workloads))
  }

  /** A rollout is under way and passes unnoticed: only DaemonSets without a status roll. */
  predicate Unnoticed(c: Cluster) {
    !InProgress(c.workloads) && exists i :: 0 <= i < |c.workloads| && Rolling(c.workloads[i])
  }

  /** What can make a reconcile patch needlessly: its pod list misleads it, it overlooks the
      rollout of a DaemonSet without a status, or there is no pod to show that all is well. */
  predicate Odd(cfg: Config, c: Cluster, pods: seq<Replica>) {
    !InProgress(c.workloads) && (Misjudged(cfg, c, pods) || Unnoticed(c) || (cfg.effective && !Live(c)))
  }

  /** Once armed, a reconcile that is not odd patches no workload: not during a rollout, not
      after it. */
  lemma ArmedPatchesNothing(cfg: Config, c: Cluster, list: seq<Replica>, n: nat)
    requires Armed(cfg, c) && AllHonest(c) && n <= |c.workloads| && !Odd(cfg, c, list)
    ensures Reconciled(cfg, c, list, n).workloads == c.workloads
  {
    if !InProgress(c.workloads) {
      var pods := AllPods(c.workloads);
      forall k | 0 <= k < |pods| && !pods[k].terminating ensures Right(cfg, pods[k].pod) {
        var i, j := PodOf(c.workloads, k);
        assert Honest(c.workloads[i]) && WorkloadArmed(cfg, c.workloads[i]);
        assert !Rolling(c.workloads[i]);
      }
      StateNeeded(cfg, pods);
      forall i | 0 <= i < |c.workloads| ensures !NeedsHash(cfg, c.workloads[i]) {
        assert WorkloadArmed(cfg, c.workloads[i]);
      }
    }
  }

  /** A reconcile that runs through outside a rollout and is not odd arms the cluster. */
  lemma ReconcileArms(cfg: Config, c: Cluster, list: seq<Replica>)
    requires !InProgress(c.workloads) && !Odd(cfg, c, list) && VersionsOk(c)
    ensures Armed(cfg, Reconciled(cfg, c, list, |c.workloads|))
  {
    var pods, d := AllPods(c.workloads), Reconciled(cfg, c, list, |c.workloads|);
    StateNeeded(cfg, pods);
    forall i | 0 <= i < |d.workloads| ensures WorkloadArmed(cfg, d.workloads[i]) {
      var w := c.workloads[i];
      forall j | 0 <= j < |w.pods| && !w.pods[j].terminating && !Right(cfg, w.pods[j].pod)
        ensures w.pods[j].version < d.workloads[i].generation
      {
        var k := PodAt(c.workloads, i, j);
        assert NeedsState(cfg, pods);
      }
    }
  }

  /** A patch, needed or not, keeps a workload armed. */
  lemma PatchedArmed(cfg: Config, w: Workload, state: bool)
    requires WorkloadArmed(cfg, w)
    ensures WorkloadArmed(cfg, Patched(cfg, w, state))
  {
    var t := Patched(cfg, w, state);
    forall j | 0 <= j < |t.pods| ensures PodArmed(cfg, t.pods[j], t.generation) {
      assert PodArmed(cfg, w.pods[j], w.generation);
    }
  }

  lemma ArmedStable(cfg: Config, c: Cluster, s: Step)
    requires ValidConfig(cfg) && cfg.routes == cfg.effective
    requires Armed(cfg, c) && Enabled(c, s)
    ensures Armed(cfg, Next(cfg, c, s))
  {
    if s.Reconcile? {
      forall i | 0 <= i < |c.workloads| ensures WorkloadArmed(cfg, Next(cfg, c, s).workloads[i]) {
        PatchedArmed(cfg, c.workloads[i], NeedsState(cfg, s.pods));
      }
    } else {
      WebhookIsRight(cfg);
      assert WorkloadArmed(cfg, c.workloads[s.w]);
      MovedArmed(cfg, c.workloads[s.w], s);
    }
  }

  predicate VersionsOk(c: Cluster) {
    forall i, j :: 0 <= i < |c.workloads| && 0 <= j < |c.workloads[i].pods| ==>
      c.workloads[i].pods[j].version <= c.workloads[i].generation
  }

  lemma StepVersions(cfg: Config, c: Cluster, s: Step)
    requires VersionsOk(c) && Enabled(c, s)
    ensures VersionsOk(Next(cfg, c, s)) && |Next(cfg, c, s).workloads| == |c.workloads|
  {}

  // ------------------------------------------------------------------- whole runs

  ghost predicate IsRun(cfg: Config, trace: seq<Cluster>, steps: seq<Step>) {
    && |trace| == |steps| + 1
    && forall i :: 0 <= i < |steps| ==> Enabled(trace[i], steps[i]) && trace[i + 1] == Next(cfg, trace[i], steps[i])
  }

  /** A reconcile cut off by an API failure, or an odd one; one that waits for a rollout is neither. */
  predicate Extra(cfg: Config, c: Cluster, s: Step) {
    s.Reconcile? && !InProgress(c.workloads) && (s.n < |c.workloads| || Odd(cfg, c, s.pods))
  }

  /** Their number among the first `n` steps. */
  ghost function Extras(cfg: Config, trace: seq<Cluster>, steps: seq<Step>, n: nat): nat
    requires n <= |steps| && |trace| == |steps| + 1
  {
    if n == 0 then 0 else Extras(cfg, trace, steps, n - 1) + if Extra(cfg, trace[n - 1], steps[n - 1]) then 1 else 0
  }

  /** At most one patch per extra reconcile, plus one if armed. */
  ghost predicate Bounded(cfg: Config, c: Cluster, d: Cluster, extras: nat) {
    && |d.workloads| == |c.workloads|
    && forall i :: 0 <= i < |c.workloads| ==>
         d.workloads[i].generation <= c.workloads[i].generation + extras + if Armed(cfg, d) then 1 else 0
  }

  lemma StepBounded(cfg: Config, start: Cluster, c: Cluster, s: Step, extras: nat)
    requires ValidConfig(cfg) && cfg.routes == cfg.effective
    requires AllHonest(c) && VersionsOk(c) && Enabled(c, s) && Bounded(cfg, start, c, extras)
    ensures Bounded(cfg, start, Next(cfg, c, s), extras + if Extra(cfg, c, s) then 1 else 0)
  {
    var d := Next(cfg, c, s);
    if Armed(cfg, c) {
      ArmedStable(cfg, c, s);
      if s.Reconcile? && !Odd(cfg, c, s.pods) {
        ArmedPatchesNothing(cfg, c, s.pods, s.n);
      }
    } else if s.Reconcile? && !Extra(cfg, c, s) && !InProgress(c.workloads) {
      ReconcileArms(cfg, c, s.pods);
    }
    forall i | 0 <= i < |start.workloads| ensures d.workloads[i].generation <= c.workloads[i].generation + 1 {}
  }

  lemma {:induction false} RunBounded(cfg: Config, trace: seq<Cluster>, steps: seq<Step>, n: nat)
    requires ValidConfig(cfg) && cfg.routes == cfg.effective
    requires IsRun(cfg, trace, steps) && n <= |steps| && AllHonest(trace[0]) && VersionsOk(trace[0])
    ensures AllHonest(trace[n]) && VersionsOk(trace[n])
    ensures Bounded(cfg, trace[0], trace[n], Extras(cfg, trace, steps, n))
  {
    if n > 0 {
      RunBounded(cfg, trace, steps, n - 1);
      assert Enabled(trace[n - 1], steps[n - 1]);
      StepHonest(cfg, trace[n - 1], steps[n - 1]);
      StepVersions(cfg, trace[n - 1], steps[n - 1]);
      StepBounded(cfg, trace[0], trace[n - 1], steps[n - 1], Extras(cfg, trace, steps, n - 1));
    }
  }

  lemma {:induction false} ArmedForever(cfg: Config, trace: seq<Cluster>, steps: seq<Step>, m: nat, n: nat)
    requires ValidConfig(cfg) && cfg.routes == cfg.effective
    requires IsRun(cfg, trace, steps) && m <= n <= |steps| && Armed(cfg, trace[m])
    ensures Armed(cfg, trace[n])
    decreases n
  {
    if m < n {
      ArmedForever(cfg, trace, steps, m, n - 1);
      assert Enabled(trace[n - 1], steps[n - 1]);
      ArmedStable(cfg, trace[n - 1], steps[n - 1]);
    }
  }

  /** Convergence. With routes and configuration fixed and no route mid-deletion, over any
      run of reconciles on any pod lists, pod creation through the webhook, termination and
      status reports: each workload is rolled at most once more, plus once per reconcile that
      failed or was odd; and from the first other one outside a rollout on, a reconcile that
      is not odd patches nothing. */
  lemma RolloutConverges(cfg: Config, trace: seq<Cluster>, steps: seq<Step>, m: nat, n: nat, i: nat)
    requires ValidConfig(cfg) && cfg.routes == cfg.effective
    requires IsRun(cfg, trace, steps) && m < n <= |steps| && AllHonest(trace[0]) && VersionsOk(trace[0])
    requires i < |trace[0].workloads|
    ensures |trace[n].workloads| == |trace[0].workloads|
    ensures trace[n].workloads[i].generation <= trace[0].workloads[i].generation + 1 + Extras(cfg, trace, steps, n)
    ensures && steps[m].Reconcile? && !Extra(cfg, trace[m], steps[m]) && !InProgress(trace[m].workloads)
            && m < n - 1 && steps[n - 1].Reconcile? && !Odd(cfg, trace[n - 1], steps[n - 1].pods) ==>
              trace[n].workloads == trace[n - 1].workloads
  {
    RunBounded(cfg, trace, steps, n);
    RunBounded(cfg, trace, steps, m);
    RunBounded(cfg, trace, steps, n - 1);
    assert Enabled(trace[m], steps[m]) && Enabled(trace[n - 1], steps[n - 1]);
    if && steps[m].Reconcile? && !Extra(cfg, trace[m], steps[m]) && !InProgress(trace[m].workloads)
       && m < n - 1 && steps[n - 1].Reconcile? && !Odd(cfg, trace[n - 1], steps[n - 1].pods) {
      ReconcileArms(cfg, trace[m], steps[m].pods);
      ArmedForever(cfg, trace, steps, m + 1, n - 1);
      ArmedPatchesNothing(cfg, trace[n - 1], steps[n - 1].pods, steps[n - 1].n);
    }
  }

  // ------------------------------------------------- what a reconcile does to each workload

  /** The live pods in the list call for a rollout: with an effective route, one of them
      fails the check or there is none at all; without one, one of them passes it. */
  ghost predicate PodsCall(cfg: Config, pods: seq<Replica>) {
    if cfg.effective then
      || (forall k :: 0 <= k < |pods| ==> pods[k].terminating)
      || (exists k :: 0 <= k < |pods| && !pods[k].terminating && !Passes(cfg, pods[k].pod))
    else
      exists k :: 0 <= k < |pods| && !pods[k].terminating && Passes(cfg, pods[k].pod)
  }

  lemma NeedsStateIsCall(cfg: Config, pods: seq<Replica>)
    ensures NeedsState(cfg, pods) <==> PodsCall(cfg, pods)
  {
    assert SeenWith(cfg, pods) <==> exists k :: 0 <= k < |pods| && LiveWith(cfg, pods[k]);
    assert SeenWithout(cfg, pods) <==> exists k :: 0 <= k < |pods| && LiveWithout(cfg, pods[k]);
    assert forall k :: 0 <= k < |pods| ==>
      (LiveWith(cfg, pods[k]) || LiveWithout(cfg, pods[k]) <==> !pods[k].terminating);
  }

  /** A full reconcile, field by field: nothing changes while a status is behind or replicas
      are out of date. Else, with an effective route and a desired hash, every template
      carries that hash, and a workload is rolled exactly if its hash was another one or the
      pods call for it; otherwise hashes stay, and only the pods decide. */
  lemma ReconcileOutcome(cfg: Config, c: Cluster, pods: seq<Replica>, i: nat)
    requires i < |c.workloads|
    ensures var w, w' := c.workloads[i], Reconciled(cfg, c, pods, |c.workloads|).workloads[i];
            var hashed := cfg.effective && cfg.hash != "";
            var roll := PodsCall(cfg, pods) || (hashed && w.hash != cfg.hash);
            if exists k :: 0 <= k < |c.workloads| && Behind(c.workloads[k]) then w' == w
            else w' == w.(hash := if hashed then cfg.hash else w.hash,
                          generation := w.generation + if roll then 1 else 0)
  {
    NeedsStateIsCall(cfg, pods);
    assert forall k :: 0 <= k < |c.workloads| ==> (Behind(c.workloads[k]) <==>
      Rolling(c.workloads[k]) && !(c.workloads[k].kind.DaemonSet? && c.workloads[k].observed == 0));
  }

  /** The status of a workload shows a rollout that is not over. A Deployment's status counts
      from the start, a DaemonSet's only once it was written. */
  predicate Behind(w: Workload) {
    match w.kind
    case Deployment => !(w.generation <= w.observed && w.replicas <= w.updated)
    case DaemonSet => w.observed > 0 && !(w.generation <= w.observed && w.replicas <= w.updated)
  }

  ghost predicate Hashed(cfg: Config, c: Cluster) {
    forall i :: 0 <= i < |c.workloads| ==> c.workloads[i].hash == cfg.hash
  }

  lemma StepKeepsHash(cfg: Config, c: Cluster, s: Step)
    requires Enabled(c, s) && Hashed(cfg, c)
    ensures Hashed(cfg, Next(cfg, c, s))
  {}

  /** Once a full reconcile met no rollout, with an effective route and a desired hash, every
      template carries that hash at every later point of every run. */
  lemma {:induction false} HashArrives(cfg: Config, trace: seq<Cluster>, steps: seq<Step>, m: nat, n: nat)
    requires IsRun(cfg, trace, steps) && m < n <= |steps| && cfg.effective && cfg.hash != ""
    requires steps[m].Reconcile? && steps[m].n == |trace[m].workloads|
    requires forall k :: 0 <= k < |trace[m].workloads| ==> !Behind(trace[m].workloads[k])
    ensures Hashed(cfg, trace[n])
    decreases n
  {
    if n == m + 1 {
      assert Enabled(trace[m], steps[m]);
      forall i | 0 <= i < |trace[m].workloads| ensures trace[n].workloads[i].hash == cfg.hash {
        ReconcileOutcome(cfg, trace[m], steps[m].pods, i);
      }
    } else {
      HashArrives(cfg, trace, steps, m, n - 1);
      assert Enabled(trace[n - 1], steps[n - 1]);
      StepKeepsHash(cfg, trace[n - 1], steps[n - 1]);
    }
  }

  ghost predicate AllPlain(cfg: Config, c: Cluster) {
    forall i, k :: 0 <= i < |c.workloads| && 0 <= k < |c.workloads[i].pods| ==>
      c.workloads[i].pods[k].pod == cfg.template
  }

  /** The container mounts the index Secret, so none is injected before that is written: until
      then, in every run, pods stay as they were made. */
  lemma {:induction false} NoContainerBeforeIndex(cfg: Config, trace: seq<Cluster>, steps: seq<Step>, n: nat)
    requires IsRun(cfg, trace, steps) && n <= |steps| && AllPlain(cfg, trace[0]) && !trace[n].indexWritten
    ensures AllPlain(cfg, trace[n])
  {
    if n > 0 {
      var c, s := trace[n - 1], steps[n - 1];
      assert Enabled(c, s) && trace[n] == Next(cfg, c, s);
      NoContainerBeforeIndex(cfg, trace, steps, n - 1);
      var pods := Moved(cfg, c.workloads[s.w], s, c.indexWritten).pods;
      forall k | 0 <= k < |pods| ensures pods[k].pod == cfg.template {}
    }
  }

  // --------------------------------------------------------- exactly when it fails

  /** Every live pod was built by the current webhook and the hashes are in place. */
  ghost predicate RolledOut(cfg: Config, c: Cluster) {
    && c.indexWritten && !InProgress(c.workloads)
    && (forall k :: 0 <= k < |AllPods(c.workloads)| && !AllPods(c.workloads)[k].terminating ==>
          AllPods(c.workloads)[k].pod == Webhook(cfg, true))
    && (forall i :: 0 <= i < |c.workloads| ==> !NeedsHash(cfg, c.workloads[i]))
  }

  lemma WebhookPasses(cfg: Config)
    requires ValidConfig(cfg)
    ensures Passes(cfg, Webhook(cfg, true)) <==> cfg.routes
  {
    BuilderCheckerAgree(cfg.builder, cfg.input, cfg.builder, cfg.input.needMCP, ExtProcImage(cfg.builder, cfg.input),
                        cfg.dir, cfg.template);
    UninjectedFails(cfg.builder, cfg.input.needMCP, ExtProcImage(cfg.builder, cfg.input), cfg.template);
  }

  /** When all live pods are alike, what is seen is decided by one of them. */
  lemma AllAlike(cfg: Config, pods: seq<Replica>, pod: Pod)
    requires forall k :: 0 <= k < |pods| && !pods[k].terminating ==> pods[k].pod == pod
    ensures var live := exists i :: 0 <= i < |pods| && !pods[i].terminating;
            && (SeenWith(cfg, pods) <==> live && Passes(cfg, pod))
            && (SeenWithout(cfg, pods) <==> live && !Passes(cfg, pod))
  {
    if i :| 0 <= i < |pods| && !pods[i].terminating {
      assert LiveWith(cfg, pods[i]) <==> Passes(cfg, pod);
      assert LiveWithout(cfg, pods[i]) <==> !Passes(cfg, pod);
    }
  }

  lemma RolledOutState(cfg: Config, c: Cluster)
    requires ValidConfig(cfg) && RolledOut(cfg, c)
    ensures NeedsState(cfg, AllPods(c.workloads)) <==> if Live(c) then cfg.routes && !cfg.effective else cfg.effective
  {
    WebhookPasses(cfg);
    AllAlike(cfg, AllPods(c.workloads), Webhook(cfg, true));
  }

  /** A fully rolled out cluster is a fixed point, except exactly in two situations, in
      which every reconcile rolls every workload again: there are live pods and all
      attached routes are mid-deletion, or there is no live pod and a route is effective. */
  lemma FixedPointIff(cfg: Config, c: Cluster)
    requires ValidConfig(cfg) && RolledOut(cfg, c)
    ensures var again := if Live(c) then cfg.routes && !cfg.effective else cfg.effective;
            Reconciled(cfg, c, AllPods(c.workloads), |c.workloads|).workloads ==
              PatchFirst(cfg, c.workloads, again, |c.workloads|)
    ensures var again := if Live(c) then cfg.routes && !cfg.effective else cfg.effective;
            c.workloads != [] ==>
              (Reconciled(cfg, c, AllPods(c.workloads), |c.workloads|).workloads == c.workloads <==> !again)
  {
    RolledOutState(cfg, c);
    if c.workloads != [] {
      assert Patched(cfg, c.workloads[0], true).generation == c.workloads[0].generation + 1;
    }
  }

  lemma DeletionNeedsState(cfg: Config, pods: seq<Replica>)
    requires ValidConfig(cfg) && cfg.routes && !cfg.effective
    requires |pods| == 1 && !pods[0].terminating && pods[0].pod == Webhook(cfg, true)
    ensures NeedsState(cfg, pods)
  {
    WebhookPasses(cfg);
    AllAlike(cfg, pods, Webhook(cfg, true));
  }

  lemma OnePatched(cfg: Config, w: Workload, pods: seq<Replica>)
    requires !cfg.effective && !Rolling(w) && NeedsState(cfg, pods)
    ensures Reconciled(cfg, Cluster([w], true), pods, 1).workloads == [w.(generation := w.generation + 1)]
  {
    assert !InProgress([w]);
    assert Patched(cfg, w, true) == w.(generation := w.generation + 1);
  }

  /** It happens: with all routes mid-deletion, a Deployment of one finished pod is rolled
      again. */
  lemma DeletionRollsAgain(cfg: Config, w: Workload, version: nat)
    requires ValidConfig(cfg) && cfg.routes && !cfg.effective
    requires w.kind.Deployment? && !Rolling(w) && w.pods == [Replica(Webhook(cfg, true), version, false)]
    ensures Reconciled(cfg, Cluster([w], true), w.pods, 1).workloads == [w.(generation := w.generation + 1)]
  {
    DeletionNeedsState(cfg, w.pods);
    OnePatched(cfg, w, w.pods);
  }

  /** A full reconcile leaves the workloads alone exactly when it notices a rollout, or the
      listed pods are as they should be and every template carries the hash. */
  lemma PatchesNothingIff(cfg: Config, c: Cluster, pods: seq<Replica>)
    requires c.workloads != []
    ensures Reconciled(cfg, c, pods, |c.workloads|).workloads == c.workloads <==>
            || InProgress(c.workloads)
            || (!NeedsState(cfg, pods) && forall i :: 0 <= i < |c.workloads| ==> !NeedsHash(cfg, c.workloads[i]))
  {
    var ws := Reconciled(cfg, c, pods, |c.workloads|).workloads;
    if !InProgress(c.workloads) {
      assert forall i :: 0 <= i < |ws| ==> ws[i] == Patched(cfg, c.workloads[i], NeedsState(cfg, pods));
      assert forall i :: 0 <= i < |ws| ==>
        (ws[i].generation == c.workloads[i].generation <==> !NeedsState(cfg, pods) && !NeedsHash(cfg, c.workloads[i]));
      if NeedsState(cfg, pods) {
        assert ws[0] != c.workloads[0];
      }
      if i :| 0 <= i < |ws| && NeedsHash(cfg, c.workloads[i]) {
        assert ws[i] != c.workloads[i];
      }
    }
  }

  /** A settled cluster is left alone exactly when every live pod of the list, however old,
      is right. */
  lemma StaleListIff(cfg: Config, c: Cluster, stale: seq<Replica>)
    requires Armed(cfg, c) && c.workloads != [] && !InProgress(c.workloads)
    requires cfg.effective ==> exists i :: 0 <= i < |stale| && !stale[i].terminating
    ensures Reconciled(cfg, c, stale, |c.workloads|).workloads == c.workloads <==>
            forall i :: 0 <= i < |stale| && !stale[i].terminating ==> Right(cfg, stale[i].pod)
  {
    PatchesNothingIff(cfg, c, stale);
    StateNeeded(cfg, stale);
    assert forall i :: 0 <= i < |c.workloads| ==> WorkloadArmed(cfg, c.workloads[i]);
  }

  /** While some workload rolls, nothing is patched exactly when a rolling one is not a
      DaemonSet without a status, or nothing is there to patch anyway. */
  lemma UnreportedIff(cfg: Config, c: Cluster, pods: seq<Replica>)
    requires exists i :: 0 <= i < |c.workloads| && Rolling(c.workloads[i])
    ensures Reconciled(cfg, c, pods, |c.workloads|).workloads == c.workloads <==>
            || (exists i :: 0 <= i < |c.workloads| && Rolling(c.workloads[i])
                            && !(c.workloads[i].kind.DaemonSet? && c.workloads[i].observed == 0))
            || (!NeedsState(cfg, pods) && forall i :: 0 <= i < |c.workloads| ==> !NeedsHash(cfg, c.workloads[i]))
  {
    PatchesNothingIff(cfg, c, pods);
  }

  /** A DaemonSet without a status is rolled again in the middle of its rollout. */
  lemma UnreportedDaemonSetRollsAgain(cfg: Config, w: Workload)
    requires cfg.effective && w.kind.DaemonSet? && w.observed == 0 && |w.pods| == 1
    requires !w.pods[0].terminating && !Passes(cfg, w.pods[0].pod)
    ensures var once := Reconciled(cfg, Cluster([w], true), w.pods, 1);
            var twice := Reconciled(cfg, once, w.pods, 1);
            once.workloads[0].generation == w.generation + 1 && twice.workloads[0].generation == w.generation + 2
  {
    assert SeenWithout(cfg, w.pods);
    assert !InProgress([w]);
    var once := Reconciled(cfg, Cluster([w], true), w.pods, 1);
    assert once.workloads == [Patched(cfg, w, true)];
    assert !InProgress(once.workloads);
  }

  /** The pod list is read before the workloads: if a rollout ends in between, the stale
      list rolls a settled cluster once more. */
  lemma StalePodListRollsAgain(cfg: Config, c: Cluster, stale: seq<Replica>, k: nat)
    requires !InProgress(c.workloads) && k < |stale| && !stale[k].terminating && !Right(cfg, stale[k].pod)
    ensures forall i :: 0 <= i < |c.workloads| ==>
      Reconciled(cfg, c, stale, |c.workloads|).workloads[i].generation == c.workloads[i].generation + 1
  {
    if cfg.effective {
      assert SeenWithout(cfg, stale);
    } else {
      assert SeenWith(cfg, stale);
    }
  }
}
