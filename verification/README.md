# Envoy AI Gateway control plane: a verified model

The Envoy AI Gateway control plane turns custom resources (AIGatewayRoute, MCPRoute,
QuotaPolicy, BackendSecurityPolicy, GatewayConfig) into what Envoy Gateway, Envoy and the
external processor run on. Its hard part is `internal/controller`: reconcilers that must
converge, caches that must agree with recomputation, index lookups that must agree with
scans, and writes spread over several objects that may be cut off between any two.

Each module models one such part and proves what it is for, over every input, every run or
every reachable state. Code that updates things step by step is a class or a method with
loops, proved against a specification function; the theorems are lemmas about those
functions. The Kubernetes API is a map of objects, an API call a step that may fail, and a
Go map iteration a choice of the next key at will.

| module | models |
|---|---|
| `Bundle`, `BundleMount` | the filter config written as parts plus an index, with crashes at any write, its reader, and the volume the external processor reads it from |
| `Rollout`, `ExtProcBuilder`, `ExtProcFlags` | when workloads are rolled; the container the webhook builds, the check that accepts it, and its command line read back |
| `DescriptorMerge`, `QuotaController` | the rate limit descriptor merge; the quota policy cache and its snapshot |
| `QuotaEffective`, `QuotaNotify`, `QuotaServed`, `QuotaCost`, `QuotaCharged` | effective quota policies of a route and their hash; which routes are told; whether the service has the limits; cost entries |
| `ReferenceGrants`, `Api` | grants and route listings through string-keyed indexes |
| `McpSync`, `McpSharedBackend`, `McpPrefix` | per-backend resources of MCPRoutes; the shared Backend; tool and prompt names end to end |
| `DataPlane`, `PriorityAnnotation` | HTTPRoute, filter config and stamped endpoint names of one route; the priority annotation |
| `Rotation`, `BodyMutation` | credential rotation timing; body mutation merge against the mutator |
| `Text`, `Sorting`, `Wrappers` | joined keys, decimals, byte order; insertion sort by an order; Option |

Some properties one would expect are false of the code. Each of these has a lemma with the
failing case and a lemma with the exact condition:

- A rolled out cluster is rolled again by every reconcile while live pods exist and all
  attached routes are mid-deletion, or while no live pod exists and a route is effective
  (`FixedPointIff`).
- A pod list older than the workload list rolls a settled cluster, when it shows a live pod
  that is not right (`StaleListIff`).
- A DaemonSet without a status is rolled again during its rollout, when no other workload's
  rollout is noticed and hashes or pods ask for it (`UnreportedIff`).
- A webhook-built pod may fail the check of the configuration it was built for, when an
  argument value is spelled like a checked flag and stands where it is read as one
  (`BuilderCheckerAgree`).
- A route that a policy change affects is told unless a previous target of the policy is in
  neither the retained nor the new targets (`FrameIsExact`); two coalesced changes get there.
- Nothing pending does not mean that route hashes are fresh: a failed list of routes is only
  logged by the policy's reconcile, whose retained targets are replaced all the same, so an
  affected route may stay stale for good (`StepKeepsIff`, `FailedListLeavesStaleRoute`).
- A failing lookup of ReferenceGrants drops the target without an error: policies of a route
  (`SearchIsDirectIff`) and charged pairs (`ChargedUnderFailuresIff`) can be lost.
- Quota cost entries of a route are computed from the backends of all earlier routes too, so
  an override on one route can hide a quota on the next (`OwnCostsAreCharged`).
- The cost expression of a pair depends on map iteration order when policies that ask for it
  disagree (`ExpressionDeterminedIff`).
- A completed MCP sync is exact only if no filter or Secret was left without its HTTPRoute by
  an interrupted one (`SyncIsExactIff`); repeating interrupted syncs heals every cut except
  those between the deletes of an orphan that still has a filter or Secret to delete
  (`RetriesAreExactIff`).
- With no policy pending, the rate limit service may still hold old limits: the failed push of
  a finalizer run is discarded, until the policy has vanished (`StepRemembersIff`).
- The shared MCP Backend leaks when the last MCPRoute goes away before it had a finalizer, or
  when the cleanup of its finalizer fails (`StepHeldIff`).
- A successful rotation check may ask for a delay that is not positive, which is never
  scheduled: when the rotation time lies between its two clock readings, the bounds included
  (`PositiveRequeueIff`).
- A field that the route's mutation removes and only the backend's sets keeps the backend's
  value (`MergeMeansInTurnIff`).
- Endpoints are stamped by their position among the references of the spec, so a reference
  that the HTTPRoute dropped ahead of a kept one shifts the names (`StampsAgreeIff`).

Where code and documentation disagree the code is followed. `mergeBodyMutations` says that
route-level operations override backend-level ones
(`internal/controller/gateway.go:288-289`); for removals they do not. The comment at
`internal/controller/gateway.go:1081` says "on this route", but all collected backends are
used.

## Model

| member | source | states |
|---|---|---|
| `Bundle.SplitBytes` | internal/controller/filter_config_bundle.go:31-44 | returns the chunks of the payload (the empty payload has one empty chunk) |
| `Bundle.ChunksRejoin` | internal/controller/filter_config_bundle.go:31-44 | chunks concatenate to the payload and all but the last are full |
| `Bundle.ChunkCount` | internal/controller/filter_config_bundle.go:46-60 | the slot limit refuses exactly the payloads longer than slots times part size |
| `Bundle.NamesDisjoint` | internal/controller/secret_name.go:20-66 | index and part Secret names of all gateways are pairwise different, however names are truncated |
| `Bundle.IndexNameIs` | internal/controller/secret_name.go:27-51 | the index Secret is named gateway, namespace and hash, joined by dashes; a name too long loses the end of the first two, trailing dashes included |
| `Bundle.PartNameIs` | internal/controller/secret_name.go:54-66 | a part Secret likewise, with its number in three digits at the end |
| `Bundle.SecretApi.WriteFilterConfigBundle` | internal/controller/filter_config_bundle.go:46-125 | whatever API call fails, the store is the one after some number of the ordered writes, all of them on success, when the payload reads back and every listed part has a path of its own; an oversized payload is refused with nothing touched |
| `Bundle.AfterContents` | internal/controller/filter_config_bundle.go:62-125 | contents of every Secret after each number of writes; no other Secret changes |
| `Bundle.ReassembleBundle` | internal/filterapi/config_bundle.go:66-85 | the listed parts concatenated, each as its own read finds it, if their checksum is the index's in any letter case, else a rejection |
| `Bundle.CaseIsIgnored` | internal/filterapi/config_bundle.go:81-85 | a checksum is the same however its letters are cased |
| `Bundle.PathsAreNumbered` | internal/filterapi/config_bundle.go:38-40 | the paths of the slots are parts/000 to parts/007 |
| `Bundle.CompletedWriteReads` | internal/controller/filter_config_bundle.go:46-125 | one completed write from any store leaves exactly the listed parts and reads back as its payload |
| `Bundle.ReaderNeverSplices` | cmd/aigw/run.go:347-373 | in every run of writes by any gateways, each cut off anywhere, with the index read at one point and every part at any later point: a reader is rejected or gets the payload last indexed when it read the index, or a checksum collision is exhibited |
| `Bundle.ReaderIsExact` | cmd/aigw/run.go:347-373 | with a collision-free checksum: never a splice, wherever in the run index and parts are read, and a completed write is read at once |
| `Bundle.MidWriteReadable` | internal/controller/filter_config_bundle.go:62-125 | during a write the previous bundle reads back exactly until a slot it uses gets other content or is deleted |
| `BundleMount.ProjectBundle` | internal/controller/gateway_mutator.go:283-311 | the webhook projects the index and every slot, in order |
| `BundleMount.MountReadsLikeSecrets` | internal/filterapi/watcher.go:73-118 | behind an index the controller wrote, reading the mounted files by path is reading the part Secrets by name, wherever each file was refreshed |
| `BundleMount.CompletedWriteMounts` | internal/controller/gateway_mutator.go:283-317 | after a completed write, from any store, the volume holds exactly the chunks under their numbers, and loading it gives the payload |
| `BundleMount.WatcherIsExact` | internal/filterapi/watcher.go:73-118 | with a collision-free checksum, over every run of writes cut off anywhere, the watcher loads nothing or the payload last indexed when its index was; after a completed write, that payload |
| `ExtProcBuilder.MergeEnvVars` | internal/controller/extproc_builder.go:371-395 | the index-map loop computes the override-by-override merge |
| `ExtProcBuilder.MergeEnvValues` | internal/controller/extproc_builder.go:371-395 | the last value of each name is the GatewayConfig's last one if it has one, else the global last one, duplicates included |
| `ExtProcBuilder.MergeEnvOrder` | internal/controller/extproc_builder.go:371-395 | global positions keep their names; new names are appended once in first-seen order |
| `ExtProcBuilder.BuildExtProcBaseArgs` | internal/controller/extproc_builder.go:325-368 | the argument list is the flags in order, optional ones only when set, then the admin flags |
| `ExtProcBuilder.DigestDeterminesContainer` | internal/controller/extproc_builder.go:250-298 | equal config digests mean equal built containers and pull secrets |
| `ExtProcBuilder.TextFormatIsDefault` | internal/controller/extproc_builder.go:311-319 | an explicit text log format and an absent one give the same digest and container, so stating a default rolls nothing |
| `ExtProcFlags.ArgumentsReadBack` | internal/controller/extproc_builder.go:325-368 | the command line parses back, flag by flag, to exactly the configured values, optional ones just where set and no other flag, even if a value looks like a flag |
| `ExtProcFlags.ImageIs` | internal/controller/extproc_builder.go:397-412 | the image override, else the override repository at the base tag or digest, else the base image |
| `ExtProcFlags.TagOrDigestIs` | internal/controller/extproc_builder.go:427-442 | the digest, else the tag, else nothing; a colon ahead of a slash is a port |
| `ExtProcFlags.InjectedIs` | internal/controller/extproc_builder.go:140-211 | name, pull policy, mounts in order, security context, resources and restart policy of the injected container |
| `ExtProcFlags.MutatedPod` | internal/controller/gateway_mutator.go:319-363 | one container is added, before or after the others, pull secrets are appended, every envoy container gets the socket mount, nothing else changes |
| `ExtProcBuilder.CheckPodHasSideCar` | internal/controller/gateway.go:1266-1330 | the scan decides image, every log level flag and the last MCP address |
| `ExtProcBuilder.BuilderCheckerAgree` | internal/controller/gateway_mutator.go:334-363 | a webhook-built pod passes another configuration's check exactly if image and log level match, MCP is there when needed and no argument value is misread as a checked flag |
| `ExtProcBuilder.PlainValuesReadWell` | internal/controller/gateway.go:1274-1302 | values not spelled like a checked flag are never misread |
| `ExtProcBuilder.FlagValueFailsOwnCheck` | internal/controller/gateway.go:1274-1302 | with the root prefix spelled like the log level flag every pod fails its own check |
| `ExtProcBuilder.LastValueMayBeAnything` | internal/controller/gateway.go:1274-1302 | with the endpoint prefixes spelled so, as last argument, every pod passes it |
| `Rollout.GatewayController.IsRolloutInProgress` | internal/controller/gateway.go:1333-1361 | true exactly if a workload with a status has not finished its rollout |
| `Rollout.ReportedDoneIff` | internal/controller/gateway.go:1339-1343 | a reported status shows a finished rollout exactly if every live pod has the current template |
| `Rollout.GatewayController.AnnotateGatewayPods` | internal/controller/gateway.go:1366-1459 | nothing is patched during a rollout; otherwise a leading part of the workloads is, all of them without API failure, and then, with an effective route and a desired hash, every template carries that hash and exactly the workloads with another hash, or all if the pods call for it, were rolled |
| `Rollout.ReconcileOutcome` | internal/controller/gateway.go:1333-1459 | hash and generation of every workload after a full reconcile, on the fields of status, templates and pods |
| `Rollout.HashArrives` | internal/controller/gateway.go:1430-1446 | once a full reconcile met no rollout, every template carries the desired hash at every later point of every run |
| `Rollout.WebhookIsRight` | internal/controller/gateway_mutator.go:229-363 | the webhook's pod is what the reconciler's check wants, with or without effective routes |
| `Rollout.NoContainerBeforeIndex` | internal/controller/gateway_mutator.go:229-269 | in every run, no pod gets the container before the index Secret is written |
| `Rollout.ArmedPatchesNothing` | internal/controller/gateway.go:1366-1459 | once hashes are in place and wrong pods predate the template, no reconcile patches a workload, during a rollout or after it, unless its pod list misleads it, an unreported DaemonSet's rollout goes unnoticed, or no live pod shows that all is well |
| `Rollout.RolloutConverges` | internal/controller/gateway.go:1333-1459 | with routes and configuration fixed and no route mid-deletion, over every run of reconciles on any pod lists, pod creation, termination and status reports, unreported DaemonSets included: at most one rollout per workload, plus one per reconcile outside a rollout that failed or was in one of those three situations, however often one was requeued during a rollout; after the first full reconcile only those roll anything |
| `Rollout.FixedPointIff` | internal/controller/gateway.go:1400-1459 | a rolled out cluster is left alone except exactly in two situations |
| `Rollout.DeletionRollsAgain` | internal/controller/gateway.go:1400-1459 | with all routes mid-deletion, a Deployment of one finished pod is rolled again |
| `Rollout.PatchesNothingIff` | internal/controller/gateway.go:1366-1459 | for any cluster and pod list: a full reconcile patches no workload exactly if a rollout is seen, or the pods are as wanted and every hash is in place |
| `Rollout.StaleListIff` | internal/controller/gateway.go:1496-1517 | from an armed cluster without rollout, a list of older pods patches nothing exactly if every live pod in it is right |
| `Rollout.UnreportedIff` | internal/controller/gateway.go:1345-1360 | while some workload rolls, nothing is patched exactly if one that rolls is not an unreported DaemonSet, or nothing asks for it |
| `Rollout.UnreportedDaemonSetRollsAgain` | internal/controller/gateway.go:1345-1360 | a DaemonSet without status is rolled twice in a row |
| `Rollout.StalePodListRollsAgain` | internal/controller/gateway.go:1366-1400 | a pod list older than the workload list rolls a settled cluster |
| `DescriptorMerge.MergeDescriptors` | internal/ratelimit/translator/merge.go:16-68 | the map-and-order loop computes the merge by absorbing descriptors one by one |
| `DescriptorMerge.MergePreservesMeaning` | internal/ratelimit/translator/merge.go:13-52 | at every path the merged tree yields the first limit in list order and the joined modes |
| `DescriptorMerge.MergeIds` | internal/ratelimit/translator/merge.go:55-68 | one entry per key and value, in order of first appearance |
| `DescriptorMerge.MergeDupFree` | internal/ratelimit/translator/merge.go:34-40 | duplicate-free subtrees merge into a tree without duplicate siblings anywhere |
| `DescriptorMerge.IdInjective` | internal/ratelimit/translator/merge.go:25 | the NUL-joined map key stands for one key and value |
| `QuotaController.QuotaPolicyController.GetMergedConfigsLocked` | internal/controller/quota_policy.go:295-318 | the snapshot recomputed from the cache over sorted keys |
| `QuotaController.QuotaPolicyController.SyncQuotaPolicy` | internal/controller/quota_policy.go:155-227 | effect of a sync on cache, retained keys and snapshot, failing or not, and exactly when it errs; without an error the push went through and the service holds the recomputed snapshot |
| `QuotaController.BuiltIs` | internal/controller/quota_policy.go:155-200 | what is cached: nothing new on a read or build error, no limits if no target was found, else those built for the targets found |
| `QuotaController.LiveReconcileSucceedsIff` | internal/controller/quota_policy.go:155-227 | a live policy reconciles without error exactly if no target is unreadable or denied, one is found unless there are none, the limits build and the push goes through |
| `QuotaController.QuotaPolicyController.DeleteQuotaPolicyConfig` | internal/controller/quota_policy.go:229-242 | the entry is gone even when the push fails |
| `QuotaController.QuotaPolicyController.Reconcile` | internal/controller/quota_policy.go:70-143 | one reconcile is one event on the controller's memory, sends exactly that event's notifications, and returns an error in exactly the listed cases, a failed list of routes of a live policy not among them; without an error, and unless the policy is being deleted, the service holds the recomputed snapshot |
| `QuotaServed.QuietRunsServe` | internal/controller/quota_policy.go:70-242 | over every run of both controllers, users and restarts, whatever calls fail: the service holds the snapshot recomputed from the cache, or a policy is pending or being deleted |
| `QuotaServed.StepRemembersIff` | internal/controller/quota_policy.go:100-109 | pending policies alone tell whether the service is behind, except exactly after the last pending reconcile of a policy being deleted whose push failed or which pushes nothing |
| `QuotaServed.FailedFinalizerPushIsForgotten` | internal/controller/controller.go:664-676 | the failed push of a finalizer run leaves old limits in force with nothing pending, until the policy vanishes |
| `QuotaController.CacheIsLastBuilt` | internal/controller/quota_policy.go:155-242 | after every run the cache holds exactly each policy's last built configuration |
| `QuotaController.PushedIsRecomputed` | internal/controller/quota_policy.go:202-240 | after every run whose last change was pushed, the service holds the recomputed snapshot |
| `QuotaController.CachedKeysAreRetained` | internal/controller/quota_policy.go:202-240 | every cached policy has its target keys retained, in every run |
| `QuotaController.RetainedIsLastTargets` | internal/controller/quota_policy.go:202-260 | after every run the retained keys of a policy are those it was last built for, until its disappearance was pushed and all its routes were told |
| `QuotaController.OrderOfReconcilesIsInvisible` | internal/controller/quota_policy.go:290-318 | runs with the same last built configurations push the same snapshot |
| `QuotaController.FirstPolicyTakesPrecedence` | internal/controller/quota_policy.go:290-318 | at every path the limit is that of the first policy in byte order of namespace/name that has one |
| `QuotaController.NoPolicyNoLimit` | internal/controller/quota_policy.go:290-318 | and there is none where no policy has one |
| `QuotaController.KeyOrderAgainstPairOrder` | internal/controller/quota_policy.go:300-306 | the merge's string order differs from the hash's pair order exactly when one namespace continues the other with a dash |
| `ReferenceGrants.ValidateReference` | internal/controller/referencegrant.go:171-213 | the lookup permits exactly by same namespace or an indexed matching live grant |
| `ReferenceGrants.IsReferenceGrantValid` | internal/controller/referencegrant.go:216-253 | true exactly if some from and some to entry match |
| `ReferenceGrants.IndexRefinesScan` | internal/controller/controller.go:601-613 | with dot-free namespaces the index lookup decides the ReferenceGrant rule of the Gateway API |
| `ReferenceGrants.DottedNamespaceWouldLeak` | internal/controller/referencegrant.go:171-253 | with a dotted namespace it would not, since a grant's namespace is never checked |
| `ReferenceGrants.ListRoutesForGateway` | internal/controller/gateway_mutator.go:150-191 | which reader answers, and with what, for every combination of failures |
| `ReferenceGrants.ListingsAgree` | internal/controller/gateway_mutator.go:192-227 | indexed and fallback listing select the same routes in the same order although names may hold dots |
| `ReferenceGrants.SelectedExactly` | internal/controller/gateway_mutator.go:192-227 | each listed route is selected, in place, exactly if a parent names the gateway and, given or by default, its namespace |
| `ReferenceGrants.WebhookAndReconcilerAgree` | internal/controller/gateway_mutator.go:142-191 | with or without the live reader, whichever reads fail, an answer is exactly the attached routes, and there is none exactly if no reader that was asked answers |
| `Api.AiGatewayRouteIndexFunc` | internal/controller/controller.go:498-510 | one key per backend reference, in spec order |
| `QuotaEffective.FetchEffective` | internal/controller/ai_gateway_route.go:526-591 | the memoised, deduplicated search returns the direct definition over the grants whose lookups succeed, each policy once, and fails exactly when a list of policies does |
| `QuotaEffective.AuthorisedTargets` | internal/controller/ai_gateway_route.go:562-580 | the memoised grant checks keep exactly the targets that are permitted by a lookup that does not fail, and the memo stays right |
| `QuotaEffective.TargetAllowedIff` | internal/controller/referencegrant.go:171-253 | on the fields of the objects: a target counts exactly if it is in the policy's namespace, or its lookup succeeds and a live grant there lets QuotaPolicies of that namespace refer to it |
| `QuotaEffective.SearchIsDirectIff` | internal/controller/ai_gateway_route.go:562-580 | failing lookups leave the result as all grants would have it exactly if none hides a permitted target of a processed policy |
| `QuotaEffective.FailedLookupDropsPolicy` | internal/controller/ai_gateway_route.go:562-580 | a failing lookup that drops a policy without an error |
| `QuotaEffective.HitsMeansTargets` | internal/controller/ai_gateway_route.go:526-555 | a policy is found by key exactly if it targets a non-pool backend of the route |
| `QuotaEffective.HashInputIsCanonical` | internal/controller/ai_gateway_route.go:593-619 | order and repetition of rules, references and listed policies do not show in the hash input |
| `QuotaEffective.HashInputDetermines` | internal/controller/ai_gateway_route.go:593-619 | equal hash inputs mean the same effective policies |
| `QuotaNotify.FrameIsExact` | internal/controller/quota_policy.go:115-142 | every untold route keeps its effective policies exactly if the previous targets are retained or new |
| `QuotaNotify.UpdateFrame` | internal/controller/quota_policy.go:346-360 | a route not told by a reconcile with working lists keeps the policy's contribution |
| `QuotaNotify.DeletionFrame` | internal/controller/quota_policy.go:244-288 | the same for a vanished policy, with nothing retained too |
| `QuotaNotify.CoalescedChangesLeaveStaleRoute` | internal/controller/quota_policy.go:115-142 | two changes seen as one leave a route stale |
| `QuotaNotify.SentSkippingIff` | internal/controller/quota_policy.go:346-360 | with any lists failing, a route is told exactly if some list that succeeds holds it |
| `QuotaNotify.SentUntilErrorIff` | internal/controller/quota_policy.go:260-272 | the same for the loop that stops at the first failing list |
| `QuotaNotify.SameContributionSameHash` | internal/controller/ai_gateway_route.go:593-619 | a route whose share of the one changed policy stays the same keeps its hash input |
| `QuotaNotify.StepKeepsAtIff` | internal/controller/quota_policy.go:70-143 | for each route and policy: a step of either controller, a user, the API server or a restart, with any calls failing, keeps the route fresh, queued or recoverable for the policy exactly if, were it left stale and unqueued, it is told or found by a later reconcile |
| `QuotaNotify.StepKeepsIff` | internal/controller/quota_policy.go:70-143 | the same for all routes and policies at once |
| `QuotaNotify.SettledIsFresh` | internal/controller/quota_policy.go:70-143 | over every run, if the steps since the route was last absent or queued meet that condition for it and a policy, then with nothing pending for these two the route carries what the policy contributes now, whatever happened to other routes and policies or before |
| `QuotaNotify.QuietRunsAreFresh` | internal/controller/ai_gateway_route.go:526-591 | hence, with nothing pending for the route and any policy, it carries the stamp of its current effective policies |
| `QuotaNotify.CalmRunsAreFresh` | internal/controller/quota_policy.go:70-143 | that holds in particular if since then the policy is edited only once reconciled and deleted only with its finalizer, and its lists and the route's lookups succeed, whatever pushes, reads and restarts do |
| `QuotaNotify.SwallowedFailureLosesRoute` | internal/controller/quota_policy.go:137-142 | a reconcile whose list for a previous target fails is not repeated and leaves a stale route that neither retained nor new targets reach |
| `QuotaNotify.LostStays` | internal/controller/quota_policy.go:70-143 | such a route stays stale through every step but a change or reconcile of the route, a change of the policy, an event for another policy or a restart; no reconcile of the policy finds it |
| `QuotaNotify.FailedListLeavesStaleRoute` | internal/controller/quota_policy.go:137-142 | a run from the start in which one list fails once, with nothing pending and a route stale at its end |
| `QuotaCost.InjectQuotaCosts` | internal/controller/gateway.go:1075-1184 | entries are unique, each justified by an authorised target, cover exactly the pairs asked for under the lookups that succeed, and are those of the policies in the order found; a failed list of policies yields none |
| `QuotaCost.FirstPolicyDecides` | internal/controller/gateway.go:1098-1183 | the first policy in that order that asks for a pair decides its expression |
| `QuotaCost.ExpressionDeterminedIff` | internal/controller/gateway.go:1098-1183 | every order yields the same expression exactly if all policies that ask for the pair agree on it |
| `QuotaCost.TwoOrdersTwoExpressions` | internal/controller/gateway.go:1098-1183 | two policies with different expressions for one pair, each charged in one of the two orders |
| `QuotaCost.ChargedUnderFailuresIff` | internal/controller/gateway.go:1131-1141 | failing lookups lose no pair exactly if every asked pair keeps an asker whose target is not hidden and whose policy still reaches a backend |
| `QuotaCost.FailedLookupLosesCharge` | internal/controller/gateway.go:1131-1141 | a target in another namespace whose failing lookup leaves nothing charged |
| `QuotaCost.InjectForRoutes` | internal/controller/gateway.go:428-602 | over the whole route list at most one entry per route, model and backend; each route exactly its expected pairs, or none if a lookup for the backends collected by then fails, each route with failures of its own |
| `QuotaCharged.ExpectedIff` | internal/controller/gateway.go:1075-1184 | those pairs on the fields of routes and policies: none for a deleted or empty route or after a failed lookup; else a model and backend exactly if a policy permitted on the backend has a compiling quota for the model and reaches a collected backend, and the model is overridden to or none is |
| `QuotaCharged.CollectedIff` | internal/controller/gateway.go:1098-1124 | a policy is looked at exactly if it targets a collected backend |
| `QuotaCost.OwnCostsAreCharged` | internal/controller/gateway.go:1081-1093 | what a route's own backends ask for is charged unless an earlier override hides the model, and only then not |
| `QuotaCost.EarlierOverrideHidesQuota` | internal/controller/gateway.go:1081-1093 | an override on the first of two routes hides the quota of the second |
| `McpSync.DerivedNames` | internal/controller/mcp_route.go:255-281 | filter and Secret names derived from an orphaned route are those they were created under |
| `McpSync.NamesInjective` | internal/controller/mcp_route.go:174-176 | within one route the names of different backends differ |
| `McpSync.NamesClashAcrossRoutes` | internal/controller/mcp_route.go:174-176 | across routes they can be equal |
| `McpSync.McpRouteController.SyncPerBackend` | internal/controller/mcp_route.go:129-153 | a completed sync is the specified one; an interrupted one leaves exactly the store of a cut between two of its writes |
| `McpSync.McpRouteController.EnsureFilter` | internal/controller/mcp_route.go:793-863 | the filter and the credential Secret transition of one backend |
| `McpSync.McpRouteController.EnsureCredentialSecret` | internal/controller/mcp_route.go:865-914 | the Secret holds the key, as a bearer token for the Authorization header or none named and bare for another, or nothing changed |
| `McpSync.McpRouteController.DeleteOrphans` | internal/controller/mcp_route.go:255-281 | exactly the orphans' routes, filters and Secrets go; interrupted, those of some orphans and a leading part of one more |
| `McpSync.SyncedExactly` | internal/controller/mcp_route.go:129-153 | outcome of a completed sync for every backend name |
| `McpSync.HeaderKeyIsDelivered` | internal/controller/mcp_route.go:666-781 | after a completed sync a header key reaches the backend as a bearer token in Authorization, or bare in another named header, replacing what the client sent unless the policy says otherwise, the same through the rule and through a Secret |
| `McpSync.QueryKeyIsDelivered` | internal/controller/mcp_route.go:688-696 | a key for a query parameter is in the path, and no header is touched |
| `McpSync.NoKeyNothingDelivered` | internal/controller/mcp_route.go:666-781 | without a key, path and headers are left alone |
| `McpSync.SyncableIff` | internal/controller/mcp_route.go:916-931 | a backend can be synced exactly if it is in the route's namespace and its key, inline first, else from the Secret, can be read |
| `McpSync.SyncIsExactIff` | internal/controller/mcp_route.go:233-281 | a sync leaves exactly the current references' resources if and only if there was no leftover |
| `McpSync.RunsStayExact` | internal/controller/mcp_route.go:129-153 | over any run of completed syncs with any spec changes the resources are exactly the current ones, a Secret just where the filter injects |
| `McpSync.CutOffSyncLeavesFilter` | internal/controller/mcp_route.go:666-781 | a sync cut off before the HTTPRoute leaves filter and Secret |
| `McpSync.InterruptedSyncLeaks` | internal/controller/mcp_route.go:233-281 | no later sync without that backend removes them |
| `McpSync.RetriesAreExactIff` | internal/controller/mcp_route.go:129-281 | after any number of syncs of the same references, each cut anywhere, a completed one is exact if and only if there was no leftover at first and no cut fell between the deletes of an orphan with something left to delete |
| `McpSync.RetryIsExactIff` | internal/controller/mcp_route.go:129-281 | with one cut, from a store as completed syncs leave it: exactly unless it fell after the first delete of an orphan, or after the second of one with a Secret |
| `McpSync.TornOrphanLeaks` | internal/controller/mcp_route.go:255-281 | cut after the first delete of an orphan, its filter survives the repetition |
| `McpSync.SyncFrame` | internal/controller/mcp_route.go:129-153 | a sync touches nothing outside the route's own names |
| `McpSharedBackend.McpBackends.SyncMCPRoute` | internal/controller/mcp_route.go:88-113 | one reconcile is one step of the lifecycle, with any failing call |
| `McpSharedBackend.McpBackends.CleanupSharedMCPProxyBackend` | internal/controller/mcp_route.go:595-631 | the Backend goes exactly if it is managed and no other route is live |
| `McpSharedBackend.McpBackends.DeleteOldMCPRouteBackend` | internal/controller/mcp_route.go:634-652 | only a legacy Backend this route owns goes |
| `McpSharedBackend.LegacyNameClash` | internal/controller/mcp_route.go:634-638 | the legacy name is the shared one for namespace ai and route eg only |
| `McpSharedBackend.SyncOutcome` | internal/controller/mcp_route.go:88-113 | finalizer, shared Backend and legacy Backend after a sync, for every combination of failing calls |
| `McpSharedBackend.FinalizeOutcome` | internal/controller/mcp_route.go:582-631 | route and Backends after a finalizer run, for every combination of failing calls |
| `McpSharedBackend.StepSpares` | internal/controller/mcp_route.go:595-652 | the controller removes no Backend but its own managed one and the owned legacy one |
| `McpSharedBackend.SharedBackendServes` | internal/controller/mcp_route.go:542-594 | in every run, failing or not, the Backend exists whenever a synced route is live |
| `McpSharedBackend.StepHeldIff` | internal/controller/mcp_route.go:582-631 | any step, failing or not, orphans the managed Backend exactly if it deletes the last route before its finalizer, or finalizes it without the cleanup |
| `McpSharedBackend.SharedBackendGoesLast` | internal/controller/mcp_route.go:582-631 | over every run, failing or not, the managed Backend is gone with the last route, or that step leaked it |
| `McpSharedBackend.UnsyncedRouteLeaks` | internal/controller/controller.go:646-679 | a six-step run that leaks it |
| `McpPrefix.ValidatePerBackendPrefixMode` | internal/controller/mcp_route.go:952-989 | accepts exactly if every effectively-Never backend enumerates tools and no tool, and separately no prompt, is claimed twice; a rejection names a real fault |
| `McpPrefix.ModesAgree` | internal/mcpproxy/config.go:115-120 | controller and proxy resolve each backend's mode alike |
| `McpPrefix.LoadIndex` | internal/mcpproxy/config.go:286-346 | the loaded index, whatever the iteration order |
| `McpPrefix.IndexExact` | internal/mcpproxy/config.go:317-346 | on an accepted route it holds exactly the declared, not excluded names under their one claimant |
| `McpPrefix.MergeToolsList` | internal/mcpproxy/handlers.go:426-479 | the advertised tools are the merged list of the specification, and each is admitted by its backend's selector, field by field |
| `McpPrefix.MergePromptsList` | internal/mcpproxy/handlers.go:515-556 | the same for prompts |
| `McpPrefix.MergedIff` | internal/mcpproxy/handlers.go:426-479 | an entry is advertised exactly if listed, selected, authorised and not dropped |
| `McpPrefix.AllowsName` | internal/mcpproxy/config.go:226-258 | the loops decide the selector |
| `McpPrefix.AdvertisedExactly` | internal/mcpproxy/handlers.go:426-556 | on the fields of the route: which items are advertised under which names, exclusions winning over inclusions, names over expressions |
| `McpPrefix.RoutedIsAdmitted` | internal/mcpproxy/config.go:226-258 | a call that goes through reaches a backend of the route whose selector admits the item, under its declared bare or its prefixed name |
| `McpPrefix.CutIff` | internal/mcpproxy/handlers.go:176-197 | cutting a prefixed name recovers backend and item for all items exactly if the backend name has no separator and does not end in an underscore |
| `McpPrefix.AdvertisedDispatches` | internal/mcpproxy/legacy.go:644-710 | calling any advertised name reaches the backend and item it was advertised for, or is denied, exactly by the call's own authorisation check, which need not be the listing's |
| `McpPrefix.AdvertisedUnique` | internal/mcpproxy/handlers.go:426-556 | no name is advertised for two items |
| `McpPrefix.DroppedIff` | internal/mcpproxy/handlers.go:426-556 | an offered tool or prompt is missing exactly if it is prefixed and a Never backend declares that spelling |
| `McpPrefix.CollisionsCrossModes` | internal/controller/mcp_route.go:933-951 | names collide only between an Always and a Never backend, exactly if the Never tool is spelled like the prefixed one |
| `Rotation.RotationController.ExecuteRotation` | internal/controller/backend_security_policy.go:322-353 | stored credential, success and requeue of one reconcile, for every outcome of its calls |
| `Rotation.PositiveRequeueIff` | internal/controller/backend_security_policy.go:345-350 | a success asks for a positive delay exactly unless the rotation time lies between the two clock readings |
| `Rotation.OnTheDotStalls` | internal/controller/rotators/common.go:69-72 | with one reading too, at the rotation time itself |
| `Rotation.CredentialNeverExpires` | internal/controller/backend_security_policy.go:322-353 | over whole runs the stored credential is unexpired at every instant if lateness plus failed-retry time fits the window and no try stalls |
| `Rotation.StallLetsItExpire` | internal/controller/backend_security_policy.go:345-353 | every run ending in a stall can go on, within all other bounds, to an expired credential |
| `BodyMutation.Mutate` | internal/bodymutator/body_mutator.go:85-127 | the removal and set loops compute the mutated body |
| `BodyMutation.MutatedAt` | internal/bodymutator/body_mutator.go:85-127 | effect of a mutation on each field: last set value, else removed, else kept |
| `BodyMutation.MergeBodyMutations` | internal/controller/gateway.go:290-333 | one field per path, the route's winning, and every removed name once, in some order |
| `BodyMutation.MergeOrderIsInvisible` | internal/controller/gateway.go:310-331 | the mutated body does not depend on map iteration order |
| `BodyMutation.MergeMeaning` | internal/controller/gateway.go:288-333 | per field, merged equals backend then route exactly unless the route removes and only the backend sets it, where the backend value stays |
| `BodyMutation.MergeMeansInTurnIff` | internal/controller/gateway.go:288-333 | the same for whole bodies and absent mutations |
| `BodyMutation.RouteRemovalIsLost` | internal/controller/gateway.go:288-333 | a removal by the route that has no effect |
| `DataPlane.NewHTTPRoute` | internal/controller/ai_gateway_route.go:278-361 | per rule the kept references in spec order, and an error for exactly the dropped ones |
| `DataPlane.WhereAscends` | internal/controller/ai_gateway_route.go:278-346 | kept references are listed once each, in spec order |
| `DataPlane.ErrorIffDropped` | internal/controller/ai_gateway_route.go:415 | an error is returned exactly if some rule lost a reference |
| `DataPlane.KeptIff` | internal/controller/ai_gateway_route.go:283-345 | on the fields of the objects: a reference is kept exactly if it stays in the namespace or a live grant there permits it, and its AIServiceBackend exists if it is no pool |
| `DataPlane.SecuredIff` | internal/controller/gateway.go:1196-1263 | it is in order exactly if at most one security policy attaches to it, once, and its credentials can be read |
| `DataPlane.ConfigBackends` | internal/controller/gateway.go:480-582 | the loop over rules and references computes the config's backends |
| `DataPlane.ConfigComesFromHTTPRoute` | internal/controller/gateway.go:480-582 | on one snapshot the config holds exactly the references the HTTPRoute kept whose security policy is in order, in spec order |
| `DataPlane.BackendNameInjective` | internal/internalapi/internalapi.go:152-154 | a per-reference backend name determines namespace, backend, route, rule and position |
| `DataPlane.BackendNameIs` | internal/internalapi/internalapi.go:152-154 | the format of the name |
| `DataPlane.StampEndpoints` | internal/extensionserver/post_translate_modify.go:396-437 | the stamped positions: the weighted references of the spec, as many as there are groups |
| `DataPlane.StampsAgreeIff` | internal/extensionserver/post_translate_modify.go:396-437 | every endpoint group carries the config name of the reference it stems from exactly if no weighted reference is dropped ahead of a weighted kept one |
| `DataPlane.DroppedRefShiftsStamps` | internal/extensionserver/post_translate_modify.go:396-437 | with the first of three references dropped, the third's endpoints are stamped as the second |
| `PriorityAnnotation.BuildPriorityAnnotation` | internal/controller/ai_gateway_route.go:623-635 | the loops build the joined items of the flattened list |
| `PriorityAnnotation.AnnotationInjective` | internal/controller/ai_gateway_route.go:621-635 | for names free of colon and comma, equal annotations exactly for equal flattened lists |
| `PriorityAnnotation.DefaultedPriorityIsInvisible` | internal/controller/ai_gateway_route.go:627-631 | an omitted priority and an explicit 0 are not told apart |

## Left out

- Real concurrency inside a controller: reconciles of one controller are serial; users, Kubernetes and other controllers interleave.
- SHA-256, JSON and YAML: an arbitrary checksum function, injective where a lemma says so, and documents as values; version and creation time of the bundle index are not modelled.
- `BuildRateLimitConfigs`, CEL compilation, regular expressions, `filepath.Dir`: parameters of the model.
- Aliasing in `MergeDescriptors`: children are values, so the shared append on `existing.desc.Descriptors` is not visible.
- Config watcher: the modification times by which `internal/filterapi/watcher.go:88-106` skips an unchanged volume, and its version check, are not modelled; neither is the atomic refresh of a volume's files, so `WatcherIsExact` holds for any mixture.
- Flag parser: only the forms the builder writes; `-flag=value`, double dashes and the end at a plain argument are not modelled.
- Rollout: Deployments and DaemonSets are one list with a kind; workloads are not created or deleted during a run; a reconcile may read any pod list, but lists the workloads and patches them at one instant.
- Quota notifications: grants do not change during a run, and what their own watch would enqueue is not modelled; a route's reconcile whose list of policies fails is no step, as it stamps nothing and is repeated.
- Grant lookups: all lookups of one reference within one search have the same outcome, as the memo of `internal/controller/ai_gateway_route.go:566-572` makes it; so do those within one injection, where the code has no memo.
- Rotation: providers, OIDC exchange and owner references; controller-runtime's backoff is any later start after a failure.
- StampEndpoints: only clusters with inlined endpoints and without a backend index in their name; one endpoint group per kept reference of non-zero weight is taken from the comment in the code.
- NewHTTPRoute: the objects a kept reference points to, matches, filters, timeouts, labels and annotations are not modelled; computing the quota hash is taken to succeed.
- ConfigBackends: schemas, header mutations and credentials of a backend, and interruption by a cancelled context, are not modelled.
- Dispatch past the name: sessions, resources and their URIs, caching hints and authorisation rules (a predicate) of the MCP proxy.
- `sjson` path syntax and `isJSONValue`: bodies are maps of top-level fields with opaque values; the header mutation merge would only repeat the body one.
- The main HTTPRoute, security policies and OAuth metadata of MCPRoutes; InferencePool status; status conditions and logging.
- `internal/backendauth`, `internal/autoconfig`, `cmd/**` and the translators of the request path: they would only add easy members or rest on SDKs.
