# ARO-HCP service logic in Dafny

ARO-HCP is the resource provider for hosted OpenShift clusters on Azure. This project models the parts of it whose
correctness depends on several functions, or on whole runs, and proves what they keep. Each module follows one
component of the Go code:

- **Update dispatch** (`CanonicalJson`, `GoValues`, `NodePoolDispatch`, `ClusterDispatch`, `ClusterConfigText`,
  `ClusterReconcile`). The desired state and the live Cluster Service object are projected into one config, their
  canonical texts are compared, and a PATCH is sent when they differ. Proved: the text comparison is exact; what is
  written reads back, or exactly when it does not; one PATCH settles the drift exactly when a condition holds that can
  be checked beforehand; and after any number of syncs the outcome is the one the first sync decided.
- **Controllers** (`WorkQueue`, `WatchingController`, `Cooldown`). Events are mapped to keys, queued once per key,
  served by several workers with retries, and gated by a bounded cache of cooldowns.
- **Admission** (`NodePoolAdmission`, `ClusterUniqueness`, `OperatorIdentities`) and **validation**
  (`IdentityValidation`, `Cidr`). What every run of accepted requests keeps, when a request is refused, and what is lost
  when two requests are judged on the same listing.
- **Search, paging and archives** (`TypeGraph`, `Paging`, `GraphData`) and the **certificate cache** (`ReloadCache`).

`Text` and `Options` hold strings, sorting, decimal texts and the option type.

Code that updates objects is a class whose methods are proved against functions of the old state; loops are methods with
invariants; runs are sequences of steps of a state machine. Everything the code calls but does not contain is either a
parameter (the path, YAML and version libraries of the graph archive, hash functions, the page server and consumer, the
text Go prints for minutes that are not whole) or one of these assumptions:

- The Kubernetes work queue: adding deduplicates, a key that is being processed is put back when it is released, retries
  arrive later. Workers follow the order of calls in `processNextWorkItem`.
- The least-recently-used cache: a lookup that finds a key and an addition both move it to the front, and an addition
  over capacity drops the last key.
- The Cluster Service SDK: a nil label map leaves the attribute unset, an empty one sets it; list setters always set.
- Cluster Service itself: a PATCH stores what is sent and keeps what is not; replicas and autoscaling clear each other;
  the property map is stored whole; an empty pull identity clears the registry credentials. For the label map, which the
  code does not settle, three servers are considered (`LabelPatch`): one that ignores an empty map, one that replaces,
  and one that merges keys.

## Where the code falls short of a promise

In each case the code is modelled as it is, a lemma gives a failing input, and another says exactly when it works.

- A provision time of a million whole minutes or more is printed in exponent notation, which the duration parser does
  not read (`WholeMinutesRoundTrip`, `LongProvisionTimeIsUnreadable`). Validation sets no upper limit.
- A control plane size with a capital letter, the empty size, the size `e2e_minimal`, or any size together with minimal
  pod sizing never reads back, so the controller sends a PATCH on every sync (`CreateReadsBackExactlyWhen`,
  `ConvergesExactlyWhen`, `CapitalSizeNeverConverges`).
- Removing the last taint of a node pool never takes effect, because the empty list is not sent
  (`ClearingTaintsNeverConverges`, `TaintsAfterPatch`, `NodePoolDispatch.ConvergesExactlyWhen`).
- Three list iterators promise to be usable in range loops but call a consumer again after it has stopped
  (`EachRespectsExactlyWhen`, `EachDisrespectsAStop`).
- The cooldown documentation says calls return false until the cooldown has elapsed. The code says so only while the
  cache still holds the key (`NextSyncExactlyWhen`, `EvictionAllowsAtOnce`, `SpacingCanBeLost`).
- A certificate reload that fails is not tried again until the file changes once more, and a write between the load and
  the first hash goes unnoticed (`FailedReloadIsNotRepeated`, `EarlyWriteGoesUnnoticed`, `StaleExactlyWhen`).
- Deleting a node pool does not look at worker capacity (`DeleteCanRemoveCapacity`, `DeleteKeepsCapacityExactlyWhen`).
- Decisions on a stale listing lose what sequential runs keep, as the source's comments concede: the last survivor or the
  last capacity of a cluster (`StaleListingsBreakBoth`, `StaleDeletesLoseSurvivorExactlyWhen`,
  `StaleUpdatesLoseCapacityExactlyWhen`, and `BatchKeepsSurvivorExactlyWhen` and `BatchKeepsCapacityExactlyWhen` for
  updates and deletes mixed), and the uniqueness of what clusters use (`StaleCreatesClash`,
  `StaleCreatesClashExactlyWhen`).

## Model

| member | source | states |
|---|---|---|
| `CanonicalJson.PrintInjective` | internal/ocm/update_dispatch_config.go:31-47 | Two JSON values have one indented text if and only if they are equal, for all values and all string contents. |
| `CanonicalJson.PrintSplits` | internal/ocm/update_dispatch_config.go:31-47 | A printed value followed by anything that is not a digit can be read off the text in one way only. |
| `CanonicalJson.CanonicalKeysSorted` | internal/ocm/update_dispatch_config.go:31-47 | After the normalising round trip every object, at every level of the value, has strictly increasing keys. |
| `CanonicalJson.StructsEqual` | internal/ocm/update_dispatch_config.go:31-47 | Structs of one shape have one canonical form exactly when each field agrees, an omitted field agreeing only with an omitted one. |
| `CanonicalJson.MapsEqual` | internal/ocm/update_dispatch_config.go:31-47 | String maps have one canonical form exactly when they are equal, whatever order each is walked in. |
| `GoValues.Truncate` | internal/ocm/cluster_update_dispatch_config.go:301-308 | A float converted to an integer is the nearest integer towards zero. |
| `GoValues.ConversionsFixInt32` | internal/ocm/cluster_update_dispatch_config.go:301-308 | Values that started as 32-bit integers pass through both conversions unchanged. |
| `GoValues.WholeMinutesRoundTrip` | internal/ocm/convert.go:439-455 | Whole minutes written as text and parsed again give the same seconds when there are fewer than a million minutes, and a parse error otherwise. |
| `NodePoolDispatch.CopyTaints` | internal/ocm/node_pool_update_dispatch_config.go:284-299 | The append loop copies every Cluster Service taint, in order. |
| `NodePoolDispatch.CanonicalTextExact` | internal/ocm/node_pool_update_dispatch_config.go:118-139 | Two node pool configs have one canonical text if and only if they are equal up to nil against empty lists and maps; nil pointers stay distinct from zero values; label order does not matter. |
| `NodePoolDispatch.ConfigTextExact` | internal/ocm/node_pool_update_dispatch_config.go:143-156 | The comparison the controller makes is exact in the same sense. |
| `NodePoolDispatch.NoDriftMeansEffectiveDrainIsLive` | internal/ocm/node_pool_update_dispatch_config.go:161-272 | When the two sides compare equal, the drain timeout in effect is the live one. |
| `NodePoolDispatch.PoolBuilder.constructor` | internal/ocm/node_pool_update_dispatch_config.go:321-348 | A new builder has no attribute set. |
| `NodePoolDispatch.PoolBuilder.Apply` | internal/ocm/node_pool_update_dispatch_config.go:321-348 | Which attributes are set, set to empty or left unset for every config. |
| `NodePoolDispatch.LabelsAfterPatch` | internal/ocm/node_pool_update_dispatch_config.go:321-348 | For each of the three servers, exactly when the labels agree after one PATCH. |
| `NodePoolDispatch.TaintsAfterPatch` | internal/ocm/node_pool_update_dispatch_config.go:321-348 | Taints agree after one PATCH exactly when some are desired or none are live. |
| `NodePoolDispatch.ScalarsAfterPatch` | internal/ocm/node_pool_update_dispatch_config.go:321-348 | Replicas, autoscaling and drain timeout always agree after one PATCH. |
| `NodePoolDispatch.OnePatchSettlesExactlyWhen` | internal/ocm/node_pool_update_dispatch_config.go:161-348 | One PATCH makes the two diff sides equal if and only if labels and taints meet a condition readable before it. |
| `NodePoolDispatch.NoDriftSettles` | internal/ocm/node_pool_update_dispatch_config.go:161-170 | Without drift the condition holds. |
| `NodePoolDispatch.PatchKeepsSettles` | internal/ocm/node_pool_update_dispatch_config.go:321-348 | A PATCH neither establishes nor destroys the condition. |
| `NodePoolDispatch.ConvergesExactlyWhen` | backend/pkg/controllers/nodepool/update/node_pool_cluster_service_update_dispatch_controller.go:120-247 | After any positive number of syncs the drift is gone if and only if the condition held at the start. |
| `NodePoolDispatch.ClearingTaintsNeverConverges` | internal/ocm/node_pool_update_dispatch_config.go:321-348 | A pool with one live taint and none desired drifts after every number of syncs, for every server. |
| `NodePoolDispatch.LivePool.SyncOnce` | backend/pkg/controllers/nodepool/update/node_pool_cluster_service_update_dispatch_controller.go:120-247 | A sync sends a PATCH exactly on drift and leaves the pool as the PATCH makes it. |
| `ClusterDispatch.PropertyLayers` | internal/ocm/convert.go:524-547 | Managed keys come from the config alone; other keys come from the required properties where they name them, else from the old cluster. |
| `ClusterDispatch.PropertiesReadBack` | internal/ocm/cluster_update_dispatch_config.go:363-421 | Availability and image always survive the property map, the size pair exactly under a condition on the inputs, and the override that would be written next is the same except after an empty size. |
| `ClusterDispatch.PropertiesIdempotentExactlyWhen` | internal/ocm/cluster_update_dispatch_config.go:578-600 | Projecting the written map back and applying again yields the same map if and only if the provider size is not the empty string. |
| `ClusterDispatch.ClusterBuilder.constructor` | internal/ocm/cluster_update_dispatch_config.go:548-635 | A builder starts from the given attributes. |
| `ClusterDispatch.ClusterBuilder.AppendMirrors` | internal/ocm/convert.go:457-471 | The append loop builds one mirror per configured mirror, in order. |
| `ClusterDispatch.ClusterBuilder.OverlayProperties` | internal/ocm/cluster_update_dispatch_config.go:578-600 | The in-place sets and deletes on the base map amount to the layered map. |
| `ClusterDispatch.ClusterBuilder.ApplyToCSBuilders` | internal/ocm/cluster_update_dispatch_config.go:548-635 | The write fails exactly for an empty non-nil CIDR list, having written only the drain period; otherwise it sets all attributes. |
| `ClusterDispatch.MirrorsRoundTrip` | internal/ocm/cluster_update_dispatch_config.go:335-359 | Mirrors that were written read back as they were. |
| `ClusterDispatch.AutoscalingReadsBack` | internal/ocm/cluster_update_dispatch_config.go:425-449 | Autoscaling reads back exactly when the provision time survives its text. |
| `ClusterDispatch.RestReadsBack` | internal/ocm/cluster_update_dispatch_config.go:280-359 | Drain period, authorized CIDRs and mirrors read back whatever they are. |
| `ClusterConfigText.ClusterTextExact` | internal/ocm/cluster_update_dispatch_config.go:115-174 | Two cluster configs have one canonical text if and only if they are equal up to nil against empty lists. |
| `ClusterConfigText.EtcdEqual` | internal/ocm/cluster_update_dispatch_config.go:115-174 | Absent customer managed settings, absent KMS settings and an empty key version all have different texts. |
| `ClusterReconcile.CreateReadsBackExactlyWhen` | internal/ocm/convert.go:477-553 | What a created cluster reads back as is what was asked for if and only if the size pair and the provision time survive, for all required properties. |
| `ClusterReconcile.LongProvisionTimeIsUnreadable` | internal/ocm/cluster_update_dispatch_config.go:425-449 | A million whole minutes or more of provision time makes the live configuration unreadable, whatever else is written. |
| `ClusterReconcile.EtcdAfterPatch` | internal/ocm/cluster_update_dispatch_config.go:478-522 | Etcd settings agree after a PATCH exactly when both sides use, or both do not use, customer managed keys; a PATCH does not change which. |
| `ClusterReconcile.PullIdentityAfterPatch` | internal/ocm/cluster_update_dispatch_config.go:457-474 | The pull identity agrees after a PATCH, including when it was cleared, unless the empty identity is desired. |
| `ClusterReconcile.RestAfterPatch` | internal/ocm/cluster_update_dispatch_config.go:548-635 | Drain period, CIDRs and mirrors agree after every PATCH that could be built. |
| `ClusterReconcile.InSyncMeansAgrees` | backend/pkg/controllers/cluster/update/cluster_cluster_service_update_dispatch_controller.go:194-208 | Equal texts mean equal configs up to nil against empty, and the other way round. |
| `ClusterReconcile.OnePatchSettlesExactlyWhen` | internal/ocm/cluster_update_dispatch_config.go:548-635 | One PATCH makes the live cluster read back as exactly what is desired if and only if a condition readable before it holds; otherwise the texts differ too. |
| `ClusterReconcile.SyncKeepsConverges` | backend/pkg/controllers/cluster/update/cluster_cluster_service_update_dispatch_controller.go:129-261 | One sync brings agreement exactly when convergence was possible, and does not change whether it is. |
| `ClusterReconcile.ConvergesExactlyWhen` | backend/pkg/controllers/cluster/update/cluster_cluster_service_update_dispatch_controller.go:129-261 | After any positive number of syncs the texts are equal if and only if they were at the start or the first sync could settle them. |
| `ClusterReconcile.CapitalSizeNeverConverges` | internal/ocm/convert.go:580-590 | A provider size of "Large" on a cluster that differs leaves it differing after every number of syncs. |
| `ClusterReconcile.SameText` | backend/pkg/controllers/cluster/update/cluster_cluster_service_update_dispatch_controller.go:194-208 | The string comparison decides equality of configs up to nil against empty. |
| `ClusterReconcile.LiveCluster.SyncOnce` | backend/pkg/controllers/cluster/update/cluster_cluster_service_update_dispatch_controller.go:129-261 | When a sync is quiet, sends or fails, and the cluster it leaves. |
| `WorkQueue.StepKeepsInv` | internal/controllerutils/generic_watching_controller.go:164-195 | Every step keeps the queue's invariant: queued keys are dirty, distinct and not processed, and the keys in processing are those held by workers, one worker each. |
| `WorkQueue.RunKeepsInv` | internal/controllerutils/generic_watching_controller.go:164-195 | Every run keeps it. |
| `WorkQueue.OneWorkerPerKey` | internal/controllerutils/generic_watching_controller.go:164-195 | In every run no two workers hold one key. |
| `WorkQueue.ScheduledUntilTaken` | internal/controllerutils/generic_watching_controller.go:164-195 | A dirty or scheduled key stays so until a sync of it begins, whatever else happens. |
| `WorkQueue.ChangeStaysPending` | internal/controllerutils/generic_watching_controller.go:349-361 | A changed event leaves its key pending until a sync begins after it: in the queue, or with a worker that will put it back. |
| `WorkQueue.FailureStaysScheduled` | internal/controllerutils/generic_watching_controller.go:171-195 | A key whose sync failed stays queued, dirty or delayed until a sync of it begins. |
| `WorkQueue.UnservedStaysUnderway` | internal/controllerutils/generic_watching_controller.go:171-195 | As long as no sync that began after a request has succeeded, the key is scheduled or being synced. |
| `WorkQueue.QuietMeansServed` | internal/controllerutils/generic_watching_controller.go:164-195 | In every run that comes to rest, each request was followed by a sync of its key that began later and succeeded. |
| `WatchingController.AncestorStep` | internal/controllerutils/generic_watching_controller.go:324-335 | One more hop is the parent of where the hops so far lead. |
| `WatchingController.Walk` | internal/controllerutils/generic_watching_controller.go:324-335 | The walk ends, and returns the nearest resource of the controller's type within the hop limit, or nothing exactly when there is none; a negative limit is none. |
| `WatchingController.Controller.constructor` | internal/controllerutils/generic_watching_controller.go:81-97 | A new controller has no interests and an empty queue. |
| `WatchingController.Controller.AddInterestingResource` | internal/controllerutils/generic_watching_controller.go:103-106 | Afterwards a resource is interesting exactly when it was so through an earlier registration, or the new one names its type and its name or the wildcard, up to case; so the first registration ends the acceptance of everything. |
| `WatchingController.RegistrationMeans` | internal/controllerutils/generic_watching_controller.go:103-106 | The same, for every resource and every set of registrations. |
| `WatchingController.Controller.IsResourceInteresting` | internal/controllerutils/generic_watching_controller.go:289-304 | True exactly when there are no interests, or the type has the wildcard or the name. |
| `WatchingController.Controller.EnqueueWithMaxDepth` | internal/controllerutils/generic_watching_controller.go:316-361 | A key is offered exactly when the original ID is interesting and a target lies within the limit; it is the nearest target's; a change is never held back by the cooldown, a resync only by a refusal. |
| `WatchingController.Controller.OnUpdate` | internal/controllerutils/generic_watching_controller.go:379-382 | An update counts as a change exactly when the etags differ; it is offered exactly when the resource is interesting and has a target within the limit, under the nearest target's key. |
| `WatchingController.Controller.Get` | internal/controllerutils/generic_watching_controller.go:171-176 | Taking an item is the queue's take step for the first key. |
| `WatchingController.Controller.Report` | internal/controllerutils/generic_watching_controller.go:185-194 | Success forgets the key, an error schedules a retry. |
| `WatchingController.Controller.Done` | internal/controllerutils/generic_watching_controller.go:176-176 | Releasing a key puts it back if it became dirty meanwhile. |
| `Cooldown.TimeBasedCooldownChecker.constructor` | internal/controllerutils/cooldown.go:63-69 | A new checker has the given cooldown, room for a million keys and no history. |
| `Cooldown.TimeBasedCooldownChecker.CanSync` | internal/controllerutils/cooldown.go:81-90 | The answer is the one a reference without a cache gives from the history of calls. |
| `Cooldown.TimeBasedCooldownChecker.Gate` | internal/controllerutils/cooldown.go:81-90 | The lookup, the comparison and the stamp, as a function of the cache. |
| `Cooldown.HeldExactlyWhen` | internal/controllerutils/cooldown.go:63-69 | A key is in a cache of limited size exactly when fewer keys than that were used more recently. |
| `Cooldown.BeforeIsSince` | internal/controllerutils/cooldown.go:81-90 | The keys used more recently than a key are exactly those called since its last call. |
| `Cooldown.TruncateToFront` | internal/controllerutils/cooldown.go:81-90 | Evicting at each step holds the same keys as keeping all and cutting once. |
| `Cooldown.CacheMirrors` | internal/controllerutils/cooldown.go:81-90 | After every history the cache is the recency list cut to capacity, with the stamps of the last allowed calls. |
| `Cooldown.MirrorAnswers` | internal/controllerutils/cooldown.go:81-90 | Such a cache knows a key exactly when fewer distinct other keys than its capacity were called since, and answers as the reference does. |
| `Cooldown.AnswersAsExpected` | internal/controllerutils/cooldown.go:81-90 | In every history and for every clock, each answer is the reference's. |
| `Cooldown.AllowedAsExpected` | internal/controllerutils/cooldown.go:81-90 | After every history the cache answers the next call as the reference does. |
| `Cooldown.NextSyncExactlyWhen` | internal/controllerutils/cooldown.go:81-90 | After a true answer for a key the next is true exactly when the cooldown is over or as many distinct other keys as the capacity were called since the key's last call. |
| `Cooldown.SyncsAreSpaced` | internal/controllerutils/cooldown.go:81-90 | Consecutive true answers for a key are more than the cooldown apart, unless as many distinct other keys as the capacity were called since the key's last call. |
| `Cooldown.EvictionAllowsAtOnce` | internal/controllerutils/cooldown.go:63-90 | For every capacity, cooldown and clock, a key is allowed again as soon as a full cache of other keys was called in between. |
| `Cooldown.SpacingCanBeLost` | internal/controllerutils/cooldown.go:81-90 | Two true answers for a key at one clock reading. |
| `Cooldown.KeysSinceAreOthers` | internal/controllerutils/cooldown.go:81-90 | The keys counted are different from the key and were called after its last call. |
| `TypeGraph.ContainsStruct` | hack/verify-gomega-cmpdiff/main.go:104-123 | With any set of seen types, the search ends on every finite graph and is true exactly when a struct is reachable without passing through them; a false answer leaves everything reachable seen. |
| `TypeGraph.Descend` | hack/verify-gomega-cmpdiff/main.go:112-119 | One recursive call from a type just seen keeps the closure property of the shared set. |
| `TypeGraph.ContainsStructFromScratch` | hack/verify-gomega-cmpdiff/main.go:92-92 | As called, it is true exactly when a path of pointer, array, slice, key or element edges leads to a struct. |
| `TypeGraph.ExhaustedMeansUnreachable` | hack/verify-gomega-cmpdiff/main.go:104-108 | From a set closed under edges and without new structs no struct is reachable. |
| `TypeGraph.StepReaches` | hack/verify-gomega-cmpdiff/main.go:112-119 | A struct found below an element type, with more types seen, is reachable from the type itself. |
| `TypeGraph.Seen.constructor` | hack/verify-gomega-cmpdiff/main.go:92-92 | The set starts empty. |
| `NodePoolAdmission.AdmitAtLeastOneNodePoolRemains` | internal/admission/admit_nodepool.go:232-250 | A delete is admitted exactly when it repeats an accepted one or another pool is not being deleted. |
| `NodePoolAdmission.AdmitReplicas` | internal/admission/admit_nodepool.go:345-377 | An update is refused exactly when it takes a providing pool to zero and no other live pool provides. |
| `NodePoolAdmission.StepKeepsSurvivor` | internal/admission/admit_nodepool.go:232-250 | No accepted request takes the last pool that is not being deleted. |
| `NodePoolAdmission.StepKeepsCapacity` | internal/admission/admit_nodepool.go:345-389 | No accepted request other than a new delete takes the last capacity. |
| `NodePoolAdmission.RunKeepsSurvivor` | internal/admission/admit_nodepool.go:232-250 | Every run of creates, accepted updates, accepted deletes and removals keeps a pool that is not being deleted. |
| `NodePoolAdmission.RunKeepsCapacity` | internal/admission/admit_nodepool.go:345-389 | Every stretch without a newly accepted delete keeps a live pool that can run workers. |
| `NodePoolAdmission.RunKeepsDistinctIds` | internal/admission/admit_nodepool.go:240-243 | IDs stay distinct under case folding along every run. |
| `NodePoolAdmission.DeleteRefusedExactlyWhen` | internal/admission/admit_nodepool.go:232-250 | A new delete is refused exactly when it would leave no survivor. |
| `NodePoolAdmission.UpdateRefusedExactlyWhen` | internal/admission/admit_nodepool.go:345-377 | An update of a live pool is refused exactly when it would take the last capacity away. |
| `NodePoolAdmission.DeleteKeepsCapacityExactlyWhen` | internal/admission/admit_nodepool.go:232-250 | A new delete keeps capacity exactly when another live pool provides it. |
| `NodePoolAdmission.DeleteCanRemoveCapacity` | internal/admission/admit_nodepool.go:232-250 | An accepted delete can take all capacity. |
| `NodePoolAdmission.PoolAfter` | internal/admission/admit_nodepool.go:331-345 | What any number of updates and deletes, judged on one listing, make of each pool. |
| `NodePoolAdmission.BatchKeepsSurvivorExactlyWhen` | internal/admission/admit_nodepool.go:221-250 | After any batch judged on one listing a survivor remains exactly when the batch leaves some live pool undeleted. |
| `NodePoolAdmission.BatchKeepsCapacityExactlyWhen` | internal/admission/admit_nodepool.go:331-389 | After any batch judged on one listing capacity remains exactly when the batch leaves some live pool undeleted and able to run workers. |
| `NodePoolAdmission.TwoSurvivorsAdmitDeletes` | internal/admission/admit_nodepool.go:232-250 | A listing with two live pools admits every delete, however many are judged on it. |
| `NodePoolAdmission.TwoProvidersAdmitUpdates` | internal/admission/admit_nodepool.go:345-377 | A listing with two providing pools admits every update, however many are judged on it. |
| `NodePoolAdmission.StaleDeletesLoseSurvivorExactlyWhen` | internal/admission/admit_nodepool.go:221-250 | Any number of deletes judged on one listing all get in and take the last survivor if and only if there were at least two survivors and each is deleted. |
| `NodePoolAdmission.StaleUpdatesLoseCapacityExactlyWhen` | internal/admission/admit_nodepool.go:331-377 | Any number of updates judged on one listing all get in and take the last capacity if and only if at least two pools provided it and each is left without. |
| `NodePoolAdmission.StaleDeletesKeepSurvivorExactlyWhen` | internal/admission/admit_nodepool.go:221-250 | Two deletes of live pools on one listing both get in, and a survivor remains exactly when a third pool is not being deleted. |
| `NodePoolAdmission.StaleUpdateAndDeleteLoseCapacityExactlyWhen` | internal/admission/admit_nodepool.go:331-377 | An update and a delete on one listing both get in and take the last capacity if and only if the update leaves none, the deleted pool provided some and no third pool does. |
| `NodePoolAdmission.StaleUpdatesKeepCapacityExactlyWhen` | internal/admission/admit_nodepool.go:331-345 | Two updates on one listing keep capacity exactly when one of them leaves some or a third pool provides it. |
| `NodePoolAdmission.StaleListingsBreakBoth` | internal/admission/admit_nodepool.go:331-345 | Two scale-downs, and two deletes, admitted on one listing lose capacity and the last survivor. |
| `ClusterUniqueness.AdmitManagedResourceGroup` | internal/admission/admit_cluster.go:743-774 | No error exactly when it is not a create, or the original cluster is known, the name is given and no listed cluster has it up to case; the missing original is its own error. |
| `ClusterUniqueness.CompareIDs` | internal/admission/admit_cluster.go:794-824 | No error exactly when every listed ID is given and differs up to case, although the loop stops at the first clash. |
| `ClusterUniqueness.AdmitSubnet` | internal/admission/admit_cluster.go:782-827 | No error exactly when it is not a create, or the subnet is given and free among clusters and node pools. |
| `ClusterUniqueness.AdmitSecurityGroup` | internal/admission/admit_cluster.go:834-863 | No error exactly when it is not a create, or the group is given and free among clusters. |
| `ClusterUniqueness.CreateAdmittedExactlyWhen` | internal/admission/admit_cluster.go:743-863 | On a listing without clashes a create is admitted exactly when the clusters stay without clashes and no listed node pool uses the subnet. |
| `ClusterUniqueness.CreateAdmittedMeansApart` | internal/admission/admit_cluster.go:743-863 | The three checks compare the new cluster with each listed one. |
| `ClusterUniqueness.StepKeepsUnique` | internal/admission/admit_cluster.go:743-863 | Every accepted request keeps the three attributes pairwise distinct. |
| `ClusterUniqueness.RunKeepsUnique` | internal/validation/validate_cluster.go:807-837 | Every run of admitted creates, updates that keep the immutable fields, and deletes keeps resource group, subnet and security group pairwise distinct under case folding. |
| `ClusterUniqueness.StaleCreatesClashExactlyWhen` | internal/admission/admit_cluster.go:738-743 | Two creates admitted on one listing clash exactly when they share something. |
| `ClusterUniqueness.StaleCreatesClash` | internal/admission/admit_cluster.go:738-743 | Every complete cluster created twice on an empty listing gets in twice and clashes. |
| `OperatorIdentities.NewConfig` | internal/azure/cluster_scoped_identities_config.go:111-168 | Each plane gets exactly the operators specified for it, under their own names, in whatever order the specifications are met. |
| `OperatorIdentities.CollectRequired` | internal/azure/cluster_scoped_identities_config.go:71-96 | The operators collected are exactly those always required at the version. |
| `OperatorIdentities.SelectMissing` | internal/admission/admit_cluster.go:652-655 | The names without a non-nil identity, in order. |
| `OperatorIdentities.RequiredErrors` | internal/admission/admit_cluster.go:486-544 | One error per always required operator without an identity, sorted by name, for every iteration order. |
| `OperatorIdentities.UnrecognizedErrors` | internal/admission/admit_cluster.go:632-650 | One error per non-empty supplied name that is not known, sorted, for every iteration order. |
| `OperatorIdentities.UnsupportedErrors` | internal/admission/admit_cluster.go:612-630 | One error per non-empty supplied name not supported at the version, sorted, for every iteration order. |
| `OperatorIdentities.AdmitRequired` | internal/admission/admit_cluster.go:486-544 | The required-operator errors, with the feature-dependent operator and the unparseable version, do not depend on iteration order. |
| `OperatorIdentities.AdmitNames` | internal/admission/admit_cluster.go:548-570 | The name errors do not depend on iteration order. |
| `OperatorIdentities.AdmitUserAssignedIdentities` | internal/admission/admit_cluster.go:675-682 | The whole error list is a function of configuration, identities and version. |
| `OperatorIdentities.AcceptedExactlyWhen` | internal/admission/admit_cluster.go:486-655 | With a version that parses, there is no error if and only if required operators are supplied non-nil and every non-empty supplied name is supported. |
| `OperatorIdentities.SomethingAcceptedExactlyWhen` | internal/admission/admit_cluster.go:486-655 | Some assignment is accepted exactly when no operator is required under a name that is not supported. |
| `OperatorIdentities.WellFormedIsSatisfiable` | internal/azure/cluster_scoped_identities_config.go:126-155 | A configuration that files operators under their own names always has an accepted assignment, for every version and feature. |
| `OperatorIdentities.PrereleaseDoesNotMatter` | internal/azure/cluster_scoped_identities_config.go:256-285 | Pre-release and build metadata never change the decision. |
| `IdentityValidation.StartTally` | internal/validation/validate_cluster.go:285-292 | The tally starts at zero for each assigned identity up to case. |
| `IdentityValidation.TallyOne` | internal/validation/validate_cluster.go:294-304 | Counting one use keeps the tally equal to the number of uses of each assigned identity. |
| `IdentityValidation.TallyOperators` | internal/validation/validate_cluster.go:306-309 | The tally counts each assigned identity's uses; an error for each use of one that is not assigned. |
| `IdentityValidation.TallyService` | internal/validation/validate_cluster.go:311-314 | The service identity is counted the same way. |
| `IdentityValidation.CheckAssigned` | internal/validation/validate_cluster.go:316-331 | One error per assigned identity that is not used exactly once, and of the right kind. |
| `IdentityValidation.CheckDataPlane` | internal/validation/validate_cluster.go:334-344 | One error per data plane identity that is assigned to the cluster. |
| `IdentityValidation.ValidateOperatorAuthentication` | internal/validation/validate_cluster.go:279-347 | The error list in terms of multiplicities of uses, without the tally. |
| `IdentityValidation.ErrorFreeExactlyWhen` | internal/validation/validate_cluster.go:279-347 | No error if and only if, up to case, assigned identities and control plane plus service identities correspond one to one and no data plane identity is assigned. |
| `IdentityValidation.WalksAgree` | internal/validation/validate_cluster.go:306-309 | In whatever order an operator map is walked, the same identities come up equally often. |
| `IdentityValidation.VerdictIgnoresOrder` | internal/validation/validate_cluster.go:279-347 | Whether the check finds an error does not depend on map iteration order. |
| `IdentityValidation.ValidateUniqueWithinCluster` | internal/validation/validate_cluster.go:965-994 | From the operator maps: one error per place whose identity was recorded before, nil identities passed over, compared up to case, operators in sorted order, control plane before data plane before service. |
| `IdentityValidation.RecordIdentity` | internal/validation/validate_cluster.go:969-983 | Recording one identity keeps the observed set and the error list in step with what was recorded. |
| `IdentityValidation.RecordNames` | internal/validation/validate_cluster.go:985-990 | Recording the operators of a plane in the given order does the same for all of them. |
| `IdentityValidation.NothingRepeatsExactlyWhen` | internal/validation/validate_cluster.go:965-994 | No such error if and only if the recorded identities are pairwise distinct. |
| `IdentityValidation.UniqueExactlyWhenDataPlaneIs` | internal/validation/validate_cluster.go:965-994 | Once the first check passes, in whatever order it walked the maps, the second fails exactly when two data plane operators share an identity. |
| `Cidr.Parse` | internal/validation/validate_cluster.go:681-683 | A parsed block has its host bits cleared. |
| `Cidr.ContainsIsRange` | internal/validation/validate_cluster.go:690-690 | Membership by masked comparison is membership in the range from the base on, as long as the block's size. |
| `Cidr.NetworkOfNetwork` | internal/validation/validate_cluster.go:690-690 | Masking with a longer and then a shorter prefix is masking with the shorter one. |
| `Cidr.Nested` | internal/validation/validate_cluster.go:690-690 | Blocks that share an address are nested. |
| `Cidr.IntersectExactlyWhen` | internal/validation/validate_cluster.go:685-691 | The base-in-other test holds if and only if some address lies in both blocks. |
| `Cidr.OverlapErrors` | internal/validation/validate_cluster.go:692-700 | An error for exactly the pairs of networks that share an address; a block that did not parse overlaps nothing. |
| `Cidr.NoErrorExactlyWhenDisjoint` | internal/validation/validate_cluster.go:680-700 | With three parsed blocks there is no error if and only if every address is in at most one of them. |
| `GraphData.ReadEntry` | internal/cincinnati/graph_data.go:131-211 | One round fails exactly when the entry is bad by itself or its path was seen, and otherwise updates the four loop variables accordingly. |
| `GraphData.GatherSucceedsExactlyWhen` | internal/cincinnati/graph_data.go:119-212 | The loop runs through if and only if no entry is bad by itself and no path repeats. |
| `GraphData.GatheredFlags` | internal/cincinnati/graph_data.go:119-212 | The two flags say whether a version and a channel file are among the entries. |
| `GraphData.GatheredProfiles` | internal/cincinnati/graph_data.go:119-212 | The map holds exactly the allowed channels, each with its own profile. |
| `GraphData.GatheringDecides` | internal/cincinnati/graph_data.go:213-226 | The gathered variables give the verdict that is defined on the set of entries alone. |
| `GraphData.ReadEntries` | internal/cincinnati/graph_data.go:119-212 | The loop stops with an error at the first entry that does not fit or is over the entry limit. |
| `Text.KeysInSomeOrder` | internal/cincinnati/graph_data.go:216-219 | The map iteration collects every key. |
| `Text.SortedNames` | internal/cincinnati/graph_data.go:216-220 | Sorting the collected keys gives the one sorted list of them, whatever the iteration order. |
| `GraphData.Profiles` | internal/cincinnati/graph_data.go:221-224 | The result lists the profile of each name, in the order of the names. |
| `GraphData.Assemble` | internal/cincinnati/graph_data.go:216-225 | Whatever the map iteration order, the result is the profiles in increasing order of channel name. |
| `GraphData.ParseGraphData` | internal/cincinnati/graph_data.go:116-226 | The result is the verdict. |
| `GraphData.OrderDoesNotMatter` | internal/cincinnati/graph_data.go:116-226 | Every permutation of the entries gets the same verdict and result. |
| `GraphData.ResultIsSortedByChannel` | internal/cincinnati/graph_data.go:216-225 | An accepted result has one profile for each distinct allowed channel, strictly sorted by channel name, and no other. |
| `Paging.PushItems` | internal/ocm/iterators.go:183-193 | The loop over a page calls the consumer item by item until a link fails or the consumer stops. |
| `Paging.RequestPage` | internal/ocm/iterators.go:160-194 | One round of the loop, with its error and empty-page exits. |
| `Paging.IterateSlices` | internal/ocm/iterators.go:152-197 | With bounded totals the iterator ends within the bound; the consumer got a prefix of the concatenated pages and was not called after it stopped. |
| `Paging.EveryRunIsGood` | internal/ocm/iterators.go:152-197 | For every server and consumer, after any number of requests, the consumer got a prefix of the concatenated pages and was never called after it stopped. |
| `Paging.RequestsAreBounded` | internal/ocm/iterators.go:213-258 | With totals of at most B, no run makes more than max(1, B) requests, and none continues after that many. |
| `Paging.EverythingArrives` | internal/ocm/iterators.go:376-415 | From a server that splits a list into pages a willing consumer gets exactly the list, with one request per page. |
| `Paging.PushEach` | internal/ocm/iterators.go:457-459 | The library loop over a page ends with the first refusal and does not report it. |
| `Paging.RequestEachPage` | internal/ocm/iterators.go:438-460 | One round of the Each-based loop. |
| `Paging.IterateEach` | internal/ocm/iterators.go:430-463 | With bounded totals these iterators end within the same bound. |
| `Paging.EachRespectsExactlyWhen` | internal/ocm/iterators.go:479-512 | They never call a consumer that has stopped exactly when the slice-based iterator does not stop, or stops on the last page requested, or no item follows the page it stops on. |
| `Paging.EachDisrespectsAStop` | internal/ocm/iterators.go:430-463 | A server and a consumer for which the second page is still pushed, where the slice-based iterators stop. |
| `Paging.EachFollows` | internal/ocm/iterators.go:430-463 | After any number of requests the Each-based state is the slice-based one until the consumer stops, and afterwards differs exactly by what the following pages push. |
| `Paging.SameForWillingConsumers` | internal/ocm/iterators.go:527-560 | For a consumer that takes everything both kinds of iterator do the same. |
| `ReloadCache.CacheNeverGoesBack` | internal/certificate/watching_azure_identity_file_reader.go:78-96 | In every run the cached version only moves forward in the file's history. |
| `ReloadCache.StepKeepsCaughtUp` | internal/utils/fswatcher.go:108-130 | No undisturbed step loses track of the last hashed version. |
| `ReloadCache.CacheEqualsFile` | internal/utils/fswatcher.go:71-130 | After any completed check with no write since its hash the cache holds the file's content, wherever else writes fell, if nothing was written before the first hash, reloads succeed, contents are fresh and hashes do not collide. |
| `ReloadCache.StaleExactlyWhen` | internal/utils/fswatcher.go:71-130 | With new contents and no collisions, a completed check with no write since its hash leaves the cache stale if and only if nothing was read after the last write, and that write came before the first hash or a reload after it failed. |
| `ReloadCache.RunTracks` | internal/utils/fswatcher.go:71-130 | Along every run the events since the last write determine how far the cache, the hash and the reload in progress are behind. |
| `ReloadCache.StaleStays` | internal/utils/fswatcher.go:108-130 | A stale cache is left as it is by any number of further checks. |
| `ReloadCache.EarlyWriteGoesUnnoticed` | internal/utils/fswatcher.go:71-89 | A write between the constructor's load and the first hash leaves the cache stale. |
| `ReloadCache.FailedReloadIsNotRepeated` | internal/utils/fswatcher.go:117-128 | A failed reload leaves the cache stale. |
| `ReloadCache.ReturningContentIsMissed` | internal/utils/fswatcher.go:108-130 | Content that returns between hash and reload and then changes back leaves the cache stale. |
| `ReloadCache.CollisionHidesChange` | internal/utils/fswatcher.go:117-129 | A colliding hash leaves the cache stale. |
| `ReloadCache.CertificateCache.Start` | internal/utils/fswatcher.go:71-89 | Storing the first hash is the model's first-hash step. |
| `ReloadCache.CertificateCache.CheckAndSignal` | internal/utils/fswatcher.go:108-130 | A check stores a changed hash before the callback and signals exactly then; an unreadable file changes nothing. |
| `ReloadCache.CertificateCache.Reload` | internal/certificate/watching_azure_identity_file_reader.go:78-96 | A successful read replaces the certificate, a failed one keeps it. |

## Left out

- internal/ocm/external_auth_update_dispatch_config.go: the same shape as the two dispatch configs, nearly all field copies.
- The Cluster Service HTTP client, tracing wrapper, mocks, process wiring, metrics and logging.
- Controller steps before the comparison (cache lookups, deletion checks, the cooldown) and rejected PATCH requests.
- The immutable attributes that `BuildCSCluster` sets on create.
- `SettableCooldownChecker`: only adds easier members next to the time based checker.
- Concurrent calls of `CanSync`: the checker is used sequentially here.
- Case folding outside ASCII, and strings that are not valid UTF-8 in JSON.
- The text Go prints for minutes that are not whole is a parameter, so for such times the round trip holds exactly when parsing that text gives the seconds back.
- Overflow of 64-bit durations while parsing and floats outside the 32-bit range.
- Nil pointers to the customer managed or KMS settings in the etcd profile of the resource provider.
- Hashing of the canonical text; SHA-256 is an arbitrary function in the certificate cache.
- IPv6 networks and the parsing of CIDR text.
- gzip, tar, YAML and semantic version decoding; entries arrive decoded.
- Role definitions and service accounts of operator identities, version-skew rules, regular expressions, enumerations, field paths and error wording.
- Worker panics, queue shutdown and wall-clock liveness.
- The file's hash and the certificate are read atomically in the certificate cache; the periodic timer is any sequence of checks.
