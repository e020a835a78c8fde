# SR-IOV network operator: admission, drain coordination and merge core

This project is a Dafny model of four parts of the SR-IOV network operator:

- **Admission webhook validation** (`pkg/webhook/validate.go`, module `Validate`, file `validate.dfy`).
  - The static checks of a `SriovNetworkNodePolicy`: the resource name, the NIC selector, the supported hardware, the `pfNames` VF-range syntax and the feature combinations.
  - Its dynamic checks against the nodes, node states and other policies of the cluster.
  - The pairwise conflict rules between two policies.
  - The checks of the `SriovOperatorConfig` and of a `SriovNetworkPoolConfig`.
- **Admission webhook defaulting** (`pkg/webhook/mutate.go`, module `Mutate`, file `mutate.dfy`).
  - The JSON Patch (RFC 6902) that sets the default `spec.priority` and `spec.isRdma`.
  - The override that forces `isRdma` on for an InfiniBand link.
- **The OpenShift drain hooks** (`pkg/platforms/openshift/openshift.go`, module `OpenShift`, file `openshift.dfy`).
  - Before a node drains, the machine config pool that owns it is annotated and paused.
  - After the last node of the pool finishes draining, the pool is unpaused and marked idle.
  - The API server is the state of a `Coordinator` class: pools, machine configs, and the nodes of each pool.
  - Every request to it may fail. Request number `k` fails exactly when `k` is in the set `faults`.
  - Pool writes are recorded in an event log. Every hook only appends to it and leaves the pools at the replay of what it appended, so the pools stay the replay of the whole log on the pools the coordinator started with.
- **The apply-time merge** (`pkg/apply/merge.go`, module `Merge`, file `merge.dfy`).
  - Before the operator re-applies an object, the fields the cluster owns are carried over from the stored object into the computed one.
  - These fields are the Deployment revision annotation, a Service's cluster IP, a ServiceAccount's secrets, webhook CA bundles, and annotations, labels and resource version.

Shared pieces:
- `base.dfy` (module `Base`): option and result types, ASCII string helpers and Go's `strconv.Atoi`.
- `json.dfy` (module `Json`): JSON values, JSON Merge Patch (section 2 of RFC 7386), and the "add" operation of JSON Patch (section 4.1 of RFC 6902).

Each method is proved against a specification function, and the properties are proved as lemmas about those functions. Examples:
- the webhook's patch turns a policy into its defaulted form, and a second admission changes nothing more;
- a successful before-drain hook leaves the pool paused and annotated, and running it again does nothing;
- the merge is idempotent;
- the pairwise range-overlap rule, as corrected, is symmetric, and it admits only policies the rule as written admits too.

## Model

| member | source | states |
|---|---|---|
| Validate.ParseFormatPfRange | pkg/webhook/validate.go:195-213 | a `<pf>#<start>-<end>` entry built from a range parses back to that range |
| Validate.FirstPfRejection | pkg/webhook/validate.go:195-222 | no rejection exactly when every `pfNames` entry is valid; any rejection is a syntax, reversed-range or range-above-numVfs error |
| Validate.PfEntryRejectionOfRange | pkg/webhook/validate.go:214-219 | a well-formed range entry is rejected as reversed iff end < start, else as above numVfs iff end >= numVfs, else accepted |
| Validate.PfRangeAcceptedExample | pkg/webhook/validate.go:195-222 | `eth0#0-3` with numVfs 4 is accepted |
| Validate.PfRangeReversedExample | pkg/webhook/validate.go:214-215 | `eth0#3-0` is rejected as a reversed range |
| Validate.PfRangeAboveNumVfsExample | pkg/webhook/validate.go:217-218 | `eth0#0-4` with numVfs 4 is rejected as exceeding the VF index bound |
| Validate.StaticValidate | pkg/webhook/validate.go:162-253 | no rejection exactly when the policy is statically admissible; a bad resource name is reported first; the empty-selector error exactly when the name is valid and the selector is empty |
| Validate.StaticRejections | pkg/webhook/validate.go:163-251 | an empty resource name, vfio-pci with RDMA, switchdev on a non-ethernet link, vDPA without netdevice or switchdev, and a bridge without switchdev or with an externally managed device are each rejected |
| Validate.PfBaseNames | pkg/webhook/validate.go:474-483 | each selector PF name is stripped of its `#` range suffix, position by position |
| Validate.ValidateNicModel | pkg/webhook/validate.go:464-504 | no mismatch exactly when the interface matches vendor, device, root devices, PF names and the supported or virtual-platform model |
| Validate.NicModelCheckOrder | pkg/webhook/validate.go:465-503 | the mismatch reported is the first failing check, in source order |
| Validate.InterfaceRejection | pkg/webhook/validate.go:336-363 | no rejection exactly when the matched interface accepts the policy; every rejection is node-level |
| Validate.FirstInterfaceRejection | pkg/webhook/validate.go:331-368 | no rejection exactly when no interface both matches and rejects the policy |
| Validate.FirstInterfaceRejectionIsFirst | pkg/webhook/validate.go:331-368 | the rejection reported comes from the first matching interface that rejects |
| Validate.MismatchLog | pkg/webhook/validate.go:331-366 | the mismatch log has at most one entry per interface |
| Validate.MismatchLogComplete | pkg/webhook/validate.go:365-371 | with no interface selected, the log has one entry per interface, in order |
| Validate.ValidatePolicyForNodeState | pkg/webhook/validate.go:326-374 | the loop returns the first interface rejection, sets the selected flag iff some interface matches, and returns the mismatch log only when none matched |
| Validate.ValidateExternallyManage | pkg/webhook/validate.go:442-449 | rejects exactly when the two policies disagree on externallyManaged |
| Validate.ValidatePfNames | pkg/webhook/validate.go:402-428 | as written: no conflict exactly when, for each current entry up to and including the first one with a previous entry on its PF, the entry parses, and that first pair agrees on externallyManaged and has disjoint ranges |
| Validate.PfNamesFrom | pkg/webhook/validate.go:403-427 | the same as-written verdict over a suffix of the current entries; every rejection is node-level |
| Validate.CompatibleAdmittedAsWritten | pkg/webhook/validate.go:402-428 | policies the corrected rule finds compatible are admitted by the rule as written |
| Validate.FirstOnPf | pkg/webhook/validate.go:408-413 | finds the first previous entry on the same PF, or reports that none is on it |
| Validate.VfRangeOfFormatted | pkg/webhook/validate.go:404-416 | a formatted range entry parses and yields its own range |
| Validate.PfNamesFirstPairOnly | pkg/webhook/validate.go:402-428 | as written, `eth0#0-3` against `eth0#4-7`,`eth0#0-1` is accepted although the ranges overlap |
| Validate.FirstPairOnly | pkg/webhook/validate.go:408-423 | the same acceptance for any entries that parse to those ranges |
| Validate.PfEntryConflict | pkg/webhook/validate.go:408-423 | corrected rule for one entry: no conflict iff its range is disjoint from every previous range on the same PF |
| Validate.PfNamesConflictFrom | pkg/webhook/validate.go:403-427 | corrected rule over a suffix of entries: no conflict iff every entry is valid and disjoint from every previous range on its PF |
| Validate.ValidatePfNamesAllPairs | pkg/webhook/validate.go:402-428 | corrected rule: no conflict exactly when the policies' PF ranges are pairwise compatible |
| Validate.PfNamesCompatibleSymmetric | pkg/webhook/validate.go:402-428 | the corrected overlap verdict does not depend on which policy is the current one |
| Validate.FirstSharedRootDevice | pkg/webhook/validate.go:430-440 | finds a root device present in both lists exactly when one exists |
| Validate.ValidateRootDevices | pkg/webhook/validate.go:430-440 | rejects exactly when the two policies share a root device |
| Validate.ValidateExcludeTopologyField | pkg/webhook/validate.go:451-462 | rejects exactly when the policies target the same resource with different excludeTopology |
| Validate.ValidatePolicyForNodePolicy | pkg/webhook/validate.go:376-400 | a policy never conflicts with itself; otherwise it conflicts exactly when the as-written PF-name rule (line 384), the root-device rule or the excludeTopology rule rejects, and a PF-name rejection is the one reported |
| Validate.ValidatePolicyForNodePolicyIntended | pkg/webhook/validate.go:376-400 | the same pairwise check with the corrected PF-name rule: no conflict exactly when the names are equal, or the PF ranges are pairwise compatible, no root device is shared and excludeTopology agrees |
| Validate.IntendedIsStricter | pkg/webhook/validate.go:376-428 | every pair the corrected check admits is admitted as written; on the overlapping input of the finding the check as written admits what the corrected one rejects |
| Validate.FindState | pkg/webhook/validate.go:302-304 | finds the node state with the node's name, or reports that none has it |
| Validate.FirstConflict | pkg/webhook/validate.go:316-322 | no conflict exactly when every other policy selecting the node is compatible under the pairwise check as written |
| Validate.ValidatePolicyForNodeStateAndPolicy | pkg/webhook/validate.go:301-324 | the node's verdict is its state's rejection, else the first policy conflicting under the pairwise check as written; the interface flag and the error log are updated as the node state says |
| Validate.FirstNodeRejection | pkg/webhook/validate.go:276-284 | no rejection exactly when no selected node rejects the policy, node conflicts judged by the pairwise check as written |
| Validate.DynamicVerdictMeaning | pkg/webhook/validate.go:286-296 | "no matched node" exactly when no node is selected; "no supported NIC" only when nodes are selected but none has a matching NIC; admission needs a matching NIC and no objecting node |
| Validate.NodeLogOnlyWithoutMatch | pkg/webhook/validate.go:365-371 | a node contributes log entries only when none of its interfaces matched |
| Validate.DynamicValidate | pkg/webhook/validate.go:255-299 | the loop's verdict is the dynamic verdict (with the PF-name rule as written), and every logged node is selected and had no matching interface |
| Validate.ValidateSriovNetworkNodePolicy | pkg/webhook/validate.go:131-160 | the default policy in the operator namespace is admitted untouched; other namespaces draw a warning; delete is admitted; otherwise the static verdict, then the dynamic one, which follows the PF-name rule as written |
| Validate.FirstUpdatingNode | pkg/webhook/validate.go:103-107 | finds a node whose sync status is InProgress exactly when one exists |
| Validate.ValidateDisableDrain | pkg/webhook/validate.go:78-110 | drain may always stay enabled; an absent previous config admits; disabling with an unreadable previous config is refused; a setting equal to the previous one admits; switching it off from on is refused exactly when some node is updating, naming that node |
| Validate.ValidateSriovOperatorConfig | pkg/webhook/validate.go:51-73 | delete is admitted with no warning; any other config is refused as not the default; for the default config in the operator namespace the verdict is exactly the drain rule's, with the DrainDisabled warning exactly when drain is disabled |
| Validate.ValidateSriovNetworkPoolConfig | pkg/webhook/validate.go:113-129 | admitted exactly when parallel-drain settings are not combined with an OVS offload config and maxUnavailable resolves |
| Json.PausePatchEffect | pkg/platforms/openshift/openshift.go:342-344 | the `{"spec":{"paused":b}}` merge patch sets `spec.paused` and changes nothing else |
| Json.MergePatchIdempotent | pkg/platforms/openshift/openshift.go:342-344 | applying the same merge patch twice equals applying it once |
| Json.Add | pkg/webhook/mutate.go:30-32 | an add at an empty path replaces the document, and at a one-token path sets that member |
| Json.AddMember | pkg/webhook/mutate.go:30-32 | an add at `/spec/<name>` sets that one member of `spec` and leaves the rest of the document as it was |
| OpenShift.ReplayOnePool | pkg/platforms/openshift/openshift.go:121-306 | replaying events about one pool changes only that pool |
| OpenShift.PlansTouchOnePool | pkg/platforms/openshift/openshift.go:121-306 | both hooks write only the pool that owns the node |
| OpenShift.BeforeDrainOutcome | pkg/platforms/openshift/openshift.go:151-219 | a ready verdict leaves the pool paused and annotated paused; a refusal after acting leaves it unpaused and idle; a refusal without acting leaves it unchanged |
| OpenShift.BeforeDrainIdempotent | pkg/platforms/openshift/openshift.go:151-171 | once the hook has succeeded, running it again is ready and writes nothing |
| OpenShift.AfterDrainOutcome | pkg/platforms/openshift/openshift.go:252-305 | the last node to finish unpauses the pool and marks it idle, after which the hook writes nothing |
| OpenShift.AfterDrainTwoNodes | pkg/platforms/openshift/openshift.go:277-305 | with two draining nodes the first to finish leaves the pool paused; once the other is idle, the pool is unpaused and idle |
| OpenShift.PausePatchIsSetPaused | pkg/platforms/openshift/openshift.go:338-350 | the merge patch sent on the pool document is exactly the `SetPaused` event |
| OpenShift.FirstPoolOwner | pkg/platforms/openshift/openshift.go:329-335 | returns the first MachineConfigPool owner, and none exactly when there is none |
| OpenShift.NothingDoneFollowsAnyPlan | pkg/platforms/openshift/openshift.go:134-149 | a failure before any write is consistent with every plan |
| OpenShift.FailedAfter | pkg/platforms/openshift/openshift.go:186-213 | a failure after a prefix of a plan's writes is consistent with that plan |
| OpenShift.ReplayAppend | pkg/platforms/openshift/openshift.go:338-350 | replaying two logs one after the other is replaying their concatenation |
| OpenShift.ReplayChain | pkg/platforms/openshift/openshift.go:338-350 | two consecutive steps, each leaving the pools at the replay of what it logged, together leave them at the replay of everything logged across both |
| OpenShift.Coordinator.StepKeepsValid | pkg/platforms/openshift/openshift.go:338-350 | a step that only appends to the log and leaves the pools at the replay of what it appended keeps the pools the replay of the whole log on the pools the coordinator was created with; every hook is such a step |
| OpenShift.Coordinator.constructor | pkg/platforms/openshift/openshift.go:65-76 | a coordinator holds the cluster kind and flavor and a store with the given content, an empty log and no requests |
| OpenShift.Coordinator.Request | pkg/platforms/openshift/openshift.go:146-149 | each request is counted and fails exactly when its number is a fault |
| OpenShift.Coordinator.GetPool | pkg/platforms/openshift/openshift.go:145-149 | a read returns the stored pool, a not-found error or a request failure |
| OpenShift.Coordinator.Write | pkg/platforms/openshift/openshift.go:338-350 | a successful write appends its event and applies it; a failed one changes nothing |
| OpenShift.Coordinator.RecordRollout | pkg/platforms/openshift/openshift.go:202-203 | the machine config operator's rollout is logged and applied |
| OpenShift.Coordinator.ChangeMachineConfigPoolPause | pkg/platforms/openshift/openshift.go:338-350 | on success the pool's `paused` is set and logged; on failure nothing changes |
| OpenShift.Coordinator.GetNodeMachinePoolName | pkg/platforms/openshift/openshift.go:308-336 | returns the owning pool of the node's desired machine config, with the source's error for each failure |
| OpenShift.Coordinator.BeforeDrain | pkg/platforms/openshift/openshift.go:121-220 | non-OpenShift and HyperShift clusters are ready at once; otherwise the writes and verdict follow the before-drain plan, and without faults the only error is an unresolved pool; the new pools are the replay of the events it logged, so a non-OpenShift cluster keeps its pools |
| OpenShift.Coordinator.BeforeDrainOnPool | pkg/platforms/openshift/openshift.go:151-219 | the writes and verdict on a read pool follow the plan; without faults there is no error; the new pools are the replay of the events it logged |
| OpenShift.Coordinator.MarkAndPause | pkg/platforms/openshift/openshift.go:180-193 | the pool is annotated paused before it is paused; both succeed exactly when neither request fails, and then the pool is annotated paused and paused; a failed pause leaves only the annotation logged |
| OpenShift.Coordinator.PauseAndRecheck | pkg/platforms/openshift/openshift.go:180-219 | annotating, pausing and re-reading follow the plan, and the new pools are the replay of the events it logged |
| OpenShift.Coordinator.Recheck | pkg/platforms/openshift/openshift.go:195-219 | after a rollout during the pause, the pause is reverted and the pool marked idle, as the plan says; the new pools are the replay of the events it logged |
| OpenShift.Coordinator.UnpauseAndMarkIdle | pkg/platforms/openshift/openshift.go:203-213 | the pool is unpaused before its annotation is set back to idle; both succeed exactly when neither request fails; a failed annotation leaves only the unpause logged |
| OpenShift.Coordinator.FindDrainingPeer | pkg/platforms/openshift/openshift.go:277-290 | the loop finds a draining node other than this one exactly when one exists |
| OpenShift.Coordinator.AfterDrain | pkg/platforms/openshift/openshift.go:222-305 | non-OpenShift and HyperShift clusters are done at once; otherwise the writes and verdict follow the after-drain plan, and without faults the only error is an unresolved pool; the new pools are the replay of the events it logged |
| OpenShift.Coordinator.AfterDrainOnPool | pkg/platforms/openshift/openshift.go:252-305 | on a read pool, a pool not annotated paused is done at once; otherwise the writes and verdict follow the after-drain plan, without faults there is no error, and the new pools are the replay of the events it logged |
| Merge.GroupOfApiVersion | pkg/apply/merge.go:75-76 | `v1` yields the core group; `group/version` yields that group |
| Merge.DeploymentMerged | pkg/apply/merge.go:74-95 | for a Deployment, the current revision annotation is carried over and every other annotation is the updated one's; other kinds are unchanged |
| Merge.ServiceMerged | pkg/apply/merge.go:98-112 | for a Service, a current clusterIP replaces the updated one; an unreadable current or unreachable updated field is an error; nothing else changes |
| Merge.ServiceAccountMerged | pkg/apply/merge.go:118-139 | for a ServiceAccount, current secrets and image pull secrets are carried over; an unreadable current field is an error |
| Merge.FirstNamed | pkg/apply/merge.go:216-224 | finds the first webhook entry with the name, or reports that none has it |
| Merge.FindByName | pkg/apply/merge.go:216-224 | the loop returns the first entry with the name |
| Merge.MergeEntry | pkg/apply/merge.go:169-205 | a non-empty CA bundle is kept; an unreadable one abandons the merge; a missing name is an error; otherwise the first same-named current entry's bundle is copied |
| Merge.MergeOneEntry | pkg/apply/merge.go:169-205 | the loop body computes the per-entry outcome |
| Merge.MergeEntries | pkg/apply/merge.go:168-206 | the list merges exactly when every entry does, entry by entry and in order |
| Merge.MergeEntriesFirstStop | pkg/apply/merge.go:168-206 | the first entry that does not merge decides the outcome |
| Merge.WebhookMerged | pkg/apply/merge.go:142-214 | only `webhooks` changes; an error leaves the object as it was; non-webhook kinds and absent lists are untouched |
| Merge.WebhookMergePreserves | pkg/apply/merge.go:168-206 | a merged list keeps its length and names, keeps non-empty bundles and fills the others from the cluster |
| Merge.WebhookCaBundlePair | pkg/apply/merge.go:175-205 | one webhook pair: the cluster's bundle is used exactly when ours is empty |
| Merge.MetadataMerged | pkg/apply/merge.go:32-38 | annotations and labels are the union with ours winning, and the resource version is the cluster's |
| Merge.KindKept | pkg/apply/merge.go:43-66 | no merge step changes the object's group or kind |
| Merge.ObjectMergedKeeps | pkg/apply/merge.go:43-66 | a successful merge keeps our kind, our annotations and labels except the revision, and carries over each cluster-owned field |
| Merge.MergeEntriesIdempotent | pkg/apply/merge.go:168-206 | merging an already merged webhook list changes nothing |
| Merge.WebhookMergedSettled | pkg/apply/merge.go:142-214 | an object whose webhooks are already merged is left as it is |
| Merge.ObjectMergedIdempotent | pkg/apply/merge.go:43-66 | merging a merged object again gives the same object |
| Merge.MetadataMergedTwice | pkg/apply/merge.go:32-38 | merging the metadata again against the same cluster object changes nothing |
| Merge.ServiceClusterIPExample | pkg/apply/merge.go:98-112 | a Service keeps the cluster's clusterIP whether ours is empty or different |
| Merge.IsObjectSupported | pkg/apply/merge.go:265-283 | only a ServiceAccount with readable, non-empty secrets is unsupported, and an unreadable secrets field is an error |
| Merge.SupportedServiceAccountSecrets | pkg/apply/merge.go:118-139 | for a supported ServiceAccount, the merged secrets are the cluster's or our own empty or absent list |
| Merge.Overlay | pkg/apply/merge.go:228-260 | the loop builds the union of two maps, with the second winning |
| Merge.OverlayIsUnion | pkg/apply/merge.go:228-260 | that result is the map union `base + over` |
| Merge.Unstructured.constructor | pkg/apply/merge.go:32 | an unstructured object wraps its content |
| Merge.MergeAnnotations | pkg/apply/merge.go:228-242 | our annotations override the cluster's, and nothing else changes |
| Merge.MergeLabels | pkg/apply/merge.go:246-260 | our labels override the cluster's, and nothing else changes |
| Merge.MergeMetadataForUpdate | pkg/apply/merge.go:32-38 | the object becomes the merged metadata of the specification |
| Merge.MergeDeploymentForUpdate | pkg/apply/merge.go:74-95 | the object becomes the merged Deployment of the specification |
| Merge.MergeServiceForUpdate | pkg/apply/merge.go:98-112 | the object and error are the merged Service of the specification |
| Merge.MergeServiceAccountForUpdate | pkg/apply/merge.go:118-139 | the object and error are the merged ServiceAccount of the specification |
| Merge.MergeWebhookForUpdate | pkg/apply/merge.go:142-214 | the object and error it leaves are the merged webhook configuration of the specification |
| Merge.MergeEntryList | pkg/apply/merge.go:166-205 | the loop over the updated entries returns the list merge of the specification: every entry merged when all are kept, otherwise the verdict of the first that is not |
| Merge.MergeObjectForUpdate | pkg/apply/merge.go:43-66 | the object and error are those of the whole merge pipeline |
| Mutate.PatchFor | pkg/webhook/mutate.go:48-62 | the patch holds the priority default iff priority is absent, the isRdma default iff isRdma is absent, the override iff the link is InfiniBand, in that order |
| Mutate.MutateSriovNetworkNodePolicy | pkg/webhook/mutate.go:35-72 | every policy is allowed; only the default policy gets no patch; a patch always comes with the JSON Patch type |
| Mutate.ApplyToSpec | pkg/webhook/mutate.go:48-70 | adds below `spec` change only `spec`, member by member |
| Mutate.SpecAfterSplit | pkg/webhook/mutate.go:48-62 | adds applied in two runs equal the adds applied at once |
| Mutate.SpecAfterPatch | pkg/webhook/mutate.go:48-62 | the webhook's adds turn the spec into the defaulted spec |
| Mutate.PatchGivesDefaultedSpec | pkg/webhook/mutate.go:48-72 | applying the response's patch yields the defaulted spec and changes nothing outside `spec` |
| Mutate.DefaultedSpecHolds | pkg/webhook/mutate.go:30-32 | the defaulted spec has priority 99 and isRdma false unless set, isRdma true for InfiniBand, and every other member unchanged |
| Mutate.MutationSettles | pkg/webhook/mutate.go:35-72 | after the patch is applied, a second admission asks only for the InfiniBand override again, which changes nothing |

## Left out

- Cluster reads in the webhook are not modelled as requests. The lists of nodes, node states and policies, and the previous operator config, are inputs, so their list errors are not modelled. The "previous config unreadable" outcome is an input value.
- `cr.Selected(node)`, `IsSupportedVendor` / `IsSupportedModel` / `IsSupportedDevice`, `MaxUnavailable` and `Bridge.IsEmpty` belong to the API package, which is not part of this model. They are modelled as a function parameter, a `Catalog` of sets, a predicate parameter and a boolean field.
- `ParseVfRange` of the API package is not part of this model. The model uses its own `#`-range parser; an entry without `#` is a whole-PF range, and an unparsable previous entry keeps only its PF name.
- The regular expression for resource names is modelled as a character class check.
- `strings.EqualFold` and `strings.ToLower` are modelled for ASCII only.
- `DEV_MODE`, the operator namespace and the virtual-platform table are modelled as an `Env` value.
- Logging and warning text are left out: only which warning is given is modelled, and the mismatch log is a list of entries.
- Go's `int` is unbounded here, except where `strconv.Atoi` enforces the 64-bit range.
- The constants package (`pkg/consts`) is not part of this model. Its values are written out as constants: "default", "vfio-pci", "netdevice", "eth", "ib", "switchdev", "virtio", "vhost", "InProgress", and the ServiceAccount kind "ServiceAccount".
- `mcpPauseMutex` is not modelled: concurrency is out of scope, and each hook runs alone against the store.
- Nothing concurrent changes the store while a hook runs, except the one machine-config rollout `BeforeDrain` allows between its pause and its re-read (the `rollout` parameter).
- `New`, `GetFlavor` and the external-control-plane probe are left out. They talk to the cluster at start-up, and the coordinator's flavor and OpenShift flag are constructor arguments.
- The node selector of a pool is not evaluated. The nodes of each pool are given per pool.
- `metav1.LabelSelectorAsSelector` cannot fail in the model, and the node list request of `AfterDrain` is counted like any other request.
- Transport failures are modelled only as "request `k` fails". Their kind of error is a single `RequestFailed`.
- OpenShift.Coordinator.BeforeDrain: the fault-free clause says nothing about the error kinds when requests fail. With faults, only consistency with the plan is promised.
- OpenShift.Coordinator.AfterDrain: the fault-free clause says nothing about the error kinds when requests fail. With faults, only consistency with the plan is promised.
- Mutate.MutateSriovNetworkNodePolicy requires `metadata`, and `spec` for a non-default policy, to be JSON objects. The source's type assertions panic otherwise.
- `json.Marshal` of the patch cannot fail on these values, so its error path is left out.
- JSON Patch operations that target array elements are not modelled. The webhook only adds object members.
- Merge: `current` is a value, not a second `Unstructured`. Aliasing between `current` and `updated` is not modelled.
- Merge: an object is modelled only by the fields the merge reads or writes. `unstructured` accessors are abstracted by the `Field` type: absent, present, mistyped, or unreachable through a non-object parent.
- Merge: an absent annotation or label map is not distinguished from an empty one.
- Merge: `SetAnnotations` on a non-object `metadata` is not modelled.
- Merge: webhook entries are assumed to be objects. The source's type assertion panics otherwise.
- Merge: webhook entries carry only their name and CA bundle. Every other member is carried along unchanged and is not represented.

Where the design description and the code disagree, the model follows the code:
- `validateSriovOperatorConfig` admits a Delete before any other check (pkg/webhook/validate.go:55-57).
- The `pfNames` range bound is the policy's `numVfs` (end < numVfs), not the interface's total VF count (pkg/webhook/validate.go:217).
- `OpenshiftAfterCompleteDrainNode` reports done (`true`) when another node of the pool is still draining (pkg/platforms/openshift/openshift.go:288); only the pool stays paused.
- The Deployment revision annotation from the cluster always overrides ours, even when ours sets one (pkg/apply/merge.go:86-89).
- A Service's cluster IP from the cluster always overrides ours, even when ours sets one (pkg/apply/merge.go:106-107).
- A webhook's CA bundle is copied whenever the cluster's entry has the key, even when the cluster's value is empty (pkg/apply/merge.go:195-203).
- An unreadable CA bundle in our webhook entry ends the webhook merge with no error and discards every change already made to the list (pkg/apply/merge.go:171-173).

## Findings

| source | as written | input that shows it | evidently intended | confidence | as-written member | corrected member |
|---|---|---|---|---|---|---|
| pkg/webhook/validate.go:419-420 | `validatePfNames` returns "no conflict" at the first previous entry on the same PF whose range is disjoint, so later entries on that PF are never compared | current `pfNames` `["eth0#0-3"]`, previous `["eth0#4-7", "eth0#0-1"]`: accepted, though VFs 0-1 of eth0 overlap | reject when any range of the current policy overlaps any range of the other policy on the same PF | not executed | Validate.PfNamesFirstPairOnly | Validate.ValidatePfNamesAllPairs |

The admission pipeline (`ValidatePolicyForNodePolicy` and everything that calls it) follows the code as written. The corrected rule is kept beside it in `ValidatePolicyForNodePolicyIntended`, and `IntendedIsStricter` relates the two.
