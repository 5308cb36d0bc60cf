# A verified model of the DBaaS controllers

The repository runs tenants' databases and Kubernetes clusters on kcp. This project models its three stateful parts in
Dafny and proves what they are for. `dafny verify dfyconfig.toml` checks all of it.

**The Kubernetes mount controller.** A reconcile takes a finalizer, waits for the workload cluster, creates a child
workspace in the tenant's workspace and publishes a status annotation; deletion takes the same way back.
`MountProtocol` is this as a state machine: one step per API call, any number of objects, informers that deliver the
versions of an object and its Cluster late, in order and possibly skipping some, calls that fail, a process that may stop between any two calls, and an environment that creates, edits and
deletes objects, clusters, secrets, nodes, consumer workspaces and child workspaces. `MountController` is the reconcile
code itself; every way through it extends a run of that machine by the calls of one reconcile. `MountSafety`,
`MountStatus`, `MountFixedPoint` and `MountProgress` hold the results, `NameReuse`, `MountSharing` and `MountLag` the
runs that show where their conditions are needed, built with `MountWitness`. `Taints` and `MountNames` are the pure
parts, `MountPaths` is the proxy that serves the published URL.

**The provisioner.** `WorkspaceSetup` is what the crash-restartable setup of a consumer workspace aims at, `SetupRuns`
any number of attempts at it at once, `SetupAttempt` the code of one in such a run. `Headlamp` is what a sync of the shared kubeconfig Secret computes, with its loops over Go maps;
`HeadlampRuns` interleaves any number of syncs, `HeadlampSync` is the code of one in such a run, and
`SetupMeetsHeadlamp` joins the two protocols. `Hosts` and `Forwarded` are the host parsers of its web page.

**The Headlamp plugin.** `ResourceIndex` builds the list of API resources out of nested lists, `Sorting` is the stable
sort, `ResourceKeys` and `Percent` are the route keys, `ResourceLabels` the sidebar labels, `ResourcesHook` the
asynchronous load with its cancellation flag. `Basics` and `Text` are shared helpers.

## Findings

- A consumer workspace name that is deleted and given to another cluster between a reconcile's listing and its create
  call receives the mount of the first tenant; deletion then finds no workspace for the object's cluster ID and lets the
  finalizer go. Mounts are never orphaned exactly when names stay with their clusters
  (`NameReuse.NoOrphansExactlyWhenPinned`). Distinct mount names and never-reused object identities are not needed.
- Two objects of one tenant whose names derive one mount name share a place, and deletion goes by that name: the
  deletion of one takes the mount from behind the other's ready status. Ready is sound exactly when names are not shared,
  or no workspace can stand for the tenant (`MountSharing.SoundExactlyWhenUnshared`).
- A reconcile goes by the informer's copies, and may succeed and leave work behind. It does not patch a new Cluster when
  the copy is of the one before (`MountLag.SuccessCanMissAPatch`), it leaves nodes with the taints of an older setting
  (`MountLag.SuccessCanMissATaint`), and with a copy from before the object's creation it does nothing. Whatever the
  lag, a success leaves everything settled exactly when it was sighted, a condition on the state before it
  (`MountFixedPoint.SuccessSettles`).
- A role binding of the setup's name with another role cannot be repaired, because the API server refuses to change the
  role of a binding: no attempt ever succeeds and the workspace is never annotated (`SetupRuns.WrongRoleBlocks`). An
  undisturbed attempt succeeds exactly when there is none (`SetupRuns.CleanAttempt`).
- A Secret that cannot be parsed is overwritten by the next Headlamp sync, and what that sync does not refresh is lost
  (`HeadlampRuns.GarbageIsDropped`).
- The label counts live in a plain JavaScript object. A kind such as `constructor` is answered by
  `Object.prototype`, is never counted, and its labels do not tell groups apart (`ResourceLabels.LabelsSeparate`).
- A bare host with exactly one colon loses what follows it (`Hosts.BareHost`), and gets another base URL than its other
  spellings (`Hosts.SpellingsAgree`).
- A quoted `Forwarded` value comes back exactly when it has no comma, no semicolon and no quote of its own at either end
  (`Forwarded.QuotedValueComesBack`), although section 4 of RFC 7239 allows commas and semicolons in quotes.
- The repository's README.md (line 247) says a mount has the object's own name. The code appends a digest outside the
  default namespace, and the model follows the code.

## Hypotheses

- Mount controller: reconciles of one object do not overlap; API calls are atomic; an object whose key exists again
  does so only after its Cluster is gone; consumer workspaces with an ID have different ones at any time and keep theirs
  while they are listed; the sync agent's annotations do not change; only this controller handles its own finalizer and
  annotation. Mount safety and status soundness also assume that names stay with their clusters. A reconcile's `Get` of
  the object and of the Cluster reads the informer's copy, which may be any earlier version but never goes back. That
  equal versions of an object are equal, which the results on single reconciles assume, holds in every reachable state
  (`MountProgress.ReachedVersioned`).
- Status soundness is per object: no other object of the tenant derives its mount name (`MountNames.NameCollision` says
  when two do), and a place is excepted while tenants or the removal of a workspace have touched it since a reconcile
  last found its mount there or made it.
- "Writes nothing" leaves out the manifest of the network plugin, which every reconcile applies again.
- Setup: nobody else creates or deletes the objects of the setup; the server only issues the token, and refuses to change
  the role of a role binding. For one workspace that token is a fixed value. A workspace that is annotated at the start
  is complete at the start.
- Headlamp: a kubeconfig that was written loads back as it was.
- The locale's collation is a consistent comparison.

## Model

| member | source | states |
|---|---|---|
| MountSafety.NoOrphanedMount | internal/controller/kubernetes/controller.go:51-128 | In every run, a child workspace the controller created belongs to an object that is stored with the finalizer |
| MountSafety.FinalizerGoesLast | internal/controller/kubernetes/controller.go:108-128 | Only the controller's own update takes the finalizer off, the object is being deleted then, and none of its mounts is left anywhere |
| MountSafety.MountsAreNamed | internal/controller/kubernetes/controller.go:69-71 | In every run, a mount created for an object refers to the name and namespace that the sync agent has noted, or else to the object's own name and "default", and is called that name, with a digest of "namespace/name" outside "default" |
| MountSafety.InvStep | internal/controller/kubernetes/controller.go:51-467 | The invariant of caches, finalizers and mounts is kept by every step of every reconcile and of the environment |
| NameReuse.NoOrphansExactlyWhenPinned | internal/controller/kubernetes/controller.go:375-450 | No run orphans a mount if and only if workspace names stay with their clusters |
| NameReuse.ReachesOrphan | internal/controller/kubernetes/controller.go:390-440 | Without that, a concrete run ends with the object gone and its mount in another tenant's workspace |
| MountStatus.PublishedStatusIsSound | internal/controller/kubernetes/controller.go:73-103 | In every reachable state an annotation's ready, phase and URL agree, and its URL and mount are spelled as the tenant's coordinates and the base URL have it; if it shows ready and the object is not being deleted, a mount of that name and reference is in place, unless others have touched its place since a reconcile last found or made it |
| MountSharing.SoundExactlyWhenUnshared | internal/controller/kubernetes/controller.go:433-450 | Over any set of objects, ready is never shown without its mount if and only if no other object of the tenant shares the mount name, or no workspace can stand for the tenant |
| MountStatus.StatusStep | internal/controller/kubernetes/controller.go:143-184 | The status invariant is kept by every step |
| MountFixedPoint.SuccessSettles | internal/controller/kubernetes/controller.go:51-105 | However far the copies of the object and its Cluster lag behind, an undisturbed reconcile of a live object that succeeds leaves finalizer, node taints, mount and annotation as wanted if and only if it was sighted before it began; with the object known and an equal Cluster status that is: the copy shows the wanted annotation only if the Cluster does |
| MountLag.SuccessCanMissAPatch | internal/controller/kubernetes/controller.go:152-172 | In any configuration, a run leads to a reconcile that succeeds and leaves the Cluster without its status |
| MountLag.SuccessCanMissATaint | internal/controller/kubernetes/controller.go:321-331 | In any configuration, a run with the Cluster known leads to a reconcile that succeeds by an older setting and leaves a taint to write |
| MountFixedPoint.SettledMeans | internal/controller/kubernetes/controller.go:61-105 | Settled means, in terms of the stored objects alone: finalizer on, copies current, nodes tainted exactly when scheduling is forbidden, the Cluster showing the phase, URL and mount name that go with it, and for ready the mount with the tenant's reference in the first listed workspace |
| MountFixedPoint.SettledExactlyWhenQuiet | internal/controller/kubernetes/controller.go:61-105 | With up-to-date informers, a whole reconcile succeeds without asking for a single write, a redundant one included, if and only if everything is settled |
| MountFixedPoint.SecondReconcileWritesNothing | internal/controller/kubernetes/controller.go:51-105 | Whatever the lag, the reconcile after a successful one asks for no write, and changes nothing, if and only if the successful one was sighted |
| MountProgress.DeletionCompletes | internal/controller/kubernetes/controller.go:108-128 | In every reachable state with a held object that is being deleted, an undisturbed reconcile takes the finalizer off if and only if the informer has the current version; it then succeeds, none of the object's mounts is left, and no other child workspace is touched |
| MountProgress.CreationCompletes | internal/controller/kubernetes/controller.go:51-105 | Whatever the lag, an undisturbed reconcile of a live object succeeds if and only if it is unhindered: an old copy may leave it nothing to do; otherwise the finalizer must be on or the copy current, a due mount's place free or holding the mount, and a due patch have a Cluster; then finalizer, taints by the setting read, and mount are in place |
| MountController.ConsumerWorkspaceForCluster | internal/controller/kubernetes/controller.go:452-467 | The loop returns the first listed workspace with the ID in either field, and nothing only if none has it |
| MountController.Controller.Reconcile | internal/controller/kubernetes/controller.go:51-106 | With anything happening between its calls and any call failing, the code extends the run by the calls of exactly one reconcile of the machine, from its one read of the object to its return; every mount it reads, creates or deletes and every status it publishes has the tenant's coordinates; success needs a last call that succeeds |
| MountController.Controller.MountsAreOwned | internal/controller/kubernetes/controller.go:51-128 | So whatever the code has done, no mount is without its owner |
| MountController.Controller.ReconcileDelete | internal/controller/kubernetes/controller.go:108-128 | A success made the listing, the deletion at the mount's place if a workspace was listed, and last the update without the finalizer, in the version that was read; without the finalizer no call is made |
| MountController.Controller.UpdateObject | internal/controller/kubernetes/controller.go:61-65 | The update succeeds only on the version that was read, changes only our finalizer, and drops an object that nothing holds any more |
| MountController.Controller.WorkloadClusterPhase | internal/controller/kubernetes/controller.go:186-207 | Ready, connecting or initializing, exactly by the cached Cluster, and the machine continues with that |
| MountController.Controller.KubeconfigExists | internal/controller/kubernetes/controller.go:209-218 | Whether the secret is there, and which call comes next |
| MountController.Controller.ReconcileControlPlaneScheduling | internal/controller/kubernetes/controller.go:300-334 | The calls are the listing of the nodes and then, in order, one update with the wanted taints for each listed node out of line and none for the others; all of them on success |
| MountController.Controller.UpdateTaints | internal/controller/kubernetes/controller.go:321-331 | One update, with the wanted taints, is asked for exactly when the policy is not met, and success means that the node has them |
| MountController.NodeWritesOutright | internal/controller/kubernetes/controller.go:321-331 | Among these calls, a listed node has one exactly when its taints do not follow the policy, and then with taints that do |
| MountController.Controller.EnsureMountedWorkspace | internal/controller/kubernetes/controller.go:375-431 | Listing, read and creation in this order, the read and the creation at the tenant's mount name and the creation with the tenant's reference; each of the four errors and two successes says what it found: no workspace listed with the ID, another reference, an unreachable workspace, the mount with the tenant's reference, or a mount that is there now; on success the mount stands when names are pinned and unshared |
| MountController.Controller.DeleteMountedWorkspace | internal/controller/kubernetes/controller.go:433-450 | On success nothing is left at the mount's place in the listed workspace, or none is listed; with pinned names nothing the controller created for the object is left anywhere |
| MountController.Controller.PatchStatusAnnotation | internal/controller/kubernetes/controller.go:143-184 | The patch is asked for exactly when the cached copy is there and does not carry the annotation; on success the Cluster then carries it |
| MountNames.NameCollision | internal/controller/kubernetes/controller.go:482-488 | When exactly two mount names agree, for every pair of objects: in default namespaces when the names do, elsewhere when names and digests do, and across the two when one name is the other with its digest |
| Taints.DesiredControlPlaneTaints | internal/controller/kubernetes/controller.go:348-373 | The loop follows the policy, and changed tells exactly whether the list differs |
| Taints.PolicyHolds | internal/controller/kubernetes/controller.go:348-373 | The wanted list has the blocking taint exactly when scheduling is not allowed; every other taint stays as often as it was and in its order; and when scheduling is forbidden at most the one taint is added, at the end |
| Taints.FixedByPolicy | internal/controller/kubernetes/controller.go:348-373 | A list follows the policy exactly when it is its own wanted list; the function is idempotent; forbidding and allowing again equals allowing |
| Taints.ReconcileNodes | internal/controller/kubernetes/controller.go:321-331 | If an update is refused midway, all earlier nodes follow the policy and all later ones are untouched |
| MountPaths.PublishedURLIsServed | internal/controller/kubernetes/mount_proxy.go:22-83 | A request below the published URL goes to that object's cluster, with the rest of the path behind the target's path |
| MountPaths.RoutingIsExact | internal/controller/kubernetes/mount_proxy.go:22-31 | A path is routed to a mount exactly when it spells its namespace, name and rest |
| HeadlampSync.Provisioner.SyncHeadlamp | internal/provisioner/headlamp.go:41-132 | The code of a sync extends a run of HeadlampRuns; a sync that writes does so as the last step, and what it replaces in that very step is what it computed from, name by name as SyncedOutright says; otherwise the Secret is as the others left it |
| HeadlampSync.Provisioner.Update | internal/provisioner/headlamp.go:119-128 | The write goes through exactly when the version is the one that was read, and is a step of the run |
| HeadlampRuns.SyncedOutright | internal/provisioner/headlamp.go:67-117 | A workspace that is added gets server, user and context by what was got for it; one that is removed is never refreshed, and goes if it was managed and the listing does not have it; any other name goes by its last live listed entry; an unreadable token counts as not refreshed; the user is the workspace's token or the administrator's token, certificate or files |
| Headlamp.Config.RemoveStale | internal/provisioner/headlamp.go:143-159 | In any order of iteration, exactly the managed names outside the listing lose their entries in all three maps |
| Headlamp.Config.Refresh | internal/provisioner/headlamp.go:85-117 | In any order of iteration, exactly the wanted names with readable credentials get fresh entries |
| Headlamp.ListedWorkspaces | internal/provisioner/headlamp.go:67-72 | The wanted map is built from the non-terminating workspaces |
| Headlamp.FreshIsManaged | internal/provisioner/headlamp.go:86-90 | Every server a sync writes carries the prefix by which the next one recognises it, and no CA when verification is off |
| HeadlampRuns.Converges | internal/provisioner/headlamp.go:34-36 | From any content, one periodic sync leaves exactly the non-terminating listed workspaces managed and aligned, but for those whose token it could not read, whose entries stay as they were |
| HeadlampRuns.SyncTwice | internal/provisioner/headlamp.go:67-117 | Repeating any sync with the same answers changes nothing |
| HeadlampRuns.StaysAligned | internal/provisioner/headlamp.go:110-117 | A sync keeps every managed cluster with a user of its name and a context for exactly the two |
| HeadlampRuns.NoLostUpdate | internal/provisioner/headlamp.go:46-128 | In every interleaving, a write that goes through is computed from the content it replaces |
| HeadlampRuns.ForeignEntrySurvives | internal/provisioner/headlamp.go:143-159 | In every interleaving, entries that are not managed and never name a workspace keep their content in all three maps |
| HeadlampRuns.AlwaysAligned | internal/provisioner/headlamp.go:85-132 | The alignment holds in every interleaving |
| HeadlampRuns.GarbageIsDropped | internal/provisioner/headlamp.go:52-59 | In any run, a write that replaces content that does not parse leaves the fresh entries of the wanted names with readable tokens, and nothing for any other name |
| SetupMeetsHeadlamp.CredentialsAreReadable | internal/provisioner/credentials.go:32-37 | A sync that lists workspaces in any state the setup attempts can reach misses a token exactly where the request for it fails, because the annotation that asks for one commits |
| SetupMeetsHeadlamp.SyncConvergesAfterSetup | internal/provisioner/headlamp.go:67-117 | So one periodic sync leaves exactly the live workspaces managed, each with its own token or the administrator's credentials by its annotation, apart from those whose token request fails |
| SetupAttempt.Workspace.EnsureWorkspaceSetup | internal/provisioner/workspace.go:72-95 | With any other attempts acting between its calls, the code is one attempt of a run of SetupRuns; it takes nothing away, leaves a finished workspace as it is, and when it succeeds the annotation was its last call and the final contents are reached |
| SetupAttempt.Workspace.MarkMeansComplete | internal/provisioner/workspace.go:72-95 | In any state the code has reached, the annotation stands for everything it promises |
| SetupAttempt.Workspace.EnsureWorkspaceBindings | internal/provisioner/binding.go:50-64 | The loop creates what is missing, as configured, and alters nothing; success means every configured binding is there, and one that appears between its two calls is an error |
| SetupAttempt.Workspace.EnsureScopedWorkspaceCredentials | internal/provisioner/credentials.go:56-80 | Success means everything the annotation promises is there, a non-empty token included |
| SetupAttempt.Workspace.EnsureNamespace | internal/provisioner/credentials.go:82-98 | It reads and at most creates the namespace; success means it is there |
| SetupAttempt.Workspace.EnsureServiceAccount | internal/provisioner/credentials.go:100-123 | It reads and at most creates the service account; success means it is there |
| SetupAttempt.Workspace.EnsureTokenSecret | internal/provisioner/credentials.go:125-152 | It reads and at most creates the token secret; success means it is there |
| SetupAttempt.Workspace.EnsureAdminClusterRoleBinding | internal/provisioner/credentials.go:154-192 | It reads, and creates what is missing or updates what differs; success means exactly the wanted role and single subject |
| SetupAttempt.Workspace.MarkWorkspaceScopedCredentials | internal/provisioner/credentials.go:39-54 | Marking the workspace at this point finishes it |
| SetupAttempt.ReconcileWorkspaceBindings | internal/provisioner/binding.go:31-48 | A pass tries the setup of each workspace once for every time it is listed as neither terminating nor transient, in order, whatever becomes of the others; one whose attempt succeeded has its final contents at the end, one that is not eligible is untouched |
| WorkspaceSetup.BindingStep | internal/provisioner/binding.go:50-64 | Creating the first missing binding does not change where the setup leads |
| WorkspaceSetup.FinalIsComplete | internal/provisioner/workspace.go:72-95 | The final contents are complete and extend the present ones; they are reached exactly when complete and annotated |
| SetupRuns.AnnotationCommits | internal/provisioner/workspace.go:72-95 | In every reachable state of any number of attempts, an annotated workspace has every configured binding, namespace, account, non-empty token and exactly the role cluster-admin for the one service account |
| SetupRuns.AnyRestartEndsTheSame | internal/provisioner/workspace.go:72-95 | However attempts were cut off and interleaved, success leaves the contents of one clean attempt |
| SetupRuns.BindingsAreConfigured | internal/provisioner/binding.go:66-84 | In every run, a binding that was not there at the start has the export name and claims of the first configured binding of its name and the path of the provider; one that was there is unchanged |
| SetupRuns.SuccessOutright | internal/provisioner/workspace.go:72-95 | A success of any attempt in any run leaves each configured binding so, namespace, account, the token that was there or the one issued, the exact role binding and the annotation |
| SetupRuns.NeverLosesGround | internal/provisioner/binding.go:50-64 | Existing bindings never change, nothing that is there goes away, and the count of missing objects never grows |
| SetupRuns.CleanAttempt | internal/provisioner/credentials.go:56-80 | Once the token is issued, an undisturbed attempt succeeds from any state if and only if no role binding with another role is there |
| SetupRuns.WrongRoleBlocks | internal/provisioner/credentials.go:182-191 | With one there, no attempt of any run ever succeeds, and the workspace is never annotated |
| SetupRuns.InvStep | internal/provisioner/credentials.go:82-210 | Every call of every attempt keeps what the others have seen, and where the setup leads |
| ResourceIndex.BuildBaseAPIBindingResources | headlamp-plugin/kcp/src/apiBindingResources.ts:133-183 | Of the raw bindings: the listed keys are distinct and exactly those of the bound resources with group, first storage version and name; each entry has such a triple, the one its key stands for if it is well formed, is called by its name in all three ways, is namespaced, and names its bindings once each in the order of the bindings; the list is in order of kind and then group |
| ResourceIndex.KeysExact | headlamp-plugin/kcp/src/apiBindingResources.ts:145-171 | Keys are distinct and are exactly those of the mentioned resources |
| ResourceIndex.NamesExact | headlamp-plugin/kcp/src/apiBindingResources.ts:153-157 | An entry's binding names are exactly the non-empty ones that mention it, each once |
| ResourceIndex.NamesInOrder | headlamp-plugin/kcp/src/apiBindingResources.ts:153-157 | They come in the order of their first mention |
| ResourceIndex.TripleOfKey | headlamp-plugin/kcp/src/apiBindingResources.ts:149-170 | With slash-free components, an entry has the group, version and resource of its key |
| ResourceIndex.BaseListIsSorted | headlamp-plugin/kcp/src/apiBindingResources.ts:175-182 | The list is the declared entries, permuted, by kind and then group |
| ResourceIndex.MergeKeepsIdentities | headlamp-plugin/kcp/src/apiBindingResources.ts:185-213 | Merging discovery data permutes and re-sorts, and keeps key, id, group, version, resource and binding names |
| ResourceIndex.MergeRefines | headlamp-plugin/kcp/src/apiBindingResources.ts:185-221 | Each resource is refined by kind, scope, singular and plural name as far as discovery has found them, nothing else is listed, and the list is in order again |
| Sorting.SortedAscends | headlamp-plugin/kcp/src/apiBindingResources.ts:175-182 | The sort puts elements in order |
| Sorting.SortedPermutes | headlamp-plugin/kcp/src/apiBindingResources.ts:175-182 | It permutes, also in every projection |
| Sorting.SortedStable | headlamp-plugin/kcp/src/apiBindingResources.ts:175-182 | Elements that compare equal keep their order |
| ResourceKeys.KeyRoundTrip | headlamp-plugin/kcp/src/apiBindingResources.ts:57-77 | A key decodes to its triple if and only if no component is empty or has a slash |
| ResourceKeys.KeysAreDistinct | headlamp-plugin/kcp/src/apiBindingResources.ts:57-77 | Such triples share a key only when they are equal |
| ResourceKeys.KeyText | headlamp-plugin/kcp/src/apiBindingResources.ts:57-59 | Components of letters, digits and the nine marks stand legibly in their key, joined by escaped slashes |
| ResourceKeys.KeyIsClean | headlamp-plugin/kcp/src/apiBindingResources.ts:83-85 | A key has no character but these and the percent sign, so it is one route segment |
| ResourceKeys.FindResource | headlamp-plugin/kcp/src/APIBindingInstancesPage.tsx:468-486 | The page finds exactly the resource whose key it was given |
| Percent.DecodeEncode | headlamp-plugin/kcp/src/apiBindingResources.ts:57-67 | Percent-decoding undoes percent-encoding for every text |
| Percent.Utf8RoundTrip | headlamp-plugin/kcp/src/apiBindingResources.ts:57-67 | Every character is read back from its one to four bytes |
| Percent.Utf8Layout | headlamp-plugin/kcp/src/apiBindingResources.ts:57-59 | The bytes of every character are those of the standard, by its four ranges |
| ResourceLabels.MakeResourceLabelMap | headlamp-plugin/kcp/src/apiBindingResources.ts:87-98 | Both passes over a plain object give each key the label of its last resource: the kind, followed by the group in parentheses when another resource has the kind and the kind is not inherited |
| ResourceLabels.CountIsAmbiguity | headlamp-plugin/kcp/src/apiBindingResources.ts:88-91 | A count above one means two different resources of the kind |
| ResourceLabels.LabelsSeparate | headlamp-plugin/kcp/src/apiBindingResources.ts:93-97 | Two resources with space-free kinds share a label exactly when kinds agree and groups do too or the kind is an inherited name |
| ResourcesHook.StaleResponsesChangeNothing | headlamp-plugin/kcp/src/apiBindingResources.ts:241-281 | In every interleaving, responses to a cleaned-up run change nothing that is shown, and all but the newest run are cleaned up |
| ResourcesHook.ShownIsCurrent | headlamp-plugin/kcp/src/apiBindingResources.ts:241-281 | What is shown without loading or error is the base or refined list of the current run |
| ResourcesHook.ShownIsAnswer | headlamp-plugin/kcp/src/apiBindingResources.ts:241-281 | By the events alone: while the effect is mounted, a list shown without an error is the refined answer to its newest run, or its base answer if there is no refined one |
| ResourcesHook.Component.CleanUp | headlamp-plugin/kcp/src/apiBindingResources.ts:278-280 | The flag of the newest run is set, nothing else |
| ResourcesHook.Component.RunEffect | headlamp-plugin/kcp/src/apiBindingResources.ts:241-246 | Clean-up, then a new run that is loading without an error |
| ResourcesHook.Component.OnBindings | headlamp-plugin/kcp/src/apiBindingResources.ts:247-253 | The response is dropped, or the index of exactly its bindings is shown and loading ends |
| ResourcesHook.Component.OnRefined | headlamp-plugin/kcp/src/apiBindingResources.ts:255-261 | The refined list is dropped, or shown as the base list refined by exactly what was found |
| ResourcesHook.Component.OnRefineError | headlamp-plugin/kcp/src/apiBindingResources.ts:262-268 | The base list stays |
| ResourcesHook.Component.OnFetchError | headlamp-plugin/kcp/src/apiBindingResources.ts:270-276 | The error is dropped or shown |
| Hosts.StripUndoesJoin | internal/provisioner/kubeconfig.go:187-213 | For every plain host and digit port, stripping the joined form returns the host |
| Hosts.BracketedAlone | internal/provisioner/kubeconfig.go:199-205 | A bracketed host without a port loses just its brackets |
| Hosts.BareHost | internal/provisioner/kubeconfig.go:206-212 | A bare host is kept if and only if it does not have exactly one colon, or ends in it |
| Hosts.SpellingsAgree | internal/provisioner/kubeconfig.go:167-185 | The bracketed and the joined spelling always give one base URL; the bare one gives the same if and only if it does not have exactly one colon, or ends in it, or there is no URL |
| Hosts.BaseURLText | internal/provisioner/kubeconfig.go:167-185 | For a host name or address, joined with any port or in brackets, the base URL is scheme, host and the new port, with brackets around a host with colons |
| Forwarded.ForwardedHeaderHost | cmd/provisioner/main.go:290-302 | The nested loops return the host of the first trimmed part that names one, in header order |
| Forwarded.ParsingUndoesPrinting | cmd/provisioner/main.go:290-302 | From any printed header, an empty one and one with white space around its separators included, they return the value of the first pair called host, in any mix of upper and lower case, element by element, or nothing |
| Forwarded.QuotedValueComesBack | cmd/provisioner/main.go:290-302 | A quoted value comes back if and only if it has no comma, no semicolon and no quote at either end |
| Forwarded.ForwardedOrRequestHost | cmd/provisioner/main.go:272-280 | The first non-empty of the three sources |
| Forwarded.SourcesInOrder | cmd/provisioner/main.go:272-288 | Over printed headers, the missing one included: the forwarded host, else the first listed X-Forwarded-Host, trimmed, else the request's host |

## Left out

- Requests that reach the server after the process that sent them has died: a call takes effect at once or not at all.
- kcp's own termination of a deleted workspace: a child workspace is gone when its deletion succeeds.
- Applying the Calico manifest: a call that may fail and changes nothing modelled.
- The SHA-1 sum behind mount names: an arbitrary function with results of eight characters.
- JSON and YAML: annotations and kubeconfigs are the records they encode.
- Real time: a retry is another step that may happen; nothing is said about how soon.
- Taints.ReconcileNodes: runs on an array without interference; the loop under interference is MountController's.
- HeadlampSync.Provisioner.SyncHeadlamp: a missing Kubernetes client, a Secret that cannot be read and the restart of the deployment, which touch no modelled state.
- Hosts.SpellingsAgree: says nothing about texts with "://", because finding the host in a full URL is left to a parameter.
- Forwarded.ParsingUndoesPrinting: covers values without commas, semicolons and inner quotes; Forwarded.QuotedValueComesBack says when the code understands those.
- Go's byte strings: text is a sequence of Unicode characters, so invalid UTF-8 is not represented.
- Lone surrogates, which make encodeURIComponent throw; an index that fails to build counts as a failed fetch.
- The discovery requests of the plugin: their answers are a map from keys to what was found.
- Client construction, TLS, HTTP handlers, templates, React components, the sidebar filter and the workspace list of the web page.
- The kubeconfig download, the mock MongoDB controller, the kro graphs, generated code, and everything under scripts, mk and deploy.
