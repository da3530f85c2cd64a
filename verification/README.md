# Verified model of operator-sdk

A Dafny model of the parts of operator-sdk with the most branching and state, and proofs of what they
promise. `dafny verify dfyconfig.toml` checks everything.

Code that updates things in place is modelled as classes and loops and proved equal to a specification
function; the properties are lemmas about that function, about runs of it, or about several of them.

| module | models |
|---|---|
| `Collector`, `RbacConservation`, `Permissions`, `RbacMeaning`, `RbacManifests` | splitting RBAC manifests into CSV permissions and objects written next to the CSV, and joining them again per service account |
| `HelmStatus`, `ReleaseManager`, `Values` | the status block, release storage, cleanup and value merge of a Helm operator |
| `Reconciler`, `HelmOperator`, `PassOutcomes`, `ReconcilerRuns`, `Convergence`, `Lapses`, `SettledObjects` | the Helm reconciler: the step function, the imperative pass that refines it, what every branch of it does, invariants of whole runs, transition times, convergence, unprotected releases |
| `EditDistance`, `JsonPatch`, `DiffMeaning`, `PatchApplication`, `PatchConvergence`, `SeenDocuments`, `PatchText`, `ReleaseObjects` | the JSON difference with its edit distance and its meaning, the filtered patch, what applying it achieves, what the library sees of documents, the text of paths, and the reconciliation of release objects |
| `YamlReader`, `ConfigMapPartition`, `PartitionProofs` | reading the documents of a file-based catalog and packing them into compressed ConfigMaps |
| `Channel`, `CatalogUpdate` | upgrade channels as a graph, and the update of a catalog source |
| `Scorecard`, `ScorecardProofs` | test stages: the sequential runner and all interleavings of the parallel one |
| `RelatedImages`, `RelatedImagesProofs` | the related-image collector and its indexes |
| `RegistryData`, `RegistryProofs` | the ConfigMaps of a package manifests registry and the staleness check |
| `InstallModes` | the install mode flag |
| `Definitions`, `DefinitionsProofs`, `Descriptors` | ordering of owned CRD descriptions and descriptors |
| `Wrappers`, `Seqs`, `Sorting`, `Text`, `TextMeaning` | options, sequences, map iteration in any order, sorting without promises about ties, strings |

## How outside calls are modelled

Kubernetes and Helm calls are abstract operations with success, not-found and error outcomes; a record of
outcomes is a parameter of each operation (`Outcomes`, `SyncFaults`, `CleanupFaults`, `Faults`,
`ObjectFaults`), so a theorem for all records is a theorem for every pattern of failures. An update may
also be stored and still be reported as failed. Map iteration picks any order (`Seqs.RangeOver`).

The assumed contracts, each a named predicate and used only where a theorem mentions it:

- `ConfigMapPartition.Lossless`: a compressed stream decompresses to its text, as gzip promises.
  `PartitionProofs.ShortSuffix`: what is stored of two or more consecutive documents is at most 13 bytes
  longer than what was measured of them. Closing a flushed stream adds an empty block and the trailer of
  section 2.3 of RFC 1952; that the stored stream, which is not flushed in between, is not longer than the
  measured one is an assumption. `PartitionProofs.Monotone`: dropping some of the given documents from
  either end of a part never makes it too large, an assumption only optimality needs.
- `Convergence.HelmContract`: a first installation has version one, an upgrade a higher one than what was
  deployed, and both record as deployed what the chart renders to.
- `RegistryProofs.TellsApart`: the hash tells apart the two contents compared under one key and has no dot.
- `Definitions.IsComparison`: the comparison of versions is a total preorder.
- `JsonPatch.OrdersKeys`: the library lists the keys it sees of an object (`JsonPatch.Listed`) in some order,
  each once. The order may depend on the contents of the object, and be another when the patch is computed
  again. `JsonPatch.Seen` is a document without the fields whose keys it does not see.
- `Lapses.UninstallContract`: nothing is deployed after uninstalling, or when there is nothing to uninstall.

## Where the code does not do what one would expect

Each of these is a lemma with the exact condition or a concrete input.

- Two role bindings that give the same Role to CSV accounts put a nil role into the permissions, because
  the first one deletes it from the map; reading its name panics (`NilRoleIffBoundTwice`, `Strategy.Apply`,
  `TwoBindingsGiveNil`).
- A binding through a group that is not accepted is written next to the CSV, and its account is still
  granted the role in the CSV when another binding has taken that role in (`ForeignGroupStillGrants`).
- A binding without subjects to a known role is dropped, contrary to the comment that bindings without a
  relevant account are written out (`RoleBindingConserved`, `EmptyBindingIsLost`).
- A resource policy other than "keep" makes a file neither kept nor waited for (`FilterLosesOtherPolicies`).
- The transition time of a condition moves without a change of status in two cases, and no others: the
  irreconcilable condition at every recorded reconciliation failure, though not at synchronisation failures,
  and the release-failed condition at every recorded cleanup failure (`TransitionTimes`, `TimeLostIff`,
  `SyncFailureKeepsTime`, `CleanupTimeLost`, `ReconcileTimeLost`).
- A release whose finalizer cannot be written stays deployed when the resource is deleted before a later
  pass writes it (`UnprotectedIff`, `DeletionOrphansIff`, `InstalledThenOrphaned`).
- A field whose key JSON writes with an escape sequence, such as one with an ampersand, an angle bracket or a
  backslash, is not seen by the patch library and never sent (`SeenIff`, `NothingSentIff`,
  `EscapedKeyIsNotSent`).
- A difference below an empty key is sent with the path of another field, and a key with a quotation mark
  makes the text of an operation malformed (`ReadsBackIff`, `SentIsIntact`, `OddPaths`).
- The filtered patch does not lay the expected document over the live one when a null that is to be appended
  to a list is followed by a value, because the patch cannot be applied, or when a live null in a list meets
  a value, because the value is inserted before it (`ResultLaysOverIff`, `ConvergesIff`,
  `NullBeforeValueFails`, `LiveNullShifts`). Lists of scalars alone never fail.
- Upgrading a channel that the index has works only for the first channel of the index, and drops the other
  entries (`UpgradeFBC`, `OldChannelUpgrade`, `OldEntryDropped`, `SecondChannelFails`).
- A catalog update whose new pod is named like the previous one ends with the linked pod deleted, if that
  pod was already gone when the update began (`ServedAfterSuccessIff`, `SameNameUnserved`).
- Different images whose name and reference join to the same key are taken for one (`RecordsAllIff`,
  `CollisionLosesImage`).
- Versions that look alike in a ConfigMap name, such as 1.0.0+a and 1.0.0-a, make a registry stale from the
  start (`FreshRegistryIff`, `CollidingVersionsAlwaysStale`).
- The install mode flag appends when given twice, so that a second single namespace is rejected (`SetTwice`).

## Model

| member | source | states |
|---|---|---|
| `Collector.RemoveRelevant` | internal/generate/collector/clusterserviceversion.go:155-162 | the index-decrementing deletion loop over the subjects of one binding terminates, keeps exactly the irrelevant subjects in order in the array it works on, and says whether any was removed |
| `Collector.PartialBindings.ScanAt` | internal/generate/collector/clusterserviceversion.go:147-171 | one pass of the outer loop: the binding at the index stays or is spliced out, its name is recorded exactly when it binds a relevant account, and the bindings of the other role kind are untouched |
| `Collector.PartialBindings.GetRolesBound` | internal/generate/collector/clusterserviceversion.go:145-174 | the role names found are those of the bindings that give a known role of the kind through an accepted group to a relevant account, in order; the bindings left are those not given to relevant accounts alone, or of another role |
| `Collector.TakeBoundRoles` | internal/generate/collector/clusterserviceversion.go:94-97 | reading role by role while deleting each name from the map: the second read of a name is nil |
| `Collector.SplitCSVPermissionsObjects` | internal/generate/collector/clusterserviceversion.go:39-132 | the three object lists are the split of the manifests for some iteration order of the two role maps |
| `Collector.OtherKindUndisturbed` | internal/generate/collector/clusterserviceversion.go:89-91 | scanning the same bindings for Roles first does not change which ClusterRoles they are found to bind |
| `RbacConservation.RoleConserved` | internal/generate/collector/clusterserviceversion.go:94-112 | a Role is exactly once in the namespaced permissions and `out` together, in the permissions exactly when a role binding gives it to a CSV account, and never in the cluster permissions |
| `RbacConservation.ClusterRoleConserved` | internal/generate/collector/clusterserviceversion.go:98-115 | a ClusterRole is in a permission list exactly when a binding of that scope gives it to a CSV account, and in `out` exactly once if it is in neither list and never otherwise |
| `RbacConservation.RoleBindingConserved` | internal/generate/collector/clusterserviceversion.go:116-118 | a role binding is in `out` exactly once, unless it refers to a known role through an accepted group and has no subject but relevant accounts (an empty subject list included) |
| `RbacConservation.ClusterRoleBindingConserved` | internal/generate/collector/clusterserviceversion.go:119-121 | the same for cluster role bindings |
| `RbacConservation.ForeignAccountsMember` | internal/generate/collector/clusterserviceversion.go:124-129 | of the service accounts exactly those not used by the CSV are written out, and the part of `out` that lists them has nothing else |
| `RbacConservation.NilRoleIffBoundTwice` | internal/generate/collector/clusterserviceversion.go:94-97 | the namespaced permissions contain a nil role exactly when two different role bindings give the same Role to CSV accounts; the cluster permissions never do |
| `RbacConservation.TwoBindingsGiveNil` | internal/generate/collector/clusterserviceversion.go:94-97 | a concrete input: two bindings of one Role to one account |
| `RbacConservation.EmptyBindingIsLost` | internal/generate/collector/clusterserviceversion.go:116-118 | a concrete input: a binding without subjects to a known Role is not written out |
| `Permissions.GrantBindings` | internal/generate/clusterserviceversion/clusterserviceversion_updaters.go:105-133 | the nested loops give every account, from an empty start, the rules of the found roles once for each subject that names it, in order |
| `Permissions.SortedPermissions` | internal/generate/clusterserviceversion/clusterserviceversion_updaters.go:135-145 | the permission list is strictly ascending by account, has no account without rules, and is complete |
| `Permissions.PermissionsDetermined` | internal/generate/clusterserviceversion/clusterserviceversion_updaters.go:135-145 | that description determines the list: two results for the same bindings are equal, so the iteration order of the map cannot show |
| `RbacMeaning.Strategy.Apply` | internal/generate/clusterserviceversion/clusterserviceversion_updaters.go:55-62 | applying the manifests panics exactly when a Role is bound twice, and otherwise leaves both permission lists described by a split of the manifests |
| `RbacMeaning.PermissionsExact` | internal/generate/clusterserviceversion/clusterserviceversion_updaters.go:91-146 | for all manifests with unique role names, exactly which rules the namespaced permissions give an account, the group of the reference not being checked again |
| `RbacMeaning.ClusterPermissionsExact` | internal/generate/clusterserviceversion/clusterserviceversion_updaters.go:150-186 | the same for cluster permissions, the kind of the reference not being checked again |
| `RbacMeaning.PermissionsMeanManifests` | internal/generate/clusterserviceversion/clusterserviceversion_updaters.go:91-146 | meaning is preserved: with accepted groups an account is given a rule exactly when a role binding with that account as a subject refers to a collected Role or ClusterRole containing it |
| `RbacMeaning.ClusterPermissionsMeanManifests` | internal/generate/clusterserviceversion/clusterserviceversion_updaters.go:150-186 | the same for cluster role bindings that refer to ClusterRoles |
| `RbacMeaning.ForeignGroupStillGrants` | internal/generate/clusterserviceversion/clusterserviceversion_updaters.go:106-132 | a concrete input: a binding through a foreign group is written next to the CSV and its account is granted the rule in the CSV as well |
| `RbacManifests.ForCsvIff` | internal/generate/collector/clusterserviceversion.go:40-52 | the accounts of the CSV: those of the deployments, "default" if none is given, and the extra ones |
| `RbacManifests.BindsIff` | internal/generate/collector/clusterserviceversion.go:145-178 | a binding gives its role to the CSV, or to the CSV alone, in terms of its kind, its name, its group (none or that of RBAC) and its subjects |
| `RbacManifests.RoleGoes` | internal/generate/collector/clusterserviceversion.go:94-112 | where each Role goes, in those terms, and that it goes there once |
| `RbacManifests.ClusterRoleGoes` | internal/generate/collector/clusterserviceversion.go:98-115 | where each ClusterRole goes, in those terms |
| `RbacManifests.RoleBindingGoes` | internal/generate/collector/clusterserviceversion.go:116-118 | which role bindings are written next to the CSV, in those terms |
| `RbacManifests.ClusterRoleBindingGoes` | internal/generate/collector/clusterserviceversion.go:119-121 | which cluster role bindings are |
| `RbacManifests.AccountGoes` | internal/generate/collector/clusterserviceversion.go:124-129 | a service account is written next to the CSV as often as it is collected, unless it is one of the CSV |
| `RbacManifests.NamespacedGrants` | internal/generate/clusterserviceversion/clusterserviceversion_updaters.go:91-146 | with references in no group or that of RBAC an account of the CSV is granted a rule in its namespace exactly if a role binding with it as a subject refers to a collected Role or ClusterRole that has the rule |
| `RbacManifests.ClusterGrants` | internal/generate/clusterserviceversion/clusterserviceversion_updaters.go:150-186 | likewise in the cluster, for references to ClusterRoles |
| `RbacManifests.ListedAccounts` | internal/generate/clusterserviceversion/clusterserviceversion_updaters.go:135-145 | only accounts of the CSV are listed, in ascending order, each once and with some rule |
| `HelmStatus.HelmAppStatus.SetCondition` | internal/helm/internal/types/types.go:97-116 | the in-place loop over the conditions computes the condition list of the specification |
| `HelmStatus.HelmAppStatus.RemoveCondition` | internal/helm/internal/types/types.go:122-130 | likewise for removal |
| `HelmStatus.FindAfterSet` | internal/helm/internal/types/types.go:97-116 | setting touches no other type, and keeps the transition time exactly when the condition was there with the same status |
| `HelmStatus.FindAfterRemove` | internal/helm/internal/types/types.go:122-130 | removing takes away that type and touches no other |
| `HelmStatus.SetKeepsDistinct` | internal/helm/internal/types/types.go:97-116 | condition types stay pairwise distinct when one is set |
| `HelmStatus.RemoveKeepsDistinct` | internal/helm/internal/types/types.go:122-130 | and when one is removed |
| `HelmStatus.SetAgain` | internal/helm/internal/types/types.go:97-116 | setting a condition that is there already, whatever the time, changes nothing |
| `ReleaseManager.DeployedRelease` | internal/helm/release/manager.go:148-157 | the deployed record of highest version, absent exactly when no record is deployed (the contract taken from Helm's storage) |
| `ReleaseManager.Manager.Cleanup` | internal/helm/release/manager.go:112-119 | deleting stale records one by one from the storage, stopping at the first failure other than not-found |
| `ReleaseManager.Manager.Sync` | internal/helm/release/manager.go:102-142 | the storage left behind, the outcome and the three manager fields are those of the specification, for every combination of failures |
| `ReleaseManager.CleanHistoryKeepsDeployed` | internal/helm/release/manager.go:102-130 | after a successful synchronisation exactly the non-stale records are left and the deployed release is the one deployed before, also when it stops half-way |
| `ReleaseManager.CleanHistoryStable` | internal/helm/release/manager.go:109-119 | synchronising again deletes nothing, whatever the storage would answer |
| `ReleaseManager.CleansUpTo` | internal/helm/release/manager.go:109-119 | deleting goes on to the first stale record that cannot be deleted: those before it are gone and everything from there on stays |
| `ReleaseManager.FilterManifestsToKeep` | internal/helm/manifestutil/resource_policy.go:24-44 | one loop, two lists: files to keep and files without a policy, in order |
| `ReleaseManager.FilterLosesOtherPolicies` | internal/helm/manifestutil/resource_policy.go:24-44 | a file is in neither list exactly when its policy is something other than "keep" |
| `ReleaseManager.KeepIsKept` | internal/helm/manifestutil/resource_policy.go:24-44 | concrete policies: "keep" in any case and with white space around it keeps a file |
| `ReleaseManager.CleanupRelease` | internal/helm/release/manager.go:409-452 | the resources are looked at in order until one cannot be read or still exists; what a failed deletion means |
| `ReleaseManager.CleanupSeesAllGone` | internal/helm/release/manager.go:409-452 | cleanup reports completion exactly when it could look at every resource of every file without a policy and saw each of them gone |
| `ReleaseManager.CheckOutcome` | internal/helm/release/manager.go:409-452 | which resource makes cleanup fail, and which makes it ask to be run again |
| `Values.MergeMaps` | internal/helm/release/manager_factory.go:162-179 | the loop over the overrides, in any key order, computes the recursive merge and terminates |
| `Values.MergeAlongPath` | internal/helm/release/manager_factory.go:162-179 | the value found along every path of the merge, in terms of the values found in the two arguments |
| `Values.MergeIdempotent` | internal/helm/release/manager_factory.go:162-179 | merging the same overrides twice is merging them once |
| `PassOutcomes.OverridesWin` | internal/helm/release/manager_factory.go:75-79 | the chart is rendered with the values of the resource, except that the overrides of the operator win |
| `HelmOperator.Cluster.WriteFinalizers` | internal/helm/controller/reconcile.go:480-484 | writing finalizers: a rejected write changes nothing, and the last finalizer of a resource under deletion takes the resource with it |
| `HelmOperator.HelmOperatorReconciler.WaitAndStrip` | internal/helm/controller/reconcile.go:176-214 | cleanup, requeue, failure and stripping of the finalizers, as in the step function |
| `HelmOperator.HelmOperatorReconciler.NoteUninstalled` | internal/helm/controller/reconcile.go:144-170 | the status built after a release was uninstalled or found gone |
| `HelmOperator.HelmOperatorReconciler.Terminate` | internal/helm/controller/reconcile.go:123-215 | the whole deletion branch |
| `HelmOperator.HelmOperatorReconciler.Install` | internal/helm/controller/reconcile.go:237-296 | the installation branch |
| `HelmOperator.HelmOperatorReconciler.Upgrade` | internal/helm/controller/reconcile.go:308-371 | the upgrade branch with its rollback |
| `HelmOperator.HelmOperatorReconciler.ReconcileRelease` | internal/helm/controller/reconcile.go:373-428 | the reconciliation branch, which writes the status only when it differs |
| `HelmOperator.HelmOperatorReconciler.Reconcile` | internal/helm/controller/reconcile.go:79-429 | the imperative pass over cluster, storage and status objects has the same world, result and calls as the step function, for every combination of outcomes |
| `ReconcilerRuns.LivePassKeeps` | internal/helm/controller/reconcile.go:217-429 | whatever fails, a pass over a live resource removes no finalizer, keeps condition types distinct, never loses Initialized or Deployed, never records an unprotected release, and gives each of the four types its exact transition time: the old one if the status is the one before, unless a failed reconciliation is recorded |
| `ReconcilerRuns.DeletionPassKeeps` | internal/helm/controller/reconcile.go:123-215 | whatever fails, a pass over a resource under deletion keeps what must be waited for recorded, keeps condition types distinct, and gives each of the four types its exact transition time: the old one if the status is the one before, unless a failed cleanup is recorded |
| `ReconcilerRuns.TransitionTimes` | internal/helm/controller/reconcile.go:79-429 | for every pass, failure pattern and condition type: the exact transition time, and at which two places it is reset |
| `ReconcilerRuns.TimeLostIff` | internal/helm/controller/reconcile.go:79-429 | the time of a condition whose status is the same before and after a pass moves exactly when the pass records a failed reconciliation (Irreconcilable) or a failed cleanup (ReleaseFailed) |
| `ReconcilerRuns.DeletionPassSafe` | internal/helm/controller/reconcile.go:123-215 | a deletion pass changes the finalizers only when it is justified: the release uninstalled or not found and, when waiting with a recorded manifest, every resource seen gone |
| `ReconcilerRuns.InvAlways` | internal/helm/controller/reconcile.go:79-429 | over every run of creations, edits, deletions, outside changes and passes with arbitrary failures: condition types are distinct, and a live resource with a recorded release has an uninstall finalizer |
| `ReconcilerRuns.StrippedOnlyWhenJustified` | internal/helm/controller/reconcile.go:123-215 | over every run: the uninstall finalizers go only in a pass for which it is justified |
| `ReconcilerRuns.ManifestSurvives` | internal/helm/controller/reconcile.go:160-193 | over every run: the manifest recorded when waiting begins survives every further pass and failure |
| `ReconcilerRuns.NothingOrphaned` | internal/helm/controller/reconcile.go:176-203 | over every run: when the finalizers go after waiting, no resource without a policy of the manifest recorded at the beginning exists |
| `ReconcilerRuns.DeletionPassDecides` | internal/helm/controller/reconcile.go:123-215 | a fault-free deletion pass strips the finalizers exactly when nothing is left to wait for, and otherwise asks to be run again |
| `PassOutcomes.EarlyEnd` | internal/helm/controller/reconcile.go:93-121 | which passes end before anything is called, and with what result |
| `PassOutcomes.SyncOutcome` | internal/helm/release/manager.go:102-142 | when synchronising fails, which release is found deployed, whether it must be upgraded, and which records are left |
| `PassOutcomes.SyncFailurePass` | internal/helm/controller/reconcile.go:217-234 | calls, storage, objects, result and stored status of a pass in which synchronising fails |
| `PassOutcomes.InstallPass` | internal/helm/controller/reconcile.go:237-296 | calls, storage, objects, finalizers and result of a pass that installs, for every outcome |
| `PassOutcomes.InstallRecords` | internal/helm/controller/reconcile.go:237-296 | and the status it stores |
| `PassOutcomes.UnprotectedPass` | internal/helm/controller/reconcile.go:298-306 | a pass that cannot protect a deployed release does nothing to it |
| `PassOutcomes.UpgradePass` | internal/helm/controller/reconcile.go:308-371 | a pass that upgrades, for every outcome: the upgrade is called once, forced exactly if the annotation says so; a needed rollback is called right after it, once, forced unless the annotation says otherwise, and leaves its storage and objects |
| `PassOutcomes.UpgradeRecords` | internal/helm/controller/reconcile.go:308-371 | and the status it stores |
| `PassOutcomes.ReconcilePass` | internal/helm/controller/reconcile.go:373-428 | calls, storage, objects and result of a pass that reconciles, for every outcome |
| `PassOutcomes.ReconcileRecords` | internal/helm/controller/reconcile.go:373-428 | and the status it stores |
| `PassOutcomes.NothingToDelete` | internal/helm/controller/reconcile.go:123-128 | a resource under deletion without uninstall finalizers is left alone |
| `PassOutcomes.UninstallFailurePass` | internal/helm/controller/reconcile.go:130-143 | a pass in which uninstalling fails |
| `PassOutcomes.UninstalledUnrecorded` | internal/helm/controller/reconcile.go:144-174 | a pass that uninstalls and cannot write that down |
| `PassOutcomes.StrippingPass` | internal/helm/controller/reconcile.go:144-214 | a pass that uninstalls with nothing left to wait for: what is recorded and which finalizers are left |
| `PassOutcomes.WaitingPass` | internal/helm/controller/reconcile.go:144-193 | a pass that uninstalls with something left to wait for, or cannot see what is |
| `PassOutcomes.CallsOnlyWhen` | internal/helm/controller/reconcile.go:79-429 | every call of Helm is made only in the branch it belongs to, a rollback only for an upgrade that needs it |
| `Convergence.ErrorFreeStatus` | internal/helm/controller/reconcile.go:217-429 | every error-free pass over a live resource stores a finalizer, Initialized and Deployed true, no failure condition, and the release it handled |
| `Convergence.ErrorFreePassSettles` | internal/helm/controller/reconcile.go:217-429 | under Helm's contract one error-free pass settles the resource: what is deployed is what the chart renders to, and the status says so |
| `Convergence.SettledPass` | internal/helm/controller/reconcile.go:217-429 | a fault-free pass over a settled resource only synchronises and reconciles, writes nothing to the resource, and leaves exactly the non-stale records |
| `Convergence.Converges` | internal/helm/controller/reconcile.go:217-429 | over every run that starts with an error-free pass: all later fault-free passes neither install nor upgrade, write nothing, and keep the deployed release |
| `Lapses.SyncFailureKeepsTime` | internal/helm/controller/reconcile.go:222-234 | a pass in which synchronising fails keeps the time since when the resource is irreconcilable |
| `Lapses.RecordedFailureResetsTime` | internal/helm/controller/reconcile.go:144-182 | a pass that records a failed reconciliation or a failed cleanup sets the time of the condition to its own, because the condition is removed and set again |
| `Lapses.CleanupTimeLost` | internal/helm/controller/reconcile.go:144-182 | a concrete input: the second cleanup failure in a row moves the time of ReleaseFailed |
| `Lapses.UnprotectedIff` | internal/helm/controller/reconcile.go:217-306 | exactly when a pass over a live resource leaves a deployed release without an uninstall finalizer |
| `Lapses.ReconcileTimeLost` | internal/helm/controller/reconcile.go:373-393 | a concrete input: the second reconciliation failure in a row moves the time of Irreconcilable |
| `Lapses.NoFinalizersIff` | internal/helm/controller/reconcile.go:217-306 | over every run: a live resource has no finalizers exactly if it was created without and no pass since has stored one |
| `Lapses.DeletionOrphansIff` | internal/helm/controller/reconcile.go:217-306 | over every run: a deletion leaves a deployed release behind at once exactly if one is in the storage, the resource was created without finalizers, and no pass since has stored one |
| `Lapses.PassLeavesNoRelease` | internal/helm/controller/reconcile.go:123-215 | a pass that removes the resource leaves no deployed release, if Helm keeps its promise on uninstalling |
| `Lapses.InstalledThenOrphaned` | internal/helm/controller/reconcile.go:263-268 | a concrete input: installed, finalizer rejected, deleted |
| `JsonPatch.CreateJSONMergePatch` | internal/helm/release/manager.go:364-390 | the loop keeps exactly the operations of the difference of what the library sees that are neither removals nor additions of null, in order, and gives no patch when none is left |
| `EditDistance.OnlyDropsIff` | vendor/gomodules.xyz/jsonpatch/v3/jsonpatch.go:340-398 | walking back through the edit distances of two lists of scalars gives only removals exactly when the expected list is a subsequence of the live one |
| `EditDistance.EditedContains` | vendor/gomodules.xyz/jsonpatch/v3/jsonpatch.go:340-398 | with the removals left out the edits give a list that contains the expected one in order |
| `EditDistance.EditedIsWoven` | vendor/gomodules.xyz/jsonpatch/v3/jsonpatch.go:340-398 | and no live element is dropped from it except where an expected one takes its place |
| `EditDistance.AdditionBeforeReplacement` | vendor/gomodules.xyz/jsonpatch/v3/jsonpatch.go:376-398 | a concrete input that tells an addition is preferred to a replacement |
| `EditDistance.RemovalBeforeAddition` | vendor/gomodules.xyz/jsonpatch/v3/jsonpatch.go:376-398 | a concrete input that tells a removal is preferred to an addition |
| `PatchApplication.ApplyEdits` | vendor/gomodules.xyz/jsonpatch/v3/jsonpatch.go:376-398 | the edits come from the back, so that leaving the removals out disturbs no earlier index: applied to the live list they give that list |
| `PatchApplication.AppendingAppliesIff` | internal/helm/release/manager.go:374-380 | appending elements without the null ones applies exactly when no null is followed by a value, and then appends the elements before the first null |
| `DiffMeaning.DifferenceTurnsIff` | vendor/gomodules.xyz/jsonpatch/v3/jsonpatch.go:204-300 | the library itself, for any two documents: its whole difference, removals included, applied to the first gives the second if and only if at no depth a live null of a list meets a value |
| `PatchApplication.PatchLaysOverIff` | internal/helm/release/manager.go:364-390 | for any live document and any expected one whose keys are all listed: the filtered difference applies and lays the expected document over the live one if and only if at no depth a live null of a list meets a value or an appended null is followed by one |
| `PatchApplication.AppliesIff` | internal/helm/release/manager.go:364-390 | unless a live null of a list meets a value, it applies at all exactly then |
| `PatchConvergence.OverlayCovers` | internal/helm/release/manager.go:364-390 | the result has every expected field with its expected value, apart from absent nulls, and the expected list of scalars in order |
| `PatchConvergence.OverlayKeepsRest` | internal/helm/release/manager.go:364-390 | every field and element only the live object has is kept, at every depth, and a scalar of a list unless another is put in its place |
| `PatchConvergence.NothingToSend` | internal/helm/release/manager.go:364-390 | for any live document and any expected one whose keys are all listed: the filtered difference is empty exactly when the live object has everything expected |
| `SeenDocuments.SeenIff` | vendor/gomodules.xyz/orderedmap/orderedmap.go:138-160 | the library sees all of a document exactly when no key at any depth needs an escape sequence, that of a quotation mark aside |
| `SeenDocuments.SentForLive` | vendor/gomodules.xyz/jsonpatch/v3/jsonpatch.go:204-231 | of the live object it makes no difference that the library does not see all: the same operations are sent |
| `SeenDocuments.ResultLaysOverIff` | internal/helm/release/manager.go:364-390 | for any two documents: the patch applies and lays what the library sees of the expected one over the live one if and only if at no depth a live null of a list meets a value or an appended null is followed by one |
| `SeenDocuments.ResultExistsIff` | internal/helm/release/manager.go:364-390 | for any two documents in which no live null of a list meets a value: the patch applies at all exactly then |
| `SeenDocuments.NothingSentIff` | internal/helm/release/manager.go:364-390 | for any two documents: nothing is sent exactly when the live object has everything the library sees of the expected one |
| `SeenDocuments.PatchConverges` | internal/helm/release/manager.go:364-390 | all together, under that condition: the patch applies, covers what is seen, keeps the rest, and recomputing it, in any key order, gives nothing to send |
| `SeenDocuments.ConvergesIff` | internal/helm/release/manager.go:364-390 | and only under that condition, for any two documents in which no live null of a list meets a value |
| `SeenDocuments.EscapedKeyIsNotSent` | vendor/gomodules.xyz/orderedmap/orderedmap.go:147-158 | a concrete input: a missing field whose key contains an ampersand is not sent |
| `SeenDocuments.SeenWholeIff` | vendor/gomodules.xyz/orderedmap/orderedmap.go:147-158 | a document is seen whole exactly if no key has a control character, a backslash, an angle bracket, an ampersand, or a line or paragraph separator; a field is seen exactly if its own key has none |
| `SeenDocuments.OrdinaryConverges` | internal/helm/release/manager.go:364-390 | for such documents in which no live null of a list meets a value: the patch applies, covers the expected document itself, keeps the rest and leaves nothing to send if and only if no null to be appended is followed by a value |
| `SeenDocuments.ChangedFieldIsSent` | internal/helm/release/manager.go:364-390 | a changed field with such a key is replaced |
| `SeenDocuments.ReplicasAreSent` | internal/helm/release/manager.go:364-390 | a concrete input: the field replicas |
| `PatchText.ReadsBackIff` | vendor/gomodules.xyz/jsonpatch/v3/jsonpatch.go:190-201 | the text of a path reads back as the path exactly when no element but the last is empty |
| `PatchText.ReadsWithoutEmpty` | vendor/gomodules.xyz/jsonpatch/v3/jsonpatch.go:190-201 | what is read otherwise: the path without the empty elements that another one follows |
| `PatchText.SentIsIntact` | vendor/gomodules.xyz/jsonpatch/v3/jsonpatch.go:190-201 | if no key that is seen of the expected document is empty or has a quotation mark, every operation sent is read as it is meant |
| `PatchText.OddPaths` | vendor/gomodules.xyz/jsonpatch/v3/jsonpatch.go:28-50 | concrete inputs: a field below an empty key is put beside that key, and a quotation mark in a path breaks the text of the operation |
| `ReleaseObjects.QuotedKeyIsMisread` | vendor/gomodules.xyz/jsonpatch/v3/jsonpatch.go:28-46 | a concrete changed field whose key is a quotation mark: what becomes of the object is not up to the patch |
| `PatchText.SlashesAndTildes` | vendor/gomodules.xyz/jsonpatch/v3/jsonpatch.go:190-201 | a concrete path with a slash and a tilde |
| `PatchConvergence.LiveNullShifts` | internal/helm/release/manager.go:374-380 | a concrete input: a live null that meets a value shifts the list, and the result lacks what is expected |
| `PatchConvergence.LiveNullStays` | internal/helm/release/manager.go:374-380 | a concrete input on which a live null that meets a value does no harm |
| `PatchConvergence.NullBeforeValueFails` | internal/helm/release/manager.go:374-380 | a concrete input: a null appended before a value gives a patch that cannot be applied |
| `PatchConvergence.ExtraScalarStays` | vendor/gomodules.xyz/jsonpatch/v3/jsonpatch.go:376-398 | a concrete input: a list of scalars with one element too many needs no patch |
| `ReleaseObjects.EnsureAll` | internal/helm/release/manager.go:272-315 | if all went well every object that was absent, or could be patched and has plain keys, has what is seen to be expected of it and lost nothing else |
| `ReleaseObjects.EnsureAllSucceeds` | internal/helm/release/manager.go:272-315 | without faults all goes well exactly when the server takes every patch; for objects with plain keys in which no live null of a list meets a value, exactly when in each no null that is to be appended to a list is followed by a value |
| `ReleaseObjects.EnsureAllPlain` | internal/helm/release/manager.go:272-315 | for documents with plain keys: after success everything that is expected of an object is there and everything else it had still is |
| `ReleaseObjects.EnsureSucceedsIff` | internal/helm/release/manager.go:277-314 | exactly when making sure of one object succeeds, and that nothing is changed if it does not |
| `ReleaseObjects.StopsAtFirstFailure` | internal/helm/release/manager.go:272-315 | the objects after the first for which it fails are not touched |
| `ReleaseObjects.EnsureAllAgain` | internal/helm/release/manager.go:272-315 | objects that are in place are left alone |
| `ReleaseObjects.ObjectStore.Ensure` | internal/helm/release/manager.go:277-314 | one object: created when absent, left alone when it has everything, patched otherwise, and the store for every combination of failures |
| `ReleaseObjects.ObjectStore.ReconcileRelease` | internal/helm/release/manager.go:272-315 | all objects in order up to the first error, for any documents; what success and success without faults mean, that others are untouched, and that a release already in place causes no write |
| `SettledObjects.ObjectsSettle` | internal/helm/controller/reconcile.go:373-428 | over every run that starts with an error-free pass: after one fault-free pass over the settled resource all objects that can be reconciled are in place, and no later pass writes an object |
| `ConfigMapPartition.GzipCMWriter.ExceedMaxLength` | internal/olm/operator/registry/fbcindex/configMapWriter.go:110-122 | the helper measures with the data, the stored text does not change |
| `ConfigMapPartition.GzipCMWriter.CloseCM` | internal/olm/operator/registry/fbcindex/configMapWriter.go:124-141 | the ConfigMap gets the closed stream and both buffers start anew |
| `ConfigMapPartition.GzipCMWriter.AddData` | internal/olm/operator/registry/fbcindex/configMapWriter.go:143-155 | both buffers get the data |
| `ConfigMapPartition.FBCRegistryPod.AddDocument` | internal/olm/operator/registry/fbcindex/fbc_registry_pod.go:456-489 | one document: measured with its separator, added to the open ConfigMap or put first in a new one, the two buffers agreeing afterwards |
| `ConfigMapPartition.FBCRegistryPod.GetConfigMaps` | internal/olm/operator/registry/fbcindex/fbc_registry_pod.go:440-499 | the ConfigMaps are those of the greedy partition, each holding the closed stream of its documents; their names are the base with the positions counted from one, and no two are the same |
| `PartitionProofs.PartitionConserves` | internal/olm/operator/registry/fbcindex/fbc_registry_pod.go:440-499 | the partitions hold exactly the trimmed non-empty documents in order, and none is empty when there is one |
| `PartitionProofs.SizeTest` | internal/olm/operator/registry/fbcindex/fbc_registry_pod.go:456-489 | the size test in terms of a mebibyte, the suffix, and the documents with separators before all but the first |
| `PartitionProofs.PartitionFits` | internal/olm/operator/registry/fbcindex/configMapWriter.go:106-173 | every partition of two or more documents fits a mebibyte, given the bound on what closing adds to consecutive documents |
| `PartitionProofs.PartitionOptimal` | internal/olm/operator/registry/fbcindex/fbc_registry_pod.go:440-499 | for a measure that does not grow when some of the given documents are dropped from either end of a part, no admissible consecutive split uses fewer ConfigMaps |
| `PartitionProofs.SplitOfJoined` | internal/olm/operator/registry/fbcindex/configMapWriter.go:143-163 | splitting one partition on the separator gives back its documents exactly when none contains it and none but the last ends with its first four characters |
| `PartitionProofs.RoundTripIff` | internal/olm/operator/registry/fbcindex/fbc_registry_pod.go:440-499 | decompressing all partitions in order and splitting them gives back exactly the documents if and only if every partition is separable in that sense |
| `PartitionProofs.PartitionRoundTrip` | internal/olm/operator/registry/fbcindex/fbc_registry_pod.go:412-499 | for every catalog text: decompressing the partitions in order and splitting them gives back exactly the trimmed non-empty documents the reader found in it |
| `PartitionProofs.CatalogRoundTrip` | vendor/github.com/operator-framework/operator-registry/alpha/declcfg/write.go:450-464 | from end to end: the blobs the catalog writer wrote behind marks come back without white space around them, the first with its mark |
| `ConfigMapPartition.FBCRegistryPod.PartitionedConfigMaps` | internal/olm/operator/registry/fbcindex/fbc_registry_pod.go:412-437 | the loop over the reader gives the ConfigMaps of the documents of the text, and nothing exactly when the text has a bad mark |
| `YamlReader.YAMLReader.ReadLine` | vendor/k8s.io/apimachinery/pkg/util/yaml/decoder.go:447-461 | the next line with a newline at its end; with the end of the text comes a last unterminated line if it fills the buffer, and from then on a newline alone |
| `YamlReader.YAMLReader.Read` | vendor/k8s.io/apimachinery/pkg/util/yaml/decoder.go:404-439 | the loop over the lines yields the next document, the end or a bad mark, as the specification |
| `YamlReader.TailIsDropped` | vendor/k8s.io/apimachinery/pkg/util/yaml/decoder.go:429-437 | a last line that comes together with the end is in no document |
| `YamlReader.DocumentsFailIff` | vendor/k8s.io/apimachinery/pkg/util/yaml/decoder.go:404-439 | reading fails exactly when some line has something other than a comment after the dashes |
| `YamlReader.BadMarkIff` | vendor/k8s.io/apimachinery/pkg/util/yaml/decoder.go:412-423 | what may follow the dashes |
| `YamlReader.CarriageReturnDropped` | vendor/k8s.io/apimachinery/pkg/util/yaml/decoder.go:447-461 | a carriage return before a newline does not belong to the line |
| `YamlReader.DocumentsOfText` | vendor/k8s.io/apimachinery/pkg/util/yaml/decoder.go:404-439 | every document of every text is non-empty and no line of it but the first starts with the dashes |
| `YamlReader.CatalogReadsBack` | vendor/k8s.io/apimachinery/pkg/util/yaml/decoder.go:404-439 | the documents of a catalog are the blobs that were written behind marks; the first keeps its mark |
| `YamlReader.LinesOfText` | vendor/k8s.io/apimachinery/pkg/util/yaml/decoder.go:447-461 | lines without newlines or carriage returns survive being written and read; what follows them without a newline is a line too, unless it fills the buffer and comes with the end |
| `Channel.GetChannelHead` | internal/olm/operator/registry/index_image.go:171-191 | some name nothing replaces, whatever the iteration order; an error exactly when there is none |
| `Channel.AcyclicHasHead` | internal/olm/operator/registry/index_image.go:182-190 | every non-empty channel without a cycle has a head |
| `Channel.HeadAfterUpgrade` | internal/olm/operator/registry/index_image.go:211-226 | the new bundle is the only head afterwards exactly when it is not the old head and nothing replaces it |
| `Channel.HeadsAfterUpgrade` | internal/olm/operator/registry/index_image.go:211-226 | with several heads only the chosen one is replaced |
| `Channel.AcyclicAfterUpgrade` | internal/olm/operator/registry/index_image.go:211-226 | the upgrade keeps the channel acyclic exactly when the head does not already lead to the new name |
| `Channel.UpgradesKeepSingleHead` | internal/olm/operator/registry/index_image.go:211-226 | any number of upgrades with fresh names keeps the channel acyclic with the newest bundle its only head |
| `Channel.HandleTraditionalUpgrade` | internal/olm/operator/registry/index_image.go:212-226 | the first matching channel, and no other, gets the entry; failure exactly when that channel has no head |
| `Channel.UpgradeRunGives` | internal/olm/operator/registry/index_image.go:211-226 | any number of calls with fresh names on a channel with one head, whichever head each call meets, gives the channel of the repeated upgrade and changes nothing else |
| `Channel.UpgradeChanges` | internal/olm/operator/registry/index_image.go:211-226 | what an upgrade changes, in terms of the entries: the first channel with the name and the package gets an entry that replaces a name nothing replaces |
| `Channel.UpgradeFailsIff` | internal/olm/operator/registry/index_image.go:211-226 | and when it fails |
| `Channel.NewChannelIs` | internal/olm/operator/registry/index_image.go:336-369 | the upgrade of an index without the channel |
| `Channel.OldChannelIs` | internal/olm/operator/registry/index_image.go:302-362 | the upgrade of an index with the channel: the outcomes in the order in which they are looked for |
| `Channel.UpgradeFBC` | internal/olm/operator/registry/index_image.go:287-383 | the upgrade of an index that may have the channel, with every outcome: no bundle, bundle there, no head, position out of range, one entry, or a new chain |
| `Channel.OldChannelUpgrade` | internal/olm/operator/registry/index_image.go:302-362 | upgrading a channel of the index succeeds only for the first channel, and leaves it with the newest entry alone |
| `Channel.OldEntryDropped` | internal/olm/operator/registry/index_image.go:352-362 | a concrete input: a channel of one entry loses it |
| `Channel.SecondChannelFails` | internal/olm/operator/registry/index_image.go:352-362 | a concrete input: the same channel in the second place of the index is out of range |
| `Channel.NewChannelEntries` | internal/olm/operator/registry/index_image.go:336-358 | the loop builds the chain of the bundles |
| `Channel.ChainHead` | internal/olm/operator/registry/index_image.go:336-358 | the last bundle is the only head of the chain exactly when it occurs once |
| `Channel.ChainAcyclic` | internal/olm/operator/registry/index_image.go:336-358 | the chain is acyclic exactly when no bundle occurs twice |
| `CatalogUpdate.Catalog.UpdateCatalog` | internal/olm/operator/registry/index_image.go:387-502 | success, final state and every state in between of an update, for every combination of failures, a link stored but reported as failed included, and the channel regenerated from the annotation if it lists bundles |
| `CatalogUpdate.Catalog.DeleteRegistryPod` | internal/olm/operator/registry/index_image.go:641-680 | the previous pod must be found, is deleted, and its removal waited for |
| `CatalogUpdate.UpdateStaysServed` | internal/olm/operator/registry/index_image.go:489-499 | whatever fails, at every state in between the catalog source names a pod that exists |
| `CatalogUpdate.UpdateSucceedsIff` | internal/olm/operator/registry/index_image.go:387-502 | exactly when an update succeeds |
| `CatalogUpdate.UpdateLeaves` | internal/olm/operator/registry/index_image.go:387-502 | what an update leaves behind, successful or not |
| `CatalogUpdate.SuccessfulUpdate` | internal/olm/operator/registry/index_image.go:387-502 | a successful update ends with the new pod, linked, and without the pod named before |
| `CatalogUpdate.PreviousPodMustGo` | internal/olm/operator/registry/index_image.go:495-499 | an update fails if the pod named before cannot be found, read or deleted, or its removal is not seen |
| `CatalogUpdate.OnlyNewestPod` | internal/olm/operator/registry/index_image.go:387-502 | over any successful run with pod names of their own: of the pods named on the way only the newest is left |
| `CatalogUpdate.ServedAfterSuccessIff` | internal/olm/operator/registry/index_image.go:489-499 | without that assumption at the start: a successful update ends served exactly when the new pod is not named like the previous one |
| `CatalogUpdate.SameNameUnserved` | internal/olm/operator/registry/index_image.go:489-499 | a concrete input: a pod that was gone and is named like the new one |
| `CatalogUpdate.AlwaysServed` | internal/olm/operator/registry/index_image.go:387-502 | over any sequence of updates with any failures the catalog is served at every state |
| `CatalogUpdate.InjectedInOrder` | internal/olm/operator/registry/index_image.go:476-477 | after successful updates the annotation lists the injected bundles in order |
| `CatalogUpdate.RegeneratedChannelIsChain` | internal/olm/operator/registry/index_image.go:336-369 | the next update upgrades a channel of the index if no bundle was ever injected; otherwise the channel it regenerates is the acyclic chain of all of them whose only head is the newest |
| `Scorecard.SelectTests` | internal/scorecard/scorecard.go:162-171 | the selected tests in order |
| `ScorecardProofs.StageReports` | internal/scorecard/scorecard.go:81-92 | a stage reports for each test whose labels are selected, in order, what it reports when run with the default path in place of an empty one |
| `Scorecard.SetTestDefaults` | internal/scorecard/scorecard.go:117-124 | an empty mount path, and nothing else, is filled in, in place |
| `Scorecard.RunStageSequential` | internal/scorecard/scorecard.go:138-142 | the results are sent in order and no send blocks |
| `ScorecardProofs.RunStage` | internal/scorecard/scorecard.go:80-98 | a stage run sequentially puts out one result for each selected test in order, and nothing when none is selected |
| `ScorecardProofs.RunSequentially` | internal/scorecard/scorecard.go:80-98 | the reference: all stages one after the other |
| `ScorecardProofs.ExecutionValid` | internal/scorecard/scorecard.go:80-136 | the invariant of every interleaving of the main goroutine and the test goroutines |
| `ScorecardProofs.SendNeverBlocks` | internal/scorecard/scorecard.go:87-92 | in every interleaving a goroutine that is to send finds the channel open and with room |
| `ScorecardProofs.ClosedAfterAllSends` | internal/scorecard/scorecard.go:126-136 | in every interleaving the channel is closed only when all goroutines have ended and all results are in it |
| `ScorecardProofs.NoDeadlock` | internal/scorecard/scorecard.go:80-136 | in every interleaving something can be done until the run is over |
| `ScorecardProofs.ExecutionsEnd` | internal/scorecard/scorecard.go:80-136 | every interleaving ends within a bound on its steps |
| `ScorecardProofs.RunRefinesSequential` | internal/scorecard/scorecard.go:80-98 | in every interleaving the items are, stage by stage and never mixed, a permutation of what the sequential run puts out, and exactly that when no stage is parallel |
| `RelatedImages.RelatedImageCollector.Collect` | internal/cmd/operator-sdk/generate/internal/relatedimages.go:86-112 | the list grows by the image unless its key was seen; the two indexes stay equal to the ordered filters of the list, the seen set to its keys |
| `RelatedImages.RelatedImageCollector.CollectFromEnvironment` | internal/cmd/operator-sdk/generate/internal/relatedimages.go:71-84 | the prefixed variables are collected in order up to the first with a valueFrom |
| `RelatedImages.RelatedImageCollector.CollectedRelatedImages` | internal/cmd/operator-sdk/generate/internal/relatedimages.go:114-146 | the list put out, computed from the filters of the list instead of the indexes |
| `RelatedImages.FindRelatedImages` | internal/cmd/operator-sdk/generate/internal/relatedimages.go:29-54 | the search over all containers and init containers of all deployments |
| `RelatedImagesProofs.CollectedRecordsEntries` | internal/cmd/operator-sdk/generate/internal/relatedimages.go:71-84 | it fails exactly when a prefixed variable takes its value from elsewhere, and otherwise records the entries of the whole environment |
| `RelatedImagesProofs.RecordsAllIff` | internal/cmd/operator-sdk/generate/internal/relatedimages.go:86-92 | every (name, reference) pair is recorded exactly when the joined keys do not collide |
| `RelatedImagesProofs.CollisionLosesImage` | internal/cmd/operator-sdk/generate/internal/relatedimages.go:86-92 | a concrete input on which an image is lost |
| `RelatedImagesProofs.ListsEachReferenceOnce` | internal/cmd/operator-sdk/generate/internal/relatedimages.go:114-146 | the output lists each recorded reference exactly once in the order of first occurrence |
| `RelatedImagesProofs.ListedName` | internal/cmd/operator-sdk/generate/internal/relatedimages.go:117-142 | the name listed: empty exactly for a reference under several names or an unshared empty name, qualified by the container for a name of several references |
| `RelatedImagesProofs.FoundImages` | internal/cmd/operator-sdk/generate/internal/relatedimages.go:29-54 | the search as a whole: when it fails, that it lists nothing twice and nothing else, and all references when keys do not collide |
| `RelatedImagesProofs.FormatNameIs` | internal/cmd/operator-sdk/generate/internal/relatedimages.go:149-151 | the name of an image, character by character |
| `RelatedImagesProofs.AllVarsMember` | internal/cmd/operator-sdk/generate/internal/relatedimages.go:29-69 | which variables are looked at, and under which container name |
| `RelatedImagesProofs.ListedReferences` | internal/cmd/operator-sdk/generate/internal/relatedimages.go:29-54 | the search in terms of the variables: when it fails, and which references it lists |
| `RegistryData.MakeObjectFileName` | internal/olm/operator/registry/configmap/configmap.go:114-122 | hash, lower-case non-empty names, and suffix, joined by dots |
| `RegistryData.MakeBundleBinaryData` | internal/olm/operator/registry/configmap/configmap.go:90-99 | the objects of a bundle under their file keys, later ones overwriting |
| `RegistryProofs.FileNameIs` | internal/olm/operator/registry/configmap/configmap.go:114-122 | the file key of an object, spelled out |
| `RegistryProofs.BundleStores` | internal/olm/operator/registry/configmap/configmap.go:90-99 | a bundle can be stored exactly if all its objects can be marshalled, and then holds each of them under its key and nothing else |
| `RegistryProofs.DesiredIs` | internal/olm/operator/registry/configmap/configmap.go:51-78 | when the registry can be made and what it then holds under which name |
| `RegistryProofs.DesiredFails` | internal/olm/operator/registry/configmap/configmap.go:51-78 | which error is given when it cannot be made |
| `RegistryProofs.FormattedNameIs` | internal/util/k8sutil/k8sutil.go:93-106 | a name that is no DNS label becomes its words of letters and digits, joined by dashes whatever stands before, between and after them, in lower case |
| `RegistryData.MakeConfigMapsForPackageManifests` | internal/olm/operator/registry/configmap/configmap.go:51-78 | the desired ConfigMaps, or the first error: no version, or an object that cannot be marshalled |
| `RegistryData.NewConfigMaps` | internal/olm/operator/registry/configmap/registry.go:139-153 | one ConfigMap for each desired one, in any order |
| `RegistryData.DeleteMatched` | internal/olm/operator/registry/configmap/registry.go:99-104 | deleting matched keys from the desired data until one is missing there |
| `RegistryData.CompareConfigMaps` | internal/olm/operator/registry/configmap/registry.go:87-110 | the loop that deletes keys from the map of maps decides whether every ConfigMap is wanted with exactly its keys |
| `RegistryData.IsRegistryDataStale` | internal/olm/operator/registry/configmap/registry.go:72-111 | listing error, count check, error in making the desired data, comparison |
| `RegistryProofs.NotStaleIff` | internal/olm/operator/registry/configmap/registry.go:72-111 | not stale exactly when no two ConfigMaps are desired under one name and both sides have the same names and the same file keys |
| `RegistryProofs.NotStaleMeansSameContents` | internal/olm/operator/registry/configmap/configmap.go:101-130 | with keys that start with a dot-free hash that tells the contents apart: not stale exactly when, besides, the contents are the same |
| `RegistryProofs.DesiredWellKeyed` | internal/olm/operator/registry/configmap/configmap.go:101-122 | everything the registry is made of has such keys |
| `RegistryProofs.FreshRegistryIff` | internal/olm/operator/registry/configmap/registry.go:113-153 | a registry just created is up to date exactly when no two ConfigMaps are desired under one name |
| `RegistryProofs.NamesDistinctIff` | internal/olm/operator/registry/configmap/configmap.go:57-71 | which is so exactly when the versions look different in a name and none looks like "package" |
| `RegistryProofs.CollidingVersionsAlwaysStale` | internal/util/k8sutil/k8sutil.go:95-106 | two concrete versions for which the fresh registry is stale |
| `InstallModes.InstallMode.Set` | internal/olm/operator/install_mode.go:37-50 | the receiver after parsing, as a function of its value before and the string, and the verdict of validation |
| `InstallModes.ValidateTargets` | internal/olm/operator/install_mode.go:91-97 | accepted exactly when every namespace is a DNS label; otherwise an offending one is named |
| `InstallModes.AcceptedIff` | internal/olm/operator/install_mode.go:66-98 | exactly which values are valid |
| `InstallModes.VerdictOf` | internal/olm/operator/install_mode.go:66-98 | what is said of the others |
| `InstallModes.ParsedIs` | internal/olm/operator/install_mode.go:37-50 | what is parsed from a kind and a list of namespaces |
| `InstallModes.ParsePrinted` | internal/olm/operator/install_mode.go:37-64 | parsing what was printed into a value adds exactly the printed namespaces |
| `InstallModes.SetPrintSet` | internal/olm/operator/install_mode.go:37-98 | round trip for every accepted string |
| `InstallModes.ReachableModes` | internal/olm/operator/install_mode.go:37-98 | the values an accepted string can give are exactly the valid ones with sorted namespaces |
| `InstallModes.SetTwice` | internal/olm/operator/install_mode.go:37-50 | giving the flag twice with any two accepted strings: the second kind, the namespaces of both if it takes any, and accepted exactly unless it is the kind for a single namespace and the first string had namespaces |
| `Definitions.CRDLeqIsPreorder` | internal/generate/clusterserviceversion/bases/definitions/definitions.go:142-152 | the comparison of descriptions is a total preorder, given that the comparison of versions is |
| `Definitions.GroupOfName` | internal/generate/clusterserviceversion/bases/definitions/crd.go:37-55 | the group is read back from a name built from a plural without a dot |
| `Definitions.FillBuckets` | internal/generate/clusterserviceversion/bases/definitions/definitions.go:106-111 | every description is in the bucket of its order as often as it is generated, in any iteration order, and no bucket is empty |
| `Definitions.AppendRetained` | internal/generate/clusterserviceversion/bases/definitions/definitions.go:119-125 | each bucket is the generated one followed by the description retained at that index |
| `Definitions.CSV.UpdateDefinitionsByKey` | internal/generate/clusterserviceversion/bases/definitions/definitions.go:105-139 | the new list is the full buckets by ascending order |
| `DefinitionsProofs.UpdateConserves` | internal/generate/clusterserviceversion/bases/definitions/definitions.go:105-139 | every description is in the new list as often as it is generated plus as often as it is retained |
| `DefinitionsProofs.GeneratedInOrder` | internal/generate/clusterserviceversion/bases/definitions/definitions.go:113-138 | the generated ones appear by ascending order and sorted within the same order |
| `DefinitionsProofs.GeneratedPairInOrder` | internal/generate/clusterserviceversion/bases/definitions/definitions.go:113-152 | of two generated descriptions which comes first: by order, name, kind, and newest version |
| `DefinitionsProofs.RetainsIff` | internal/generate/clusterserviceversion/bases/definitions/definitions.go:119-125 | which descriptions are retained |
| `DefinitionsProofs.RetainedInPlace` | internal/generate/clusterserviceversion/bases/definitions/definitions.go:119-138 | each retained one follows exactly the generated ones of orders up to its index, and the retained ones keep their relative order |
| `Descriptors.Bucketing.AddFields` | internal/generate/clusterserviceversion/bases/definitions/crd.go:139-147 | the included fields of one type go to the end of their buckets and their orders to the list of orders |
| `Descriptors.PutOutBuckets` | internal/generate/clusterserviceversion/bases/definitions/crd.go:150-157 | with repeated orders and deletion of buckets: exactly the fields of the orders seen, by order and then path |
| `Descriptors.GetTypedDescriptors` | internal/generate/clusterserviceversion/bases/definitions/crd.go:136-164 | the result lists a permutation of the included descriptors by order and then path |
| `Descriptors.ListingIsDeterministic` | internal/generate/clusterserviceversion/bases/definitions/crd.go:136-164 | for every iteration order these are the same fields, and without ties the result does not depend on it |
| `Descriptors.ListedInOrder` | internal/generate/clusterserviceversion/bases/definitions/crd.go:136-164 | the order of a listing in terms of the fields |
| `TextMeaning.TrimSpaceDrops` | internal/olm/operator/registry/fbcindex/fbc_registry_pod.go:451-454 | trimming takes away the characters of white space at both ends, and nothing else |
| `TextMeaning.ToLowerAt` | internal/cmd/operator-sdk/generate/internal/relatedimages.go:149-151 | lower-casing, letter by letter |
| `TextMeaning.LabelIff` | internal/olm/operator/install_mode.go:91-97 | which strings are DNS labels |
| `TextMeaning.StrLeqIff` | internal/generate/clusterserviceversion/bases/definitions/definitions.go:142-152 | strings are compared lexicographically |

## Left out

- ReconcilerRuns.InvAlways: users add and remove no finalizers themselves, and a resource does not change between the read and the writes of one pass; a conflicting write is a rejected one.
- ReconcilerRuns.NothingOrphaned: says nothing of files with a resource policy, whatever it is; the code does not wait for them.
- Convergence.Converges: assumes `HelmContract` for the first pass and that the custom resource and the storage are not changed by others in between.
- SeenDocuments.ConvergesIff: where a live null of a list meets a value, what the patched document covers is shown by example only (`LiveNullShifts`, `LiveNullStays`); strategic merge patches are not modelled.
- SeenDocuments.SeenIff: a key with an escape sequence counts as not seen even when another key of its object is written like it; numbers are given by the text of the floating point number the library reads, so integers too large for one are not told apart.
- ReleaseObjects.ObjectStore.ReconcileRelease: objects are named by one string; the server stores a patched object as patched, without defaulting, and refuses a patch exactly when an operation cannot be applied. What becomes of a patch that is not read as it is meant, or is malformed, is an arbitrary outcome.
- PartitionProofs.PartitionOptimal: compares with consecutive splits in order only, under the assumed monotone measure.
- PartitionProofs.CatalogRoundTrip: blobs are lists of lines; that the YAML writer puts no line that starts with three dashes into a blob is its hypothesis.
- YamlReader.YAMLReader.ReadLine: which unterminated last lines fill the buffer of the line reader, those of a multiple of 4096 bytes, is a parameter; catalogs end with a newline, so that none is dropped (`LinesOfText`).
- ConfigMapPartition.FBCRegistryPod.GetConfigMaps: does not model errors of writing to a buffer in memory, nor the reuse of one writer for several calls, where the last stored buffer is not copied.
- Channel.HandleTraditionalUpgrade: rendering and validating the index and the bundle, and appending the bundle blob, are not modelled; likewise for Channel.UpgradeFBC, which leaves out the bundle and package blobs.
- CatalogUpdate.Catalog.UpdateCatalog: failures before the pod is created are one outcome; add modes, secrets and the image field are not modelled, the two readers of the injected-bundles annotation agree, and the regenerated channel is that of an index without it.
- ScorecardProofs.RunRefinesSequential: what a test reports is a function of the test, and Initialize, Cleanup and the context error are not modelled.
- RelatedImages.FindRelatedImages: `ToLower` is that of ASCII letters; appending init containers never overwrites the slice of containers.
- RegistryData.IsRegistryDataStale: on-cluster ConfigMaps have distinct names in the theorems, as Kubernetes ensures; the method does not assume it.
- Definitions.CSV.UpdateDefinitionsByKey: API service descriptions are not modelled, and the fields of a description that play no part in ordering are one string.
- Descriptors.GetTypedDescriptors: how a field's markers give its order, and which fields are included, is input.
- RbacConservation.RoleConserved: names are unique among the collected objects of one kind; without that the last object of a name stands for all of them in the lookup maps.
- RbacMeaning.PermissionsMeanManifests: kinds and groups are compared as datatypes; the rules of a role are opaque to the model apart from equality.
- InstallModes.InstallMode.Set: the check against the install modes a CSV supports is left out.
- The package blobs of generated catalogs, which are left empty when the package exists.
- Kubernetes clients, retries, polling, contexts, events, logging, YAML and JSON encoding.
- The internals of gzip, SHA-256, and Helm rendering and storage.
- Deployments, custom resource definitions, samples and webhooks of a CSV, including the grouping of conversion webhooks by port.
- The release name lookup of the manager factory and the parsing of override strings.
- The walk over Go syntax trees that finds markers and types.
- Command line parsing, scaffolding plugins, templates, tar handling, pod specifications, counters and formatters, which would only add easy members.
