# Suffiks, modelled in Dafny

Suffiks is a Kubernetes operator whose extensions add fields to a kind's schema, take part in every
synchronisation of an object and patch the workload made for it. This project models its six
difficult parts and proves what they keep over all inputs, runs and schedules. Check it with
`dafny verify dfyconfig.toml`.

| part | modules |
|---|---|
| schema generator | `SchemaTree`, `SpecGen`, `SpecGenLaws`, `SpecGenRuns`, `SpecGenRebuilds`, `SpecGenFailures` |
| extension manager and dispatch of keys | `ExtensionManager` |
| reconciler of applications | `Reconciling`, `ReconcilingSafety`, `ReconcilingRuns`, `Scripts`, `LostEdits`, `ExtensionRecords`, `PassEndings`, `Reconciler` |
| fan-out over extensions | `FanOut` |
| merge patches, changesets, defaulting | `MergePatch`, `DocPaths`, `Interleavings`, `Changesets`, `ChangesetRuns`, `PatchSchedules` |
| WASI stream and permissions | `WasiStream`, `Permissions` |
| documentation | `DocTree`, `DocTreeLaws`, `DocTreeFields`, `DocTreeEvents`, `DocTreeUnhandled`, `Docs`, `DocsFiling`, `DocsNames`, `DocsSlugs`, `DocsCatalog` |

**How the form follows the code.** What the code changes in place is a class whose methods are proved
against functions of the old state (`Generator`, `ExtensionManager`, `ReconcilerWrapper`, `Changeset`,
`Converter`, `Category`, `Group`, `Pages`, `Controller`), and loops are loops; iteration over a Go map
picks any key that is left. The laws are then proved about those functions. Goroutines and channels are
state machines whose runs are all interleavings. The reconciler is both: `Reconciling` is a machine in
which each call of a pass may fail, other actors may edit the cluster between any two calls and the
process may die; a call of the extensions is a whole run of the fan-out. `Reconciler.ReconcilerWrapper`
is the program, and its `Reconcile` is proved to make exactly the moves of one pass of that machine and
to return an error exactly when the last of them ended the pass with one.

## What the proofs found

Each of these is a theorem here, usually as the exact condition under which the good case holds.

- **Schema.** A merge fails exactly when a non-object property of the extension lands on an existing
  name. Leaf fields are the disjoint union of base and applied schemas as long as no extension puts
  something new below a property that is not an object; any other successful `Add` breaks the union, and
  merging only objects onto objects is enough to avoid it. Adding and removing an extension always
  restores the leaves; it restores the whole tree exactly when no root object was empty before and every
  object the extension introduced was a root object. An empty root object of the base does not survive
  any removal.
- **Failed adds.** A failed `Add` never changes an existing path. It leaves the tree as it was in every
  order of iteration exactly when everything new the extension brings is at or below a clashing leaf. A
  leaf that stays behind blocks its own extension: whatever is added, re-added or removed afterwards,
  every retry fails on it, and removing the extension does nothing.
- **Rebuilds.** Adding extensions to the base succeeds in every order exactly when no leaf of one lands
  on a path of the base or of another. A schema reached by adds, re-adds and removes has the fields of
  its rebuilds in every order exactly when, besides, no extension has anything new below a leaf of the
  base. It need not be rebuildable: pruning can make room for a leaf that clashes with an extension
  still applied.
- **Reconciler: errors.** A pass returns an error exactly when the call it stopped at failed or its write
  was refused. Four things are no error: an object that is not found, a failed deletion of a single
  extension, a Deployment that cannot be read for the status, and a finalizer to be removed from an
  object that is gone. Without an error the pass has achieved what it is for: the finalizer is on, or
  off and the workload gone, or the recorded hash is that of the object as fetched.
- **Reconciler: a lost edit.** Going back to a spec whose hash is recorded, after another one has been
  synced and before its status is written, is lost for good: the hash matches, every later pass goes
  quiet, and the Deployment stays the other one's. The recorded hash is that of what the Deployment was
  made from exactly when the last completed CreateOrUpdate was followed by its status write or found its
  hash recorded; so with a matching hash this decides whether the workload is the present one.
- **Reconciler: the record of extensions.** While the object stays, a name leaves the record only when
  its Delete returned no error or it is no longer registered. Deletion of the object does not ask the
  record: it calls the extensions that always run or have a key in the spec as fetched, takes the
  finalizer off, and the record goes with the object. So an extension whose key is removed shortly
  before the deletion is never told, though it is recorded and registered. The recorded names that are
  registered have all been deleted exactly when all of them apply to the spec the pass fetched.
- **Reconciler: failed single deletions.** When deleting a single stale extension fails, the log promises
  to try again later. The hash is written all the same, and left alone the controller goes quiet with the
  name recorded. A later pass comes to delete a recorded name exactly when it goes into the extension
  sync (the hash differs, or it finds no Deployment, or no Service for the port), that sync succeeds, and
  the extension was not among those it ran.
- **Reconciler: the Service.** A Service made before the port went away stays until the object is deleted
  or somebody else removes it: a pass on an object without a port ends with a Service exactly when it
  began with one. In `CreateOrUpdate` the outer `err` is still nil when `update` is computed for the
  Service, so the Service is always written by `Update`; it is modelled as a write that creates what is
  absent, except that an update of a Service which was read and has gone is refused.
- **Merge patches.** Folding patches into one and applying it once equals applying them in turn exactly
  when the list never puts an object in place outright (a patch with an object after one that set the
  same place to null or to something that is not an object). On every other list no single patch has
  the effect of the whole list.
- **Changeset.** `Apply` uses labels, annotations and the merge patch; environment, `envFrom` sources
  and containers are collected but reach no object. The patched document is decoded onto the object it
  was made from, so what a patch deletes comes back, except below a field that decodes itself (the spec
  of an Application): the object is the patched document exactly when the patch deletes nothing else.
  Labels and annotations are independent of the schedule exactly when extensions that write one key end
  on the same value for it, and the folded patch, with one patch an extension, exactly when any two
  patches say the same wherever they do not both hold objects.
- **Fan-out.** The unlocked append can lose errors but never all of them; every schedule reports every
  failing extension exactly when at most one fails.
- **WASI stream.** At most one message is lost, and only a module that sends nothing delivers everything
  under every interleaving; every module whose call fails has an interleaving in which that ends as an
  ordinary end of stream. A consumer that walks away with two or more messages outstanding leaves the
  producer blocked for good.
- **Permissions.** The joined key is unambiguous as soon as one side follows the field patterns; without
  them two requests can share a key. The pattern of the group rules out the core API group.
- **Documentation.** A node of an unhandled kind pops the cursor without having pushed. The walk converts
  what is left when such nodes are left out exactly when no handled node comes after one in document
  order, provided that no empty Text comes after one: those may leave no trace or stand in for each
  other. Otherwise, at the top of a document it cuts off the rest; deeper down it lets later siblings
  escape from their parent.
- **Manager.** An extension whose controller cannot be set up is not registered, yet its schema stays
  published.

## Assumptions

- The API server offers get, create, update, delete, finalizers and a status write; a write of the
  object is refused unless based on its present resource version. Passes for one object do not overlap.
- Nobody but the controller takes its finalizer off an object, writes the object's status, or writes
  what its Deployment and Service were made from; others may scale or delete both.
- The hash of spec and labels is injective.
- Reads and writes of a shared slice header are single steps; appends under a lock are single steps.
- The markdown walk is depth first: enter, children, leave. The trees for which a law of the walk is
  proved are those it names (`DocTreeLaws.WellFormed`, `DocTreeEvents.Sound`); that the parser builds
  only such trees is not claimed. They may hold empty Texts, as it makes them of line breaks.
- Combining two merge patches keeps nulls and lets the later one win field by field; applying one is
  section 2 of RFC 7396; decoding a document keeps the fields absent from it and replaces lists whole.

## Model

| member | source | states |
|---|---|---|
| SchemaTree.LeafByPrefixes | internal/specgen/generate_spec.go:92-120 | a leaf field, as merging and removing reach it, is a present non-object whose proper prefixes are all objects |
| SchemaTree.UncoveredIsObjectPath | internal/specgen/generate_spec.go:143-162 | the paths of a tree that no leaf covers are exactly its objects reached through objects |
| SpecGen.AddProperties | internal/specgen/generate_spec.go:92-120 | for every iteration order: fails exactly on a clash, otherwise yields the merged tree; what a failure leaves is what was visited before the clash, at every level |
| SpecGen.RemoveProperties | internal/specgen/generate_spec.go:143-162 | for every iteration order: the tree without what the extension's leaves cover, nested empty objects staying |
| SpecGen.PruneRoot | internal/specgen/generate_spec.go:164-172 | drops exactly the root properties that are objects without properties |
| SpecGenLaws.ClashIsLeafOnExistingName | internal/specgen/generate_spec.go:92-112 | Add fails exactly when some leaf of the extension lands on an existing path, whatever the iteration order |
| SpecGenLaws.MergeAt | internal/specgen/generate_spec.go:92-120 | after a successful merge every existing path keeps its label and all other paths are the extension's |
| SpecGenLaws.FailureAt | internal/specgen/generate_spec.go:82-90 | a failed Add changes no existing path and adds only paths of the extension |
| SpecGenFailures.FailureLeavesNothingIff | internal/specgen/generate_spec.go:82-112 | a failed Add leaves the tree the same in every order if and only if all it brings that is new is at or below a clashing leaf |
| SpecGenFailures.LeaveBehind | internal/specgen/generate_spec.go:82-112 | whatever is new and not blocked so is left behind in some order |
| SpecGenFailures.FailureLeavesFieldBehind | internal/specgen/generate_spec.go:82-90 | the smallest schema and extension for which a failed Add leaves a field |
| SpecGenFailures.FailureSticks | internal/specgen/generate_spec.go:70-90 | a failed Add that leaves one of its leaves behind is stuck on it |
| SpecGenFailures.FailureSticksInUnion | internal/specgen/generate_spec.go:70-90 | the same where leaf fields are the disjoint union of their sources, for any leaf outside theirs |
| SpecGenFailures.LeftoverBlocksForever | internal/specgen/generate_spec.go:70-141 | from there, in every run, each retry of that extension fails on its own leftover and removing it does nothing |
| SpecGenLaws.TrimAt | internal/specgen/generate_spec.go:143-162 | removal deletes exactly what the extension's leaves cover |
| SpecGenLaws.WithoutAt | internal/specgen/generate_spec.go:143-172 | removal with pruning, path by path: gone are the covered paths and root objects that kept no property |
| SpecGenLaws.RoundTripAt | internal/specgen/generate_spec.go:70-172 | what add followed by remove leaves at every path |
| SpecGenLaws.AddRemoveRestoresLeaves | internal/specgen/generate_spec.go:70-172 | adding any extension and removing it restores the leaf fields and their labels exactly |
| SpecGenLaws.AddRemoveRestoresTreeIff | internal/specgen/generate_spec.go:70-172 | the whole tree is restored if and only if no root object was empty and every new object is a root object |
| SpecGenLaws.EmptyBaseObjectIsPruned | internal/specgen/generate_spec.go:164-170 | an empty object of the base is lost when an unrelated extension comes and goes |
| SpecGenRuns.Generator.Add | internal/specgen/generate_spec.go:70-90 | succeeds exactly when the schema decodes and no leaf of it lands on a path that remains once the name's old schema is taken out; the tree path by path and the applied names after success, after a clash and after a schema that does not decode, the old one being taken out in each case |
| SpecGenRuns.Generator.Remove | internal/specgen/generate_spec.go:122-141 | the name is no longer applied, all others are, and the tree is path by path what is left without its schema; unknown names change nothing |
| SpecGenRuns.StepHasOutcome | internal/specgen/generate_spec.go:70-141 | every operation of a run comes to that, read off path by path |
| SpecGenRuns.ObjectsOntoObjectsSuffices | internal/specgen/generate_spec.go:103-112 | merging objects only onto objects puts nothing new below a leaf |
| SpecGenRuns.UnionKeptByMergeIff | internal/specgen/generate_spec.go:70-120 | a successful Add keeps the disjoint union of leaf fields if and only if it puts nothing new below a leaf |
| SpecGenRuns.RemoveKeepsOthers | internal/specgen/generate_spec.go:122-172 | removing one extension leaves every field of the base and of all others as it is |
| SpecGenRuns.LeafUnionInEveryCleanRun | internal/specgen/generate_spec.go:70-172 | in every run of clean adds, re-adds and removes the leaf fields are the disjoint union of base and applied schemas |
| SpecGenRebuilds.EveryOrderBuildsIff | internal/specgen/generate_spec.go:70-120 | adding the extensions to the base succeeds in every order if and only if no leaf of one lands on a path of the base or of another |
| SpecGenRebuilds.RebuildAgreesIff | internal/specgen/generate_spec.go:70-172 | the schema at the end of a clean run has the fields of the rebuild in every order, all of which succeed, if and only if no leaf of an applied extension lands on a path of the base or of another and none has anything new below a leaf of the base |
| SpecGenRebuilds.RunsAgree | internal/specgen/generate_spec.go:70-172 | two clean runs that end with the same extensions applied end with the same fields |
| SpecGenRebuilds.PrunedObjectBlocksRebuild | internal/specgen/generate_spec.go:164-170 | a clean run whose result cannot be rebuilt, because pruning made room for a leaf |
| SpecGenRuns.BaseIntactInEveryRun | internal/specgen/generate_spec.go:70-172 | in every run, failed adds included, each non-object property of the base and its ancestors stay present with their labels |
| ExtensionManager.ExtensionManager.AddTo | internal/extension/ext_manager.go:103-183 | one target: when it succeeds, what it does to the generators, and that a failing setup leaves the schema unregistered |
| ExtensionManager.ExtensionManager.Add | internal/extension/ext_manager.go:93-101 | succeeds exactly when every target takes the extension in its turn; where a failure stops and what it leaves |
| ExtensionManager.ExtensionManager.Remove | internal/extension/ext_manager.go:185-202 | removes from each target in turn up to the first unknown one, unregistering only when all are known |
| ExtensionManager.ExtensionManager.ExtensionsFor | internal/extension/ext_manager.go:215-227 | exactly the registered extensions that target the kind, each once |
| ExtensionManager.RequestData | internal/controller/ext_controller.go:444-481 | the request carries exactly the keys that are set and declared, with their values unchanged |
| ExtensionManager.CleanAddSucceeds | internal/extension/ext_manager.go:93-101 | with working controllers a clean add succeeds at every target and keeps generators and registrations consistent |
| ExtensionManager.ConsistentInEveryRun | internal/extension/ext_manager.go:93-202 | in every clean run each generator has applied exactly the registered extensions targeting its kind, with leaf fields their disjoint union |
| ExtensionManager.EveryFieldIsDispatched | internal/extension/ext_manager.go:204-227 | in every clean run the leaves of a published schema are exactly those of the base and of the extensions ExtensionsFor returns, and the request to such an extension carries exactly an object's values for the root keys it declares |
| Reconciler.ReconcilerWrapper.Reconcile | internal/controller/reconciler.go:59-160 | makes exactly the moves of one pass of the machine, from the fetch to rest, whatever the calls return and others do; returns an error exactly when the last call stopped short, and has otherwise achieved what the pass is for; every state passed is safe |
| PassEndings.ErrorIffStopsShort | internal/controller/reconciler.go:59-160 | call by call: the call failed, its write was refused on the version, or some extension failed; and what is no error |
| PassEndings.PassAchieves | internal/controller/reconciler.go:73-160 | every pass: without the object nothing is called; without an error the finalizer is on, or ours is off and the workload gone, or the status holds the hash of the object as fetched |
| PassEndings.IntentIsOthers | internal/controller/reconciler.go:59-160 | no call of the controller changes spec, labels, deletion or others' finalizers of an object |
| Reconciler.ReconcilerWrapper.Delete | internal/controller/reconciler.go:79-103 | Deployment, Service, then the Delete of every applicable extension; the finalizer only after all, stopping at the first failure |
| Reconciler.ReconcilerWrapper.DeleteFromExtensions | internal/controller/ext_controller.go:103-165 | goes on to the finalizer exactly when the fan-out of deletions over the applicable extensions gathered no error |
| Reconciler.ReconcilerWrapper.Sync | internal/controller/ext_controller.go:355-389 | plays the goroutines of the fan-out, and goes on exactly when it finished without error, with the names in the order their goroutines started |
| Reconciler.ReconcilerWrapper.IsModified | internal/controller/application_reconciler.go:172-210 | hash, Deployment and (with a port) Service decide which branch of the pass follows |
| Reconciler.ReconcilerWrapper.DeleteStale | internal/controller/reconciler.go:136-143 | lists the extensions that ran and then the recorded ones whose deletion failed |
| Reconciler.ReconcilerWrapper.CreateOrUpdate | internal/controller/application_reconciler.go:48-137 | changeset, Service and Deployment in this order, both made from the fetched spec and labels, each failure ending the pass |
| Reconciler.ReconcilerWrapper.UpdateStatus | internal/controller/application_reconciler.go:139-170 | the new status and whether a write follows; an unreadable Deployment leaves the counts alone |
| Reconciling.SyncRunsApplicable | internal/controller/ext_controller.go:355-424 | an error-free sync ran exactly the registered extensions that apply and recorded each once, under every schedule |
| Reconciling.RunsAreListedAsStarted | internal/controller/ext_controller.go:355-389 | under every schedule an extension is listed in the place in which its goroutine started |
| Reconciling.DeleteReachesSelected | internal/controller/ext_controller.go:117-176 | in an error-free deletion the Delete of every selected registered extension was called and returned no error |
| ExtensionRecords.DeleteReturnedIff | internal/controller/ext_controller.go:117-176 | an error-free deletion called the Delete of a registered extension if and only if it was selected |
| ReconcilingSafety.CleanedAccounted | internal/controller/reconciler.go:136-143 | through the cleanup loop each recorded extension is still due, listed, deleted or unregistered |
| ReconcilingSafety.KeptAccounted | internal/controller/reconciler.go:136-143 | the same when its deletion fails |
| ReconcilingSafety.StepKeepsInv | internal/controller/reconciler.go:59-160 | every call of the controller and every edit by others keeps freshness, safety, earned hashes and the record |
| ReconcilingSafety.InvInEveryRun | internal/controller/reconciler.go:59-160 | the invariant holds at every point of every run |
| ReconcilingRuns.WorkloadNeedsFinalizer | internal/controller/reconciler.go:79-112 | in every run a Deployment or Service exists only while the object exists and carries the finalizer |
| ReconcilingRuns.FinalizerGoesLast | internal/controller/reconciler.go:79-103 | the finalizer goes only in a pass in which deleting Deployment and Service succeeded and then the Delete of every applicable registered extension was called and returned no error; then the workload is gone |
| ExtensionRecords.FinalizerIgnoresRecord | internal/controller/reconciler.go:79-103 | at every removal of the finalizer the pass had called the Delete of exactly the registered extensions that apply to the spec it fetched; all recorded registered ones have been deleted if and only if all of them apply |
| ExtensionRecords.RecordGoesWithObject | internal/controller/reconciler.go:79-103 | a record that goes with its object was the same when the finalizer went, and each registered name in it had its Delete called in that pass if and only if the extension applied |
| ExtensionRecords.RecordCanBeForgotten | internal/controller/ext_controller.go:103-115 | for any extension that ceases to apply, a run in which it is recorded, registered throughout and never told, and the record goes with the object |
| ReconcilingRuns.MatchingHashWasCompleted | internal/controller/reconciler.go:114-158 | a recorded hash equal to that of spec and labels implies an earlier pass, since creation, that saw them, ran every applicable extension and completed CreateOrUpdate |
| ReconcilingRuns.NeverCompletedForcesSync | internal/controller/application_reconciler.go:172-182 | while no such pass completed, the next pass goes into extension sync |
| LostEdits.DeploymentIsLastCompleted | internal/controller/application_reconciler.go:116-136 | a Deployment is made from what the last completed CreateOrUpdate saw, in the present object's life |
| LostEdits.MatchingHashIsMadeIff | internal/controller/reconciler.go:114-158 | with a matching recorded hash the Deployment is made from the present spec and labels if and only if the last completed CreateOrUpdate was followed by its status write or found its hash recorded |
| LostEdits.RecordedHashIsMadeIff | internal/controller/reconciler.go:145-158 | the recorded hash is that of the Deployment if and only if the last completed CreateOrUpdate was followed by its status write or found its hash recorded |
| LostEdits.RecordedPassesLoseNoEdit | internal/controller/reconciler.go:145-158 | if every completed CreateOrUpdate was followed by its status write, hash and Deployment never part |
| LostEdits.EditCanBeLost | internal/controller/reconciler.go:114-158 | for any two specs a run in which going back to the first is lost although its hash matches |
| LostEdits.LostEditStaysLost | internal/controller/reconciler.go:114-129 | and no later undisturbed pass brings it back |
| LostEdits.ServiceIsLastWritten | internal/controller/application_reconciler.go:69-114 | a Service is what its last successful write made it |
| LostEdits.ServiceOutlivesPort | internal/controller/application_reconciler.go:69-70 | no pass on an object without a port touches the Service made before, whatever its calls return |
| LostEdits.StaleServiceStays | internal/controller/application_reconciler.go:69-114 | for any spec with a port and any without, a run that ends settled on the second with the Service of the first |
| LostEdits.PortlessPassKeepsService | internal/controller/application_reconciler.go:69-70 | a successful sync pass on an object without a port ends with a Service if and only if it began with one, the same |
| LostEdits.ServiceGoesWithObject | internal/controller/reconciler.go:79-103 | in every run a Service goes only in a deletion of its object, or because somebody else takes it away |
| ReconcilingRuns.RecordIsRanPlusFailed | internal/controller/reconciler.go:131-158 | each new record has no duplicates and is what the pass ran, each applicable extension once, followed by exactly the recorded ones whose deletion failed in it |
| ReconcilingRuns.NothingForgottenSilently | internal/controller/ext_controller.go:110-176 | a name leaves the record of an object that stays only if in that pass its Delete was called and returned no error or it was no longer registered; when the object goes its record goes too, unasked (ExtensionRecords) |
| ReconcilingRuns.SettledStaysQuiet | internal/controller/reconciler.go:114-129 | a settled object left alone is only looked at, whatever the calls return |
| ReconcilingRuns.SyncPassSettles | internal/controller/reconciler.go:131-158 | an undisturbed successful pass through the sync branch leaves the object settled |
| ReconcilingRuns.QuietAfterSync | internal/controller/reconciler.go:105-158 | after such a pass no later undisturbed pass writes anything or calls an extension |
| ReconcilingRuns.FailedDeletionIsNotRetried | internal/controller/reconciler.go:136-143 | a failed deletion of a single extension leaves it recorded, and as long as nobody changes anything no later pass tries again |
| ExtensionRecords.FailedDeletionSettles | internal/controller/reconciler.go:136-158 | for any extension that ceases to apply, a run into such a pass, which fails to delete it and leaves the object settled with the name recorded |
| ExtensionRecords.FailedDeletionIsRetriedLater | internal/controller/reconciler.go:114-143 | and a run in which the deletion fails, the object is settled, and after another edit the name is deleted |
| ExtensionRecords.RecordedIsUpIff | internal/controller/reconciler.go:131-143 | in every run a whole pass comes to delete a recorded name if and only if its extension sync succeeds without having run that extension |
| ExtensionRecords.SyncBranchIff | internal/controller/application_reconciler.go:172-210 | a pass goes into the extension sync if and only if the recorded hash differs or it finds the Deployment, or with a port the Service, missing |
| ExtensionRecords.NextPassDeletesIff | internal/controller/reconciler.go:114-143 | from the state before it: an undisturbed pass whose looking and syncing succeed comes to delete a recorded name if and only if hash, Deployment or Service call for a sync and the extension does not apply |
| FanOut.SyncErrorIffSomeFailed | internal/controller/ext_controller.go:355-389 | under every schedule, with the racing append, an error is reported exactly when some extension failed; what ran is recorded once |
| FanOut.Run | internal/controller/ext_controller.go:355-389 | the state of the fan-out after its goroutines have run in the order of a schedule, as Sync plays them |
| FanOut.ErrorsCompleteIff | internal/controller/ext_controller.go:377-377 | every schedule reports every failing extension if and only if at most one fails |
| FanOut.RacingErrorsCanBeLost | internal/controller/ext_controller.go:377-377 | for any two failing extensions a schedule that loses the error of one |
| FanOut.ErrorsPlusResponses | internal/controller/ext_controller.go:117-230 | in Delete and Default every launched extension is in exactly one of errors and responses, by its own outcome, and the counts add up |
| FanOut.FieldSumPermutes | internal/controller/ext_controller.go:241-310 | the field errors collected do not depend on the order of the goroutines |
| FanOut.ValidateIndependentOfSchedule | internal/controller/ext_controller.go:241-310 | the verdict is determined by the outcomes and is the same under every schedule |
| MergePatch.CombineApplies | internal/extension/changeset.go:133-152 | applying the combination of two mergeable patches equals applying them in turn, on every document |
| MergePatch.NoSinglePatch | internal/extension/changeset.go:133-152 | for patches that are not mergeable every single patch differs on some document |
| MergePatch.CombineCorrectIff | internal/extension/changeset.go:133-152 | the combination is right on all documents if and only if the patches are mergeable |
| MergePatch.SinglePatchExistsIff | internal/extension/changeset.go:133-152 | some single patch is right on all documents if and only if the patches are mergeable |
| MergePatch.OverlayIff | internal/extension/changeset.go:124-129 | decoding the patched document over the original gives it back if and only if the patch deletes nothing |
| DocPaths.ApplyAt | internal/extension/changeset.go:124-124 | applying a patch sets, deletes and opens exactly the paths it names and leaves alone every path it says nothing about |
| DocPaths.OverlayLook | internal/extension/changeset.go:124-129 | and decoding the result over the original does the same, except that what is deleted stays |
| MergePatch.SwapIff | internal/extension/changeset.go:133-152 | two patches may be folded onto any third in either order if and only if they settle |
| MergePatch.CombineAssociative | internal/extension/changeset.go:133-152 | combining is associative on mergeable patches |
| MergePatch.FoldApplies | internal/controller/reconciler_webhook.go:114-121 | folding any list of mergeable patches and applying once equals applying them one after another |
| MergePatch.FoldSplits | internal/extension/changeset.go:133-152 | a list may be folded in any grouping |
| MergePatch.ActAll | internal/extension/changeset.go:133-152 | the symbolic effect of a list is what applying its patches in turn does to every document |
| MergePatch.FoldAgrees | internal/extension/changeset.go:133-152 | the fold says what the effect does wherever a patch can say it |
| MergePatch.FoldCorrectIff | internal/controller/reconciler_webhook.go:114-121 | for lists of any length the fold is right on all documents if and only if no object is put in place outright; otherwise no patch is |
| Interleavings.SelectionInterleaves | internal/controller/ext_controller.go:391-424 | keeping one kind of response of merged streams merges that kind of each stream, order kept, nothing lost or invented |
| Interleavings.AgreeingSchedules | internal/extension/changeset.go:27-110 | streams that agree on the last value of each key build the same map under every schedule |
| Changesets.MergeMaps | internal/extension/changeset.go:154-162 | the union of the maps, later ones winning |
| Changesets.Changeset.Add | internal/extension/changeset.go:27-110 | which responses fail, and the new contents for each kind |
| Changesets.Changeset.AddMergePatch | internal/extension/changeset.go:133-152 | empty patches are skipped, the first stored, later ones folded in; malformed ones fail and change nothing |
| Changesets.Changeset.Apply | internal/extension/changeset.go:112-131 | each label and annotation of the changeset is in its own map of the object and every other field as it was; then the patch, path by path; it fails exactly if the patch is malformed or no object, after the labels went in |
| Changesets.DeletionsAreLostIff | internal/extension/changeset.go:117-129 | the object is the patched document if and only if the patch deletes nothing outside fields that decode themselves |
| Changesets.FeedCollects | internal/extension/changeset.go:27-110 | every list is the arrivals of its kind in order and every map the fold of its assignments |
| ChangesetRuns.EnvironmentGathered | internal/extension/changeset.go:36-41 | the environment is the variables that came, in the order in which they came |
| ChangesetRuns.ContainersGathered | internal/extension/changeset.go:75-106 | containers are the sidecars and init containers the init containers, each in arrival order |
| ChangesetRuns.ReferencesGathered | internal/extension/changeset.go:52-74 | references are those of a known type, to a secret or a config map as they say, in arrival order |
| ChangesetRuns.LastWriteReachesObject | internal/extension/changeset.go:42-51 | end to end, a label of the object is the last one written to its key, or what it was if none was; annotations likewise |
| ChangesetRuns.RefusedIff | internal/extension/changeset.go:27-110 | in every sequence, a response is refused if and only if it is of no kind, a reference of an unknown type, or not the first patch where it or the first one is malformed |
| Changesets.FeedFoldsPatches | internal/extension/changeset.go:133-152 | with well-formed patches the patch held is the fold of those that arrived |
| Changesets.ListsInterleave | internal/controller/ext_controller.go:391-424 | for every interleaving each accumulated list is an order-preserving merge of the extensions' streams |
| Changesets.MapsIndependentIff | internal/controller/ext_controller.go:391-424 | labels and annotations come out the same under every interleaving exactly when writers of a key end on the same value |
| PatchSchedules.SettledIndependent | internal/controller/ext_controller.go:391-424 | streams whose patches settle fold to the same patch under every interleaving |
| PatchSchedules.PatchIndependentIff | internal/controller/ext_controller.go:391-424 | with at most one patch an extension, the folded patch is the same under every interleaving if and only if any two patches settle |
| Changesets.Default | internal/controller/reconciler_webhook.go:110-121 | defaulting fails exactly on a malformed patch or a last one that is no object, applies the fold, and on representable lists equals patching with each in turn before decoding |
| WasiStream.StepKeepsInv | internal/waruntime/runner.go:184-237 | every step of producer and consumer keeps received plus buffered equal to sent |
| WasiStream.BoundedLoss | internal/waruntime/runner.go:189-237 | for every interleaving what is received is a prefix of what was sent; at the end at most one message is missing; an error implies the call failed |
| WasiStream.ReliableIff | internal/waruntime/runner.go:189-237 | every interleaving delivers everything if and only if the module sends nothing; the verdict always tells a failed call if and only if the call does not fail |
| WasiStream.EndOfStreamIff | internal/waruntime/runner.go:189-204 | which select decides it: one that passes over a buffered message loses it, one that takes the closed channel over a waiting error swallows that |
| WasiStream.MessageCanBeLost | internal/waruntime/runner.go:189-204 | for every module that sends anything a run that loses its last message |
| WasiStream.FailureCanBeSwallowed | internal/waruntime/runner.go:189-237 | for every module whose call fails a run that delivers everything and ends as an ordinary end of stream |
| WasiStream.RunsAreBounded | internal/waruntime/runner.go:189-237 | every run ends within twice the number of messages plus four steps |
| WasiStream.NoDeadlock | internal/waruntime/runner.go:189-237 | a stuck run has given its verdict, and its producer is done unless the consumer left two or more messages |
| Permissions.BuildIndex | internal/extension/wasi_extension.go:109-114 | the set holds exactly one key for each rule and method |
| Permissions.KeyInjective | pkg/api/suffiks/v1/extension_types.go:26-39 | a declared rule's key equals that of no other request, of arbitrary strings |
| Permissions.AllowedIffListed | internal/waruntime/runner.go:625-644 | a request is allowed exactly when some declared rule lists precisely its four values |
| Permissions.PatternsAreNeeded | pkg/api/suffiks/v1/extension_types.go:26-39 | without the field patterns two requests share a key wherever a slash may belong to either side |
| Permissions.CoreGroupNeverAllowed | pkg/api/suffiks/v1/extension_types.go:26-39 | no request in the core API group is ever allowed |
| DocTree.Converter.Enter | internal/docparser/parser.go:26-126 | what entering a node does to the cursor, texts joining a preceding text |
| DocTree.Converter.Leave | internal/docparser/parser.go:18-24 | leaving moves to the parent, or stops the walk |
| DocTree.Convert | internal/docparser/parser.go:9-141 | the walk with its cursor, followed by fix, computes `Converted` |
| DocTree.WalkConverts | internal/docparser/parser.go:17-127 | walking a handled subtree restores the cursor and adds exactly the subtree's recursive conversion |
| DocTree.WalkIsConversion | internal/docparser/parser.go:9-141 | on documents of handled kinds the cursor walk is the recursive conversion |
| DocTreeLaws.WalkMeetsReference | internal/docparser/parser.go:9-141 | on well-formed documents walk and fix equal coalescing adjacent texts and converting node by node |
| DocTreeLaws.TextConserved | internal/docparser/parser.go:37-51 | the contents of all Text nodes arrive in document order, once |
| DocTreeFields.FieldsConserved | internal/docparser/parser.go:27-126 | the tokens other than texts are those of the nodes in document order, each with its node's own level, destination and title, list, item and admonition fields, and code, a block's lines one after the other |
| DocTreeUnhandled.UnhandledHarmlessIff | internal/docparser/parser.go:17-127 | with unhandled nodes anywhere, and no empty Text after one, the walk converts the tree without them if and only if no handled node comes after one in document order |
| DocTreeUnhandled.UnhandledTruncates | internal/docparser/parser.go:119-121 | an unhandled node at the top drops everything after it |
| DocTreeUnhandled.UnhandledLetsSiblingsEscape | internal/docparser/parser.go:18-24 | an unhandled node inside a top-level node moves its later siblings into the document and drops all after that node, whatever came before |
| DocTreeUnhandled.EmptyTextLeavesNoTrace | internal/docparser/parser.go:37-51 | an empty Text that is cut off may leave no trace |
| DocTreeUnhandled.EmptyTextStandsIn | internal/docparser/parser.go:18-51 | an empty Text that escapes may stand in for another one that is dropped, so handled nodes after an unhandled one do no harm there |
| Docs.Group.Copy | internal/docparser/page.go:73-80 | a new group with its own list of the same pages |
| Docs.Category.Copy | internal/docparser/page.go:58-64 | a new category of new groups, each with its own list of pages, of the same contents |
| Docs.SortCategory | internal/docparser/page.go:36-42 | groups, and in place the pages of each group, end sorted by weight, every category holding what it held |
| Docs.Controller.Copy | internal/docparser/controller.go:43-52 | new categories, groups and lists of pages holding what all stored ones hold, for some order of the sources |
| Docs.MergeAll | internal/docparser/controller.go:54-76 | category names become unique and names, groups and pages are conserved |
| Docs.EntriesPermute | internal/docparser/page.go:84-88 | reordering groups conserves a category's contents |
| Docs.Controller.GetAll | internal/docparser/controller.go:54-87 | each category name once, all groups and pages of all sources, sorted by weight; only new categories, groups and lists are changed, and the stored ones still hold what they held |
| Docs.MergedAndSorted | internal/docparser/controller.go:54-87 | group by group: each one of the sources is in the result with its name, weight, slug and pages, nothing else is, and groups and pages are in order of weight |
| DocsFiling.AddPage | internal/docparser/controller.go:128-146 | a page goes to the list of the one group of its name, made if absent |
| DocsFiling.File | internal/docparser/controller.go:110-146 | filing one page keeps categories and groups unique and every page where its fields say |
| DocsFiling.Parse | internal/docparser/controller.go:110-168 | every page is in exactly one group of one category, names unique, none empty, weights and slugs filled in, pages by weight; a bad page stores nothing; for any way of reading names and slugs |
| DocsNames.WeightIsRead | internal/docparser/controller.go:170-181 | a field that ends in a number in brackets gives the trimmed name before it and that weight |
| DocsNames.WeightIffSplits | internal/docparser/controller.go:170-181 | a field has a weight if and only if it ends in one, and is else the name itself with weight -1 |
| DocsNames.SluggifyMakesSlugs | internal/docparser/controller.go:183-193 | slugs hold lower-case letters, digits, underscores and single dashes, and are exactly what sluggify leaves alone |
| DocsSlugs.SluggifyKeepsSurvivors | internal/docparser/controller.go:183-193 | letters, digits and underscores survive in order and in lower case, with one dash exactly where the text has anything else between two of them, before the first or after the last |
| DocsSlugs.TrimIsCore | internal/docparser/controller.go:177-177 | trimming leaves the text between the space at both ends |
| DocsSlugs.ValueIsDecimal | internal/docparser/controller.go:176-176 | a weight is the number its digits write out in base ten |
| DocsCatalog.ReadsWhatIsSaid | internal/docparser/controller.go:170-181 | a group field is read as a name and a weight if and only if that is what it says |
| DocsCatalog.ParseSource | internal/docparser/controller.go:110-168 | Parse with the controller's own reading: each group holds exactly the pages that name it, each once and by weight, under the weight its first page says, every page has its group, and categories, groups and pages without a slug of their own get the one made from name or title |

## Left out

- SpecGen.AddProperties: property maps are values; that they are shared by reference is captured by
  what a failed merge leaves, not by aliasing in the heap.
- ExtensionManager.ExtensionManager.Add: generators are held by kind as values and written back after each operation.
- Reconciler.ReconcilerWrapper.CreateOrUpdate: Deployment and Service are what they were made from and
  the available replicas; how newDeployment fills them from that is not modelled.
- Changesets.Changeset.Apply: fields unknown to the object's type, and list elements the Go decoder
  reuses instead of replacing.
- Docs.Group.Copy: pages are values, so that their copies and those of their tokens are new is not stated.
- FanOut.Run: the responses that goroutines read and the waiting itself.
- Docs.Controller.GetAll: pages are values in the lists of heap groups, so the copies of single pages and
  of their tokens are not; slugs of merged categories are not stated.
- Docs.SortCategory: the order of equal weights, which the sort of the Go library does not promise.
- DocsFiling.Parse: reading a page's front matter is not modelled; pages arrive parsed or not.
- DocTree.Convert: the per-kind copies of tokens, which are plain structural recursion, and the parent
  pointers as pointers; the cursor is the chain of open tokens.
- DocTreeUnhandled.UnhandledHarmlessIff: trees with an empty Text after an unhandled node, which may
  leave no trace or stand in for another one, or with a Text right after a TextBlock.
- PatchSchedules.PatchIndependentIff: for extensions that send several patches only the sufficient
  condition of SettledIndependent is proved.
- FanOut.SyncErrorIffSomeFailed: torn reads and writes of slice headers; the race is a read step and a write step.
- Goroutines of Delete, Default, Validate and the response streams are interleaved appends on values.
- The merge patch library's treatment of nulls inside arrays and of a document that is just `null`, and
  its error texts.
- Reads from a stale cache, events about objects of other names, and objects whose spec is missing.
- gRPC and OCI transport, WASI compilation and guest memory, publishing of custom resource definitions,
  tracing, metrics and logging, generated code.
- The goldmark and admonition parsers; the walk starts from a given tree.
- JSON, YAML and protobuf encodings and the hash function's internals.
- The job reconciler, which is commented out in the repository.
