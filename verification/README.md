# Verified model of the Labrastro control plane

Labrastro's control plane runs agents for user sessions. Under its HTTP and storage layers lie a
number of small state machines and pure algorithms. This project models them in Dafny and proves what
they are relied on for: over every input, every interleaving and every run. `dafny verify
dfyconfig.toml` checks the whole project.

Each file is one module:

- `BranchTree`: the transcript of the selected branch of a session. The walk up the branch parents
  with its cycle detection, the preorder descent through one branch, the stitching at fork items.
- `LocalActions`: the lease protocol by which peers claim and finish local actions, with lazy expiry
  and the event sink. A specification of each operation on a store, and the service as a class.
- `InstallApproval`: the session-run loop of package ingestion as a state machine over atomic steps,
  with drafts, server repairs, approvals, and revision tickets that arrive on other threads.
- `Json`, `Canonical`, `ManifestDiff`: JSON values and their key-sorted text, the stable form of a
  manifest, and the diff between two manifests with its redundant parts.
- `PackageUpdates`: upstream update and rollback of an installed package, and what activates it.
- `RelayTokens`, `RelayServer`: bootstrap and peer tokens with pruning; the relay's message handlers
  over tokens and peer registry.
- `PasswordCodec` with `Decimal`: printing and checking of password hashes.
- `KeyedMerge`, `DocumentMerge`: merging of source documents that share a key.
- `DraftAssembler`: assembly of a capability draft from dotted field patches.
- `ApprovalEngine`, `PermissionGateway`: rule ranking and the permission pipeline.
- `ScopedRuntime`: the reducer of branch runtime events.
- `RuntimeSlots`: admission into worker pools and the claim that uses it.
- `Common`, `Text`: result types and Python's text operations.

Code that changes state is modelled by classes and loops proved against functions on values; the
lemmas are about those functions. Dictionaries compare by content, clock readings, generated ids and
key derivation are parameters, and every reading of a clock is a parameter of its own. Time is real
arithmetic.

The proofs turned up behaviour one might not expect. The lemmas named show it on a concrete input or
run, or give the exact condition under which the code does meet the property, and mostly both:

- an install goes ahead although a revision was accepted before it, exactly if the pop loop has drained
  the queue by the time the revision is queued (`LateRevisionMissed`, `RevisionAgainstInstall`);
- a cancel does not stop an install that has passed the last check, nor the approval request of a draft
  being built, which then waits for an answer (`CancelAgainstInstall`, `CancelledRunAsks`);
- a branch whose parent id is blanks has a chain but never a transcript (`BlankParentFails`);
- a progress with a blank status is stored and reported, and only then refused (`ProgressStores`);
- a second server repair happens when activations are not reported (`WithheldReportsRepairAgain`,
  `OneRepairExactly`);
- a lease without expiry is usable and claimable at once at a negative clock (`BothBeforeZero`,
  `NeverBoth`);
- the manifest diff reports reordered duplicates that look different, and does not see true replaced by
  one, except in an id (`DuplicateIdsReportChange`, `ReorderingUnseenExactly`,
  `BooleanAgainstIntegerUnseen`, `AgreementExactly`, `BooleanIdReported`);
- a rollback keeps the update's manifest if the old one was empty, and the update's component ids if the
  old one listed none (`RollbackUndoesUpdate`, `RollbackKeepsNewComponents`);
- the documentation of token revocation names disconnects, which revoke nothing
  (`DisconnectKeepsToken`);
- a document's key may change in a merge (`ZeroFieldChangesKey`, `MergeKeyExactly`, `KeyKeptExactly`), a
  complete document may become incomplete (`CompleteBecomesPartial`, `CompletenessExactly`), and two
  incomplete ones may merge to one that counts as complete, even by a flag of zero
  (`PartialBecomesComplete`, `IncompleteMerge`);
- a supplied whole draft is handed out unchecked (`WholeDraftUnchecked`, `DraftExactly`);
- a rule for a tool alone is passed over for a full server rule listed before it (`ToolRuleRefused`,
  `ToolRulePassedOver`);
- a hard policy's demand for approval is answered before the stages that would refuse the action and
  without a capability grant (`FurtherHardPolicy`, `AllowedIsGranted`), and a hard policy's warning is
  dropped by a later demand for approval or an execution policy that says allow (`ApprovalDropsWarning`,
  `HardWarningKept`);
- session runs and branches with colons in their ids may share a scope (`ScopeIdsCollide`,
  `ScopeIdsShared`).

## Model

| member | source | states |
|---|---|---|
| BranchTree.ChainExact | labrastro_server/services/agent_runtime/session_branch_tree.py:68-86 | The walk up the parents answers a chain exactly when one exists (root first, each parent link followed, no branch twice), and then that chain and no other; it is no longer than the number of bindings. |
| BranchTree.AncestorChain | labrastro_server/services/agent_runtime/session_branch_tree.py:68-86 | The loop with its `seen` set and final reversal ends for every binding table, cyclic or not, and computes that chain or the first error. |
| BranchTree.Walk | labrastro_server/services/agent_runtime/session_branch_tree.py:128-134 | The recursive descent appends to `out` exactly the preorder below its start; it ends because no entry on the current path is below itself. |
| BranchTree.CheckSiblings | labrastro_server/services/agent_runtime/session_branch_tree.py:114-124 | Siblings are accepted exactly when every timestamp is usable and no two are the same instant. |
| BranchTree.GroupByParent | labrastro_server/services/agent_runtime/session_branch_tree.py:109-113 | The grouping pass files the branch's entries, and no others, under their parents in dictionary order. |
| BranchTree.BranchDescendants | labrastro_server/services/agent_runtime/session_branch_tree.py:102-134 | Grouping, sibling checks, sorting and descent together compute the branch's segment, or fail exactly when some siblings cannot be ordered. |
| BranchTree.SegmentIsPreorder | labrastro_server/services/agent_runtime/session_branch_tree.py:102-134 | A computed segment is exactly the entries of the branch reachable from its start, parents before children, siblings in strictly increasing time. |
| BranchTree.PreorderUnique | labrastro_server/services/agent_runtime/session_branch_tree.py:102-134 | At most one sequence has that property, so it determines the segment. |
| BranchTree.SegmentOrderFree | labrastro_server/services/agent_runtime/session_branch_tree.py:102-134 | A segment, or its error, does not depend on the insertion order of the entries. |
| BranchTree.EntryIndex | labrastro_server/services/agent_runtime/session_branch_tree.py:137-141 | The scan finds the first entry with the id, or reports that there is none. |
| BranchTree.StitchBinding | labrastro_server/services/agent_runtime/session_branch_tree.py:48-64 | One round of the composition: the root's segment, or the parent's transcript up to the fork item with the branch's own segment, or the error. |
| BranchTree.ComposeSelectedTranscript | labrastro_server/services/agent_runtime/session_branch_tree.py:42-65 | The composition loop, for every well-keyed tree, computes the specified transcript or the specified error; each descent starts outside the branch it walks. |
| BranchTree.TranscriptDistinct | labrastro_server/services/agent_runtime/session_branch_tree.py:42-65 | A successful transcript repeats no entry. |
| BranchTree.ComposeOrderFree | labrastro_server/services/agent_runtime/session_branch_tree.py:42-65 | Transcript and error are the same for every insertion order of `entries_by_id`. |
| BranchTree.ChainOfChild | labrastro_server/services/agent_runtime/session_branch_tree.py:68-86 | A child's chain is its parent's chain plus the child, exactly when the child is not one of its own ancestors. |
| BranchTree.ForkLaw | labrastro_server/services/agent_runtime/session_branch_tree.py:46-65 | A child's transcript is r exactly when r is a prefix of the parent's transcript up to and including the base item, followed by the child's own preorder, and the child is off its parent's chain. |
| BranchTree.ComposeFrame | labrastro_server/services/agent_runtime/session_branch_tree.py:42-65 | Adding an entry to a branch outside the ancestor chain changes no successful transcript and turns no failure into a success. |
| BranchTree.ChainErrorExactly | labrastro_server/services/agent_runtime/session_branch_tree.py:68-99 | Which error the walk ends in: no id, an unknown id, or a way up through parents that ends at a parent that is missing or was passed already. |
| BranchTree.SegmentExactly | labrastro_server/services/agent_runtime/session_branch_tree.py:102-134 | A segment is r exactly when the branch's entries can be ordered and r is their preorder below the start; it fails exactly when they cannot, and then with that error. |
| BranchTree.RootLaw | labrastro_server/services/agent_runtime/session_branch_tree.py:46-65 | The transcript of a branch without a parent is r exactly when its entries can be ordered and r is their preorder from the top; else the ordering error. |
| BranchTree.BlankParentFails | labrastro_server/services/agent_runtime/session_branch_tree.py:46-60 | A parent id of blanks only ends the walk but is a parent to the composition, which then fails with the base item's error, always. |
| BranchTree.ForkErrors | labrastro_server/services/agent_runtime/session_branch_tree.py:46-65 | Which error the transcript of a branch with a parent ends in: its chain's, its parent's transcript's, no base item, an unknown one, one outside the parent's transcript, or unorderable entries, in this order. |
| LocalActions.StepKeeps | labrastro_server/services/agent_runtime/local_actions.py:55-188 | Every operation, failing ones and the lazy expiry included, keeps the invariant between store, leases and event log, and the order on records (terminal records frozen, peer fixed, leases never reused). |
| LocalActions.TerminalAbsorbs | labrastro_server/services/agent_runtime/local_actions.py:121-188 | After a terminal status no later run changes the record or reports anything about it. |
| LocalActions.OneTerminalEvent | labrastro_server/services/agent_runtime/local_actions.py:162-172 | In every reachable store at most one completed, failed or cancelled event exists for an action, it is the last one, and the action is terminal. |
| LocalActions.LogShowsStore | labrastro_server/services/agent_runtime/local_actions.py:254-263 | With a sink and an agent run id, the last reported payload is the stored record in every reachable store, also after the expiry path that raises. |
| LocalActions.PeerFixed | labrastro_server/services/agent_runtime/local_actions.py:99-118 | The peer of an action's first claim is its peer in every later store. |
| LocalActions.SupersededLeaseDead | labrastro_server/services/agent_runtime/local_actions.py:220-243 | A lease id that was once stored and is no longer the action's fails the lease check in every later store, and changes nothing. |
| LocalActions.LeaseCheckExact | labrastro_server/services/agent_runtime/local_actions.py:220-243 | The check passes exactly for the holder of the stored, unexpired lease; otherwise the store is unchanged or the expired lease is returned and reported. |
| LocalActions.OnlyHolderSucceeds | labrastro_server/services/agent_runtime/local_actions.py:121-172 | A progress or completion answered with a record was made by that holder. |
| LocalActions.ClaimHandsOut | labrastro_server/services/agent_runtime/local_actions.py:99-119 | The claim loop hands out, up to the quota, every action that matches, each with the claiming peer, a lease of its own and its expiry, and changes no other action. |
| LocalActions.HandedOutHeld | labrastro_server/services/agent_runtime/local_actions.py:110-117 | A claimed action may be changed by its peer with its lease exactly until one lease time after the claim. |
| LocalActions.ProgressRenews | labrastro_server/services/agent_runtime/local_actions.py:121-141 | A progress that leaves the action live moves that end to one lease time after the update. |
| LocalActions.HeldUnprotected | labrastro_server/services/agent_runtime/local_actions.py:207-236 | A holder's lease does not protect its action from a claim exactly when the expiry is missing or zero, and then the clock is negative. |
| LocalActions.NeverBoth | labrastro_server/services/agent_runtime/local_actions.py:190-243 | An action a holder may change is claimable by a peer exactly when the peer suits it and the expiry is missing or zero, and then only at a negative clock reading; so never at a non-negative one. |
| LocalActions.BothBeforeZero | labrastro_server/services/agent_runtime/local_actions.py:207-236 | That happens: a concrete record and clock reading for which both hold. |
| LocalActions.LocalActionService.CreateLocalAction | labrastro_server/services/agent_runtime/local_actions.py:55-72 | The method takes the service's state to the specified store and answers the specified record or conflict. |
| LocalActions.LocalActionService.ClaimLocalActions | labrastro_server/services/agent_runtime/local_actions.py:82-119 | The claim loop, with its quota and one fresh lease per claimed action, takes the state to the specified store and answers the claimed records in order. |
| LocalActions.LocalActionService.ProgressLocalAction | labrastro_server/services/agent_runtime/local_actions.py:121-141 | Checks the lease, stores any non-blank status asked for, renews the lease, reports. |
| LocalActions.LocalActionService.CompleteLocalAction | labrastro_server/services/agent_runtime/local_actions.py:143-172 | Checks status before lease, finishes the record, reports the event of that status. |
| LocalActions.LocalActionService.CancelLocalAction | labrastro_server/services/agent_runtime/local_actions.py:174-188 | Cancels a live action of anyone and reports it; a terminal one is answered unchanged. |
| LocalActions.LocalActionService.ValidatedLeaseAction | labrastro_server/services/agent_runtime/local_actions.py:220-243 | The order of the checks and the lazy expiry, state and error as specified. |
| LocalActions.CreationStores | labrastro_server/services/agent_runtime/local_actions.py:55-72 | A creation under a new id appends the record with its times, every other field as given, and reports it once or twice; under a known id nothing happens. |
| LocalActions.CompletionStores | labrastro_server/services/agent_runtime/local_actions.py:143-172 | A holder's completion stores status, result, error and time and keeps every other field and action; with a sink and run one event of that status's kind shows the stored record; the answer is its copy. |
| LocalActions.ProgressStores | labrastro_server/services/agent_runtime/local_actions.py:121-141 | A holder's progress stores status, progress, time and the renewed lease end and nothing else, reports it, and is answered by a copy, or an error exactly when the status is blank. |
| LocalActions.CancellationStores | labrastro_server/services/agent_runtime/local_actions.py:174-188 | A cancellation stores status, reason and time in a live action and nothing else, and reports it; a terminal one is left alone; the answer is the record's copy. |
| LocalActions.RefusalExactly | labrastro_server/services/agent_runtime/local_actions.py:220-243 | Progress and completion are refused for the first of four reasons, told on the record's fields; only an expired lease changes the store, to the record without lease, waiting for a peer, and that is reported. |
| LocalActions.UnusableCalls | labrastro_server/services/agent_runtime/local_actions.py:245-252 | A blank or unknown id changes nothing and is answered with its error, after that of an unusable completion status. |
| LocalActions.ClaimTakesFirst | labrastro_server/services/agent_runtime/local_actions.py:97-119 | A claim takes the first actions, in the dictionary's order and up to the quota, that are live, not protected by a lease and suit the peer. |
| LocalActions.ClaimReports | labrastro_server/services/agent_runtime/local_actions.py:110-119 | A claim reports each stored record it hands out, in order, and answers copies of them. |
| LocalActions.SameWorkspaceExactly | labrastro_server/services/agent_runtime/local_actions.py:276-283 | Two workspaces are the same exactly when, without trailing slashes, they have one positive length and agree at every character up to letter case and the kind of slash. |
| InstallApproval.NoLostWakeup | labrastro_server/services/capability_packages.py:1958-1978 | In every interleaving, while a ticket is queued and an approval is active and unresolved, the runner or a callback thread still owes the resolution of that approval. |
| InstallApproval.WaitIsWoken | labrastro_server/services/capability_packages.py:2611-2625 | A waiting runner with a queued ticket is at most one step of some thread away from continuing. |
| InstallApproval.InstallsAtMostOnce | labrastro_server/services/capability_packages.py:1982-2033 | In every reachable state at most one install was applied; it was of the last registered candidate, allowed by its own approval, after its queue was drained and no live revision was popped. |
| InstallApproval.BoundedDrafts | labrastro_server/services/capability_packages.py:3299-3331 | If the control plane reports all activations, there is at most one server repair and at most two drafts more than user revisions, over the whole run. |
| InstallApproval.OneRepairExactly | labrastro_server/services/capability_packages.py:3299-3331 | There is at most one server repair in a run exactly when every repairable answer after the first repair reports an attempt at the limit. |
| InstallApproval.WithheldReportsRepairAgain | labrastro_server/services/capability_packages.py:3350-3366 | Without such reports a second repair is reachable. |
| InstallApproval.QueuedRevisionWins | labrastro_server/services/capability_packages.py:2628-2650 | A live revision queued before the pop loop has drained the queue prevents the install of that candidate in every continuation in which nobody else consumes it, even if the user's approval came first. |
| InstallApproval.CommittedInstalls | labrastro_server/services/capability_packages.py:2628-2760 | Once the queue of an approved registration has been drained, every run that ends has installed it, whatever is submitted, queued, cancelled or consumed. |
| InstallApproval.RevisionAgainstInstall | labrastro_server/services/capability_packages.py:2628-2760 | While a registration the user has not refused is being answered, a live ticket in the queue prevents its install, in every run that ends and in which nobody else consumes the ticket, exactly if the pop loop has not drained the queue yet. |
| InstallApproval.LateRevisionMissed | labrastro_server/services/capability_packages.py:2808-2830 | A reachable run in which an accepted revision is left in the queue while the install goes ahead. |
| InstallApproval.FindRepairAttempt | labrastro_server/services/capability_packages.py:3350-3366 | The backwards search answers the latest recorded repair attempt, raised to zero. |
| InstallApproval.RepairAttemptAppend | labrastro_server/services/capability_packages.py:3350-3366 | A new activation decides the attempt if it records one and leaves it as it was otherwise. |
| InstallApproval.CancelledInstallsNothing | labrastro_server/services/capability_packages.py:1982-2033 | A cancelled run whose runner has a cancellation check ahead installs nothing more, makes no revision, and builds no draft but one it is building. |
| InstallApproval.CancelAgainstInstall | labrastro_server/services/capability_packages.py:2620-2760 | With nothing queued, a cancelled run installs an approved registration exactly if the runner has passed its last check: in every run that ends and queues no ticket. |
| InstallApproval.CancelEndsWait | labrastro_server/services/capability_packages.py:2620-2627 | A cancellation during the wait ends the run, without an install, within three steps of the runner. |
| InstallApproval.CancelledRunAsks | labrastro_server/services/capability_packages.py:1990-2019 | A run cancelled while its draft is built still asks: a reachable state waits for an approval that nobody is left to resolve. |
| InstallApproval.InstallNeedsApproval | labrastro_server/services/capability_packages.py:2609-2625 | Nothing is installed in a run unless, while that very registration was waited for, some call resolved it with allow_once. |
| InstallApproval.FirstResolutionStands | labrastro_server/interfaces/http/remote/service.py:2504-2553 | A resolved waiter keeps its decision until its wait returns it or the approval id is registered anew. |
| InstallApproval.QueueStep | labrastro_server/services/capability_packages.py:1965-1972 | The revision queue is first in, first out: a step appends a new ticket, takes the head, or leaves the queue. |
| InstallApproval.RevisionPerTicket | labrastro_server/services/capability_packages.py:2672-2677 | Where nobody else answers tickets there is one revision for each answered ticket, so none twice. |
| InstallApproval.ClosedForRevisions | labrastro_server/services/capability_packages.py:2062-2064 | Once the callback is taken back, a ticket that was not on its way is never queued. |
| InstallApproval.CandidatesWereBuilt | labrastro_server/services/capability_packages.py:2011-2019 | Every registered candidate is one a draft of the run was answered with. |
| Json.PrintReadable | labrastro_server/services/capability_package_updates.py:378-385 | The key-sorted JSON text of a value, wherever it stands in a larger text, determines the value and where it ends. |
| Json.PrintInjective | labrastro_server/services/capability_package_updates.py:378-385 | Two values with the same stable JSON text are equal, so sorting by it has no ties between different values. |
| Canonical.SortForgetsOrder | labrastro_server/services/capability_package_updates.py:373-374 | Sorting by the stable text gives the same list exactly for lists with the same elements, counted with multiplicity. |
| Canonical.NormalForm | labrastro_server/services/capability_package_updates.py:365-375 | Two values have the same stable form exactly when they agree up to volatile keys and, at every depth, a permutation of list elements. |
| Canonical.CanonIdempotent | labrastro_server/services/capability_package_updates.py:365-375 | The stable form of a stable form is itself. |
| Canonical.VolatileFields | labrastro_server/services/capability_package_updates.py:29-33 | The three time stamps make no difference to a stable form, and every other key does. |
| ManifestDiff.ItemsById | labrastro_server/services/capability_package_updates.py:329-339 | The loop over the components builds the dictionary of the last item of each id and the order of the ids. |
| ManifestDiff.ChangesExactly | labrastro_server/services/capability_package_updates.py:113-169 | For manifests whose components of one id look the same, and where components that look the same have one id, a change is reported exactly when one of the nine sections looks different; the component sets and the counts add nothing. |
| ManifestDiff.DistinctTextRegular | labrastro_server/services/capability_package_updates.py:329-339 | Manifests whose component ids are distinct text are of that kind. |
| ManifestDiff.BooleanIdReported | labrastro_server/services/capability_package_updates.py:329-339 | An id of true against an id of one is reported, although all sections look the same. |
| ManifestDiff.ReorderingUnseenExactly | labrastro_server/services/capability_package_updates.py:113-169 | Reordering the components of any manifest goes unreported, whatever the new order, exactly when its components of one id look the same. |
| ManifestDiff.MovedItemReported | labrastro_server/services/capability_package_updates.py:329-339 | Moving to the end a component that looks different from the last one of its id is reported. |
| ManifestDiff.SectionsAgree | labrastro_server/services/capability_package_updates.py:359-375 | Although a reordering leaves all nine sections in agreement. |
| ManifestDiff.AgreementExactly | labrastro_server/services/capability_package_updates.py:153-169 | For manifests as `ChangesExactly` takes them all nine sections agree up to volatile keys and list order exactly when no change is reported and no stable form holds a boolean where the other holds the integer it equals. |
| ManifestDiff.NoChangesMeansAgreement | labrastro_server/services/capability_package_updates.py:153-169 | So for those of them that do not mix booleans with zero and one, no change is reported exactly when all nine sections agree. |
| ManifestDiff.SameIsAgreeing | labrastro_server/services/capability_package_updates.py:359-362 | Unless booleans meet the integers zero or one, two values look the same exactly when they agree. |
| ManifestDiff.DuplicateIdsReportChange | labrastro_server/services/capability_package_updates.py:329-339 | With duplicate component ids, a mere reordering is reported as a change. |
| ManifestDiff.BooleanAgainstIntegerUnseen | labrastro_server/services/capability_package_updates.py:347-356 | A change between true and one is not reported. |
| ManifestDiff.DiffExactly | labrastro_server/services/capability_package_updates.py:113-150 | An id is added, removed or changed exactly if only the new list has it, only the old, or both with last items that look different. |
| ManifestDiff.DiffCounts | labrastro_server/services/capability_package_updates.py:113-150 | A section is reported exactly if it is one of the nine and looks different; the counts are of distinct ids, the deltas new minus old length. |
| ManifestDiff.DiffReversed | labrastro_server/services/capability_package_updates.py:113-150 | Comparing the other way round swaps added and removed and the counts, negates the deltas and reports the same changes and sections. |
| ManifestDiff.DiffOrdered | labrastro_server/services/capability_package_updates.py:123-130 | The reported ids ascend strictly. |
| PackageUpdates.ActivationGated | labrastro_server/services/capability_package_updates.py:213-309 | After an update or a rollback the package is active exactly if it was active before and the step was approved. |
| PackageUpdates.ActiveThroughout | labrastro_server/services/capability_package_updates.py:213-309 | After any sequence of updates and rollbacks the package is active exactly if it was at first and every step was approved. |
| PackageUpdates.SnapshotRoundTrip | reuleauxcoder/domain/capability_packages.py:189-243 | Writing a snapshot as a dictionary and reading it back is the identity, whatever alternative keys the reader knows. |
| PackageUpdates.SnapshotIdempotent | labrastro_server/services/capability_package_updates.py:79-82 | Normalising a snapshot twice is normalising it once, and only an empty one normalises to nothing. |
| PackageUpdates.RollbackKeepsOld | labrastro_server/services/capability_package_updates.py:239-255 | The rollback record holds the old manifest and the normalised old snapshot. |
| PackageUpdates.RollbackUndoesUpdate | labrastro_server/services/capability_package_updates.py:172-326 | Build, apply, roll back: the old manifest is back exactly when it was not empty or the update brought none, the old snapshot likewise; the component ids are the old manifest's if it lists any, else the update's if that lists any, else what they were, and so the old manifest's exactly when it lists some, or the update lists none and the package's own list was empty; no rollback is left and no key outside the transition's own is touched. |
| PackageUpdates.NewComponentsStay | labrastro_server/services/capability_package_updates.py:276-300 | If the old manifest lists no component and the update lists some, the update's list stays beside the restored manifest. |
| PackageUpdates.RollbackKeepsNewComponents | labrastro_server/services/capability_package_updates.py:276-300 | A concrete package whose list was right before the update and is wrong after the rollback. |
| PackageUpdates.ActiveExactly | reuleauxcoder/domain/capability_packages.py:58-144 | A package is active exactly if it states so, or states none of the four activation states, is not disabled and has a status other than the twelve listed ones. |
| PackageUpdates.TransitionEffects | labrastro_server/services/capability_package_updates.py:213-309 | After an update or a rollback the enabled flag and the three state axes are told by that condition and the approval; other state keys stay. |
| PackageUpdates.UpdateRecorded | labrastro_server/services/capability_package_updates.py:172-273 | An update records the detected version, the diff between old and new manifest and the transition id, given or composed. |
| PackageUpdates.RollbackAvailableExactly | labrastro_server/services/capability_package_updates.py:312-326 | After an update a rollback is available exactly if there was a snapshot or a manifest to go back to. |
| PackageUpdates.RollbackNamed | labrastro_server/services/capability_package_updates.py:240-258 | The rollback record names the transition and the snapshot it replaced. |
| PackageUpdates.VersionComposed | labrastro_server/services/capability_package_updates.py:57-77 | Without a version text the version is made of ref and shortened commit, or says unversioned. |
| PackageUpdates.ManifestNormalized | reuleauxcoder/domain/capability_packages.py:261-299 | Normalising keeps the dictionaries of each list section with their multiplicity, drops everything else in it, and leaves a normalised manifest alone. |
| RelayTokens.PruneInvisible | labrastro_server/relay/auth.py:46-115 | With a clock that never falls back, any run of issue, consume, verify, refresh and revoke with prunes anywhere in it gives the same answers as the run without them. |
| RelayTokens.StepThinned | labrastro_server/relay/auth.py:46-94 | A store without some expired entries answers every call like the whole store and stays such a store. |
| RelayTokens.AnswersFromHistory | labrastro_server/relay/auth.py:33-115 | From start-up, with a clock that never falls back and prunes anywhere, a check or a consumption of a token is answered by that token's own history alone: who it was issued to and until when, its refreshes, revocation or consumption. |
| RelayTokens.PruneSeen | labrastro_server/relay/auth.py:106-115 | A prune changes a later check of a peer token exactly when the clock fell back over the token's end. |
| RelayTokens.PruneSeenByConsume | labrastro_server/relay/auth.py:46-56 | The same for the consumption of a bootstrap token that has not been used. |
| RelayTokens.PruneStore | labrastro_server/relay/auth.py:110-114 | The inner loop removes exactly the expired entries and counts them. |
| RelayTokens.TokenManager.ConsumeBootstrapToken | labrastro_server/relay/auth.py:46-56 | A token is consumed exactly when it is known, unused and unexpired; it is then marked used and nothing else changes. |
| RelayTokens.TokenManager.VerifyPeerToken | labrastro_server/relay/auth.py:73-80 | Answers the peer of a known, unexpired token. |
| RelayTokens.TokenManager.RefreshPeerToken | labrastro_server/relay/auth.py:82-90 | Extends exactly a known, unexpired token, from the second reading of the clock. |
| RelayTokens.TokenManager.PruneExpired | labrastro_server/relay/auth.py:106-115 | Both stores lose exactly their expired entries; the count is the number lost. |
| RelayServer.SweepInvisible | labrastro_server/relay/server.py:275-286 | Sweeping the tokens changes no reply and no registry in a whole run of messages and sweeps, with a clock that never falls back. |
| RelayServer.OnePeerPerToken | labrastro_server/relay/server.py:236-257 | From start-up, a bootstrap token leads to at most as many registrations as it was issued times, so to one, whatever is sent and however often. |
| RelayServer.RegistrationsSpend | labrastro_server/relay/server.py:236-257 | From any state, registrations by a token are bounded by its unspent use and its later issues. |
| RelayServer.PeersKnownThroughout | labrastro_server/relay/server.py:236-257 | In every run registered peers stay known and every peer token belongs to one. |
| RelayServer.DisconnectKeepsToken | labrastro_server/relay/server.py:157-167 | A disconnect revokes nothing: a later heartbeat brings the peer back exactly when its token has not expired. |
| RelayServer.LapsedForever | labrastro_server/relay/peer_registry.py:55-74 | An offline peer whose tokens have run out stays offline in every run that does not hand its id out again. |
| RelayServer.RelayServer.OnRegister | labrastro_server/relay/server.py:236-257 | Consumes, registers and issues, or rejects with nothing changed but the clock read. |
| RelayServer.RelayServer.OnHeartbeat | labrastro_server/relay/server.py:157-163 | Refreshes the token and then marks its peer seen and online. |
| RelayServer.RelayServer.Prune | labrastro_server/relay/server.py:275-286 | One round of the sweep: stale peers, then expired tokens. |
| RelayServer.PeerRegistry.PruneStale | labrastro_server/relay/peer_registry.py:101-113 | The loop marks exactly the stale online peers offline and answers them. |
| RelayServer.PeerRegistry.UpdateHeartbeat | labrastro_server/relay/peer_registry.py:55-63 | Answers whether the peer is known; a known one is seen now and online. |
| RelayServer.PeerRegistry.MarkDisconnected | labrastro_server/relay/peer_registry.py:65-74 | Takes a known peer offline with the reason and answers it. |
| RelayServer.SweepEffect | labrastro_server/relay/peer_registry.py:101-113 | A sweep takes offline, with its reason, exactly the online peers not seen for longer than the timeout, and changes nothing else of any peer. |
| RelayServer.RegisterEffect | labrastro_server/relay/server.py:236-257 | A registration stores its peer online from that reading, with the token's claims; a rejected one changes nothing. |
| RelayServer.HeartbeatEffect | labrastro_server/relay/server.py:157-163 | A heartbeat renews exactly the peer of its live token. |
| RelayServer.DisconnectEffect | labrastro_server/relay/server.py:164-169 | A disconnect takes exactly its peer offline, with its reason. |
| PasswordCodec.B64RoundTrip | labrastro_server/services/auth/crypto.py:14-20 | Decoding undoes unpadded URL-safe encoding for every byte sequence (RFC 4648, sections 3.2 and 5). |
| PasswordCodec.PaddingRestored | labrastro_server/services/auth/crypto.py:14-20 | The padding the decoder appends is exactly what the encoder stripped; the text holds neither `=` nor `$`. |
| PasswordCodec.CanonicalExactly | labrastro_server/services/auth/crypto.py:14-20 | A text is the encoding of what it decodes to exactly when it consists of URL-safe letters, leaves no lone letter over and has zero spare bits. |
| PasswordCodec.DecodingForgives | labrastro_server/services/auth/crypto.py:18-20 | Other texts decode too, so different ones may decode alike. |
| PasswordCodec.SplitRecovers | labrastro_server/services/auth/crypto.py:36 | Splitting at the first three `$` recovers the four fields. |
| PasswordCodec.SecretReadable | labrastro_server/services/auth/crypto.py:31-45 | The printed hash reads back as its iteration count, salt and digest. |
| PasswordCodec.VerifyExact | labrastro_server/services/auth/crypto.py:23-50 | For every derivation, password, salt and count, the printed hash is accepted for exactly the passwords that derive the same digest, its own among them. |
| PasswordCodec.GroupValue | labrastro_server/services/auth/crypto.py:14-15 | Every three bytes are written as four letters of the URL-safe alphabet with the same value, most significant first (RFC 4648, section 5). |
| PasswordCodec.VerifiedExactly | labrastro_server/services/auth/crypto.py:34-55 | Any text is accepted as a hash exactly if it has the scheme and three readable fields and the password derives the digest; only a readable one can make the derivation fail. |
| Decimal.IntRoundTrip | labrastro_server/services/auth/crypto.py:39 | `int` reads back the decimal text of every integer, which holds only digits and a sign. |
| KeyedMerge.DedupedKnown | labrastro_server/services/capability_packages.py:5095-5112 | A document with a known key replaces the entry of that key and nothing else. |
| KeyedMerge.HeadsExact | labrastro_server/services/capability_packages.py:5095-5112 | The entries stand at the first occurrences of their keys, in order, each key once; documents without a key keep an entry each. |
| KeyedMerge.EntryOfKey | labrastro_server/services/capability_packages.py:5095-5112 | The entry of a key stands at the key's first occurrence and is the merge of all elements with the key. |
| KeyedMerge.StagesExactly | labrastro_server/services/capability_packages.py:5095-5112 | A property that a merge keeps exactly unless it is a bad one holds of an entry at every stage exactly when no merge on the way is bad. |
| DocumentMerge.DedupeDocuments | labrastro_server/services/capability_packages.py:5095-5112 | The loop with its key index computes, for the place of each first occurrence, the merge of all documents of that key. |
| DocumentMerge.MergeKeyExactly | labrastro_server/services/capability_packages.py:5063-5092 | Merging two documents of one key yields that key exactly when no field of the base with text, not covered by a zero, stands before the first text field of the preferred document and gives another key. |
| DocumentMerge.MergeKeepsKey | labrastro_server/services/capability_packages.py:5063-5092 | In particular when no key field is the number zero or false. |
| DocumentMerge.ZeroFieldChangesKey | labrastro_server/services/capability_packages.py:5031-5038 | The key does change: a concrete pair whose merge has another key. |
| DocumentMerge.KeyKeptExactly | labrastro_server/services/capability_packages.py:5095-5112 | The document kept for a key has that key at every stage of the merging exactly when no merge on the way loses it in the sense above. |
| DocumentMerge.KeysInOrder | labrastro_server/services/capability_packages.py:5095-5112 | Where no merge loses its key, the result has the keys in the order of first occurrence, each once. |
| DocumentMerge.PlainKeysStable | labrastro_server/services/capability_packages.py:5095-5112 | No merge does when no key field of any document is the number zero or false. |
| DocumentMerge.DedupeIdempotent | labrastro_server/services/capability_packages.py:5095-5112 | Where no merge loses its key, deduplicating again changes nothing. |
| DocumentMerge.CompleteKept | labrastro_server/services/capability_packages.py:5063-5092 | A complete document laid over another stays complete exactly when it states the flag itself or the other does not say false. |
| DocumentMerge.PreferredCompleteExactly | labrastro_server/services/capability_packages.py:5049-5060 | If one of two documents is complete, what is kept of them is complete exactly unless a complete one without a flag is laid over a false flag, and then as long as the longer complete one. |
| DocumentMerge.CompletenessKept | labrastro_server/services/capability_packages.py:5049-5060 | Where no merge does that, the document kept for a key is complete if any was, and as long as the longest complete one. |
| DocumentMerge.CompletenessExactly | labrastro_server/services/capability_packages.py:5095-5112 | No merge does that exactly when none on the way makes a complete document incomplete. |
| DocumentMerge.ExplicitKept | labrastro_server/services/capability_packages.py:5095-5112 | None does when every document has an explicit flag. |
| DocumentMerge.IncompleteMerge | labrastro_server/services/capability_packages.py:5063-5092 | Two incomplete documents, whatever their flags, merge to one that counts as complete exactly when a flag that is present and not false is laid, without any content, over someone else's. |
| DocumentMerge.PartialBecomesComplete | labrastro_server/services/capability_packages.py:5049-5060 | That happens: a concrete pair, with the flag true or the number zero. |
| DocumentMerge.CompleteBecomesPartial | labrastro_server/services/capability_packages.py:5049-5060 | A complete document without a flag is made incomplete by one that says false: a concrete pair, in either order. |
| DocumentMerge.IdentitiesConserved | labrastro_server/services/capability_packages.py:5068-5077 | The document kept for a key has exactly the path identities of all documents of that key. |
| DocumentMerge.DocumentKept | labrastro_server/services/capability_packages.py:5095-5112 | Every document with a key has an entry in the result, at its key's first place, with all its path identities and event references. |
| DocumentMerge.RefsConserved | labrastro_server/services/capability_packages.py:5078-5086 | That document refers to exactly the events that any document of that key refers to. |
| DocumentMerge.DedupeRefsExact | labrastro_server/services/capability_packages.py:5131-5144 | Deduplicated event references have the same keys as before, each once, and invent none. |
| DocumentMerge.KeyExactly | labrastro_server/services/capability_packages.py:5001-5009 | The key is the first text among the five fields, as a normalised path in the first two. |
| DocumentMerge.PathShape | labrastro_server/services/capability_packages.py:4951-4955 | A normalised path holds no backslash and no outer slash. |
| DocumentMerge.PlainPathKept | labrastro_server/services/capability_packages.py:4951-4955 | A path in that form is the normal form of itself, in quotes, behind a dot and slash or a slash, or before one. |
| DocumentMerge.PreferredFields | labrastro_server/services/capability_packages.py:5049-5060 | Which of two documents is laid over which, told on content, flag and length, and whose value every other field takes. |
| DocumentMerge.MergeMeasured | labrastro_server/services/capability_packages.py:5087-5092 | A merge with content counts its characters and keeps the hash or computes it. |
| DraftAssembler.Assemble | labrastro_server/services/capability_package_ingest.py:161-205 | Assembling computes the specified draft, field state, missing fields and failure code. |
| DraftAssembler.ApplyPatches | labrastro_server/services/capability_package_ingest.py:179-184 | The loop sets the path of every patch of a draft field, in order. |
| DraftAssembler.CollectFieldState | labrastro_server/services/capability_package_ingest.py:271-291 | The loop keeps the last patch of each path. |
| DraftAssembler.FindLast | labrastro_server/services/capability_package_ingest.py:294-301 | The backwards scan answers the last patch's value for the path. |
| DraftAssembler.SetThenRead | labrastro_server/services/capability_package_ingest.py:337-378 | A path reads back the value set there, in any draft. |
| DraftAssembler.ReadBackExactly | labrastro_server/services/capability_package_ingest.py:337-378 | In an empty draft a written path reads back exactly when none of its parts is empty, because setting skips empty parts and reading does not. |
| DraftAssembler.SetReadApart | labrastro_server/services/capability_package_ingest.py:337-378 | Setting a path changes nothing at paths of which neither is a prefix of the other. |
| DraftAssembler.SetsCommute | labrastro_server/services/capability_package_ingest.py:337-348 | Such paths may be set in either order. |
| DraftAssembler.AssembleOrderFree | labrastro_server/services/capability_package_ingest.py:161-205 | Assembling gives the same result for every order of patches with pairwise independent paths. |
| DraftAssembler.LastPatchWins | labrastro_server/services/capability_package_ingest.py:161-205 | The draft holds a patch's value at its path unless a later patch sets the path, a part of it or a path through it. |
| DraftAssembler.DraftExactly | labrastro_server/services/capability_package_ingest.py:161-205 | A draft is handed out exactly when a whole draft was supplied or no required field is missing; the missing fields are exactly the required fields that are. |
| DraftAssembler.WholeDraftUnchecked | labrastro_server/services/capability_package_ingest.py:167-174 | An empty whole draft is handed out although every required field is missing. |
| DraftAssembler.FieldMissingExactly | labrastro_server/services/capability_package_ingest.py:351-369 | Which values count as missing for each required field. |
| DraftAssembler.FailureExactly | labrastro_server/services/capability_package_ingest.py:188-205 | The failure says a field is missing if any patch was for a draft field, and that nothing was generated if none was. |
| DraftAssembler.DraftFieldExactly | labrastro_server/services/capability_package_ingest.py:304-334 | A path is a draft field's exactly if it is one of the 23 fields or leads into one over a dot. |
| DraftAssembler.SourceCarried | labrastro_server/services/capability_package_ingest.py:176-184 | The bundle's source is in the draft unless a patch leads there. |
| ApprovalEngine.Evaluate | reuleauxcoder/domain/approval_engine.py:46-56 | Answers the default exactly when no rule matches, else the earliest of the matching rules of the highest specificity. |
| ApprovalEngine.RankedChoice | reuleauxcoder/domain/approval_engine.py:46-56 | A stable descending sort followed by the first match chooses that rule. |
| ApprovalEngine.ToolOfServerOutranks | reuleauxcoder/domain/approval_engine.py:58-80 | A rule for a tool of a server outranks every rule that names no tool. |
| ApprovalEngine.ToolOutrankedExactly | reuleauxcoder/domain/approval_engine.py:58-80 | A rule for a tool is met or outranked by one that names none exactly when the latter alone names a server and gives at least two, or three, of source, effect class and profile more. |
| ApprovalEngine.ToolRulePassedOver | reuleauxcoder/domain/approval_engine.py:46-89 | In a context without an effect class, where a rule for the tool matches, the chosen rule names no tool exactly when every matching rule for the tool gives nothing else and stands behind a matching rule of source, server and profile. |
| ApprovalEngine.MatchesByField | reuleauxcoder/domain/approval_engine.py:77-89 | Each field a rule gives restricts it to the contexts with that value, and an empty rule matches all. |
| PermissionGateway.Evaluate | reuleauxcoder/domain/permission_gateway.py:139-226 | The pipeline with its growing list of warnings computes the specified decision. |
| PermissionGateway.EvaluateHardPolicies | reuleauxcoder/domain/permission_gateway.py:245-277 | The loop answers the first hard policy that denies, demands approval or warns. |
| PermissionGateway.EvaluateLifecycleOutputs | reuleauxcoder/domain/permission_gateway.py:571-606 | The loop answers the first terminal or asking hook output. |
| PermissionGateway.AllowedIsGranted | reuleauxcoder/domain/permission_gateway.py:98-226 | Authorised always means allowed; under enforcement the target of every allow and warn is granted by the effective capabilities and the decision names the grant, and so for every allowed decision but a hard policy's demand for approval. |
| PermissionGateway.BackgroundOnlyBlocks | reuleauxcoder/domain/permission_gateway.py:608-633 | Switching interaction off changes a decision in nothing but a demand for approval becoming a block for review. |
| PermissionGateway.FurtherHardPolicy | reuleauxcoder/domain/permission_gateway.py:245-277 | A further hard policy makes a refused action authorised exactly when no earlier one speaks, it demands approval, and a user is at hand. |
| PermissionGateway.EscalationWarns | reuleauxcoder/domain/permission_gateway.py:447-546 | A matched escalate policy never ends in a plain allow. |
| PermissionGateway.HardWarningKept | reuleauxcoder/domain/permission_gateway.py:139-226 | An allowed action a hard policy warned of still shows that warning exactly when no reached stage wants the user asked (a hook, the execution policy, the approval rules or a strict runtime profile) and the matched execution policy is not allow; otherwise the decision shows no warning. |
| PermissionGateway.ApprovalDropsWarning | reuleauxcoder/domain/permission_gateway.py:608-633 | A demand for approval drops it: a concrete request with no execution policy is authorised without the warning. |
| PermissionGateway.WarnedPlainAllow | reuleauxcoder/domain/permission_gateway.py:412-455 | A hard warning ends in a plain allow exactly when the later stages let the action through and the matched execution policy says allow. |
| PermissionGateway.MatchExact | reuleauxcoder/domain/permission_gateway.py:370-410 | The search over tool specs, builtin, MCP, environment and skill grants answers a text exactly when one of them is a grant for the target. |
| PermissionGateway.GatewayPassesOverTool | reuleauxcoder/domain/permission_gateway.py:465-474 | The gateway states no effect class, so with a matching rule for the tool the chosen rule names no tool exactly when each such rule gives nothing else and has a matching full server rule before it. |
| PermissionGateway.ToolRuleRefused | reuleauxcoder/domain/permission_gateway.py:457-486 | A concrete request is denied by a server rule listed before a rule that allows its tool. |
| PermissionGateway.HooksExactly | reuleauxcoder/domain/hooks/lifecycle_policy.py:17-44 | Hooks deny exactly if some output refuses (deny, defer, or a negative continue_flow) and none before asks, and want a review exactly if some asks and none up to it refuses. |
| PermissionGateway.AgentExactly | reuleauxcoder/domain/permission_gateway.py:320-368 | Which triggers an agent refuses, told on its visibility, system flows and three permissions. |
| PermissionGateway.ModeExactly | reuleauxcoder/domain/permission_gateway.py:286-318 | A mode refuses exactly if it is named, lists some tool, and lists neither this one nor the wildcard. |
| PermissionGateway.HardExactly | reuleauxcoder/domain/permission_gateway.py:245-277 | The hard policies answer what the first one to refuse, demand approval or warn says. |
| PermissionGateway.PolicyExactly | reuleauxcoder/domain/permission_gateway.py:548-569 | The execution policy is the first listed for one of the target's names, else the tool spec's own unless inherited, in lower case. |
| PermissionGateway.DecisionExactly | reuleauxcoder/domain/permission_gateway.py:139-226 | The action of every decision told on the request's fields, stage by stage, and authorised exactly if it allows, warns or asks the user. |
| PermissionGateway.BuiltinGranted | reuleauxcoder/domain/permission_gateway.py:734-748 | A plain builtin tool is granted exactly if the grants list its name, bare or with one of two prefixes. |
| PermissionGateway.McpGranted | reuleauxcoder/domain/permission_gateway.py:751-759 | A tool of a server, without a spec, is granted exactly if it or its server is listed. |
| PermissionGateway.RequirementGranted | reuleauxcoder/domain/permission_gateway.py:394-404 | An environment requirement is granted exactly if an executable requirement has its name or command. |
| PermissionGateway.BuiltinSpecExactly | reuleauxcoder/domain/permission_gateway.py:683-731 | A spec speaks for a builtin tool exactly if it is a builtin spec of its component with one of its names. |
| PermissionGateway.RulesSee | reuleauxcoder/domain/permission_gateway.py:457-475 | The context the approval rules are matched against, field by field. |
| ScopedRuntime.ScopesIsolated | labrastro_server/services/agent_runtime/session_branch_runtime.py:56-100 | If every key is its scope's id, a run leaves each scope as if only the events resolving to it had run, on it alone. |
| ScopedRuntime.EventsCommute | labrastro_server/services/agent_runtime/session_branch_runtime.py:56-129 | Events for different scopes may be reduced in either order. |
| ScopedRuntime.ModelRevisions | labrastro_server/services/agent_runtime/session_branch_runtime.py:56-140 | Over any run a scope's revision grows by exactly the number of accepted events, its pending turns are only extended and its identity is untouched. |
| ScopedRuntime.RevisionsCount | labrastro_server/services/agent_runtime/session_branch_runtime.py:61-100 | The same for one scope, whose operations are only ever removed. |
| ScopedRuntime.RunAddsUp | labrastro_server/services/agent_runtime/session_branch_runtime.py:61-100 | After any run the status is the last one given, the turns are those before plus those sent, the operations are those never settled, and the revision counts terminal events, turns and operations that went. |
| ScopedRuntime.MiskeyedMissed | labrastro_server/services/agent_runtime/session_branch_runtime.py:123-129 | An accepted event reaches the scope it resolves to exactly when that scope is stored under its own id. |
| ScopedRuntime.ScopeIdsDistinct | labrastro_server/services/agent_runtime/session_branch_runtime.py:52-53 | Scope ids are distinct for distinct session runs and branches if session run ids hold no colon. |
| ScopedRuntime.ScopeIdsShared | labrastro_server/services/agent_runtime/session_branch_runtime.py:52-53 | Two pairs share a scope id exactly when they are the same, or one session run id goes on after a colon with text the other pair's branch id begins with. |
| ScopedRuntime.ScopeIdsCollide | labrastro_server/services/agent_runtime/session_branch_runtime.py:52-53 | A concrete pair of pairs with colons sharing one. |
| ScopedRuntime.EventEffect | labrastro_server/services/agent_runtime/session_branch_runtime.py:56-129 | Every field of every scope after an event: only the scope it names, and only for its own agent run, changes, by the event's kind. |
| RuntimeSlots.AdmissionExact | labrastro_server/services/agent_runtime/runtime_store.py:343-373 | The guard lets a run in exactly when every pool stays within its limit afterwards. |
| RuntimeSlots.PoolsBounded | labrastro_server/services/agent_runtime/runtime_store.py:343-373 | In every run of enqueues, guarded claims and status changes that start nothing, every worker pool and the model-request pool stays within its limit. |
| RuntimeSlots.IdleAdmits | labrastro_server/services/agent_runtime/runtime_store.py:302-373 | With nothing running any run is admitted, whatever the snapshot configures. |
| RuntimeSlots.LimitsPositive | labrastro_server/services/agent_runtime/runtime_store.py:302-314 | Every pool has a limit of at least one. |
| RuntimeSlots.ClaimTask | labrastro_server/services/agent_runtime/control_plane.py:2915-2937 | The claim loop dispatches the first queued run that suits the worker and the slots, or nothing exactly when there is none, and keeps the limits. |
| RuntimeSlots.LimitsExactly | labrastro_server/services/agent_runtime/runtime_store.py:302-313 | Each pool's limit is the stated size, at least one, or the number of running tasks where none is stated; there are no limits exactly if some size is no number. |
| RuntimeSlots.PoolsExactly | labrastro_server/services/agent_runtime/runtime_store.py:316-340 | Which pools a run counts in, told on worker kind, location and origin. |
| RuntimeSlots.UsageExactly | labrastro_server/services/agent_runtime/runtime_store.py:355-369 | The use of a pool is the number of its runs that are dispatched, running or waiting. |

## Left out

- Transcript payloads: a transcript is its entries; the dictionary filled in from each is not built.
- Timestamp errors: a blank, unparsable or zoneless timestamp and duplicate instants are one error, and parsing a timestamp is not modelled.
- Branch trees whose dictionary keys differ from the entry ids: the composition is stated for keys that are the ids.
- Aliasing and deep copies: records and dictionaries are values that methods replace, so the code's care to copy what it hands out has no counterpart, and that a patch's value is never changed by a later patch holds by construction.
- Local action records: validation of scope fields, worker-kind parsing beyond local peers, listing and reading of actions, and an event sink that raises.
- Session objects: locks and condition variables stand behind atomic steps; event payloads, feedback posts, texts, failing collaborators and a session marked done from outside are not modelled.
- The installer: only that an install is called, not what it changes or whether it is atomic.
- JSON: floating-point numbers, keys that are not text, and Python's repr of containers, which their JSON text stands in for.
- Letter case: lower-casing and case folding cover ASCII letters.
- PackageUpdates.SnapshotRoundTrip: values that are not dictionaries where a dictionary is expected raise in the code and count as empty here.
- Package state: of the projected axes only activation is modelled; normalising the payload of an update request is not.
- Token text: random tokens and peer ids are parameters and may repeat; token hashing, masking and the listing and default choice of peers are not modelled.
- Relay threads: the event loop, start, stop and outgoing messages; error and tool messages change no modelled state.
- Password text: encoding to UTF-8, digits outside ASCII and the limit on the number of digits an integer may be read from; the comparison's timing.
- Documents: the reading of a textual character count and the content hash are parameters.
- Draft patches: extraction from model output; references, confidence and diagnostics are carried along as one value.
- Permission decisions: reasons, the audit trail and the message texts other than warnings.
- Set order: which of several MCP tool grants for one target is named is left to a parameter, as it is to the iteration order of a set.
- Scoped events: an absent agent run id or pending turn is the empty one, which the code treats alike.
- Slot snapshots: pool sizes that are floating-point numbers; stale-run recovery and worker matching are a parameter of the claim.
- Left out because they would add only easier members: scheduling, credential resolution, dependency graphs, environment checks, install-plan parsing, user interface and storage.
