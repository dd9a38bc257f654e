# Verified model of sunaba's host-side protocols

sunaba runs an agent in a virtual machine and moves its work to the host under approval. Its
host side consists of protocols that must survive interruption at any moment, and of a few
algorithms with exact meanings. This project models both in Dafny 4.11 and proves what they
promise. `dafny verify dfyconfig.toml` checks everything.

How interruption is modelled: every procedure that writes to disk or drives the container
runtime takes a schedule with one verdict for each durable operation. An operation can succeed,
fail without effect, or be the point where the process dies; container operations can also take
effect and still report an error. A contract that holds for all schedules therefore holds for
every crash point and every combination of failures, and a contract under a quiet schedule says
that the procedure gets through when nothing goes wrong.

- `Trees`, `AffectedRoots`, `ProjectTransaction`: the project as a finite map from paths to
  entries; the change set's minimal roots; the journaled swap of those subtrees, its rollback
  and its recovery, as a machine of single durable steps and as procedures that only take those
  steps.
- `Retention`: what happens to retained objects after a commit, and how it resumes.
- `TwoJournal`: the project transaction and the retention journal together, as the apply command
  drives them, with the Resolution changing between runs.
- `DependencyUpdate`: the undo/redo journal over project policies, the version lock and the
  active binding.
- `OrphanCleanup`, `Handover`: which virtual machines cleanup may remove; how exported work moves
  from a stopped machine to a committed pending Work Set.
- `PushBinding`, `GitPush`: the canonical form of a push, and one-shot approval under every
  interleaving of critical sections.
- `LineDiff`, `Pagination`, `PacketFilter`, `Supervisor`, `DevNetwork`, `Origins`: the line diff,
  greedy pages, first-match packet rules, deadline timers behind a coalescing channel, the owner
  journal of the dev network, and the origins file.
- `Faults`, `ByteOrder`, `KeyedSort`, `Texts`: shared vocabulary.

## Where the code does not do what is claimed for it

Each of these is kept as the code has it, with a witness and the exact condition.

- Recovery of a project transaction refuses a journal with more entries than the snapshot policy
  allows files, although two small manifests can need that many
  (`ProjectTransaction.AdmissionCanFail`). A crash after the journal write then leaves a
  transaction that no recovery and no later apply touches, and for every plan within the limit the
  next undisturbed recovery goes through (`ProjectTransaction.ProjectHost.Strand`); replacing the
  one file of a project is enough (`ProjectTransaction.StrandedByAdmission`).
- Setup accepts a lock file in the old format beside a binding that already names the current
  manifest, a state no update leaves behind, and starts a migration from it; a crash after the
  journal write leaves a journal every later recovery refuses (`DependencyUpdate.SetupCanStrand`,
  reached in `DependencyUpdate.StrandedMigration`). A migration that setup starts is recoverable if
  and only if the binding is the legacy one (`DependencyUpdate.DependencyStore.StrandMigration`);
  recovery's other limit, 256 projects, is one setup has already checked. From a sound state setup
  is always sound (`DependencyUpdate.DependencyStore.Migrate`).
- An apply that did not complete reports that the project remains recoverable (cli.go:833). If the
  disposition of a Bulk path is chosen again before the next apply, even the same one, the new
  revision makes the plan in the retention journal stale, and every later apply refuses before it
  recovers the project: from every settled baseline of a Work Set with a Bulk path a crash in the
  middle of the swap can be left that way for good (`TwoJournal.PendingApply.Strand`, reached in
  `TwoJournal.StrandedByRevision`). This happens if and only if such a choice is made while a
  retention journal exists (`TwoJournal.PendingApply.Perform`); a Work Set without Bulk paths always
  settles (`TwoJournal.PendingApply.RunRepeatedly`).
- Exported work is not always held by a stopped machine or a committed pending Work Set. It is,
  over every run, until a command would take it out of a stopped machine although it is not
  committed: a retry under a record that carries no export, a further export by a supervisor whose
  last one failed with its dev boundary, if it has one, still open, or the end of a supervisor in
  the failed state (`Handover.Guest.RunWithoutRisk`). From every state with such a command the
  property can be broken (`Handover.Guest.RestartBreaksStrictReading`,
  `Handover.Guest.ShutdownDiscards`).
  - The retry starts the machine again under its record. If it dies there, the work is in a running
    machine that no later retry, shutdown or cleanup will touch (`Handover.RetryCanLeaveRunning`,
    `Handover.Guest.StaysRunning`), so it is out of reach but not lost.
  - It can be lost when the further export has no record either. When a dev session's egress cannot
    be cut, the export pauses the machine and records nothing; told to export again, the supervisor
    starts the machine, and a crash there lets orphan cleanup remove it (`Handover.WorkCanBeLost`).
    From every stranded state the work can be lost this way
    (`Handover.Guest.StrandedWorkCanBeLost`).
  - The end of a supervisor is said never to discard a machine retained for recovery
    (approval_control.go:477-481). A refused dev export retains it and closes the boundary; the
    export that follows when the session ends is then refused at once and marks the session failed,
    and the end of the process removes the machine with the work (`Handover.RetainedWorkCanBeDiscarded`).
  - Over every run up to the first export from a stranded state or end of a failed supervisor that
    alone holds the work, nothing is lost (`Handover.Guest.RunAll`).
- The dev network client takes any error text that says "not found" for the absence of the
  network. An operation leaves a network without a name if and only if it completes a journal
  clear after such a false answer to the first inspection in a deletion or a reclaim
  (`DevNetwork.Boundaries.Perform`); for closing and reclaiming the answers that do it are given in
  full (`DevNetwork.Boundaries.CloseBoundary`, `DevNetwork.Boundaries.ReclaimStaleNetwork`). One false answer does it from every held boundary and from
  every stale network (`DevNetwork.Boundaries.Mislead`, `DevNetwork.Boundaries.MisleadReclaim`),
  and two networks can then exist (`DevNetwork.TwoNetworks`). At every other place a false answer
  leaks nothing.
- The origins file cannot be read back when two rules are equal, or equal up to a final dot of
  the host (`Origins.DuplicatesAreTwins`, with `Origins.FinalDotIsDuplicate` as a witness); otherwise
  it always can (`Origins.RoundTrip`).

## Model

| member | source | states |
|---|---|---|
| ProjectTransaction.CrashAtomicity | internal/apply/apply.go:119-281 | over every history of steps, interrupted applies and recoveries included: when no transaction directory is left, the project is exactly the result if the commit mark was ever written and exactly the baseline otherwise |
| ProjectTransaction.RunsAreSafe | internal/apply/apply.go:119-281 | every reachable disk state is safe: originals intact in slot or project, nothing outside the roots changed, a committed journal means the result is in place |
| ProjectTransaction.OriginalsConserved | internal/apply/apply.go:183-204 | before commit each original affected subtree is complete in its backup slot, or, if the slot is empty, in the project |
| ProjectTransaction.OutsideNeverChanges | internal/apply/apply.go:183-204 | a path under no affected root is the same in every state of every run |
| ProjectTransaction.ParentPresent | internal/apply/apply.go:422-434 | whenever the paths outside the roots are untouched, the parent directory of every root is present, so no rename lacks its parent |
| ProjectTransaction.StagedRoot | internal/apply/apply.go:135-136 | what is staged for a root is exactly that root's part of the approved result |
| ProjectTransaction.RestoreSafe | internal/apply/apply.go:344-368 | renaming a backup slot back restores the item, leaves everything outside its root alone and keeps every state safe |
| ProjectTransaction.ProjectHost.RemoveAt | internal/apply/apply.go:448-482 | recursive removal one unlink at a time: nothing outside the path changes at any point, and a completed removal leaves nothing at or below it |
| ProjectTransaction.ProjectHost.Rollback | internal/apply/apply.go:344-368 | a completed rollback has every item back as it was; an interrupted one leaves the transaction recoverable |
| ProjectTransaction.ProjectHost.SwapRoots | internal/apply/apply.go:183-204 | a completed swap makes the project exactly the approved result |
| ProjectTransaction.ProjectHost.SwapAndCommit | internal/apply/apply.go:119-216 | success means the commit mark is on disk; a failure is not committed, and if its directory is gone the project is the baseline; with at most one failing operation and no crash, every end but success has the project as it was and no transaction left |
| ProjectTransaction.ProjectHost.Abandon | internal/apply/apply.go:174-182 | a swap that has failed is rolled back and its directory removed: undisturbed the project is the baseline again with no transaction; never a success |
| ProjectTransaction.ProjectHost.RecoverLocked | internal/apply/apply.go:218-281 | the first recovery that completes leaves the result if the journal was committed and the baseline if not; a journal over the entry limit is refused with nothing changed, and an undisturbed recovery of any other completes |
| ProjectTransaction.ProjectHost.Apply | internal/apply/apply.go:56-107 | success means the project is the result; from an untouched baseline with at most one failing operation it succeeds or leaves everything as it was; an undisturbed apply whose journal is within the limit succeeds exactly when recovery leaves the approved baseline |
| ProjectTransaction.ProjectHost.Settled | internal/apply/apply.go:218-281 | for the history of any host object: no transaction left means result if the mark was written, else baseline |
| ProjectTransaction.AdmissionCanFail | internal/apply/apply.go:251 | two manifests within the file limit can need a journal above it |
| ProjectTransaction.ProjectHost.Strand | internal/apply/apply.go:218-281 | after a crash behind the journal write of an apply, a plan over the limit is refused by every recovery and apply with the transaction still there, and a plan within it is recovered by the next undisturbed recovery |
| ProjectTransaction.StrandedByAdmission | internal/apply/apply.go:251 | such a host exists: one file, a limit of one file, and that file replaced by another |
| AffectedRoots.AffectedRoots | internal/apply/apply.go:283-318 | terminates with the changed paths that have no changed proper ancestor, fewest components first and then by the first differing character of the path |
| AffectedRoots.RootsCover | internal/apply/apply.go:283-318 | every changed path, rename sources included, is a root or lies below one |
| AffectedRoots.RootsUnrelated | internal/apply/apply.go:283-318 | no root is an ancestor of another |
| AffectedRoots.OrderIndependent | internal/apply/apply.go:283-318 | two change sets with the same changes in any order have the same roots |
| AffectedRoots.JoinSplits | internal/apply/apply.go:292-298 | the text paths are ordered by is their components between slashes |
| AffectedRoots.RootsMakeGoodPlan | internal/apply/apply.go:134-204 | a change set that names every differing path yields roots for which the subtree swap is exact |
| Retention.RetentionStore.Finalize | internal/retention/retention.go:204-320 | wherever it stops, the state an uninterrupted run would end in is unchanged; the first run that completes is in that state, with every kept object's record among the project items, every artifact's among the artifact records and the others among the receipts; a stale identity or phase changes nothing |
| Retention.RetentionStore.DiscardObject | internal/retention/retention.go:295-313 | a discarded object goes to trash, gets its receipt and only then disappears, from wherever an earlier run left it |
| Retention.RetentionStore.PinArtifact | internal/retention/retention.go:265-294 | an artifact's object reaches the artifact store before its record exists, and never enters trash |
| Retention.RetentionStore.DiscardProjectItem | internal/retention/retention.go:463-507 | discards exactly the item whose identity is repeated; interrupted, it can be repeated to the same end |
| Retention.RetentionStore.KeepThenDiscard | internal/retention/retention.go:463-507 | after a completed finalization a kept object can be discarded by repeating its identity: object and item are gone and a receipt is there |
| Retention.RetentionStore.MarkProjectCommitted | internal/retention/retention.go:107-117 | only the very journal that was prepared advances, and only from the prepared phase |
| Retention.RetentionStore.RemovePrepared | internal/retention/retention.go:131-143 | removes only the expected journal in the prepared phase |
| Retention.RetentionStore.RemoveFinalized | internal/retention/retention.go:145-157 | removes only the expected journal in the finalized phase |
| Retention.PurgeStep | internal/retention/retention.go:309-313 | the only step that destroys data needs the receipt and keeps the target |
| Retention.RecordStep | internal/retention/retention.go:324-338 | writing a record keeps readiness and the target |
| Retention.AllFinished | internal/retention/retention.go:204-320 | when every operation is finished the vault is its own target |
| Retention.TargetConserves | internal/retention/retention.go:254-316 | in the end kept objects are where they were, artifacts are in the artifact store, discarded objects are gone with a receipt |
| Retention.TargetFiles | internal/retention/retention.go:254-316 | in the end every operation has its own record in the place of its disposition |
| Retention.TargetKeepsUnnamed | internal/retention/retention.go:204-320 | an object no operation names is not touched |
| Retention.NeverLost | internal/retention/retention.go:201-203 | at every interruption an object is missing only if the plan discards it and its receipt exists, and only discarded objects are in trash |
| TwoJournal.PendingApply.ApplyPending | internal/cli/cli.go:754-854 | for every schedule the two journals stay consistent, "committed but projection absent" is never reported, success means the settled result of the current plan, a plan is carried out only if it was confirmed, from a settled baseline with at most one failing operation the project ends untouched or as the complete result, and an undisturbed confirmed run settles there unless its plan was superseded |
| TwoJournal.PendingApply.RunRepeatedly | internal/cli/cli.go:754-908 | over any number of runs interrupted anywhere and changes of the Resolution between them: with no retention journal left, project, retained data and pending Work Set are all on the baseline side or all on the result side of a confirmed plan; an undisturbed confirmed run at the end settles unless an unfinished apply was superseded, which a Work Set without Bulk paths rules out |
| TwoJournal.PendingApply.Perform | internal/cli/cli.go:856-869 | a command supersedes an unfinished apply exactly if it changes the Resolution while a retention journal exists; from then on project and retained data never change again |
| TwoJournal.PendingApply.ReviseResolution | internal/cli/pending.go:350-392 | refuses a path the Work Set does not have and a disposition not allowed for it; otherwise changes that path's disposition under a new revision, without regard to an unfinished apply, and touches neither journal |
| TwoJournal.PendingApply.Strand | internal/cli/cli.go:867-869 | from every settled baseline of a Work Set with a Bulk path, a crash in the middle of the swap and a choice for that path leave the project in its transaction through every later sequence of commands |
| TwoJournal.StrandedByRevision | internal/cli/pending.go:383-392 | such an apply exists: one project file, one kept object, and the choice to keep it made again |
| TwoJournal.PendingApply.ResumeRetention | internal/cli/cli.go:856-908 | completes a committed earlier run or clears the way at the baseline, never reports an absent projection, and refuses a journal for another plan without touching anything |
| TwoJournal.PendingApply.ResumeTransaction | internal/apply/workset.go:275-316 | tells committed from not committed correctly after any interruption |
| TwoJournal.PendingApply.ApplyWorkSet | internal/apply/workset.go:153-269 | success means the retention journal says committed and no transaction is left |
| TwoJournal.PendingApply.WithdrawPrepared | internal/cli/cli.go:824-834 | after a failed apply the prepared journal remains only if the project turned out to be the result |
| TwoJournal.PendingApply.LoadPending | internal/retention/retention.go:162-195 | finishes an interrupted final cleanup first, and then reports nothing pending |
| DependencyUpdate.DependencyStore.Recover | internal/cli/version_commands.go:419-511 | the state recovery leads to does not change while it runs; a completed one is exactly there without a journal; a journal it cannot read is refused with nothing changed; undisturbed it completes exactly when the journal is acceptable and its policies exist |
| DependencyUpdate.DependencyStore.Commit | internal/cli/version_commands.go:335-417 | after any interruption recovery leads to the target if the commit was decided and back to the source if not; success is exactly the target; a single failure before the decision is undone at once, except for the journal |
| DependencyUpdate.DependencyStore.Undo | internal/cli/version_commands.go:357-377 | never changes where recovery leads; undisturbed, it puts every policy, the lock and the binding back |
| DependencyUpdate.RollbackRestores | internal/cli/version_commands.go:419-511 | if the policies named the source's digest and versions, rolling back restores the start exactly |
| DependencyUpdate.EndsAgree | internal/cli/version_commands.go:335-511 | at both ends of an update lock, binding and every policy agree, whatever the policies said before |
| DependencyUpdate.UpdatedMoves | internal/cli/version_commands.go:335-417 | the state a decided update leads to has lock, binding and every listed policy on the target and nothing else changed |
| DependencyUpdate.MigrationRecoverable | internal/cli/version_commands.go:436-440 | recovery reads the journal of a migration exactly when the binding is the legacy one and there are at most 256 projects |
| DependencyUpdate.SetupCanStrand | internal/cli/version_commands.go:658-684 | setup accepts a state whose interrupted migration recovery refuses |
| DependencyUpdate.DependencyStore.StrandMigration | internal/cli/version_commands.go:617-622 | a migration that setup starts and that dies behind the journal write is refused by every recovery, journal and state unchanged, if the binding is not the legacy one; if it is, the next undisturbed recovery completes |
| DependencyUpdate.DependencyStore.Migrate | internal/cli/version_commands.go:529-627 | over a lock file in the old format: changes nothing unless setup's checks pass, completes undisturbed if they do, keeps generation and manifest with every policy, lock and binding on them, and keeps every sound state sound wherever it is interrupted |
| DependencyUpdate.DependencyStore.SetupInventory | internal/cli/version_commands.go:790-849 | succeeds exactly when there are at most 256 projects and each is on the migrated versions under an allowed digest, and then lists them all |
| DependencyUpdate.StrandedMigration | internal/cli/version_commands.go:672-680 | such a store exists, without any project |
| DependencyUpdate.DependencyStore.Inventory | internal/cli/version_commands.go:273-310 | succeeds exactly when every policy is on the current dependency and there are at most 256, and then lists them all |
| DependencyUpdate.DependencyStore.UpdateApply | internal/cli/version_commands.go:175-266 | from any sound state, every outcome is sound; undisturbed it leaves no journal and succeeds exactly if a lock is active, or nothing is and every policy is on the bootstrap dependency, with at most 256 projects; success means the next generation of the target in lock and binding and every policy on it with its settings unchanged; a single failure before the decision changes nothing but the journal |
| DependencyUpdate.DependencyStore.UpdateRepeatedly | internal/cli/version_commands.go:175-266 | over any number of interrupted updates: no journal means everything agrees |
| DependencyUpdate.DependencyStore.ClearActivation | internal/cli/version_commands.go:513-528 | removes lock and binding, and what is already absent stays absent |
| OrphanCleanup.RemovedOnlyIf | internal/cleanup/cleanup.go:42-93 | a machine is removed if and only if it is owned, its project has no recovery record, no guard is held, it is not stopped and a model lease is bound to it |
| OrphanCleanup.OtherVerdicts | internal/cleanup/cleanup.go:42-93 | without the prefix a machine is ignored; an owned one is kept if and only if a guard is held without a record, or it is the stopped machine its record names; all others are refused |
| OrphanCleanup.CleanupHost.VerdictMeaning | internal/cleanup/cleanup.go:42-93 | a machine of this host gets the verdict to be removed exactly if it is an orphan: owned, not stopped, unguarded, leased and without a record |
| OrphanCleanup.CleanupHost.Run | internal/cleanup/cleanup.go:30-95 | every removed machine was listed and an orphan, stopped machines are untouched, and a completed run lists every candidate once in listing order and has removed exactly those on its list |
| OrphanCleanup.CleanupHost.RemoveOwned | internal/cleanup/cleanup.go:110-143 | stops and removes this machine and touches no other; undisturbed it succeeds exactly for a running one; interrupted, at most its run state has changed |
| OrphanCleanup.CleanupHost.ChosenMembers | internal/cleanup/cleanup.go:39-93 | a name is on a result list exactly when it was listed and got that verdict |
| Handover.Guest.RunAll | internal/cli/approval_control.go:307-403 | over every run of exports, crashes, retries, shutdowns and cleanups with any operation failing, up to the first export from a stranded state or end of a failed supervisor that alone holds the work: once export has stopped the machine the work is in a committed pending Work Set, a stopped machine, or a machine started again under a record |
| Handover.Guest.RunWithoutRisk | internal/cli/approval_control.go:307-403 | over every run up to the first command that would start or discard a stopped machine with uncommitted work: the work is in a committed pending Work Set or a stopped machine |
| Handover.Guest.Perform | internal/cli/approval_control.go:307-403 | every command keeps the invariant, does what it is for when nothing goes wrong, and exposes the work only in the two named cases |
| Handover.Guest.RestartBreaksStrictReading | internal/session/session.go:1165-1180 | from every state with a command that would start such a machine, that command interrupted once leaves the work in a running machine only |
| Handover.Guest.ShutdownDiscards | internal/cli/approval_control.go:482-500 | from every state in which a failed supervisor alone holds the work, its undisturbed end removes the machine |
| Handover.Guest.ShutDown | internal/cli/approval_control.go:482-500 | the end of a supervisor leaves a retained or exported machine alone, never touches record or pending Work Set, and takes work from where it is kept only as a failed supervisor |
| Handover.RetainedWorkCanBeDiscarded | internal/cli/supervisor.go:555-563 | a refused and recorded dev export, the export when the session ends, and the end of the process lead from a fresh session to the loss of the recorded machine |
| Handover.Guest.StaysRunning | internal/cli/dev_recovery.go:19-102 | work in a running machine under a record stays there through every later retry, shutdown and cleanup |
| Handover.RetryCanLeaveRunning | internal/cli/dev_recovery.go:19-102 | a refused export, the end of the supervisor and a retry that dies after starting the machine lead from a fresh session to that state |
| Handover.Guest.Export | internal/cli/approval_control.go:307-403 | keeps that invariant, never touches a committed pending Work Set, reports success only when the work is committed and the machine gone, and under a closed dev boundary fails at once without touching the machine |
| Handover.Guest.KeepCaptured | internal/cli/approval_control.go:307-403 | a captured export whose pending Work Set was not committed keeps the stopped machine under a record, which is tried once more if it was not saved |
| Handover.Guest.StopAndExport | internal/session/session.go:1127-1284 | after any interruption the machine still exists; a captured export leaves it stopped; a closed dev boundary refuses at once; an undisturbed export of an existing machine otherwise captures it |
| Handover.Guest.CutEgress | internal/devnetwork/network.go:155-163 | succeeds exactly with an open boundary and both operations succeeding, and then changes nothing; a failure at most pauses the machine |
| Handover.Guest.Retry | internal/cli/dev_recovery.go:19-102 | an undisturbed retry finishes exactly when the machine is not running, the pending Work Set is absent or its own, and a frozen record without one still has its machine |
| Handover.Guest.PersistFrozen | internal/cli/dev_recovery.go:130-197 | commits the recorded export without ever starting the machine and without taking the work from where it is kept, or changes nothing if it runs |
| Handover.Guest.Finish | internal/cli/dev_recovery.go:106-128 | removes the retained machine and then its record, unless the machine runs |
| Handover.Guest.PersistPending | internal/cli/pending.go:46-136 | commits all or nothing and never replaces a committed pending Work Set; a partial directory never counts |
| Handover.Guest.CopyAndCommit | internal/cli/pending.go:46-136 | writes the change file last; a failure removes the new directory again |
| Handover.Guest.ResetStale | internal/cli/pending.go:141-160 | clears a partial directory and nothing else |
| Handover.Guest.StrandedWorkCanBeLost | internal/session/session.go:1127-1180 | from every stranded state an interrupted export followed by a cleanup loses the work |
| Handover.WorkCanBeLost | internal/session/session.go:1138-1147 | one failure to cut egress leads from a fresh session to a stranded state |
| PushBinding.Canonicalize | internal/gitgateway/approval.go:161-190 | succeeds exactly on well-formed bindings without repeated refs, with the same push, remote normalized and refs sorted |
| PushBinding.WellFormedIsAcceptable | internal/gitgateway/approval.go:23-25 | the patterns for identities, refs and object ids and the checks on remotes and updates say exactly what is listed character by character |
| PushBinding.CanonicalUnique | internal/gitgateway/approval.go:161-190 | a binding has at most one canonical form |
| PushBinding.CanonicalPermutes | internal/gitgateway/approval.go:161-190 | two bindings have the same canonical form if and only if they are the same push: equal but for the order of the updates and the case of scheme and host |
| PushBinding.CanonicalIdempotent | internal/gitgateway/approval.go:144-159 | a canonical form is well-formed and its own canonical form |
| PushBinding.DistinctPermutes | internal/gitgateway/approval.go:181-186 | having a repeated ref does not depend on the order of the updates |
| GitPush.Interleave | internal/gitgateway/hook.go:111-224 | after every interleaving: each push has a confirmed nonce of its own for the same canonical binding, unexpired when consumed and never refused; pending and byDigest are exact inverses |
| GitPush.Step | internal/gitgateway/hook.go:165-224 | each critical section of hook and host does its own effect, and only the clock's own step moves the clock |
| GitPush.PushGateway.PushesApproved | internal/gitgateway/push.go:48-80 | the invariant of every critical section implies one push per approval |
| GitPush.PushGateway.ApprovedPush | internal/gitgateway/hook.go:111-224 | a push that is new, listed, confirmed by the host with the same binding and sent again is performed exactly once, with the binding resolved at the end, and leaves no approval behind |
| GitPush.PushGateway.AskFor | internal/gitgateway/hook.go:205-223 | a live request for the same push is kept, an expired one leaves both indexes, and a new one gets a fresh nonce and the full lifetime |
| GitPush.PushGateway.DoTakeGrant | internal/gitgateway/hook.go:191-203 | a grant for the push leaves the approved map with the connection that takes it; without one the connection goes on to ask |
| GitPush.PushGateway.DoConsumeCheck | internal/gitgateway/approval.go:144-159 | a push follows exactly when the revalidated binding is the approved one, the approval has not expired and the audit record was written |
| GitPush.PushGateway.DoConfirmTake | internal/gitgateway/hook.go:111-121 | a listed nonce leaves both indexes with the thread that confirms it; an unlisted one changes nothing |
| GitPush.PushGateway.DoConsumeTake | internal/gitgateway/approval.go:144-159 | a grant leaves the manager when it is taken, so it can be taken once |
| GitPush.PushGateway.DoConfirmGrant | internal/gitgateway/approval.go:104-127 | a grant is made exactly for an unexpired request with the presented binding and a written audit record; otherwise the nonce is refused |
| GitPush.PushGateway.DoRejectTake | internal/gitgateway/hook.go:132-144 | a rejected nonce is refused from the moment it leaves the broker |
| LineDiff.RenderLineDiff | internal/cli/config_commands.go:485-520 | the printed text can be read back into the lines of both inputs; it is the optimal script's text, or, if they are too large, the text of the prefix/suffix script |
| LineDiff.EditsOptimal | internal/cli/config_commands.go:505-519 | no script with the same two sides keeps more lines; the kept lines are a common subsequence of the table's length |
| LineDiff.LcsIsBound | internal/cli/config_commands.go:491-502 | no common subsequence is longer than the table says |
| LineDiff.EditsRebuild | internal/cli/config_commands.go:505-519 | the walk's script rebuilds both sides and keeps as many lines as the table's first cell |
| LineDiff.FillTable | internal/cli/config_commands.go:491-502 | every cell is the longest common subsequence length of its two suffixes |
| LineDiff.FallbackRebuilds | internal/cli/config_commands.go:522-545 | a script that keeps a common prefix and a common suffix rebuilds both sides |
| LineDiff.RenderPrefixSuffixDiff | internal/cli/config_commands.go:522-545 | prints the script that keeps the common prefix and the common suffix behind it that cannot be extended |
| LineDiff.LongestUnique | internal/cli/config_commands.go:522-545 | two texts have exactly one such prefix and suffix |
| LineDiff.ReadBack | internal/cli/config_commands.go:505-519 | printed text determines both sides of the script |
| LineDiff.LinesRejoin | internal/cli/config_commands.go:486-487 | the lines of a text, joined again, are the text without its final newline |
| Pagination.ReviewDiffPages | internal/cli/tui_coordinator.go:1283-1304 | contiguous pages cover every row once within 256 rows and 64 KiB unless a single row; no page could take another row; empty input gives one empty page |
| Pagination.BytesOfText | internal/cli/tui_coordinator.go:1283-1304 | the bytes counted for a page are the length of its text |
| Pagination.FewestPages | internal/cli/tui_coordinator.go:1283-1304 | no pagination within the limits uses fewer pages |
| Pagination.StaysAhead | internal/cli/tui_coordinator.go:1289-1302 | after the same number of pages no pagination has shown more rows |
| PacketFilter.InboundIPv4 | internal/firewall/firewall.go:54-77 | on a named interface an inbound IPv4 packet passes exactly for DHCP from 0.0.0.0 or the subnet, or from the subnet to gateway port 53 or to an address neither own nor in one of the listed numeric ranges; otherwise it is blocked |
| PacketFilter.InboundIPv6 | internal/firewall/firewall.go:54-83 | the same for IPv6, with neighbour discovery from link-local addresses |
| PacketFilter.PrivateRanges4 | internal/firewall/firewall.go:55 | the denied IPv4 networks are exactly the listed ranges of addresses |
| PacketFilter.PrivateRanges6 | internal/firewall/firewall.go:56 | the denied IPv6 networks and the link-local network are exactly the listed ranges |
| PacketFilter.RangeIsBlock | internal/firewall/firewall.go:54-77 | an aligned network is the block of addresses from its base on |
| PacketFilter.PrivateNotReached | internal/firewall/firewall.go:54-77 | apart from DHCP and the gateway's DNS nothing inbound on a named interface reaches a private address |
| PacketFilter.PublicReached | internal/firewall/firewall.go:54-77 | with the subnet 192.168.64.0/24, a public address that is not the host's own is reached from its 256 addresses and from nowhere else |
| PacketFilter.Outbound | internal/firewall/firewall.go:54-83 | outbound packets to the subnets are blocked and all others left alone |
| PacketFilter.WithoutInterface | internal/firewall/firewall.go:54-83 | without an interface name the rules decide for the subnets on every interface and say nothing about other inbound traffic |
| PacketFilter.OtherInterfaces | internal/firewall/firewall.go:57-60 | a packet on another interface matches no rule of either list |
| PacketFilter.Quiesced | internal/firewall/firewall.go:86-102 | the quiesced rules pass nothing, block everything inbound on a named interface and everything outbound to the subnets |
| PacketFilter.DeniedMeaning | internal/firewall/firewall.go:71-73 | the run of denials blocks exactly packets from the subnet to one of the ranges |
| PacketFilter.GenerateRules | internal/firewall/firewall.go:54-84 | the loops produce the rule list the theorems are about |
| PacketFilter.GenerateQuiescedRules | internal/firewall/firewall.go:86-102 | the same for the quiesced list |
| Supervisor.Control.NoLostWakeUp | internal/cli/supervisor.go:461-498 | a loop that waits on an empty channel has its timers armed for the current revision and deadlines |
| Supervisor.Control.Interleave | internal/cli/approval_control.go:168-301 | that holds after every interleaving of session operations with the loop |
| Supervisor.Control.Step | internal/cli/approval_control.go:168-301 | each step has the effect of its own operation on session or loop |
| Supervisor.Control.DoResume | internal/cli/approval_control.go:196-234 | a paused session that is activated runs with the new deadlines, an idle timeout of at least a second and activity from now, under a new revision and with a signal |
| Supervisor.Control.DoHeartbeat | internal/cli/approval_control.go:236-245 | moves the idle deadline exactly for a running, unexpired session |
| Supervisor.Control.PauseIfDue | internal/cli/approval_control.go:263-279 | a timer of an older revision changes nothing; one of the current revision finds its deadline passed and pauses the running session |
| Supervisor.Control.NotifyDeadlineChanged | internal/cli/approval_control.go:293-301 | every change ends with a new revision and a signal in the channel |
| Supervisor.Control.Reconcile | internal/cli/supervisor.go:65-79 | arms both timers for a running session and neither otherwise; each fires at its deadline, or at once if that has passed, neither earlier nor later |
| Supervisor.Control.Fire | internal/cli/supervisor.go:461-498 | a waiting loop's timer fires exactly once its deadline has been reached and time has passed since it was armed |
| Supervisor.Control.Turn | internal/cli/supervisor.go:461-498 | a running session is paused at the first turn of the loop at or after the idle deadline or the expiry, and not before |
| Supervisor.Control.CatchUp | internal/cli/supervisor.go:461-498 | one signal is enough for any number of changes: left alone the loop takes it and ends up waiting with current timers, or ends for a running session without an expiry |
| DevNetwork.Boundaries.RunAll | internal/devnetwork/network.go:67-190 | over every run with any command failing, all of them performed: at most one owned network exists and the journal names it, unless the journal of an existing network was cleared on a false report of absence |
| DevNetwork.Boundaries.Perform | internal/devnetwork/network.go:67-190 | an operation that starts with every network accounted for ends so if and only if it did not clear a journal on a false report; without a false answer it cannot; each command has its own effect when nothing goes wrong |
| DevNetwork.Boundaries.AtMostOne | internal/devnetwork/network.go:268-290 | the invariant bounds the networks by one, the one in the journal |
| DevNetwork.Boundaries.ActivateNetwork | internal/devnetwork/network.go:104-145 | success means the lock is held, the named network exists and the packet filter is loaded; undisturbed, a stale network is removed and the named one created; every failure gives the lock back with the invariant intact; a leak needs a not-found answer and leaves a network without a name |
| DevNetwork.Boundaries.RecoverQuiesced | internal/devnetwork/network.go:67-102 | never creates a network, and adopts the named one with the filter loaded if it is there; undisturbed it removes a stale network and completes |
| DevNetwork.Boundaries.CloseBoundary | internal/devnetwork/network.go:167-190 | gives the lock back whatever happens and switches the filter off whether or not the network is gone; undisturbed, network and journal are gone; an existing network leaks exactly if the first answer is a not-found text and the journal write then succeeds; without a network the journal stays |
| DevNetwork.Boundaries.ReclaimStaleNetwork | internal/devnetwork/network.go:295-322 | success leaves no journal or the kept name in it; undisturbed, a stale network is gone; it leaks exactly if it exists, is not the kept one, and the first or the second inspection answers with a not-found text and the journal write then succeeds |
| DevNetwork.Boundaries.Create | internal/devnetwork/network.go:232-257 | an existing network is never taken over; a new one that cannot be verified is removed again, or still named by the journal if that fails |
| DevNetwork.Boundaries.Delete | internal/devnetwork/network.go:349-360 | touches no other network; completes exactly if the network is reported absent at first, or is deleted and then reported absent; it is then gone unless the first answer was a not-found text about an existing network |
| DevNetwork.Boundaries.Mislead | internal/devnetwork/network.go:364-372 | from every held boundary one not-found text while closing leaks the network |
| DevNetwork.Boundaries.MisleadReclaim | internal/devnetwork/network.go:295-322 | from every stale network in the journal one not-found text while another is activated leaves it without a name beside the new one |
| DevNetwork.TwoNetworks | internal/devnetwork/network.go:364-372 | after such a leak two networks exist |
| Origins.RoundTrip | internal/projectconfig/config.go:563-615 | within the size limits a printed list parses exactly when no two rules are equal or differ only in a final dot of the host, then gives the rules in canonical order, and printing again gives the same bytes |
| Origins.ProducedExactly | internal/projectconfig/config.go:528-561 | the rules the parser can produce are exactly the user rules |
| Origins.WrittenParses | internal/projectconfig/config.go:528-561 | a scheme and hostname in any case, with at most the scheme's own port, one slash and an empty fragment, parses as its rule |
| Origins.ParsedIsWritten | internal/projectconfig/config.go:528-561 | nothing else parses |
| Origins.OriginParses | internal/projectconfig/config.go:528-561 | printing a user rule and parsing it gives it back |
| Origins.HostnameMeaning | internal/webgateway/gateway.go:593-617 | a text stands for a hostname exactly if it is that hostname in any case, up to a final dot, where a hostname has labels of up to 63 letters, digits and inner hyphens, at most 253 characters, and is not four decimal octets |
| Origins.UserRuleMeaning | internal/projectconfig/config.go:528-561 | a user rule allows http on port 80 or https on port 443, not both, for a hostname with or without a final dot |
| Origins.OctetMeaning | internal/webgateway/gateway.go:593-617 | an address octet is the decimal text of a number below 256 |
| Origins.ParseOrigins | internal/projectconfig/config.go:563-597 | succeeds exactly when the file is within 65536 bytes, every line is good, and there are at most 1024 rules no two of which are equal or differ only in a final dot; the rules are in canonical order |
| Origins.DuplicatesAreTwins | internal/webgateway/gateway.go:94-108 | user rules count as duplicates if and only if they agree in everything but a final dot of the host |
| Origins.LineMeaning | internal/projectconfig/config.go:573-586 | a line gives a rule exactly if it is a word that parses as the rule, with or without include-subdomains, between white space |
| Origins.BlankMeaning | internal/projectconfig/config.go:573-577 | a line is skipped exactly if it is white space or its first other character is a number sign |
| Origins.LinesMeaning | internal/projectconfig/config.go:571-593 | a file is refused exactly if some line is bad; otherwise its rules are those of its lines, in order |
| Origins.RenderOrigins | internal/projectconfig/config.go:599-615 | prints the two comments and one line for each rule in canonical order |
| Origins.NormalizeRules | internal/projectconfig/config.go:634-655 | the same rules, sorted by their JSON text |
| Origins.KeyOrder | internal/projectconfig/config.go:634-655 | the canonical order of user rules is by host, then https before http, then the host alone before the host with its subdomains |
| Origins.NormalizedUnique | internal/projectconfig/config.go:634-655 | user rules have one canonical order |
| Origins.KeyTells | internal/projectconfig/config.go:639-645 | different user rules have different sort keys |
| Origins.FileParses | internal/projectconfig/config.go:563-615 | reading a printed file gives the rules in the order they were printed |
| Origins.FinalDotIsDuplicate | internal/webgateway/gateway.go:94-108 | two different rules, a host with and without a final dot, count as duplicates |

## Left out

- File descriptors, permissions, ownership and symbolic link checks, fsync: an abstract tree with
  atomic renames, unlinks and file replacements stands for them.
- Digests and nonces: equal digests mean equal contents, and drawn values are new.
- Staging the approved result, removing a transaction directory, removing the pending directory
  and removing an object from trash are one step each.
- Backup slots keep the full paths of the entries in them; the source stores each subtree under
  its slot name.
- Only one transaction directory exists at a time, because every apply first recovers.
- Entire-directory apply of Bulk paths is disabled in production; its disposition is treated like
  a discard by retention, as the source does, and has no other model.
- Approval of a Work Set (nonce, grant, expiry) is one yes or no in `TwoJournal`.
- Resolutions with open choices, and reviewing a Bulk path normally, which makes another Work Set:
  in `TwoJournal` a change of the Resolution chooses a disposition for a path of the same Work Set.
- `updated_at` timestamps in policies, the update candidate's expiry and digests, and building
  the image.
- RetentionStore.Finalize: creating the retained directories and the mismatch of plan and Work
  Set, which plan validation excludes, are not modelled.
- Control flow inside the guest, gateways and relays during StopAndExport: each is one operation
  that can fail.
- Explicit discard of a machine or a pending Work Set, resuming a paused session, and cleanup
  running at the same time as an export.
- Failures while a dev boundary is closed in `Handover`: it counts as closed either way, and what
  becomes of its network is the subject of `DevNetwork`.
- Setup without a lock file in the old format, which commits like an update.
- Repository locking, argument lists and the process of the upstream push; any interleaving is
  allowed, so the lock could only remove behaviours.
- Parsing and printing of remote URLs by the Go library: a remote is modelled by its parts.
- The text of the packet filter rules and the state that `keep state` creates: rules are records,
  and a packet is judged as the first of its flow.
- Wrap-around of the 64-bit deadline revision, and the 32-bit cells of the diff table, whose
  values never exceed the number of lines of the shorter input.
- Ownership labels of dev networks: every modelled network is an owned one.
- Origins: non-ASCII input, percent-encoded hosts (which the hostname check refuses anyway) and
  Unicode white space.
- Origins.RenderOrigins: rules the parser cannot produce, such as other ports, are printed without
  what the file format cannot express; the round trip is stated for rules it can produce.
