# A verified model of the ABK KSU sandbox

The repository adds a sandbox for Android applications to a kernel, with a module that keeps one mount namespace per
application UID, hooks that confine the tasks inside it, and an installer that patches the kernel tree. This project
models the parts whose correctness is not visible in one function and proves what they promise.

## What is modelled

**The instance table and its revocation protocol** (`SlotTable`, `SlotTableFacts`, `InstanceTable`, `Credentials`,
`SandboxSystem` and the modules that reason about it). `InstanceTable.Instances` is the fixed table as the kernel keeps
it, an array changed in place by scanning loops; every method is one region under the instance mutex and is proved equal
to a function of `SlotTable`. `SandboxSystem` is the protocol: slots, tasks and revocations, with one step per locked
region, per action on references or credentials between two regions, or per atomic read of the kill scan. A run is any
interleaving of these steps from an empty table. An exec is a check step and a commit step; anything else may happen
between them, each asks anew whether the caller is sandboxed, and exec changes user ids, capabilities and secure bits in
any way in the meantime. The kernel's own services succeed or fail freely.

On top of the invariants, `CallRoutes` gives the order of checks of each kind of mount and unmount as a list, and compares
the calls of every run with it; `CallResults` and `EntryCourse` follow calls and entries to their ends.

Two hypotheses are named where they are used, and nowhere else:

* **One revocation at a time** (`ObeysOneRevocation`): a UID is not marked again while a revocation of it is unfinished.
  The code does not enforce it.
* **Honest comparison** (`ObeysHonestCompare`): the namespace comparison behind the mount privilege check does not fail
  for want of memory or of a path while the call has a reservation in a ready slot of its UID.

Neither follows from a check in the code, so the results they give are also proved for all runs with exact conditions in
place of both: which releases are safe, which free only emptied slots, which calls abandon a pending record, and which
entries make a slot that lacks one. Only while releases are safe does the second hypothesis say the same as the last two.

**LSM lists** (`LsmList`, `LsmScanner`, `LsmConfig`). The cursor scanner and the membership test of the kernel side, the
shell normaliser and the Python validator all refer to one meaning of a list: its tokens between commas.

**The installer's algorithms.** `IntegerTruth` is the evaluator of literal preprocessor conditions and
`PreprocessorMask` the three-valued scan that blanks inactive lines; `ConditionalGroups` gives the tree-shaped meaning of
section 6.10.1 of ISO/IEC 9899:2011 and compares the scan with it. `BraceScopes` and `ScopeSplice` are the brace
matcher, the choice of a function scope and the replacement of live text in it. `InstallTransaction` is the transaction
with its rollback, in which any file operation may fail and a failing write may leave any content.

**SELinux contexts** (`SandboxContext`): printing into the real buffer sizes and parsing at the third colon.

## What turned out not to hold

* Slot retention fails when revocations overlap: a slot can be freed under a live sandboxed task, which is then no longer
  recognised, while the slot still holds its namespace file (`OverlappingRevocations.OverlapFreesLiveSlot`) or after it
  has been emptied (`OverlappingRevocations.EmptyReleaseStrands`), both complete runs. Exactly: in any run every
  sandboxed task has always kept its slot and its credential shape if and only if at every release nobody lived in the
  UID or no slot of it could be freed, which are the worker's own two guards read again in the freeing region
  (`Revocation.RecognisedExactly`, and `Revocation.ReleaseRetainsExactly` for one release).
* Reference conservation fails likewise, exactly when a release frees a slot that still holds a file or a mount
  (`SandboxRuns.ConservedExactly`).
* Pending records outlive their calls. In any run no ready slot has ever had a pending record without its call if and
  only if no call so far left while it owned one: at a question asked when it is not recognised as sandboxed, or at a
  comparison that fails, spuriously or because the slot is of another namespace (`SandboxRuns.OrphansExactlyInRuns`,
  `PendingRecords.OrphansExactly` for one step). The two have always been one-to-one if and only if, besides, no entry
  made a new slot for a UID with a call whose record went with the old one (`SandboxRuns.PendingExactlyInRuns`,
  reached in `LeakedRecord.RevivalIsReachable`). Two complete runs leave a record behind: one without any revocation,
  by a spurious failure (`LeakedRecord.LeakIsReachable`), and one with genuine comparisons only, by overlapping
  revocations (`LeakedRecord.GenuineLeakIsReachable`). While releases are safe a spurious failure is the only way
  (`SandboxRuns.PendingWhenSafe`).
* A valid MLS level of 95 characters loses its last one in the 128-byte context; 94 is the exact bound, because the
  printing function never returns the buffer size and so the length test after it cannot fire
  (`SandboxContext.PrintThenParse`, `SandboxContext.LevelsCollide`).
* A rollback restores the initial filesystem if and only if no file that existed is a directory when it starts. Removing
  a file and then writing below its path makes it one (`InstallTransaction.ReplacementLoses`). And a rollback reports a
  failure although everything is restored when a directory was recorded as missing below a regular file, because rmdir
  then fails with "not a directory" rather than "no such file" (`InstallTransaction.RefusedWriteFailsRollback`).

## Model

| member | source | states |
|---|---|---|
| `Revocation.SandboxedStaysCurrent` | files/abk_ksu_sandbox/namespace.c:570-692 | in every run with one revocation per UID at a time, a live task that committed a sandbox credential has its exact credential shape and is recognised as sandboxed, whatever entries, forks, mounts and revocations interleave, also between the check and the commit of an exec |
| `Revocation.RecognisedExactly` | files/abk_ksu_sandbox/namespace.c:650-692 | in every run without any hypothesis: up to any point all sandboxed tasks have always kept slot and shape if and only if every release so far was safe, that is, nobody lived in its UID or it freed nothing |
| `Revocation.ReleaseRetainsExactly` | files/abk_ksu_sandbox/namespace.c:654-667 | the same for one release in any sound state |
| `Revocation.RetainedExactly` | files/abk_ksu_sandbox/namespace.c:257-706 | no step but an unsafe release takes a slot from a live sandboxed task |
| `Revocation.RescanIsSafe` | files/abk_ksu_sandbox/namespace.c:570-591 | scanning again in the freeing region would make a release safe |
| `Revocation.SecuredReleases` | files/abk_ksu_sandbox/namespace.c:671-692 | with one revocation at a time every release is safe |
| `Revocation.ExecShapeStep` | files/abk_ksu_sandbox/lsm.c:434-499 | check and commit of an exec, each with its own reading of the table, keep the shape of a task that has its slot |
| `Revocation.ExecCheckDecides` | files/abk_ksu_sandbox/lsm.c:434-465 | for a task that has its slot the check passes exactly the credentials of the sandbox's shape, and changes nothing otherwise |
| `Revocation.ChangeDecides` | files/abk_ksu_sandbox/lsm.c:387-406 | and so do the hooks of set*uid and set*gid |
| `Revocation.SecuredStep` | files/abk_ksu_sandbox/namespace.c:570-692 | the invariant behind it: shapes, retained slots, at most one unfinished request per UID, and no sandboxed task or entry left in a UID once its scan found nobody |
| `Revocation.ScanDeserts` | files/abk_ksu_sandbox/namespace.c:570-591 | when a scan finds nobody to kill, no live task has a sandbox identity of the UID |
| `Revocation.ScanKillsExactly` | files/abk_ksu_sandbox/namespace.c:570-591 | where nobody outside has root as effective user together with the identity of a slot, a scan signals exactly the live sandboxed tasks of the UID, and finds somebody if and only if one lives there; the other processes of the application are left alone |
| `Revocation.ExitIsFinal` | files/abk_ksu_sandbox/namespace.c:580-587 | a task that has exited is never signalled again and never comes back |
| `Revocation.DesertedStep` | files/abk_ksu_sandbox/core.c:243-251 | and no step makes one appear while the UID is marked and has no entrants: a commit would need an entry, a fork a parent |
| `Revocation.ReleaseRetains` | files/abk_ksu_sandbox/namespace.c:650-669 | the release frees no slot that a live sandboxed task lives in |
| `OverlappingRevocations.OverlapFreesLiveSlot` | files/abk_ksu_sandbox/namespace.c:708-723 | a reachable state in which a second revocation, marking between the scan and the release of the first, has freed the slot of a live sandboxed task while it held a namespace file |
| `OverlappingRevocations.EmptyReleaseStrands` | files/abk_ksu_sandbox/namespace.c:654-667 | a reachable state whose release frees only emptied slots, keeps all references, and still takes the slot of a live sandboxed task |
| `SandboxRuns.TableInEveryRun` | files/abk_ksu_sandbox/namespace.c:70-136 | in every run without any hypothesis: an allocated slot is exactly one of ready and revoking, a free one neither, one slot per UID; count and bytes of each ledger equal those of its records, at most 2^30 bytes; and entry counts equal the tasks between join and completion |
| `SandboxRuns.CompletionIsMatched` | files/abk_ksu_sandbox/namespace.c:318-336 | in every run each completion finds the slot of its identity with a positive count, so the unmatched branch is never taken |
| `SandboxRuns.ConservedRun` | files/abk_ksu_sandbox/namespace.c:440-483 | with one revocation at a time, namespace-file and mount references taken and not yet dropped are exactly those held by slots, tracked records, tasks in a call and workers between two regions; the file references of all six comparisons are included, three in a mount (hook, privilege check, bind) and three in an unmount (validation, privilege check, hook) |
| `SandboxRuns.ConservedExactly` | files/abk_ksu_sandbox/namespace.c:593-669 | in every run without any hypothesis: up to any point the accounts have always balanced if and only if every release so far freed only slots without file and mount |
| `SandboxRuns.NothingLeaks` | files/abk_ksu_sandbox/namespace.c:593-669 | when nobody is in a call, no request is unfinished and no slot is in use, no reference is left, provided releases freed only empty slots |
| `SandboxRuns.ConcurrentEntriesShare` | files/abk_ksu_sandbox/namespace.c:257-316 | in every run without any hypothesis: entries in progress for one UID have one identity and are bound for one namespace, that of the ready slot of the UID if there is one |
| `SandboxRuns.OneNamespacePerUid` | files/abk_ksu_sandbox/namespace.c:257-316 | while releases are safe, all live sandboxed tasks of a UID with a ready slot are in the one namespace of that slot, and have one identity, also long after their entries |
| `SandboxRuns.OneRevocationIsSafe` | files/abk_ksu_sandbox/namespace.c:671-692 | with one revocation at a time every release of a run is safe and frees only empty slots |
| `SandboxRuns.PendingRun` | scripts/install.py:1551-1631 | under both hypotheses, in a ready slot the owners of pending records are exactly the tasks between a reservation and its result, each owning one |
| `SandboxRuns.OrphansExactlyInRuns` | scripts/install.py:1551-1631 | in every run without any hypothesis: up to any point no ready slot has ever had a pending record without its call, or two for one, if and only if no call so far left while it owned one |
| `SandboxRuns.PendingExactlyInRuns` | scripts/install.py:1551-1631 | in every run without any hypothesis: up to any point the correspondence has always held if and only if no call so far abandoned a record and no entry made a new slot for a UID with a call still due one |
| `SandboxRuns.PendingWhenSafe` | scripts/install.py:1551-1631 | while releases are safe, it has always held if and only if no comparison so far was a harmful spurious failure |
| `SandboxRuns.ConservesExactly` | files/abk_ksu_sandbox/namespace.c:654-667 | any step keeps the reference balance if and only if it is not a release of a slot that holds a namespace file or a mount |
| `EntryAccounting.AccountedStep` | files/abk_ksu_sandbox/namespace.c:257-336 | every step keeps table, ledgers, entry counts and request phases sound, and every marked slot is detached or will be reached by an unfinished request |
| `EntryAccounting.HomeOf` | files/abk_ksu_sandbox/namespace.c:318-336 | a task between join and completion always has an allocated slot of its identity with a positive count |
| `EntryAccounting.SlotMoves` | files/abk_ksu_sandbox/namespace.c:257-706 | everything any step can do to any one slot |
| `References.FilesStep` | files/abk_ksu_sandbox/namespace.c:257-368 | each step, the three comparisons of a mount and the three of an unmount among them, balances namespace-file references taken, dropped and held |
| `MountReferences.MountsStep` | files/abk_ksu_sandbox/namespace.c:440-550 | each step balances mount references taken, dropped and held |
| `References.ReleasedAreDetached` | files/abk_ksu_sandbox/namespace.c:593-669 | with one revocation at a time every slot a release frees has been detached by the same worker run |
| `MountCalls.SharedStep` | files/abk_ksu_sandbox/namespace.c:257-316 | every step keeps everybody of a ready slot in its namespace, and every file in hand equal to the slot's |
| `PendingRecords.OrphansExactly` | scripts/install.py:1444-1449 | in any sound state a step leaves a pending record without its call if and only if a call that owns one leaves unrecognised, or at a comparison that fails for whatever reason |
| `PendingRecords.PendingStep` | files/abk_ksu_sandbox/lsm.c:204-233 | every step that neither abandons a record nor makes a slot that lacks one keeps pending records one-to-one with mount calls between reserve and result |
| `PendingRecords.SettledLedger` | files/abk_ksu_sandbox/namespace.c:370-483 | as long as no record is without its call, a ready slot without a mount call in progress has only free and tracked records |
| `PendingRecords.PendingExactly` | scripts/install.py:1444-1449 | in any sound state a step keeps the correspondence if and only if it neither abandons a record nor makes a new slot for a UID with a call still due one |
| `PendingRecords.PendingWhenRecognised` | scripts/install.py:1444-1449 | where every sandboxed task has its slot and shares its namespace, a step breaks it if and only if it is a spurious failure at the privilege check, for a call with a reservation whose UID has a ready slot |
| `LeakedRecord.LeakIsReachable` | scripts/install.py:1444-1449 | a run without revocations, and without spurious failures before, reaches such a failure, after which no task is in a call and the ready slot keeps a pending record |
| `LeakedRecord.GenuineLeakIsReachable` | scripts/install.py:1444-1449 | so does a run in which no comparison fails spuriously: with overlapping revocations a call reserves in a new slot of another namespace and leaves at the privilege check |
| `LeakedRecord.RevivalIsReachable` | files/abk_ksu_sandbox/namespace.c:654-667 | a run with overlapping revocations and genuine comparisons reaches an entry that makes a new slot for a UID with a call still due a record |
| `CallRoutes.CallsFollowRoute` | files/abk_ksu_sandbox/lsm.c:108-340 | in every run: a mount or unmount in progress has, since it began and unless its caller has asked unrecognised since, passed exactly the checks of its kind before the one it is at, once and in order |
| `CallRoutes.ActsAfterAllChecks` | files/abk_ksu_sandbox/lsm.c:315-340 | while releases are safe the kernel mounts or unmounts for a sandboxed task only after it has passed every check of its kind: namespace comparisons, ledger look-ups and the reservation |
| `CallRoutes.UnmountsOnlyTracked` | files/abk_ksu_sandbox/lsm.c:331-340 | in every such run a sandboxed task unmounts only a mount that its own ledger tracked when it was last asked, after a comparison that found it in the namespace of the file it took |
| `CallRoutes.MountsOnlyCompared` | files/abk_ksu_sandbox/lsm.c:315-329 | and mounts only after the first hook has found it in the namespace of the file it took |
| `CallRoutes.UnmountIsTracked` | files/abk_ksu_sandbox/namespace.c:508-521 | in any state the step that lets a recognised caller unmount has found the mount tracked |
| `CallRoutes.GateDecides` | files/abk_ksu_sandbox/lsm.c:204-233 | at each check a call goes on if and only if it passes (comparison without failure and in the same namespace, mount tracked, reservation made, or own capabilities at a privilege check) and the kernel has no objection of its own |
| `CallRoutes.QuestionIsPut` | files/abk_ksu_sandbox/namespace.c:351-368 | a recognised caller takes the file of the ready slot of its UID, and is refused if there is none |
| `CallRoutes.RefusedReports` | scripts/install.py:1551-1631 | where a refused call goes: a mount to its report, except from the privilege check, and an unmount back to the caller |
| `CallRoutes.UnrecognisedGoes` | files/abk_ksu_sandbox/lsm.c:204-340 | a caller that is not recognised passes the later hooks with nothing reserved and nothing looked up, and is refused at the privilege checks |
| `CallRoutes.BookingCharges` | files/abk_ksu_sandbox/namespace.c:370-412 | a reservation charges one record, and the size of a tmpfs or nothing for a bind mount, and a failed one changes nothing |
| `CallResults.MountEndsTracked` | files/abk_ksu_sandbox/namespace.c:440-483 | in every run with safe releases and honest comparisons, a mount that succeeded is tracked after its report if the UID still has a ready slot |
| `CallResults.TrackedStays` | files/abk_ksu_sandbox/namespace.c:485-550 | and stays tracked under every step, as long as the UID has a ready slot, until a task of the UID has unmounted it |
| `CallResults.InsideIsBounded` | files/abk_ksu_sandbox/lsm.c:204-340 | in every run a task takes at most 12 steps of its own inside one entry, call or exec |
| `CallResults.TaskNeverStuck` | files/abk_ksu_sandbox/lsm.c:204-340 | and always has a step to take there |
| `EntryCourse.CommitsItsOwn` | files/abk_ksu_sandbox/core.c:179-267 | in every run what a task commits is a sandbox credential for its own UID and GID when it asked to enter and for the SID it asked for, and it is then in the namespace of the slot, which it created or has switched to |
| `EntryCourse.JoinDecides` | files/abk_ksu_sandbox/namespace.c:272-291 | a join goes on to the commit, in the namespace of the slot, if and only if switching succeeded |
| `EntryCourse.EnterDecides` | files/abk_ksu_sandbox/namespace.c:257-316 | an entry is begun, for the task's own UID, exactly when the table admits it |
| `RevokeProgress.RevocationIsBounded` | files/abk_ksu_sandbox/namespace.c:671-692 | in every run a request takes a bounded number of steps and at most 51 worker runs, the initial one and 50 retries |
| `RevokeProgress.NeverStuck` | files/abk_ksu_sandbox/namespace.c:671-692 | an unfinished request always has an enabled step |
| `RevokeProgress.LeftAloneItEnds` | files/abk_ksu_sandbox/namespace.c:671-692 | from any sound state the worker alone ends the request within its measure |
| `RevokeProgress.RevocationEnds` | files/abk_ksu_sandbox/namespace.c:671-692 | in any run a request that has taken as many steps as its measure has ended, as freed or kept |
| `RevokeProgress.RevocationOutcome` | files/abk_ksu_sandbox/namespace.c:650-724 | with one revocation at a time: a request that ended by freeing leaves no slot of its UID that could be freed; one that ended by keeping leaves every slot it marked in place, marked, and without file and mounts, and each of its 51 worker runs had met an entry in progress or a living task, unless it had no worker |
| `RevokeProgress.GivenUpExactly` | files/abk_ksu_sandbox/namespace.c:671-692 | in every run a queued request is given up if and only if 51 of its worker runs have met somebody, and then it has used 51 runs; one that could not be queued frees nothing |
| `RevokeProgress.RetriesAreObstructions` | files/abk_ksu_sandbox/namespace.c:676-684 | the retry counter is the number of worker runs that met somebody |
| `RevokeProgress.WorkerDecides` | files/abk_ksu_sandbox/namespace.c:676-692 | a run that meets an entry or a living task leaves the request queued while at most 50 runs are used, and gives up at the 51st; one that meets nobody goes on to free the slots |
| `RevokeProgress.DesertedIsFreed` | files/abk_ksu_sandbox/namespace.c:671-692 | once nobody enters the UID and nobody in it is left to kill, a worker left alone neither retries nor gives up, and when it ends it has freed the slots |
| `RevokeProgress.MeasureFalls` | files/abk_ksu_sandbox/namespace.c:671-692 | each step of a request lowers its measure of retries and remaining phases |
| `RevokeProgress.RevokedUntilReleased` | files/abk_ksu_sandbox/namespace.c:593-706 | over any stretch of a run in which no release finds it releasable a marked slot stays marked, and once detached it stays empty |
| `RevokeProgress.RevokedRefusesAlong` | files/abk_ksu_sandbox/namespace.c:279-282 | all along such a stretch every entry of the UID is refused as revoked, every reservation fails, and neither changes the table |
| `RevokeProgress.RevokedUidRefuses` | files/abk_ksu_sandbox/namespace.c:279-282 | a join for a marked UID fails and changes nothing |
| `RevokeProgress.RevokedUidReservesNothing` | files/abk_ksu_sandbox/namespace.c:370-412 | a marked UID gets no new ledger record |
| `Credentials.AttemptKeepsShape` | files/abk_ksu_sandbox/lsm.c:387-413 | for a recognised caller every set*uid, set*gid and setgroups attempt ends with the credential shape of the sandbox: allowed changes do not break it, and others are refused |
| `Credentials.HooksAreExact` | files/abk_ksu_sandbox/lsm.c:387-465 | for a sandboxed caller each of these hooks, and the check of an exec, passes exactly the results that still have the shape |
| `Credentials.UnrecognisedUntouched` | files/abk_ksu_sandbox/lsm.c:387-499 | for a caller that is not recognised every change goes through and every exec is as the kernel made it |
| `Credentials.RecognisedIff` | files/abk_ksu_sandbox/core.c:106-135 | a caller is recognised exactly when its credential, apart from capabilities, secure bits and groups, is that of a sandbox with a slot |
| `Credentials.PeerIff` | files/abk_ksu_sandbox/lsm.c:46-64 | the tasks an application may trace and signal are exactly its own recognised ones |
| `Credentials.ExecShapeExactly` | files/abk_ksu_sandbox/lsm.c:434-499 | for every answer that the check and the commit of an exec get about the caller, and arbitrary changes between them, exactly when the committed credential has the shape |
| `Credentials.UnmediatedExecEscapes` | files/abk_ksu_sandbox/lsm.c:470-499 | without the commit hook an exec keeps the shape if and only if it rewrites nothing |
| `Credentials.PlainExecAllowed` | files/abk_ksu_sandbox/lsm.c:434-465 | the hooks do not refuse an ordinary exec, and it leaves the credential as it was |
| `Credentials.ShapeIsCurrent` | files/abk_ksu_sandbox/core.c:106-135 | a task with the shape is recognised, and is a peer of its own UID only, if and only if a slot of its identity is in use |
| `Credentials.Credential.PrepareSandbox` | files/abk_ksu_sandbox/core.c:137-177 | the prepared credential, field by field, has the sandbox shape; it fails exactly for want of a group list or of a security blob, with their errors |
| `Credentials.Credential.PrepareExec` | files/abk_ksu_sandbox/lsm.c:416-432 | the exec hook's writes to the credential under construction |
| `Credentials.Credential.CommitExec` | files/abk_ksu_sandbox/lsm.c:470-499 | the committing hook's writes, whatever exec has changed |
| `SlotTableFacts.UidCases` | files/abk_ksu_sandbox/namespace.c:70-92 | in a sound table a UID has a ready slot, or a marked one, or none, and the lookups tell which |
| `SlotTableFacts.JoinOrCreateOutcome` | files/abk_ksu_sandbox/namespace.c:257-316 | the complete decision of a join, with the table it leaves; the branches for a reserved slot under revocation never run |
| `SlotTableFacts.FurnishOutcome` | files/abk_ksu_sandbox/namespace.c:288-316 | a reserved slot either becomes a ready one with an empty ledger and one entrant, or is free again |
| `SlotTableFacts.EntryCompleteOutcome` | files/abk_ksu_sandbox/namespace.c:318-336 | completion lowers the count of the identity's only slot |
| `SlotTableFacts.MountReserveOutcome` | files/abk_ksu_sandbox/namespace.c:370-412 | a reservation succeeds exactly within count and byte quota; the unsigned subtraction never wraps and the branch without a free record is unreachable |
| `SlotTableFacts.ClearRecordOutcome` | files/abk_ksu_sandbox/namespace.c:427-438 | clearing an occupied record takes exactly its share off both counters, so neither guard skips |
| `SlotTableFacts.MountResultOutcome` | files/abk_ksu_sandbox/namespace.c:440-483 | a result turns the caller's pending record into a tracked one that takes over the reference, or clears it; otherwise the caller keeps the reference |
| `SlotTableFacts.UmountResultOutcome` | files/abk_ksu_sandbox/namespace.c:523-550 | an unmount frees the first record of the mount and hands its reference back |
| `SlotTableFacts.DetachOk` | files/abk_ksu_sandbox/namespace.c:593-631 | a detach round keeps the table sound |
| `InstanceTable.Instances.FindReadyLocked` | files/abk_ksu_sandbox/namespace.c:70-80 | the first ready slot of the UID |
| `InstanceTable.Instances.UidRevokingLocked` | files/abk_ksu_sandbox/namespace.c:82-92 | whether a slot of the UID is marked |
| `InstanceTable.Instances.ReleaseUnreadyLocked` | files/abk_ksu_sandbox/namespace.c:94-108 | the slot after a failed entry, all other slots unchanged |
| `InstanceTable.Instances.ReserveLocked` | files/abk_ksu_sandbox/namespace.c:110-136 | the slot reserved and the new table |
| `InstanceTable.Instances.IdentityMatches` | files/abk_ksu_sandbox/namespace.c:138-151 | true exactly when an allocated slot has the identity |
| `InstanceTable.Instances.JoinOrCreateNamespace` | files/abk_ksu_sandbox/namespace.c:257-316 | table and outcome of the locked part of a join |
| `InstanceTable.Instances.EntryCompletes` | files/abk_ksu_sandbox/namespace.c:318-336 | the table after a completion |
| `InstanceTable.Instances.ReserveMount` | files/abk_ksu_sandbox/namespace.c:370-412 | table and error of a reservation, with unsigned 64-bit arithmetic |
| `InstanceTable.Instances.ClearMountLocked` | files/abk_ksu_sandbox/namespace.c:427-438 | the slot with one record cleared |
| `InstanceTable.Instances.ResultOfMount` | files/abk_ksu_sandbox/namespace.c:440-483 | the table after a result and the reference the caller still has to drop |
| `InstanceTable.Instances.IsTracked` | files/abk_ksu_sandbox/namespace.c:485-506 | whether the ledger of the UID's ready slot tracks the mount |
| `InstanceTable.Instances.ResultOfUmount` | files/abk_ksu_sandbox/namespace.c:523-550 | the table after an unmount and the reference to drop |
| `InstanceTable.Instances.RevokeHasEntrants` | files/abk_ksu_sandbox/namespace.c:633-648 | whether a slot of the UID has entrants |
| `InstanceTable.Instances.DetachRound` | files/abk_ksu_sandbox/namespace.c:593-631 | one round: the new table, the file and the mounts, in order, to drop outside the lock |
| `InstanceTable.Instances.RevokeReleaseSlots` | files/abk_ksu_sandbox/namespace.c:650-669 | the table after a release |
| `InstanceTable.Instances.MarkUidRevoking` | files/abk_ksu_sandbox/namespace.c:694-706 | the table after a mark |
| `InstanceTable.CompletedEntry` | files/abk_ksu_sandbox/namespace.c:257-336 | an entry and its completion cancel out in every slot's count, and leave a slot of the identity |
| `InstanceTable.TryEscape` | files/abk_ksu_sandbox/core.c:179-267 | on every exit all entries are balanced; a credential is committed exactly on success, only with the LSM ready, SELinux enforcing, policy and SID obtained, has the sandbox shape and is recognised; the first failing test gives its own error and leaves the table as it was, and after the tests every outcome of the join gives its error and its table |
| `InstanceTable.Prepare` | files/abk_ksu_sandbox/core.c:203-246 | the tests before the table, in order, each with its error, and the prepared credential when all pass |
| `LsmScanner.OrderIsSafe` | files/abk_ksu_sandbox/lsm_order.h:32-90 | for every list the cursor loops end, read nothing past the terminator, and accept exactly the non-empty pairwise distinct token lists that end in the sandbox, or in the sandbox and ksu where allowed |
| `LsmScanner.ScanNext` | files/abk_ksu_sandbox/lsm_order.h:51-69 | one token is accepted exactly when it is non-empty and none of the earlier ones |
| `LsmScanner.TokenEquals` | files/abk_ksu_sandbox/lsm_order.h:6-16 | true exactly when the token is the name |
| `LsmScanner.TokensEqual` | files/abk_ksu_sandbox/lsm_order.h:18-30 | true exactly when the two tokens have the same characters |
| `LsmScanner.ListContains` | files/abk_ksu_sandbox/lsm.c:535-551 | for every list and every non-empty comma-free name, true exactly when the name is one of the tokens, although a failed match skips a whole name |
| `LsmScanner.NoTokenInside` | files/abk_ksu_sandbox/lsm.c:545-550 | why skipping is safe: no token starts inside a match of the name |
| `LsmList.TokenIffInSplit` | files/abk_ksu_sandbox/lsm.c:535-551 | standing between delimiters somewhere is being one of the tokens |
| `LsmList.SplitJoin` | scripts/libabk.sh:139-164 | splitting undoes joining comma-free tokens |
| `LsmList.JoinSplit` | scripts/libabk.sh:139-164 | joining undoes splitting |
| `LsmConfig.EnableLsm` | scripts/libabk.sh:139-164 | the shell loop computes the normalised list, or the error of the first check that fails |
| `LsmConfig.NormalizeTokens` | scripts/libabk.sh:150-160 | the loop stops exactly on a repeated token and otherwise drops only the LSM |
| `LsmConfig.WrappedContains` | scripts/libabk.sh:145-158 | the comma-wrapped substring tests decide membership among the tokens, the empty one included |
| `LsmConfig.NormalizedTokens` | scripts/libabk.sh:139-164 | the tokens of the new value are the others, then the LSM; they are distinct, non-empty and of the list alphabet |
| `LsmConfig.WithoutOrder` | scripts/libabk.sh:150-160 | the other tokens keep their relative order |
| `LsmConfig.NormalizedIsValid` | scripts/install.py:1884-1903 | every value the shell produces passes the Python checks and the kernel's strict order check |
| `LsmConfig.ValidIsSafe` | scripts/install.py:1884-1903 | the Python checks accept exactly the safe orders over the list alphabet that name selinux |
| `LsmConfig.NormalizedTwice` | scripts/libabk.sh:139-164 | normalising a normalised value changes nothing |
| `LsmConfig.WrittenValue` | scripts/libabk.sh:56-74 | after the rewrite the file has exactly one assignment, with the value written, as its last line, and rewriting it again changes nothing |
| `LsmConfig.EnabledFileIsValid` | scripts/libabk.sh:80-165 | on whole files: whenever the build step succeeds, the file passes the CONFIG_LSM checks and a second application leaves it as it is |
| `LsmConfig.EnabledFileIs` | scripts/libabk.sh:80-165 | on a file with one list: the error of the normaliser on that list, or all other lines as they were, in their order, and the normalised list as the last line |
| `LsmConfig.StartsFromFile` | scripts/libabk.sh:88-137 | the value that is normalised is that of the only assignment of the file, or else the default of the kernel tree |
| `LsmConfig.RefusesOthers` | scripts/libabk.sh:124-137 | an assignment that is not quoted, or a second one, is refused |
| `LsmConfig.ValidFileIff` | scripts/install.py:1884-1903 | the verification step accepts exactly the files with one list, quoted, that is a safe order over the alphabet and names selinux |
| `LsmConfig.DropAppend` | scripts/libabk.sh:66 | a rewrite works line by line |
| `LsmConfig.AssignsIff` | scripts/libabk.sh:66 | the lines it drops are exactly the assignments of the symbol and the comment that unsets it |
| `IntegerTruth.PreprocessorIntegerTruth` | scripts/install.py:387-426 | for every text an answer exactly when it is an expression of parentheses, '!' and signed literals, and then the truth of its value; the recursion ends |
| `IntegerTruth.WrapsEntire` | scripts/install.py:389-402 | a scan that says no rules every expression out, and its depth never becomes negative |
| `IntegerTruth.RendersUnique` | scripts/install.py:387-426 | a text is at most one expression |
| `IntegerTruth.RendersBalanced` | scripts/install.py:389-402 | every expression of the fragment is parenthesis-balanced |
| `IntegerTruth.LiteralIff` | scripts/install.py:407-426 | the literal scan recognises exactly sign, digits of a base, and suffix |
| `IntegerTruth.LiteralOfParts` | scripts/install.py:407-426 | and the parts determine the value |
| `IntegerTruth.NumeralsAreRead` | scripts/install.py:415-425 | every number, written in hexadecimal, binary, octal or decimal, is read back |
| `IntegerTruth.NumberForms` | scripts/install.py:407-411 | the numbers are exactly the four forms of the pattern, over their digits |
| `IntegerTruth.StripParts` | scripts/install.py:388 | stripping removes white space at both ends, and all of it |
| `PreprocessorMask.MaskInactive` | scripts/install.py:429-484 | the scan fails exactly on unbalanced directives, with the error of the first unmatched one; otherwise every line that some consistent choice of the conditions keeps is as it was, and of every other line all characters but the line break are blanks |
| `PreprocessorMask.ClassifyLine` | scripts/install.py:434-444 | what each word after the number sign means, with the expression up to the line break |
| `PreprocessorMask.DirectiveForm` | scripts/install.py:434-441 | only a line with blanks, a number sign, blanks and one of the six words, complete, is a directive |
| `PreprocessorMask.LinesUnique` | scripts/install.py:437-439 | the lines are the only way to take a text apart into non-empty pieces that end at its line breaks |
| `PreprocessorMask.ScanLine` | scripts/install.py:443-475 | one line keeps the stack in step with the open sections and reports exactly the unmatched directives |
| `PreprocessorMask.PossibleIff` | scripts/install.py:443-475 | three truth values suffice: a group is possible exactly when some choice that respects the literal conditions processes it |
| `PreprocessorMask.OutputAligned` | scripts/install.py:476-484 | output length and line breaks are those of the input, and every character is kept or blanked |
| `PreprocessorMask.AlignedLines` | scripts/install.py:369-370 | blanking comments and literals in place keeps the lines of both texts in step |
| `ConditionalGroups.KeptIffLive` | scripts/install.py:429-484 | against the tree-shaped meaning of conditional inclusion the scan is sound and exact: a line stays exactly when it is an #endif or some choice that respects the literal conditions processes it |
| `ConditionalGroups.BalancedIffGroup` | scripts/install.py:429-484 | the directive sequences it accepts are exactly those of the grammar |
| `ConditionalGroups.GroupPasses` | scripts/install.py:429-484 | the lines of a group leave the open sections as they were and are traced as the tree's meaning says |
| `BraceScopes.MatchBraces` | scripts/install.py:532-540 | the stack loop finds exactly the pairs in which the second brace is the first to balance the other, and tells whether every opening brace has one |
| `BraceScopes.PairsNest` | scripts/install.py:532-540 | matched pairs never cross |
| `ScopeSplice.ScopeBounds` | scripts/install.py:519-564 | a scope is returned exactly when the braces close and all occurrences of the anchor that select a pair select this one; it is a matched pair that no other encloses |
| `ScopeSplice.SelectedIsOutermost` | scripts/install.py:544-560 | neither an enclosing pair nor a following body is ever enclosed by another pair |
| `ScopeSplice.CandidateOf` | scripts/install.py:545-560 | the leftmost pair around the occurrence, else the body that follows without a semicolon before it |
| `ScopeSplice.CountedOnce` | scripts/install.py:630-632 | counting one occurrence is having one place, up to overlap |
| `ScopeSplice.ReplaceLiveInScope` | scripts/install.py:619-634 | it succeeds exactly when the anchor selects a scope and the target has one place in its live text; the result has the replacement in that place, and before and after it the text as it was |
| `ScopeSplice.WindowAgrees` | scripts/install.py:619-634 | the window lies in the scope, and there the text is the target except where the target has a blank |
| `ScopeSplice.WindowOnce` | scripts/install.py:619-634 | there is at most one such window |
| `ScopeSplice.MaskLive` | scripts/install.py:487-493 | it fails exactly on unbalanced directives; otherwise the lines no consistent choice keeps are blanked, then the lexer blanks in what is left, and nothing else changes |
| `InstallTransaction.Transaction.Rollback` | scripts/install.py:268-298 | after any operations, however they failed, the initial files, contents and directories are back and nothing else, except files in whose place a directory stands; and exactly when it reports a failure |
| `InstallTransaction.RestoredIff` | scripts/install.py:268-298 | the initial filesystem is restored if and only if no initial file is a directory when the rollback starts |
| `InstallTransaction.RunInstaller` | scripts/install.py:300-320 | a run that commits has done all its operations; any other run whose files and directories are kept apart leaves the filesystem as it was; and where nothing fails by itself or aborts it, it commits if and only if every operation is possible in its turn |
| `InstallTransaction.Transaction.RemoveDirectories` | scripts/install.py:287-296 | deepest first, no recorded directory is ever met non-empty |
| `InstallTransaction.Transaction.RestoreFiles` | scripts/install.py:270-285 | every recorded file is as it was, unless a directory stands in its place |
| `InstallTransaction.Transaction.RecordMissingDirectories` | scripts/install.py:230-241 | exactly the missing part of the chain is recorded, even when it then fails below a regular file |
| `InstallTransaction.Transaction.RecordDirectory` | scripts/install.py:243-250 | every missing directory of the chain is recorded |
| `InstallTransaction.Transaction.RecordFile` | scripts/install.py:252-266 | the file is recorded once, with its initial content if it had any |
| `InstallTransaction.Transaction.Write` | scripts/install.py:339-349 | the new filesystem of a successful write; at every point of a failing one it can be undone; where nothing fails by itself it succeeds exactly when no directory is in its place and no file above it |
| `InstallTransaction.Transaction.RemoveFile` | scripts/install.py:352-360 | the same for a removal; where nothing fails by itself it succeeds exactly when no directory is in its place |
| `InstallTransaction.Transaction.AddDirectory` | scripts/install.py:1856-1858 | the same for a recorded directory; where nothing fails by itself it succeeds exactly when no file is in its place or above it |
| `InstallTransaction.ReplacementLoses` | scripts/install.py:268-298 | for every initial file: removing it and writing below its path makes a rollback lose it |
| `InstallTransaction.RefusedWriteFailsRollback` | scripts/install.py:230-241 | for every initial file: a write two levels below it changes nothing and its rollback reports a failure |
| `SandboxContext.PrintThenParse` | files/abk_ksu_sandbox/policy.c:262-269 | for every application in range and every valid level, the printed context has user u and role r, and parsing it gives the type back, and the level exactly when it has at most 94 characters |
| `SandboxContext.DecimalValue` | files/abk_ksu_sandbox/policy.c:47-57 | the digits of a printed number have its value |
| `SandboxContext.EligibleIff` | files/abk_ksu_sandbox/core.c:70-104 | exactly the types that start with untrusted_app may enter, with their level; a context without the four parts is an error |
| `SandboxContext.LevelsCollide` | files/abk_ksu_sandbox/policy.c:262-269 | levels of 95 characters that differ in the last one print the same context |
| `SandboxContext.PrintContext` | files/abk_ksu_sandbox/policy.c:251-269 | errors exactly for a range or level that is not valid, and otherwise what the buffer shows of the context |
| `SandboxContext.PrintType` | files/abk_ksu_sandbox/policy.c:47-57 | the range check, and what the buffer shows of the type |
| `SandboxContext.CheckMls` | files/abk_ksu_sandbox/policy.c:59-75 | true exactly for 1 to 95 characters of the level alphabet |
| `SandboxContext.TypesDistinct` | files/abk_ksu_sandbox/policy.c:47-57 | different applications have different types |
| `SandboxContext.ParseIff` | files/abk_ksu_sandbox/core.c:45-68 | the parser returns a type and a level exactly when they are the third and the remaining part of the context |
| `SandboxContext.EntryContext` | files/abk_ksu_sandbox/core.c:70-104 | from an eligible caller to the sandbox: the type of its own application, its own level up to 94 characters, and no second entry from there |

## Left out

- Kernel services (namespace switching, path walking, RCU, allocation, credential and policy databases): they succeed or fail freely, with the effects the callers see.
- Weak memory: steps interleave; acquire and release pairs and READ_ONCE are taken as atomic reads.
- Wrap-around of the 32-bit entry count, which would need 2^32 entries at the same time; the byte counter's unsigned arithmetic is modelled.
- The ledger is a value inside its slot rather than a buffer of its own, so aliasing between two slots' ledgers is not captured; the table itself is an array updated in place.
- Only entry, fork and exec give a task a sandbox SID; a policy that lets other tasks change into it is outside the model.
- The privilege test before the module's own at a mount and an unmount: a caller with any effective capability may pass it, and any caller may fail it.
- A mount of a caller that is not recognised at the first hook: the module has no part in it, and the call ends there.
- The first exec hook is not a step of its own: the credential that reaches the check is arbitrary, whatever that hook wrote.
- Signals sent by the kill scan: what a signalled task does later is any of its own steps, or its exit.
- Path type, flag and option checks of mounts, the tmpfs option parser, the socket filter, ptrace and signal hooks, and the allow rules: they only refuse calls.
- The bitmap of owned policy types and the policy replacement under its lock.
- The terminating character that SELinux counts in the length of a context.
- The default list that awk extracts from security/Kconfig: a parameter of the file-level functions; several CONFIG_DEFAULT_SECURITY choices count as no default.
- The C lexer that blanks comments and literals: a parameter that blanks in place.
- Line breaks other than a line feed, backslash continuations, and word characters outside ASCII right after a directive name.
- An empty anchor in the scope search, on which the loop over its occurrences would not end.
- Symbolic links, file times, the backup directory and failures while a rollback itself copies or removes.
- Validation-only mode, and the concrete anchors, hooks and text blocks of the installer.
- InstanceTable.TryEscape: covers one task without interleaving; `SandboxSystem` has the interleaved form.
