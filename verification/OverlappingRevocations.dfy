/**
 Why the retention results need one revocation per UID: runs in which a second request marks the slot
 between the scan and the release of the first, which then frees it under a live task.
 */
module OverlappingRevocations {
  import opened Sequences
  import opened SlotTable
  import opened Credentials
  import opened SandboxSystem
  import opened Revocation
  import opened References
  import opened ConcreteRuns

  /** Two tasks of the application, before anybody has entered. */
  const Apps := [AppTask, AppTask]
  const OneIn := [EnteredTask(File.ns), AppTask]

  /** The first request at some phase of its only run, with an empty table and nobody sandboxed. */
  ghost function Idle(runs: nat, phase: Phase): State {
    At(BlankSlot, Apps, [Request(Uid, true, 0, runs, phase)], multiset{})
  }

  ghost predicate IdleReachable(runs: nat, phase: Phase) { Reachable(Idle(runs, phase), true, true) }

  lemma IdleStep(runs: nat, phase: Phase, step: Step, runs': nat, phase': Phase)
    requires IdleReachable(runs, phase) && Next(Idle(runs, phase), step, Idle(runs', phase'))
    requires OfRequest(step) && !step.Revoke?
    ensures IdleReachable(runs', phase')
  {
    ReachableStep(Idle(runs, phase), step, Idle(runs', phase'), true, true);
  }

  lemma FirstMark()
    ensures IdleReachable(0, Queued)
  {
    var init := At(BlankSlot, Apps, [], multiset{});
    InitReachable(init);
    assert MarkRevoking(init.slots, Uid) == init.slots;
    assert Apply(init, Revoke(Uid, true)) == Idle(0, Queued);
    ReachableStep(init, Revoke(Uid, true), Idle(0, Queued), true, true);
  }

  lemma StartStep()
    ensures Next(Idle(0, Queued), StartRun(0), Idle(1, Detaching(0)))
  {
  }

  lemma DetachStep(i: nat)
    requires i < MaxInstances
    ensures Next(Idle(1, Detaching(i)), DetachNext(0), Idle(1, Letting(i, None, [])))
  {
    assert Detach(Table(BlankSlot), i, Uid) == (Table(BlankSlot), None, []);
  }

  lemma LetStep(i: nat)
    requires i < MaxInstances
    ensures Next(Idle(1, Letting(i, None, [])), LetGo(0), Idle(1, Detaching(i + 1)))
  {
  }

  lemma PassBlank(i: nat)
    requires i < MaxInstances && IdleReachable(1, Detaching(i))
    ensures IdleReachable(1, Detaching(i + 1))
  {
    DetachStep(i);
    IdleStep(1, Detaching(i), DetachNext(0), 1, Letting(i, None, []));
    LetStep(i);
    IdleStep(1, Letting(i, None, []), LetGo(0), 1, Detaching(i + 1));
  }

  lemma Started()
    ensures IdleReachable(1, Detaching(0))
  {
    FirstMark();
    StartStep();
    IdleStep(0, Queued, StartRun(0), 1, Detaching(0));
  }

  lemma {:induction false} DetachingBlanks(i: nat)
    requires i <= MaxInstances
    ensures IdleReachable(1, Detaching(i))
  {
    if i == 0 {
      Started();
    } else {
      DetachingBlanks(i - 1);
      PassBlank(i - 1);
    }
  }

  lemma DoneStep()
    ensures Next(Idle(1, Detaching(MaxInstances)), DetachDone(0), Idle(1, Checking))
  {
  }

  lemma NobodyEnters()
    ensures !HasEntrants(Table(BlankSlot), Uid)
  {
    FirstIndexUnique(Table(BlankSlot), BusyFor(Uid), MaxInstances);
  }

  lemma CheckStep()
    ensures Next(Idle(1, Checking), CheckBusy(0), Idle(1, Scanning))
  {
    var s := Idle(1, Checking);
    NobodyEnters();
    assert RequestAfter(s, CheckBusy(0)) == s.requests[0].(phase := Scanning);
  }

  lemma ScanIdle()
    ensures Next(Idle(1, Scanning), Scan(0), Idle(1, Releasing))
  {
    assert forall i :: 0 <= i < MaxInstances ==> !Table(BlankSlot)[i].inUse;
    assert !AnyKillable(Idle(1, Scanning), Uid);
  }

  /** The first worker finds nothing, scans nobody, and is about to release. */
  lemma AboutToRelease()
    ensures IdleReachable(1, Releasing)
  {
    DetachingBlanks(MaxInstances);
    DoneStep();
    CheckStep();
    ScanIdle();
    IdleStep(1, Detaching(MaxInstances), DetachDone(0), 1, Checking);
    IdleStep(1, Checking, CheckBusy(0), 1, Scanning);
    IdleStep(1, Scanning, Scan(0), 1, Releasing);
  }

  /** Then the first task of the application enters. */
  lemma EnteredMeanwhile()
    ensures Reachable(At(Settled(File), OneIn, [Request(Uid, true, 0, 1, Releasing)], multiset{File}), true, true)
  {
    AboutToRelease();
    EntersReachably(BlankSlot, Apps, 0, [Request(Uid, true, 0, 1, Releasing)], multiset{}, File, true);
    assert Apps[0 := EnteredTask(File.ns)] == OneIn && multiset{} + multiset{File} == multiset{File};
  }

  // ----- the second request -----

  /** The table with one slot, these tasks, and both requests. */
  ghost function Both(slot: Slot, tasks: seq<Task>, phase: Phase, second: Request): State {
    At(slot, tasks, [Request(Uid, true, 0, 1, phase), second], multiset{File})
  }

  const SecondQueued := Request(Uid, true, 0, 0, Queued)
  const SecondStarted := Request(Uid, true, 0, 1, Detaching(0))
  const Marked := MarkedSlot(Settled(File), Uid)

  /** The second worker between its first two locked regions, with what it took out of the slot. */
  function SecondLetting(slot: Slot): Request
    requires slot.mounts.Some?
  {
    Request(Uid, true, 0, 1, Letting(0, slot.file, LedgerMounts(slot.mounts.value)))
  }

  lemma MarkNext(slot: Slot, tasks: seq<Task>)
    requires slot.inUse && slot.uid == Uid
    ensures Next(At(slot, tasks, [Request(Uid, true, 0, 1, Releasing)], multiset{File}), Revoke(Uid, true),
                 Both(MarkedSlot(slot, Uid), tasks, Releasing, SecondQueued))
  {
    assert MarkRevoking(Table(slot), Uid) == Table(MarkedSlot(slot, Uid));
  }

  lemma StartNext(tasks: seq<Task>)
    ensures Next(Both(Marked, tasks, Releasing, SecondQueued), StartRun(1), Both(Marked, tasks, Releasing, SecondStarted))
  {
    var requests := [Request(Uid, true, 0, 1, Releasing), SecondQueued];
    assert requests[1 := SecondStarted] == [Request(Uid, true, 0, 1, Releasing), SecondStarted];
  }

  lemma DetachAtFirst(slot: Slot)
    requires slot.inUse && slot.uid == Uid && slot.mounts.Some?
    ensures Detach(Table(slot), 0, Uid) == (Table(DetachedSlot(slot)), slot.file, LedgerMounts(slot.mounts.value))
  {
    TableUpdate(slot, DetachedSlot(slot));
  }

  lemma DetachFirst(slot: Slot, tasks: seq<Task>)
    requires slot.inUse && slot.uid == Uid && slot.mounts.Some?
    ensures Next(Both(slot, tasks, Releasing, SecondStarted), DetachNext(1),
                 Both(DetachedSlot(slot), tasks, Releasing, SecondLetting(slot)))
  {
    DetachAtFirst(slot);
    var requests := [Request(Uid, true, 0, 1, Releasing), SecondStarted];
    assert requests[1 := SecondLetting(slot)] == [Request(Uid, true, 0, 1, Releasing), SecondLetting(slot)];
  }

  lemma FreedTable(slot: Slot)
    ensures ReleaseSlots(Table(slot), Uid) == Table(ReleasedSlot(slot, Uid))
  {
  }

  lemma ReleaseNext(slot: Slot, tasks: seq<Task>, second: Request)
    ensures Next(Both(slot, tasks, Releasing, second), Release(0), Both(ReleasedSlot(slot, Uid), tasks, Freed, second))
  {
    FreedTable(slot);
    var requests := [Request(Uid, true, 0, 1, Releasing), second];
    assert requests[0 := Request(Uid, true, 0, 1, Freed)] == [Request(Uid, true, 0, 1, Freed), second];
  }

  /** Whatever the tasks do meanwhile, the second request marks the slot before the first one releases. */
  lemma MarkedReachable(slot: Slot, tasks: seq<Task>)
    requires slot.inUse && slot.uid == Uid
    requires Reachable(At(slot, tasks, [Request(Uid, true, 0, 1, Releasing)], multiset{File}), true, true)
    ensures Reachable(Both(MarkedSlot(slot, Uid), tasks, Releasing, SecondQueued), false, true)
  {
    var s := At(slot, tasks, [Request(Uid, true, 0, 1, Releasing)], multiset{File});
    OnceIsReachable(s, true);
    MarkNext(slot, tasks);
    ReachableStep(s, Revoke(Uid, true), Both(MarkedSlot(slot, Uid), tasks, Releasing, SecondQueued), false, true);
  }

  lemma FreedReachable(slot: Slot, tasks: seq<Task>)
    requires slot.inUse && slot.uid == Uid
    requires Reachable(At(slot, tasks, [Request(Uid, true, 0, 1, Releasing)], multiset{File}), true, true)
    ensures Reachable(Both(ReleasedSlot(MarkedSlot(slot, Uid), Uid), tasks, Freed, SecondQueued), false, true)
  {
    MarkedReachable(slot, tasks);
    ReleaseNext(MarkedSlot(slot, Uid), tasks, SecondQueued);
    ReachableStep(Both(MarkedSlot(slot, Uid), tasks, Releasing, SecondQueued), Release(0),
                  Both(ReleasedSlot(MarkedSlot(slot, Uid), Uid), tasks, Freed, SecondQueued), false, true);
  }

  /** The application's task is alive and has the credential of its entry, but its slot `k` is gone. */
  ghost predicate Stranded(s: State, t: TaskId, k: nat) {
    && t < |s.tasks| && Sandboxed(s.tasks[t]) && SandboxShape(s.tasks[t].cred, s.tasks[t].origin.value)
    && !SandboxCurrent(s.slots, s.tasks[t].cred)
    && k < |s.slots| && !s.slots[k].inUse
  }

  lemma FreedIsStranded(slot: Slot, second: Request)
    requires Releasable(slot, Uid)
    ensures Stranded(Both(ReleasedSlot(slot, Uid), OneIn, Freed, second), 0, 0)
  {
    var s := Both(ReleasedSlot(slot, Uid), OneIn, Freed, second);
    assert forall i :: 0 <= i < |s.slots| ==> !s.slots[i].inUse;
    var task := s.tasks[0];
    ShapeIsCurrent(s.slots, task.cred, task.origin.value);
  }

  /**
   A second revocation overlapping the first frees the slot of a live, correctly entered task: it is no longer
   recognised as sandboxed, and the freed slot still holds its namespace file.
   */
  lemma OverlapFreesLiveSlot()
    ensures exists s, t: TaskId, k: nat :: Reachable(s, false, true) && Stranded(s, t, k) && s.slots[k].file.Some?
  {
    EnteredMeanwhile();
    FreedReachable(Settled(File), OneIn);
    var s := Both(ReleasedSlot(Marked, Uid), OneIn, Freed, SecondQueued);
    FreedIsStranded(Marked, SecondQueued);
    assert s.slots[0].file == Some(File);
  }

  lemma DetachedIsEmpty(slot: Slot, tasks: seq<Task>, second: Request)
    ensures EmptyRelease(Both(DetachedSlot(slot), tasks, Releasing, second), Release(0))
  {
    assert !HoldsReference(DetachedSlot(slot));
  }

  /**
   Keeping the reference accounts does not protect anybody: if the second worker has already detached the slot, the
   release of the first one frees an empty slot, and the task is stranded all the same.
   */
  lemma EmptyReleaseStrands()
    ensures exists s, r, after, t: TaskId, k: nat :: Reachable(s, false, true) && EmptyRelease(s, Release(r)) &&
              Next(s, Release(r), after) && Stranded(after, t, k)
  {
    EnteredMeanwhile();
    MarkedReachable(Settled(File), OneIn);
    StartNext(OneIn);
    var started := Both(Marked, OneIn, Releasing, SecondStarted);
    ReachableStep(Both(Marked, OneIn, Releasing, SecondQueued), StartRun(1), started, false, true);
    DetachFirst(Marked, OneIn);
    var (slot, second) := (DetachedSlot(Marked), SecondLetting(Marked));
    ReachableStep(started, DetachNext(1), Both(slot, OneIn, Releasing, second), false, true);
    DetachedIsEmpty(Marked, OneIn, second);
    ReleaseNext(slot, OneIn, second);
    FreedIsStranded(slot, second);
  }
}
