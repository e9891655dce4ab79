/**
 Pending records without a call: one run without any revocation in which a comparison fails spuriously, and one with
 genuine comparisons only, in which overlapping revocations put the call's reservation into another namespace's slot.
 */
module LeakedRecord {
  import opened Sequences
  import opened SlotTable
  import opened SlotTableFacts
  import opened Credentials
  import opened SandboxSystem
  import opened EntryAccounting
  import opened PendingRecords
  import opened ConcreteRuns
  import opened OverlappingRevocations

  const Kind := Tmpfs(4096)
  const OtherFile := NsFile(2, 3)

  /** The application's first task, which entered with `File`, at some stage of its call. */
  ghost function Calling(slot: Slot, stage: Stage, other: Task, requests: seq<Request>, files: multiset<NsFile>): State {
    At(slot, [EnteredTask(File.ns).(stage := stage), other], requests, files)
  }

  /** A ready slot of the application with this file and a sound ledger. */
  ghost predicate AppSlot(slot: Slot, file: NsFile) {
    && slot.inUse && slot.ready && !slot.revoking && slot.uid == Uid && slot.sid == Sid
    && slot.file == Some(file) && SlotOk(slot)
  }

  lemma AppIsCurrent(slot: Slot, file: NsFile)
    requires AppSlot(slot, file)
    ensures SandboxCurrent(Table(slot), EnteredTask(File.ns).cred) && FindReady(Table(slot), Uid) == 0
    ensures TableOk(Table(slot))
  {
    var table := Table(slot);
    var cred := EnteredTask(File.ns).cred;
    assert Holds(table[0], Identity(cred.fsuid, cred.security.sid));
    FirstIndexUnique(table, ReadyFor(Uid), 0);
  }

  lemma SettledIsApp(file: NsFile)
    ensures AppSlot(Settled(file), file)
  {
    EmptyLedgerOk(Settled(file));
  }

  lemma BeginNext(slot: Slot, other: Task, requests: seq<Request>, files: multiset<NsFile>)
    requires AppSlot(slot, File)
    ensures Next(Calling(slot, User, other, requests, files), MountBegin(0, Kind),
                 Calling(slot, AskNs(Kind, AtSbMount), other, requests, files))
  {
    AppIsCurrent(slot, File);
  }

  lemma LockNext(slot: Slot, at: Check, other: Task, requests: seq<Request>, files: multiset<NsFile>, file: NsFile)
    requires AppSlot(slot, file)
    ensures Next(Calling(slot, AskNs(Kind, at), other, requests, files), NsLock(0),
                 Calling(slot, HoldNs(Kind, at, Some(file)), other, requests, files + multiset{file}))
  {
    AppIsCurrent(slot, file);
    var s := Calling(slot, AskNs(Kind, at), other, requests, files);
    assert TaskAfter(s, NsLock(0)).stage == HoldNs(Kind, at, Some(file));
    assert FilesTaken(s, NsLock(0)) == multiset{file};
  }

  /** The comparison comes out by the namespaces unless it fails. */
  lemma CompareNext(slot: Slot, at: Check, other: Task, requests: seq<Request>, files: multiset<NsFile>, file: NsFile,
                    spurious: bool)
    ensures Next(Calling(slot, HoldNs(Kind, at, Some(file)), other, requests, files + multiset{file}),
                 NsCompare(0, spurious, true),
                 Calling(slot, AfterNs(Kind, at, !spurious && file.ns == File.ns, true), other, requests, files))
  {
    var s := Calling(slot, HoldNs(Kind, at, Some(file)), other, requests, files + multiset{file});
    assert FilesDropped(s, NsCompare(0, spurious, true)) == multiset{file};
  }

  /** The application's slot with a pending record. */
  ghost predicate HasPending(slot: Slot, file: NsFile) {
    AppSlot(slot, file) && exists j :: 0 <= j < |slot.mounts.value| && slot.mounts.value[j].state == Pending
  }

  lemma ReserveSlot(slot: Slot, file: NsFile) returns (after: Slot)
    requires AppSlot(slot, file) && slot.mountCount == 0 && slot.tmpfsBytes == 0
    ensures MountReserve(Table(slot), Uid, 0, 4096) == (Table(after), None) && HasPending(after, file)
    ensures after.entrants == slot.entrants
  {
    var table := Table(slot);
    AppIsCurrent(slot, file);
    MountReserveOutcome(table, Uid, 0, 4096);
    var j := FirstIndex(slot.mounts.value, IsFree());
    after := MountReserve(table, Uid, 0, 4096).0[0];
    TableUpdate(slot, after);
    assert after.mounts.value[j] == Record(Pending, Some(0), None, 4096);
    assert SlotOk(MountReserve(table, Uid, 0, 4096).0[0]);
  }

  lemma ReserveNext(slot: Slot, other: Task, requests: seq<Request>, files: multiset<NsFile>, after: Slot)
    requires MountReserve(Table(slot), Uid, 0, 4096) == (Table(after), None)
    ensures Next(Calling(slot, Reserving(Kind), other, requests, files), Reserve(0, true),
                 Calling(after, AskNs(Kind, AtMayMount), other, requests, files))
  {
    var s := Calling(slot, Reserving(Kind), other, requests, files);
    assert s.tasks[0].cred.fsuid == Uid && WantedBytes(Kind) == 4096;
  }

  /** No task is in a call, and yet a ready slot has a pending record. */
  ghost predicate Orphaned(s: State) {
    && (forall t :: 0 <= t < |s.tasks| ==> s.tasks[t].stage.User?)
    && exists k, j :: 0 <= k < |s.slots| && s.slots[k].inUse && s.slots[k].ready && s.slots[k].mounts.Some? &&
         0 <= j < |s.slots[k].mounts.value| && s.slots[k].mounts.value[j].state == Pending
  }

  /** That is a record without its call. */
  lemma OrphanedIsOrphan(s: State)
    requires Accounted(s) && Orphaned(s)
    ensures !NoOrphan(s)
  {
    var k, j :| 0 <= k < |s.slots| && s.slots[k].inUse && s.slots[k].ready && s.slots[k].mounts.Some? &&
      0 <= j < |s.slots[k].mounts.value| && s.slots[k].mounts.value[j].state == Pending;
    if NoOrphan(s) {
      assert SlotOk(s.slots[k]);
      SettledLedger(s, k);
    }
  }

  lemma PendingIsOrphaned(slot: Slot, other: Task, requests: seq<Request>, files: multiset<NsFile>, file: NsFile)
    requires HasPending(slot, file) && other.stage.User?
    ensures Orphaned(Calling(slot, User, other, requests, files))
  {
    var s := Calling(slot, User, other, requests, files);
    assert s.slots[0] == slot;
    var j :| 0 <= j < |slot.mounts.value| && slot.mounts.value[j].state == Pending;
    assert s.slots[0].mounts.value[j].state == Pending;
  }

  lemma BegunReachable(requests: seq<Request>)
    requires Reachable(At(Settled(File), OneIn, requests, multiset{File}), true, true)
    ensures Reachable(Calling(Settled(File), AskNs(Kind, AtSbMount), AppTask, requests, multiset{File}), true, true)
  {
    var (slot, files) := (Settled(File), multiset{File});
    SettledIsApp(File);
    BeginNext(slot, AppTask, requests, files);
    assert Calling(slot, User, AppTask, requests, files) == At(slot, OneIn, requests, files);
    ReachableStep(At(slot, OneIn, requests, files), MountBegin(0, Kind),
                  Calling(slot, AskNs(Kind, AtSbMount), AppTask, requests, files), true, true);
  }

  lemma LockedReachable(slot: Slot, at: Check, other: Task, requests: seq<Request>, files: multiset<NsFile>, file: NsFile,
                        once: bool)
    requires AppSlot(slot, file) && Reachable(Calling(slot, AskNs(Kind, at), other, requests, files), once, true)
    ensures Reachable(Calling(slot, HoldNs(Kind, at, Some(file)), other, requests, files + multiset{file}), once, true)
  {
    LockNext(slot, at, other, requests, files, file);
    ReachableStep(Calling(slot, AskNs(Kind, at), other, requests, files), NsLock(0),
                  Calling(slot, HoldNs(Kind, at, Some(file)), other, requests, files + multiset{file}), once, true);
  }

  /** The task passes its first comparison and is about to reserve. */
  lemma ReservingReachable(requests: seq<Request>)
    requires Reachable(At(Settled(File), OneIn, requests, multiset{File}), true, true)
    ensures Reachable(Calling(Settled(File), Reserving(Kind), AppTask, requests, multiset{File}), true, true)
  {
    var (slot, files) := (Settled(File), multiset{File});
    BegunReachable(requests);
    SettledIsApp(File);
    LockedReachable(slot, AtSbMount, AppTask, requests, files, File, true);
    CompareNext(slot, AtSbMount, AppTask, requests, files, File, false);
    ReachableStep(Calling(slot, HoldNs(Kind, AtSbMount, Some(File)), AppTask, requests, files + multiset{File}),
                  NsCompare(0, false, true), Calling(slot, Reserving(Kind), AppTask, requests, files), true, true);
  }

  /** It reserves in the slot that is there by then. */
  lemma ReservedReachable(other: Task, requests: seq<Request>, files: multiset<NsFile>, file: NsFile, once: bool)
    returns (slot: Slot)
    requires Reachable(Calling(Settled(file), Reserving(Kind), other, requests, files), once, true)
    ensures HasPending(slot, file) && slot.entrants == 0
    ensures Reachable(Calling(slot, AskNs(Kind, AtMayMount), other, requests, files), once, true)
  {
    SettledIsApp(file);
    slot := ReserveSlot(Settled(file), file);
    ReserveNext(Settled(file), other, requests, files, slot);
    ReachableStep(Calling(Settled(file), Reserving(Kind), other, requests, files), Reserve(0, true),
                  Calling(slot, AskNs(Kind, AtMayMount), other, requests, files), once, true);
  }

  /** And takes its file for the comparison at the privilege check. */
  lemma ComparingReachable(other: Task, requests: seq<Request>, files: multiset<NsFile>, file: NsFile, once: bool)
    returns (slot: Slot)
    requires Reachable(Calling(Settled(file), Reserving(Kind), other, requests, files), once, true)
    ensures HasPending(slot, file)
    ensures Reachable(Calling(slot, HoldNs(Kind, AtMayMount, Some(file)), other, requests, files + multiset{file}), once, true)
  {
    slot := ReservedReachable(other, requests, files, file, once);
    LockedReachable(slot, AtMayMount, other, requests, files, file, once);
  }

  lemma EnteredAlone()
    ensures Reachable(At(Settled(File), OneIn, [], multiset{File}), true, true)
  {
    var init := At(BlankSlot, Apps, [], multiset{});
    InitReachable(init);
    EntersReachably(BlankSlot, Apps, 0, [], multiset{}, File, true);
    assert Apps[0 := EnteredTask(File.ns)] == OneIn && multiset{} + multiset{File} == multiset{File};
  }

  lemma SpuriousIsLeak(slot: Slot)
    requires AppSlot(slot, File)
    ensures Leaks(Calling(slot, HoldNs(Kind, AtMayMount, Some(File)), AppTask, [], multiset{File} + multiset{File}),
                  NsCompare(0, true, true))
  {
    AppIsCurrent(slot, File);
  }

  /**
   A run with no revocation at all reaches the harmful failure, and after it every task is outside while the ready slot
   keeps a pending record that nobody will report.
   */
  lemma LeakIsReachable()
    ensures exists s, step, after :: Reachable(s, true, true) && Leaks(s, step) && Next(s, step, after) && Orphaned(after)
  {
    EnteredAlone();
    ReservingReachable([]);
    var slot := ComparingReachable(AppTask, [], multiset{File}, File, true);
    CompareNext(slot, AtMayMount, AppTask, [], multiset{File}, File, true);
    SpuriousIsLeak(slot);
    PendingIsOrphaned(slot, AppTask, [], multiset{File}, File);
  }

  // ----- genuine comparisons -----

  const BothRequests := [Request(Uid, true, 0, 1, Freed), SecondQueued]
  const SecondIn := EnteredTask(OtherFile.ns)

  /** While the call is about to reserve, its slot is freed and the second task enters a new one, in a new namespace. */
  lemma ReplacedReachable()
    ensures Reachable(Calling(Settled(OtherFile), Reserving(Kind), SecondIn, BothRequests, multiset{File, OtherFile}),
                      false, true)
  {
    EnteredMeanwhile();
    ReservingReachable([Request(Uid, true, 0, 1, Releasing)]);
    var tasks := [EnteredTask(File.ns).(stage := Reserving(Kind)), AppTask];
    FreedReachable(Settled(File), tasks);
    EntersReachably(ReleasedSlot(Marked, Uid), tasks, 1, BothRequests, multiset{File}, OtherFile, false);
    assert tasks[1 := SecondIn] == [EnteredTask(File.ns).(stage := Reserving(Kind)), SecondIn];
    assert multiset{File} + multiset{OtherFile} == multiset{File, OtherFile};
  }

  /**
   Genuine comparisons do not protect the records when revocations overlap: a complete run in which none fails
   spuriously ends with every task outside and a pending record in a ready slot.
   */
  lemma GenuineLeakIsReachable()
    ensures exists s :: Reachable(s, false, true) && Orphaned(s)
  {
    ReplacedReachable();
    var files := multiset{File, OtherFile};
    var slot := ComparingReachable(SecondIn, BothRequests, files, OtherFile, false);
    CompareNext(slot, AtMayMount, SecondIn, BothRequests, files, OtherFile, false);
    var after := Calling(slot, User, SecondIn, BothRequests, files);
    var comparing := Calling(slot, HoldNs(Kind, AtMayMount, Some(OtherFile)), SecondIn, BothRequests, files + multiset{OtherFile});
    ReachableStep(comparing, NsCompare(0, false, true), after, false, true);
    PendingIsOrphaned(slot, SecondIn, BothRequests, files, OtherFile);
  }

  lemma EntryRevives(slot: Slot, requests: seq<Request>, files: multiset<NsFile>)
    requires Vacant(slot)
    ensures var s := Calling(slot, AskNs(Kind, AtMayMount), AppTask, requests, files);
            Revives(s, Enter(1, Sid, JoinEnv(true, Some(OtherFile)), 1))
  {
    FirstEntry(slot, OtherFile);
    var s := Calling(slot, AskNs(Kind, AtMayMount), AppTask, requests, files);
    assert Due(s.tasks[0], Uid) == 1;
  }

  /** Such a run also reaches an entry that makes a new slot for a UID with a call whose record went with the freed one. */
  lemma RevivalIsReachable()
    ensures exists s, step :: Reachable(s, false, true) && Enabled(s, step) && Revives(s, step)
  {
    EnteredMeanwhile();
    var requests := [Request(Uid, true, 0, 1, Releasing)];
    ReservingReachable(requests);
    var slot := ReservedReachable(AppTask, requests, multiset{File}, File, true);
    var calling := EnteredTask(File.ns).(stage := AskNs(Kind, AtMayMount));
    FreedReachable(slot, [calling, AppTask]);
    EntryRevives(ReleasedSlot(MarkedSlot(slot, Uid), Uid), BothRequests, multiset{File});
    EnterNext(ReleasedSlot(MarkedSlot(slot, Uid), Uid), [calling, AppTask], 1, BothRequests, multiset{File}, OtherFile);
  }
}
