/**
 Pending records and mount calls: exactly when a record loses its call, and when the two stop being one-to-one, in all
 runs; and that only a spurious comparison does it where everybody keeps his slot.
 */
module PendingRecords {
  import opened Sequences
  import opened SlotTable
  import opened SlotTableFacts
  import opened Credentials
  import opened SandboxSystem
  import opened EntryAccounting
  import opened Revocation
  import opened MountCalls

  /** The task is between a successful reservation and its result. */
  predicate Holding(stage: Stage) {
    match stage
    case AskNs(kind, at) => kind.Tmpfs? && at == AtMayMount
    case HoldNs(kind, at, _) => kind.Tmpfs? && at == AtMayMount
    case Mounting(held) => held
    case Returning(_, held) => held
    case Reporting(_, held) => held
    case _ => false
  }

  function RecordOwner(r: Record): multiset<TaskId> { if r.state == Pending then Refs(r.owner) else multiset{} }

  function Owners(slot: Slot): multiset<TaskId> {
    if slot.mounts.Some? then Total(RecordOwner, slot.mounts.value) else multiset{}
  }

  /** How many pending records of a slot with this UID the task should own. */
  function Due(task: Task, uid: nat): nat {
    if Holding(task.stage) && task.cred.fsuid == uid then 1 else 0
  }

  function DueOf(tasks: seq<Task>, t: TaskId, uid: nat): nat { if t < |tasks| then Due(tasks[t], uid) else 0 }

  /** Pending records and calls with a reservation are one-to-one in every ready slot. */
  ghost predicate PendingOk(s: State) {
    forall k, t: TaskId | 0 <= k < |s.slots| && s.slots[k].inUse && s.slots[k].ready ::
      Owners(s.slots[k])[t] == DueOf(s.tasks, t, s.slots[k].uid)
  }

  /** No ready slot has a pending record whose call is over, or two for one call. */
  ghost predicate NoOrphan(s: State) {
    forall k, t: TaskId | 0 <= k < |s.slots| && s.slots[k].inUse && s.slots[k].ready ::
      Owners(s.slots[k])[t] <= DueOf(s.tasks, t, s.slots[k].uid)
  }

  lemma OwnersUpdate(slot: Slot, after: Slot, j: nat, r: Record)
    requires slot.mounts.Some? && j < |slot.mounts.value| && after.mounts == Some(slot.mounts.value[j := r])
    ensures Owners(after) + RecordOwner(slot.mounts.value[j]) == Owners(slot) + RecordOwner(r)
  {
    TotalUpdate(RecordOwner, slot.mounts.value, j, r);
  }

  /** A task owns a pending record exactly when the search for it finds one. */
  lemma OwnerFound(slot: Slot, t: TaskId)
    requires slot.mounts.Some?
    ensures t in Owners(slot) <==> FirstIndex(slot.mounts.value, PendingOf(t)) < |slot.mounts.value|
  {
    var ms := slot.mounts.value;
    TotalMember(RecordOwner, ms, t);
    var j := FirstIndex(ms, PendingOf(t));
    if j < |ms| {
      assert PendingOf(t)(ms[j]);
      assert t in RecordOwner(ms[j]);
    }
    if i :| 0 <= i < |ms| && t in RecordOwner(ms[i]) {
      assert PendingOf(t)(ms[i]);
    }
  }

  // ----- what each kind of step does to the owners of a slot that stays ready -----

  lemma ReserveOwners(slots: seq<Slot>, uid: nat, t: TaskId, bytes: nat, k: nat)
    requires TableOk(slots) && k < |slots| && slots[k].inUse && slots[k].ready
    ensures var (after, error) := MountReserve(slots, uid, t, bytes);
            && |after| == |slots|
            && Owners(after[k]) == Owners(slots[k]) + (if error.None? && slots[k].uid == uid then multiset{t} else multiset{})
  {
    MountReserveOutcome(slots, uid, t, bytes);
    UidCases(slots, uid);
    var (after, error) := MountReserve(slots, uid, t, bytes);
    if error.None? && k == FindReady(slots, uid) {
      var j := FirstIndex(slots[k].mounts.value, IsFree());
      assert IsFree()(slots[k].mounts.value[j]);
      OwnersUpdate(slots[k], after[k], j, Record(Pending, Some(t), None, bytes));
    }
  }

  lemma ReportOwners(slots: seq<Slot>, uid: nat, t: TaskId, mnt: Option<Mount>, k: nat)
    requires TableOk(slots) && k < |slots| && slots[k].inUse && slots[k].ready
    ensures var after := MountResult(slots, uid, t, mnt).0;
            && |after| == |slots|
            && Owners(slots[k]) == Owners(after[k]) + (if slots[k].uid == uid && t in Owners(slots[k]) then multiset{t} else multiset{})
  {
    MountResultOutcome(slots, uid, t, mnt);
    UidCases(slots, uid);
    var after := MountResult(slots, uid, t, mnt).0;
    assert SlotOk(slots[k]);
    OwnerFound(slots[k], t);
    if k == FindReady(slots, uid) && t in Owners(slots[k]) {
      var j := FirstIndex(slots[k].mounts.value, PendingOf(t));
      OwnersUpdate(slots[k], after[k], j, after[k].mounts.value[j]);
    }
  }

  lemma UmountOwners(slots: seq<Slot>, uid: nat, mnt: Mount, k: nat)
    requires TableOk(slots) && k < |slots| && slots[k].inUse && slots[k].ready
    ensures var after := UmountResult(slots, uid, mnt).0; |after| == |slots| && Owners(after[k]) == Owners(slots[k])
  {
    UmountResultOutcome(slots, uid, mnt);
    UidCases(slots, uid);
    var after := UmountResult(slots, uid, mnt).0;
    if k == FindReady(slots, uid) && MountIsTracked(slots, uid, mnt) {
      var j := FirstIndex(slots[k].mounts.value, TrackedAt(mnt));
      OwnersUpdate(slots[k], after[k], j, FreeRecord);
      assert Owners(after[k]) + multiset{} == Owners(after[k]);
      assert Owners(slots[k]) + multiset{} == Owners(slots[k]);
    }
  }

  /** Every other step leaves the ledger of a slot that stays ready alone. */
  lemma OtherOwners(s: State, step: Step, k: nat)
    requires Enabled(s, step) && Accounted(s) && k < |s.slots| == |SlotsAfter(s, step)| && !LedgerOnly(step)
    requires SlotsAfter(s, step)[k].inUse && SlotsAfter(s, step)[k].ready && s.slots[k].inUse && s.slots[k].ready
    ensures SlotsAfter(s, step)[k].mounts == s.slots[k].mounts && SlotsAfter(s, step)[k].uid == s.slots[k].uid
  {
    if step.Enter? {
      JoinOrCreateOutcome(s.slots, s.tasks[step.t].cred.uid, step.sid, step.env);
      var free := FirstIndex(s.slots, Unallocated());
      assert free < |s.slots| ==> !s.slots[free].inUse;
    } else if step.Complete? {
      var h := HomeOf(s, step.t);
      EntryCompleteOutcome(s.slots, s.tasks[step.t].stage.id.uid, s.tasks[step.t].stage.id.sid, h);
    }
  }

  lemma NewSlotOwners(slot: Slot)
    requires slot.mounts == Some(EmptyLedger())
    ensures Owners(slot) == multiset{}
  {
    forall j | 0 <= j < MaxMounts ensures RecordOwner(slot.mounts.value[j]) == multiset{} {}
    TotalEmpty(RecordOwner, slot.mounts.value);
  }

  // ----- what a step does to the calls -----

  /** A record of the task in the ready slot that its calls work on. */
  ghost predicate OwnsRecord(s: State, t: TaskId)
    requires t < |s.tasks|
  {
    var k := FindReady(s.slots, s.tasks[t].cred.fsuid);
    k < |s.slots| && t in Owners(s.slots[k])
  }

  /** A call leaves while it owns a record: unrecognised, or at a comparison that fails for whatever reason. */
  ghost predicate Abandons(s: State, step: Step) {
    && !OfRequest(step) && step.t < |s.tasks| && OwnsRecord(s, step.t)
    && var task := s.tasks[step.t];
       || ((step.NsLock? || step.StartReport?) && !SandboxCurrent(s.slots, task.cred))
       || (step.NsCompare? && task.stage.HoldNs? &&
           (step.spurious || task.stage.file.None? || task.stage.file.value.ns != task.ns))
  }

  /** An entry makes a new slot for a UID while a call of it still counts on a record in a slot that is gone. */
  ghost predicate Revives(s: State, step: Step) {
    && step.Enter? && step.t < |s.tasks| && EnterOutcome(s, step.t, step.sid, step.env).Created?
    && exists u :: 0 <= u < |s.tasks| && u != step.t && Due(s.tasks[u], s.tasks[step.t].cred.uid) == 1
  }

  /** The numbers of records owned and due before and after: unchanged, one more of each, settled, or given up unowned. */
  predicate Moved(owned: nat, due: nat, owned': nat, due': nat) {
    || (owned' == owned && due' == due)
    || (due == 0 && owned' == owned + 1 && due' == 1)
    || (due' == 0 && owned' == if owned > 0 then owned - 1 else 0)
    || (owned' == owned == 0 && due' == 0)
  }

  lemma ReadySlotFound(s: State, k: nat, uid: nat)
    requires TableOk(s.slots) && k < |s.slots| && s.slots[k].inUse && s.slots[k].ready && s.slots[k].uid == uid
    ensures FindReady(s.slots, uid) == k && !s.slots[k].revoking && s.slots[k].file.Some?
  {
    UidCases(s.slots, uid);
    assert SlotOk(s.slots[k]);
  }

  /** Steps that neither reserve, nor report, nor ask anything. */
  lemma DueKept(s: State, step: Step, uid: nat)
    requires Enabled(s, step) && !OfRequest(step) && !step.Fork? && !step.Reserve? && !step.Report?
    requires !step.NsCompare? && !step.NsLock? && !step.StartReport?
    ensures Due(TaskAfter(s, step), uid) == Due(s.tasks[step.t], uid)
  {
  }

  /** The questions of a call: it loses what it is due only where it abandons its record, or owns none here. */
  lemma AskDue(s: State, step: Step, k: nat)
    requires Enabled(s, step) && (step.NsLock? || step.StartReport?) && TableOk(s.slots)
    requires k < |s.slots| && s.slots[k].inUse && s.slots[k].ready && !Abandons(s, step)
    ensures var (due, due') := (Due(s.tasks[step.t], s.slots[k].uid), Due(TaskAfter(s, step), s.slots[k].uid));
            due' == due || (due' == 0 && step.t !in Owners(s.slots[k]))
  {
    if s.slots[k].uid == s.tasks[step.t].cred.fsuid {
      ReadySlotFound(s, k, s.slots[k].uid);
    }
  }

  lemma CompareDue(s: State, step: Step, k: nat)
    requires Enabled(s, step) && step.NsCompare? && TableOk(s.slots)
    requires k < |s.slots| && s.slots[k].inUse && s.slots[k].ready && !Abandons(s, step)
    ensures var (due, due') := (Due(s.tasks[step.t], s.slots[k].uid), Due(TaskAfter(s, step), s.slots[k].uid));
            due' == due || (due' == 0 && step.t !in Owners(s.slots[k]))
  {
    if s.slots[k].uid == s.tasks[step.t].cred.fsuid {
      ReadySlotFound(s, k, s.slots[k].uid);
    }
  }

  lemma ReserveDue(s: State, step: Step, uid: nat)
    requires Enabled(s, step) && step.Reserve?
    ensures var task := s.tasks[step.t];
            var error := MountReserve(s.slots, task.cred.fsuid, step.t, WantedBytes(task.stage.kind)).1;
            && Due(task, uid) == 0
            && Due(TaskAfter(s, step), uid) == if error.None? && task.cred.fsuid == uid then 1 else 0
  {
  }

  lemma ReserveMoves(s: State, step: Step, k: nat)
    requires Enabled(s, step) && step.Reserve? && TableOk(s.slots)
    requires k < |s.slots| == |SlotsAfter(s, step)| && s.slots[k].inUse && s.slots[k].ready
    ensures CallMoved(s, step, k, step.t)
    ensures forall u: TaskId :: u != step.t ==> Owners(SlotsAfter(s, step)[k])[u] == Owners(s.slots[k])[u]
  {
    var task := s.tasks[step.t];
    ReserveDue(s, step, s.slots[k].uid);
    ReserveOwners(s.slots, task.cred.fsuid, step.t, WantedBytes(task.stage.kind), k);
  }

  lemma ReportDue(s: State, step: Step, uid: nat)
    requires Enabled(s, step) && step.Report?
    ensures Due(TaskAfter(s, step), uid) == 0
    ensures s.tasks[step.t].cred.fsuid != uid ==> Due(s.tasks[step.t], uid) == 0
  {
  }

  lemma ReportMoves(s: State, step: Step, k: nat)
    requires Enabled(s, step) && step.Report? && TableOk(s.slots)
    requires k < |s.slots| == |SlotsAfter(s, step)| && s.slots[k].inUse && s.slots[k].ready
    ensures CallMoved(s, step, k, step.t)
    ensures forall u: TaskId :: u != step.t ==> Owners(SlotsAfter(s, step)[k])[u] == Owners(s.slots[k])[u]
  {
    var task := s.tasks[step.t];
    ReportDue(s, step, s.slots[k].uid);
    ReportOwners(s.slots, task.cred.fsuid, step.t, task.stage.mnt, k);
  }

  /** How ownership of the step's own task moves in slot `k`. */
  ghost predicate CallMoved(s: State, step: Step, k: nat, t: TaskId)
    requires Enabled(s, step) && !OfRequest(step) && t == step.t && k < |s.slots| == |SlotsAfter(s, step)|
  {
    Moved(Owners(s.slots[k])[t], Due(s.tasks[t], s.slots[k].uid),
          Owners(SlotsAfter(s, step)[k])[t], Due(TaskAfter(s, step), s.slots[k].uid))
  }

  lemma OwnersKept(s: State, step: Step, k: nat)
    requires Enabled(s, step) && Accounted(s) && k < |s.slots| == |SlotsAfter(s, step)| && !step.Reserve? && !step.Report?
    requires SlotsAfter(s, step)[k].inUse && SlotsAfter(s, step)[k].ready && s.slots[k].inUse && s.slots[k].ready
    ensures Owners(SlotsAfter(s, step)[k]) == Owners(s.slots[k])
  {
    if step.Umount? {
      UmountOwners(s.slots, s.tasks[step.t].cred.fsuid, step.target, k);
    } else {
      OtherOwners(s, step, k);
    }
  }

  /** In a slot that stays ready, nobody else's records change, and the caller's move with what it is due. */
  lemma CallMoves(s: State, step: Step, k: nat)
    requires Enabled(s, step) && Accounted(s) && !Abandons(s, step) && k < |s.slots| == |SlotsAfter(s, step)|
    requires SlotsAfter(s, step)[k].inUse && SlotsAfter(s, step)[k].ready && s.slots[k].inUse && s.slots[k].ready
    ensures forall u: TaskId :: OfRequest(step) || u != step.t ==>
              Owners(SlotsAfter(s, step)[k])[u] == Owners(s.slots[k])[u]
    ensures !OfRequest(step) && !step.Fork? ==> CallMoved(s, step, k, step.t)
    ensures step.Fork? ==> Owners(SlotsAfter(s, step)[k]) == Owners(s.slots[k])
  {
    if step.Reserve? {
      ReserveMoves(s, step, k);
    } else if step.Report? {
      ReportMoves(s, step, k);
    } else {
      OwnersKept(s, step, k);
      if OfRequest(step) || step.Fork? {
      } else if step.NsLock? || step.StartReport? {
        AskDue(s, step, k);
      } else if step.NsCompare? {
        CompareDue(s, step, k);
      } else {
        DueKept(s, step, s.slots[k].uid);
      }
    }
  }

  /** What is due to task `u` after the step. */
  lemma DueAfter(s: State, step: Step, u: TaskId, uid: nat)
    requires Enabled(s, step)
    ensures DueOf(TasksAfter(s, step), u, uid) ==
            if !OfRequest(step) && !step.Fork? && u == step.t then Due(TaskAfter(s, step), uid) else DueOf(s.tasks, u, uid)
  {
    if step.Fork? && u == |s.tasks| { assert TaskAfter(s, step).stage.User?; }
  }

  /** Both invariants over one ready slot and one task that did not abandon anything. */
  lemma RecordMoves(s: State, step: Step, k: nat, u: TaskId)
    requires Enabled(s, step) && Accounted(s) && !Abandons(s, step) && k < |s.slots| == |SlotsAfter(s, step)|
    requires SlotsAfter(s, step)[k].inUse && SlotsAfter(s, step)[k].ready && s.slots[k].inUse && s.slots[k].ready
    requires SlotsAfter(s, step)[k].uid == s.slots[k].uid
    ensures Moved(Owners(s.slots[k])[u], DueOf(s.tasks, u, s.slots[k].uid),
                  Owners(SlotsAfter(s, step)[k])[u], DueOf(TasksAfter(s, step), u, s.slots[k].uid))
  {
    CallMoves(s, step, k);
    DueAfter(s, step, u, s.slots[k].uid);
  }

  /** A new slot has no records, so whatever is due to a call of its UID is missing. */
  lemma NewSlotEmpty(s: State, step: Step, k: nat, u: TaskId)
    requires Enabled(s, step) && step.Enter? && k < |SlotsAfter(s, step)|
    requires EnterOutcome(s, step.t, step.sid, step.env).Created?
    requires SlotsAfter(s, step)[k].mounts == Some(EmptyLedger()) && SlotsAfter(s, step)[k].uid == s.tasks[step.t].cred.uid
    ensures Owners(SlotsAfter(s, step)[k])[u] == 0
    ensures !Revives(s, step) ==> DueOf(TasksAfter(s, step), u, s.tasks[step.t].cred.uid) == 0
  {
    NewSlotOwners(SlotsAfter(s, step)[k]);
    DueAfter(s, step, u, s.tasks[step.t].cred.uid);
  }

  // ----- records without a call -----

  lemma NoOrphanStep(s: State, step: Step)
    requires Enabled(s, step) && Accounted(s) && NoOrphan(s) && !Abandons(s, step)
    ensures NoOrphan(Apply(s, step))
  {
    TableStep(s, step);
    var (slots, tasks) := (SlotsAfter(s, step), TasksAfter(s, step));
    forall k, u: TaskId | 0 <= k < |slots| && slots[k].inUse && slots[k].ready
      ensures Owners(slots[k])[u] <= DueOf(tasks, u, slots[k].uid)
    {
      ReadyBefore(s, step, k);
      if s.slots[k].inUse && s.slots[k].ready && slots[k].uid == s.slots[k].uid {
        RecordMoves(s, step, k, u);
      } else {
        NewSlotEmpty(s, step, k, u);
      }
    }
  }

  /** The call that abandons its record was due it, and is outside afterwards. */
  lemma AbandonedTask(s: State, step: Step)
    requires Enabled(s, step) && Accounted(s) && NoOrphan(s) && Abandons(s, step)
    ensures TaskAfter(s, step).stage.User? && SlotsAfter(s, step) == s.slots
  {
    var k := FindReady(s.slots, s.tasks[step.t].cred.fsuid);
    UidCases(s.slots, s.tasks[step.t].cred.fsuid);
    assert Owners(s.slots[k])[step.t] <= DueOf(s.tasks, step.t, s.slots[k].uid);
    assert Holding(s.tasks[step.t].stage);
  }

  lemma OrphanOf(s: State, k: nat, t: TaskId)
    requires k < |s.slots| && s.slots[k].inUse && s.slots[k].ready
    requires t in Owners(s.slots[k]) && DueOf(s.tasks, t, s.slots[k].uid) == 0
    ensures !NoOrphan(s)
  {
    assert Owners(s.slots[k])[t] > DueOf(s.tasks, t, s.slots[k].uid);
  }

  lemma AbandonOrphans(s: State, step: Step)
    requires Enabled(s, step) && Accounted(s) && NoOrphan(s) && Abandons(s, step)
    ensures !NoOrphan(Apply(s, step))
  {
    var k := FindReady(s.slots, s.tasks[step.t].cred.fsuid);
    AbandonedTask(s, step);
    UidCases(s.slots, s.tasks[step.t].cred.fsuid);
    OrphanOf(Apply(s, step), k, step.t);
  }

  /**
   Exactly when a record loses its call, whatever revocations overlap: a step orphans one if and only if a call that
   owns a record leaves unrecognised, or at a comparison that fails.
   */
  lemma OrphansExactly(s: State, step: Step)
    requires Enabled(s, step) && Accounted(s) && NoOrphan(s)
    ensures NoOrphan(Apply(s, step)) <==> !Abandons(s, step)
  {
    if Abandons(s, step) {
      AbandonOrphans(s, step);
    } else {
      NoOrphanStep(s, step);
    }
  }

  /** With no mount call in progress for its UID, a ready slot has only free and tracked records. */
  lemma SettledLedger(s: State, k: nat)
    requires Accounted(s) && NoOrphan(s) && k < |s.slots| && s.slots[k].inUse && s.slots[k].ready
    requires forall t :: 0 <= t < |s.tasks| ==> Due(s.tasks[t], s.slots[k].uid) == 0
    ensures forall j :: 0 <= j < MaxMounts ==> s.slots[k].mounts.value[j].state != Pending
  {
    var slot := s.slots[k];
    assert SlotOk(slot);
    forall j | 0 <= j < MaxMounts ensures slot.mounts.value[j].state != Pending {
      var r := slot.mounts.value[j];
      assert RecordOk(r);
      TotalAtLeast(RecordOwner, slot.mounts.value, j);
      assert forall t: TaskId :: Owners(slot)[t] <= DueOf(s.tasks, t, slot.uid);
      assert forall t: TaskId :: t in RecordOwner(r) ==> t in Owners(slot);
    }
  }

  // ----- the whole correspondence -----

  lemma OneToOneOrphansNone(s: State)
    requires PendingOk(s)
    ensures NoOrphan(s)
  {
  }

  lemma PendingStep(s: State, step: Step)
    requires Enabled(s, step) && Accounted(s) && PendingOk(s) && !Abandons(s, step) && !Revives(s, step)
    ensures PendingOk(Apply(s, step))
  {
    TableStep(s, step);
    var (slots, tasks) := (SlotsAfter(s, step), TasksAfter(s, step));
    forall k, u: TaskId | 0 <= k < |slots| && slots[k].inUse && slots[k].ready
      ensures Owners(slots[k])[u] == DueOf(tasks, u, slots[k].uid)
    {
      ReadyBefore(s, step, k);
      if s.slots[k].inUse && s.slots[k].ready && slots[k].uid == s.slots[k].uid {
        RecordMoves(s, step, k, u);
      } else {
        NewSlotEmpty(s, step, k, u);
      }
    }
  }

  lemma ReviveBreaks(s: State, step: Step)
    requires Enabled(s, step) && Accounted(s) && PendingOk(s) && Revives(s, step)
    ensures !PendingOk(Apply(s, step))
  {
    var uid := s.tasks[step.t].cred.uid;
    JoinOrCreateOutcome(s.slots, uid, step.sid, step.env);
    var k := FirstIndex(s.slots, Unallocated());
    var u :| 0 <= u < |s.tasks| && u != step.t && Due(s.tasks[u], uid) == 1;
    NewSlotEmpty(s, step, k, u);
    DueAfter(s, step, u, uid);
    var after := Apply(s, step);
    assert after.slots[k] == NewSlot(uid, step.sid, step.env.created.value) && after.tasks == TasksAfter(s, step);
    assert Owners(after.slots[k])[u] != DueOf(after.tasks, u, after.slots[k].uid);
  }

  /**
   Exactly when the one-to-one correspondence breaks, in any sound state: when a record is abandoned, or when a new slot
   is made for a UID with a call whose record went with the old one.
   */
  lemma PendingExactly(s: State, step: Step)
    requires Enabled(s, step) && Accounted(s) && PendingOk(s)
    ensures PendingOk(Apply(s, step)) <==> !Abandons(s, step) && !Revives(s, step)
  {
    OneToOneOrphansNone(s);
    if Abandons(s, step) {
      AbandonOrphans(s, step);
      if PendingOk(Apply(s, step)) { OneToOneOrphansNone(Apply(s, step)); }
    } else if Revives(s, step) {
      ReviveBreaks(s, step);
    } else {
      PendingStep(s, step);
    }
  }

  // ----- the case of safe releases -----

  lemma OwnsIfHolding(s: State, t: TaskId)
    requires Accounted(s) && PendingOk(s) && t < |s.tasks|
    ensures OwnsRecord(s, t) <==> FindReady(s.slots, s.tasks[t].cred.fsuid) < |s.slots| && Holding(s.tasks[t].stage)
  {
    var k := FindReady(s.slots, s.tasks[t].cred.fsuid);
    UidCases(s.slots, s.tasks[t].cred.fsuid);
    if k < |s.slots| {
      assert Owners(s.slots[k])[t] == DueOf(s.tasks, t, s.slots[k].uid);
    }
  }

  /** A call in a ready slot is recognised, and any file in its hand is the slot's, whose namespace it is in. */
  lemma CallInItsSlot(s: State, t: TaskId)
    requires Accounted(s) && Recognised(s) && Shared(s) && t < |s.tasks| && Holding(s.tasks[t].stage)
    requires FindReady(s.slots, s.tasks[t].cred.fsuid) < |s.slots|
    ensures SandboxCurrent(s.slots, s.tasks[t].cred)
    ensures var task := s.tasks[t];
            task.stage.HoldNs? ==> task.stage.file.Some? && task.stage.file.value.ns == task.ns
  {
    var task := s.tasks[t];
    assert TaskOk(task) && ShapeOk(task);
    CurrentIfRetained(s, t);
    var k := FindReady(s.slots, task.cred.fsuid);
    UidCases(s.slots, task.cred.fsuid);
    SandboxedSlot(s, t, k);
    assert InNamespace(s.slots[k], task) && SlotOk(s.slots[k]);
  }

  lemma AbandonIsLeak(s: State, step: Step)
    requires Enabled(s, step) && Accounted(s) && Recognised(s) && Shared(s) && PendingOk(s)
    ensures Abandons(s, step) <==> Leaks(s, step)
  {
    if !OfRequest(step) && step.t < |s.tasks| {
      OwnsIfHolding(s, step.t);
      if OwnsRecord(s, step.t) { CallInItsSlot(s, step.t); }
    }
  }

  /** Where everybody has kept his slot, a spurious comparison is the only way. */
  lemma PendingWhenRecognised(s: State, step: Step)
    requires Enabled(s, step) && Accounted(s) && Recognised(s) && Shared(s) && PendingOk(s)
    ensures PendingOk(Apply(s, step)) <==> !Leaks(s, step)
  {
    AbandonIsLeak(s, step);
    NothingRevived(s, step);
    PendingExactly(s, step);
  }

  lemma NothingRevived(s: State, step: Step)
    requires Enabled(s, step) && Accounted(s) && Recognised(s)
    ensures !Revives(s, step)
  {
  }
}
