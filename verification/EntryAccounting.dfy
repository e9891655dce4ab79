/**
 What holds in every run, without any hypothesis: sound slots, one slot per UID, entry counts that
 equal the tasks inside an entry, and no undetached revoked slot without a request that will reach it.
 */
module EntryAccounting {
  import opened Sequences
  import opened SlotTable
  import opened SlotTableFacts
  import opened Credentials
  import opened SandboxSystem

  predicate Counted(stage: Stage) {
    stage.Joining? || stage.Committing? || stage.Aborting? || stage.Completing?
  }

  function TicketOf(task: Task): multiset<Identity> {
    if Counted(task.stage) then multiset{task.stage.id} else multiset{}
  }

  /** One ticket for each task between a successful join or creation and its completion. */
  function Tickets(s: State): multiset<Identity> { Total(TicketOf, s.tasks) }

  /** The entry count of a slot is the number of tasks inside an entry of its identity, and all of them have a slot. */
  ghost predicate EntrantsOk(s: State) {
    && (forall i :: 0 <= i < |s.slots| && s.slots[i].inUse ==>
                      s.slots[i].entrants == Tickets(s)[Identity(s.slots[i].uid, s.slots[i].sid)])
    && (forall t :: 0 <= t < |s.tasks| && Counted(s.tasks[t].stage) ==> HasSlot(s.slots, s.tasks[t].stage.id))
  }

  ghost predicate TaskOk(task: Task) {
    && (!task.live ==> task.stage.User?)
    && (task.stage.Joining? || task.stage.Committing? || task.stage.Aborting? ==>
          task.origin.None? && AppidInRange(task.stage.id.uid))
    && (task.stage.Joining? ==> task.stage.file.Some?)
    && (task.stage.Completing? ==> task.origin.Some? && task.origin.value.id == task.stage.id)
    && (!task.stage.User? && !Counted(task.stage) ==> task.origin.Some?)
  }

  /** How many slots the current worker run has already detached. */
  function Progress(req: Request): nat {
    match req.phase
    case Queued => 0
    case Detaching(next) => next
    case Letting(at, _, _) => at + 1
    case _ => MaxInstances
  }

  ghost predicate PhaseOk(req: Request) {
    && Progress(req) <= MaxInstances
    && (req.phase.Queued? || req.phase.Checking? || req.phase.Releasing? ==> req.queued)
  }

  ghost predicate Detached(slot: Slot) {
    && slot.file.None?
    && (slot.mounts.Some? ==> forall j :: 0 <= j < |slot.mounts.value| ==> slot.mounts.value[j] == FreeRecord)
  }

  ghost predicate WillDetach(s: State, k: nat, uid: nat) {
    exists r :: 0 <= r < |s.requests| && Active(s.requests[r]) && s.requests[r].uid == uid && Progress(s.requests[r]) <= k
  }

  /** A revoked slot has given up its resources, or an unfinished request still has to reach it. */
  ghost predicate DetachPending(s: State) {
    forall k :: 0 <= k < |s.slots| && s.slots[k].inUse && s.slots[k].revoking ==>
                  Detached(s.slots[k]) || WillDetach(s, k, s.slots[k].uid)
  }

  ghost predicate Accounted(s: State) {
    && |s.slots| == MaxInstances
    && TableOk(s.slots)
    && (forall t :: 0 <= t < |s.tasks| ==> TaskOk(s.tasks[t]))
    && (forall r :: 0 <= r < |s.requests| ==> PhaseOk(s.requests[r]))
    && EntrantsOk(s)
    && DetachPending(s)
  }

  // ----- the table -----

  lemma CallTableStep(s: State, step: Step)
    requires Enabled(s, step) && (step.Reserve? || step.Report? || step.Umount?) && TableOk(s.slots)
    ensures TableOk(SlotsAfter(s, step)) && |SlotsAfter(s, step)| == |s.slots|
  {
    var uid := s.tasks[step.t].cred.fsuid;
    match step {
      case Reserve(t, _) => MountReserveOutcome(s.slots, uid, t, WantedBytes(s.tasks[t].stage.kind));
      case Report(t) => MountResultOutcome(s.slots, uid, t, s.tasks[t].stage.mnt);
      case Umount(t, mnt) => UmountResultOutcome(s.slots, uid, mnt);
    }
  }

  lemma RevokeTableStep(s: State, step: Step)
    requires Enabled(s, step) && OfRequest(step) && TableOk(s.slots)
    ensures TableOk(SlotsAfter(s, step)) && |SlotsAfter(s, step)| == |s.slots|
  {
    match step {
      case Revoke(uid, _) => MarkRevokingOk(s.slots, uid);
      case DetachNext(r) => DetachOk(s.slots, s.requests[r].phase.next, s.requests[r].uid);
      case Release(r) => ReleaseSlotsOk(s.slots, s.requests[r].uid);
      case _ =>
    }
  }

  lemma TableStep(s: State, step: Step)
    requires Enabled(s, step) && TableOk(s.slots) && EntrantsOk(s)
    ensures TableOk(SlotsAfter(s, step)) && |SlotsAfter(s, step)| == |s.slots| && Apply(s, step).slots == SlotsAfter(s, step)
  {
    if OfRequest(step) {
      RevokeTableStep(s, step);
    } else if step.Reserve? || step.Report? || step.Umount? {
      CallTableStep(s, step);
    } else if step.Enter? {
      JoinOrCreateOutcome(s.slots, s.tasks[step.t].cred.uid, step.sid, step.env);
    } else if step.Complete? {
      var k := HomeOf(s, step.t);
      EntryCompleteOutcome(s.slots, s.tasks[step.t].stage.id.uid, s.tasks[step.t].stage.id.sid, k);
    }
  }

  /** The slot a counted task is counted in: the count there is positive, so its completion always finds it. */
  lemma HomeOf(s: State, t: TaskId) returns (k: nat)
    requires EntrantsOk(s) && t < |s.tasks| && Counted(s.tasks[t].stage)
    ensures k < |s.slots| && Holds(s.slots[k], s.tasks[t].stage.id) && s.slots[k].entrants > 0
  {
    var id := s.tasks[t].stage.id;
    k :| 0 <= k < |s.slots| && Holds(s.slots[k], id);
    TotalAtLeast(TicketOf, s.tasks, t);
    assert Identity(s.slots[k].uid, s.slots[k].sid) == id;
    assert id in TicketOf(s.tasks[t]);
  }

  lemma NoTicket(s: State, id: Identity)
    requires EntrantsOk(s) && !HasSlot(s.slots, id)
    ensures Tickets(s)[id] == 0
  {
    TotalMember(TicketOf, s.tasks, id);
  }

  lemma TicketsUpdate(s: State, t: TaskId, task: Task)
    requires t < |s.tasks|
    ensures Total(TicketOf, s.tasks[t := task]) + TicketOf(s.tasks[t]) == Tickets(s) + TicketOf(task)
  {
    TotalUpdate(TicketOf, s.tasks, t, task);
  }

  // ----- the entry counts -----

  /** No slot gains or loses entries, and none with entries goes away. */
  ghost predicate KeepsEntries(slots: seq<Slot>, after: seq<Slot>) {
    && |after| == |slots|
    && forall i :: 0 <= i < |slots| ==>
         && (after[i].inUse ==> slots[i].inUse && after[i].uid == slots[i].uid && after[i].sid == slots[i].sid &&
                                after[i].entrants == slots[i].entrants)
         && (slots[i].inUse && slots[i].entrants > 0 ==> after[i].inUse)
  }

  ghost predicate KeepsTickets(tasks: seq<Task>, after: seq<Task>) {
    |after| == |tasks| && forall t :: 0 <= t < |tasks| ==> TicketOf(after[t]) == TicketOf(tasks[t])
  }

  lemma EntrantsFrame(s: State, after: State)
    requires EntrantsOk(s) && KeepsEntries(s.slots, after.slots) && KeepsTickets(s.tasks, after.tasks)
    ensures EntrantsOk(after)
  {
    TotalPointwise(TicketOf, s.tasks, after.tasks);
    forall t | 0 <= t < |after.tasks| && Counted(after.tasks[t].stage) ensures HasSlot(after.slots, after.tasks[t].stage.id) {
      assert TicketOf(after.tasks[t]) == TicketOf(s.tasks[t]);
      assert after.tasks[t].stage.id in TicketOf(s.tasks[t]);
      var k := HomeOf(s, t);
      assert Holds(after.slots[k], after.tasks[t].stage.id);
    }
  }

  /** Entering with a counted ticket, for a slot whose count grew by one or that is new. */
  lemma EntrantsEnter(s: State, t: TaskId, task: Task, k: nat, slot: Slot, after: State)
    requires TableOk(s.slots) && EntrantsOk(s) && t < |s.tasks| && k < |s.slots|
    requires !Counted(s.tasks[t].stage) && Counted(task.stage) && Holds(slot, task.stage.id)
    requires if s.slots[k].inUse then Holds(s.slots[k], task.stage.id) && slot.entrants == s.slots[k].entrants + 1
             else slot.entrants == 1 && forall i :: 0 <= i < |s.slots| && s.slots[i].inUse ==> s.slots[i].uid != slot.uid
    requires after.slots == s.slots[k := slot] && after.tasks == s.tasks[t := task]
    ensures EntrantsOk(after)
  {
    var id := task.stage.id;
    TicketsUpdate(s, t, task);
    assert Tickets(after) == Tickets(s) + multiset{id};
    if !s.slots[k].inUse { NoTicket(s, id); }
    forall i | 0 <= i < |after.slots| && after.slots[i].inUse
      ensures after.slots[i].entrants == Tickets(after)[Identity(after.slots[i].uid, after.slots[i].sid)]
    {
      if i != k {
        assert after.slots[i] == s.slots[i];
        assert s.slots[i].uid != id.uid;
      }
    }
    forall u | 0 <= u < |after.tasks| && Counted(after.tasks[u].stage) ensures HasSlot(after.slots, after.tasks[u].stage.id) {
      if u == t {
        assert Holds(after.slots[k], id);
      } else {
        var h := HomeOf(s, u);
        assert Holds(after.slots[h], after.tasks[u].stage.id);
      }
    }
  }

  lemma EntrantsComplete(s: State, t: TaskId, task: Task, after: State)
    requires TableOk(s.slots) && EntrantsOk(s) && t < |s.tasks| && Counted(s.tasks[t].stage) && !Counted(task.stage)
    requires after.slots == EntryComplete(s.slots, s.tasks[t].stage.id.uid, s.tasks[t].stage.id.sid)
    requires after.tasks == s.tasks[t := task]
    ensures EntrantsOk(after)
  {
    var id := s.tasks[t].stage.id;
    var k := HomeOf(s, t);
    EntryCompleteOutcome(s.slots, id.uid, id.sid, k);
    TicketsUpdate(s, t, task);
    assert Tickets(after) + multiset{id} == Tickets(s);
    forall i | 0 <= i < |after.slots| && after.slots[i].inUse
      ensures after.slots[i].entrants == Tickets(after)[Identity(after.slots[i].uid, after.slots[i].sid)]
    {
      assert Tickets(s)[id] == s.slots[k].entrants;
      assert Tickets(after)[id] + 1 == Tickets(s)[id];
      if i != k {
        assert after.slots[i] == s.slots[i];
        assert s.slots[i].uid != id.uid;
        assert Identity(s.slots[i].uid, s.slots[i].sid) != id;
      }
    }
    forall u | 0 <= u < |after.tasks| && Counted(after.tasks[u].stage) ensures HasSlot(after.slots, after.tasks[u].stage.id) {
      var h := HomeOf(s, u);
      assert Holds(after.slots[h], after.tasks[u].stage.id);
    }
  }

  lemma EntrantsOnEnter(s: State, t: TaskId, uid: nat, sid: nat, env: JoinEnv, task: Task, after: State)
    requires TableOk(s.slots) && EntrantsOk(s) && t < |s.tasks| && !Counted(s.tasks[t].stage)
    requires var outcome := JoinOrCreate(s.slots, uid, sid, env).1;
             if outcome.Joined? || outcome.Created? then Counted(task.stage) && task.stage.id == Identity(uid, sid)
             else TicketOf(task) == TicketOf(s.tasks[t])
    requires after.slots == JoinOrCreate(s.slots, uid, sid, env).0 && after.tasks == s.tasks[t := task]
    ensures EntrantsOk(after)
  {
    JoinOrCreateOutcome(s.slots, uid, sid, env);
    UidCases(s.slots, uid);
    var outcome := JoinOrCreate(s.slots, uid, sid, env).1;
    if outcome.Joined? {
      var k := FindReady(s.slots, uid);
      EntrantsEnter(s, t, task, k, after.slots[k], after);
    } else if outcome.Created? {
      var k := FirstIndex(s.slots, Unallocated());
      EntrantsEnter(s, t, task, k, after.slots[k], after);
    } else {
      EntrantsFrame(s, after);
    }
  }

  /** Steps that leave the table alone. */
  predicate Tableless(step: Step) {
    match step
    case Enter(_, _, _, _) => false
    case Complete(_) => false
    case Reserve(_, _) => false
    case Report(_) => false
    case Umount(_, _) => false
    case Revoke(_, _) => false
    case DetachNext(_) => false
    case Release(_) => false
    case _ => true
  }

  predicate LedgerOnly(step: Step) { step.Reserve? || step.Report? || step.Umount? }

  lemma TablelessStep(s: State, step: Step)
    requires Enabled(s, step) && Tableless(step)
    ensures Apply(s, step).slots == s.slots
  {
  }

  /** A mount step touches nothing of a slot but its ledger, and only in a ready slot. */
  ghost predicate SameButLedger(slot: Slot, after: Slot) {
    && after == slot.(mounts := after.mounts, mountCount := after.mountCount, tmpfsBytes := after.tmpfsBytes)
    && (after != slot ==> slot.inUse && slot.ready && slot.mounts.Some? && after.mounts.Some?)
  }

  lemma LedgerOnlyStep(s: State, step: Step)
    requires Enabled(s, step) && LedgerOnly(step) && TableOk(s.slots)
    ensures OnlyLedgers(s.slots, Apply(s, step).slots)
  {
    var uid := s.tasks[step.t].cred.fsuid;
    match step {
      case Reserve(t, _) => ReserveLedger(s.slots, uid, t, WantedBytes(s.tasks[t].stage.kind));
      case Report(t) => ReportLedger(s.slots, uid, t, s.tasks[t].stage.mnt);
      case Umount(t, mnt) => UmountLedger(s.slots, uid, mnt);
    }
  }

  ghost predicate OnlyLedgers(slots: seq<Slot>, after: seq<Slot>) {
    |after| == |slots| && forall i :: 0 <= i < |slots| ==> SameButLedger(slots[i], after[i])
  }

  lemma ReserveLedger(slots: seq<Slot>, uid: nat, t: TaskId, bytes: nat)
    requires TableOk(slots)
    ensures OnlyLedgers(slots, MountReserve(slots, uid, t, bytes).0)
  {
    UidCases(slots, uid);
    MountReserveOutcome(slots, uid, t, bytes);
  }

  lemma ReportLedger(slots: seq<Slot>, uid: nat, t: TaskId, mnt: Option<Mount>)
    requires TableOk(slots)
    ensures OnlyLedgers(slots, MountResult(slots, uid, t, mnt).0)
  {
    UidCases(slots, uid);
    MountResultOutcome(slots, uid, t, mnt);
  }

  lemma UmountLedger(slots: seq<Slot>, uid: nat, mnt: Mount)
    requires TableOk(slots)
    ensures OnlyLedgers(slots, UmountResult(slots, uid, mnt).0)
  {
    UidCases(slots, uid);
    UmountResultOutcome(slots, uid, mnt);
  }

  // ----- one slot at a time -----

  /** What an entry can do to a slot: count one more, clear a free one, or make it the only one of the UID. */
  ghost predicate EnterMoved(slots: seq<Slot>, uid: nat, sid: nat, env: JoinEnv, before: Slot, after: Slot) {
    || after == before
    || (before.inUse && before.ready && !before.revoking && after == before.(entrants := before.entrants + 1))
    || (!before.inUse && after == BlankSlot)
    || (&& !before.inUse && env.created.Some? && after == NewSlot(uid, sid, env.created.value)
        && JoinOrCreate(slots, uid, sid, env).1.Created?
        && forall i :: 0 <= i < |slots| && slots[i].inUse ==> slots[i].uid != uid)
  }

  /** Everything a step can do to slot `k`. */
  ghost predicate SlotMoved(s: State, step: Step, k: nat, before: Slot, after: Slot)
    requires Enabled(s, step)
  {
    if Tableless(step) then after == before
    else if LedgerOnly(step) then SameButLedger(before, after)
    else
      match step
      case Enter(t, sid, env, _) => EnterMoved(s.slots, s.tasks[t].cred.uid, sid, env, before, after)
      case Complete(_) =>
        after == before || (before.inUse && before.entrants > 0 && after == before.(entrants := before.entrants - 1))
      case Revoke(uid, _) => after == MarkedSlot(before, uid)
      case DetachNext(r) =>
        after == if k == s.requests[r].phase.next && before.inUse && before.uid == s.requests[r].uid
                 then DetachedSlot(before) else before
      case Release(r) => after == ReleasedSlot(before, s.requests[r].uid)
  }

  lemma EnterMoves(slots: seq<Slot>, uid: nat, sid: nat, env: JoinEnv, k: nat)
    requires TableOk(slots) && k < |slots|
    ensures var after := JoinOrCreate(slots, uid, sid, env).0;
            |after| == |slots| && EnterMoved(slots, uid, sid, env, slots[k], after[k])
  {
    JoinOrCreateOutcome(slots, uid, sid, env);
    UidCases(slots, uid);
    var free := FirstIndex(slots, Unallocated());
    if free == k { assert !slots[k].inUse; }
  }

  lemma CompleteMoves(s: State, step: Step, k: nat)
    requires Enabled(s, step) && step.Complete? && TableOk(s.slots) && EntrantsOk(s) && k < |s.slots|
    ensures var id := s.tasks[step.t].stage.id;
            var after := EntryComplete(s.slots, id.uid, id.sid);
            |after| == |s.slots| && SlotMoved(s, step, k, s.slots[k], after[k])
  {
    var h := HomeOf(s, step.t);
    EntryCompleteOutcome(s.slots, s.tasks[step.t].stage.id.uid, s.tasks[step.t].stage.id.sid, h);
  }

  lemma LedgerMoves(s: State, step: Step, k: nat)
    requires Enabled(s, step) && LedgerOnly(step) && TableOk(s.slots) && k < |s.slots|
    ensures |SlotsAfter(s, step)| == |s.slots| && SameButLedger(s.slots[k], SlotsAfter(s, step)[k])
  {
    LedgerOnlyStep(s, step);
    assert OnlyLedgers(s.slots, SlotsAfter(s, step));
  }

  lemma SlotMoves(s: State, step: Step, k: nat)
    requires Enabled(s, step) && TableOk(s.slots) && EntrantsOk(s) && k < |s.slots|
    ensures |SlotsAfter(s, step)| == |s.slots| && SlotMoved(s, step, k, s.slots[k], SlotsAfter(s, step)[k])
  {
    if LedgerOnly(step) {
      LedgerMoves(s, step, k);
    } else if step.Enter? {
      EnterMoves(s.slots, s.tasks[step.t].cred.uid, step.sid, step.env, k);
    } else if step.Complete? {
      CompleteMoves(s, step, k);
    }
  }

  lemma TicketKept(s: State, step: Step)
    requires Enabled(s, step) && !OfRequest(step) && !step.Enter? && !step.Complete? && !step.Fork?
    ensures TicketOf(TaskAfter(s, step)) == TicketOf(s.tasks[step.t])
  {
  }

  lemma TicketsFrameStep(s: State, step: Step)
    requires Enabled(s, step) && !step.Enter? && !step.Complete? && !step.Fork?
    ensures KeepsTickets(s.tasks, Apply(s, step).tasks)
  {
    if !OfRequest(step) {
      TicketKept(s, step);
    }
  }

  lemma EntriesFrameStep(s: State, step: Step)
    requires Enabled(s, step) && TableOk(s.slots) && !step.Enter? && !step.Complete?
    ensures KeepsEntries(s.slots, Apply(s, step).slots)
  {
    if Tableless(step) {
      TablelessStep(s, step);
    } else if LedgerOnly(step) {
      LedgerOnlyStep(s, step);
    } else {
    }
  }

  lemma EnterStep(s: State, step: Step)
    requires Enabled(s, step) && step.Enter? && TableOk(s.slots) && EntrantsOk(s)
    ensures EntrantsOk(Apply(s, step))
  {
    var after := Apply(s, step);
    EntrantsOnEnter(s, step.t, s.tasks[step.t].cred.uid, step.sid, step.env, TaskAfter(s, step), after);
  }

  lemma CompleteStep(s: State, step: Step)
    requires Enabled(s, step) && step.Complete? && TableOk(s.slots) && EntrantsOk(s)
    ensures EntrantsOk(Apply(s, step))
  {
    var after := Apply(s, step);
    EntrantsComplete(s, step.t, TaskAfter(s, step), after);
  }

  lemma ForkStep(s: State, step: Step)
    requires Enabled(s, step) && step.Fork? && EntrantsOk(s)
    ensures EntrantsOk(Apply(s, step))
  {
    TotalAppend(TicketOf, s.tasks, s.tasks[step.t]);
    assert Tickets(Apply(s, step)) == Tickets(s);
  }

  lemma EntrantsStep(s: State, step: Step)
    requires Enabled(s, step) && TableOk(s.slots) && EntrantsOk(s)
    ensures EntrantsOk(Apply(s, step))
  {
    if step.Enter? {
      EnterStep(s, step);
    } else if step.Complete? {
      CompleteStep(s, step);
    } else if step.Fork? {
      ForkStep(s, step);
    } else {
      TicketsFrameStep(s, step);
      EntriesFrameStep(s, step);
      EntrantsFrame(s, Apply(s, step));
    }
  }

  // ----- tasks and requests -----

  lemma TaskAfterOk(s: State, step: Step)
    requires Enabled(s, step) && !OfRequest(step) && TableOk(s.slots) && TaskOk(s.tasks[step.t])
    ensures TaskOk(TaskAfter(s, step))
  {
    if step.Enter? {
      var uid := s.tasks[step.t].cred.uid;
      JoinOrCreateOutcome(s.slots, uid, step.sid, step.env);
      var k := FindReady(s.slots, uid);
      if k < |s.slots| {
        assert ReadyFor(uid)(s.slots[k]);
        assert SlotOk(s.slots[k]);
      }
    }
  }

  lemma RequestAfterOk(s: State, step: Step)
    requires Enabled(s, step) && OfRequest(step) && |s.slots| == MaxInstances
    requires !step.Revoke? ==> PhaseOk(s.requests[step.r])
    ensures PhaseOk(RequestAfter(s, step))
    ensures !step.Revoke? ==> RequestAfter(s, step).uid == s.requests[step.r].uid
    ensures !step.Revoke? && Active(s.requests[step.r]) ==>
              || Progress(RequestAfter(s, step)) <= Progress(s.requests[step.r])
              || (step.DetachNext? && Progress(RequestAfter(s, step)) == Progress(s.requests[step.r]) + 1)
    ensures !step.Revoke? && Progress(s.requests[step.r]) < MaxInstances ==> Active(RequestAfter(s, step))
  {
  }

  lemma WillDetachStep(s: State, step: Step, k: nat, uid: nat)
    requires Enabled(s, step) && |s.slots| == MaxInstances && k < MaxInstances
    requires forall r :: 0 <= r < |s.requests| ==> PhaseOk(s.requests[r])
    requires WillDetach(s, k, uid)
    requires step.DetachNext? ==> s.requests[step.r].phase.next != k || s.requests[step.r].uid != uid
    ensures WillDetach(Apply(s, step), k, uid)
  {
    var after := Apply(s, step);
    var r :| 0 <= r < |s.requests| && Active(s.requests[r]) && s.requests[r].uid == uid && Progress(s.requests[r]) <= k;
    if OfRequest(step) && !step.Revoke? && step.r == r {
      RequestAfterOk(s, step);
      assert Progress(after.requests[r]) <= k;
    } else {
      assert after.requests[r] == s.requests[r];
    }
  }

  /** No step but the mark makes a slot wait for its detach. */
  lemma NothingElseMarks(s: State, step: Step, k: nat)
    requires Enabled(s, step) && TableOk(s.slots) && EntrantsOk(s) && !step.Revoke? && k < |s.slots| == |SlotsAfter(s, step)|
    requires SlotsAfter(s, step)[k].inUse && SlotsAfter(s, step)[k].revoking && !Detached(SlotsAfter(s, step)[k])
    ensures s.slots[k].inUse && s.slots[k].revoking && !Detached(s.slots[k]) && s.slots[k].uid == SlotsAfter(s, step)[k].uid
    ensures step.DetachNext? ==> s.requests[step.r].phase.next != k || s.requests[step.r].uid != s.slots[k].uid
  {
    SlotMoves(s, step, k);
    assert SlotOk(s.slots[k]);
  }

  lemma DetachPendingStep(s: State, step: Step)
    requires Enabled(s, step) && Accounted(s)
    ensures DetachPending(Apply(s, step))
  {
    var after := Apply(s, step);
    TableStep(s, step);
    forall k | 0 <= k < |after.slots| && after.slots[k].inUse && after.slots[k].revoking && !Detached(after.slots[k])
      ensures WillDetach(after, k, after.slots[k].uid)
    {
      if step.Revoke? && s.slots[k].inUse && s.slots[k].uid == step.uid {
        var r := |s.requests|;
        assert after.requests[r] == RequestAfter(s, step);
      } else if step.Revoke? {
        WillDetachStep(s, step, k, s.slots[k].uid);
      } else {
        NothingElseMarks(s, step, k);
        WillDetachStep(s, step, k, s.slots[k].uid);
      }
    }
  }

  lemma TasksOkStep(s: State, step: Step)
    requires Enabled(s, step) && TableOk(s.slots) && forall t :: 0 <= t < |s.tasks| ==> TaskOk(s.tasks[t])
    ensures forall t :: 0 <= t < |TasksAfter(s, step)| ==> TaskOk(TasksAfter(s, step)[t])
  {
    if !OfRequest(step) { TaskAfterOk(s, step); }
    var after := TasksAfter(s, step);
    forall t | 0 <= t < |after| ensures TaskOk(after[t]) {
      assert (t < |s.tasks| && after[t] == s.tasks[t]) || (!OfRequest(step) && after[t] == TaskAfter(s, step));
    }
  }

  lemma PhasesOkStep(s: State, step: Step)
    requires Enabled(s, step) && |s.slots| == MaxInstances && forall r :: 0 <= r < |s.requests| ==> PhaseOk(s.requests[r])
    ensures forall r :: 0 <= r < |RequestsAfter(s, step)| ==> PhaseOk(RequestsAfter(s, step)[r])
  {
    if OfRequest(step) { RequestAfterOk(s, step); }
  }

  /** Accounting survives every step, whatever the interleaving and however many revocations overlap. */
  lemma AccountedStep(s: State, step: Step)
    requires Enabled(s, step) && Accounted(s)
    ensures Accounted(Apply(s, step))
  {
    TableStep(s, step);
    EntrantsStep(s, step);
    DetachPendingStep(s, step);
    TasksOkStep(s, step);
    PhasesOkStep(s, step);
  }

  lemma AccountedInit(s: State)
    requires Init(s)
    ensures Accounted(s)
  {
    forall t | 0 <= t < |s.tasks| ensures TicketOf(s.tasks[t]) == multiset{} {}
    TotalEmpty(TicketOf, s.tasks);
  }

  lemma {:induction false} AccountedRun(trace: seq<State>, steps: seq<Step>, n: nat)
    requires IsRun(trace, steps) && n < |trace|
    ensures Accounted(trace[n])
  {
    if n == 0 {
      AccountedInit(trace[0]);
    } else {
      AccountedRun(trace, steps, n - 1);
      assert StepOk(trace, steps, n - 1);
      AccountedStep(trace[n - 1], steps[n - 1]);
    }
  }
}
