/** One namespace per UID: everybody in a ready slot, and every file in hand, shares the slot's. */
module MountCalls {
  import opened Sequences
  import opened SlotTable
  import opened SlotTableFacts
  import opened SandboxSystem
  import opened EntryAccounting
  import opened Revocation

  // ----- one namespace per slot -----

  /** The identity whose namespace the task is meant to be in. */
  function Resident(task: Task): Option<Identity> {
    if task.live && task.origin.Some? then Some(task.origin.value.id)
    else if task.stage.Committing? then Some(task.stage.id)
    else None
  }

  ghost predicate InNamespace(slot: Slot, task: Task) {
    && (Resident(task).Some? && Holds(slot, Resident(task).value) && slot.ready ==>
          slot.file.Some? && slot.file.value.ns == task.ns)
    && (task.stage.Joining? && Holds(slot, task.stage.id) && slot.ready ==> slot.file == task.stage.file)
    && (task.stage.HoldNs? && task.origin.Some? && Holds(slot, task.origin.value.id) && slot.ready ==>
          slot.file == task.stage.file)
  }

  /** Everybody in a ready slot shares the namespace of its file; files in hand are that file. */
  ghost predicate Shared(s: State) {
    forall k, t | 0 <= k < |s.slots| && 0 <= t < |s.tasks| :: InNamespace(s.slots[k], s.tasks[t])
  }

  /** A ready slot after a step was ready before with the same file, unless the step created it. */
  lemma ReadyBefore(s: State, step: Step, k: nat)
    requires Enabled(s, step) && Accounted(s) && k < |s.slots| == |SlotsAfter(s, step)|
    requires SlotsAfter(s, step)[k].inUse && SlotsAfter(s, step)[k].ready
    ensures || (step.Enter? && EnterOutcome(s, step.t, step.sid, step.env).Created? &&
                step.env.created.Some? &&
                SlotsAfter(s, step)[k] == NewSlot(s.tasks[step.t].cred.uid, step.sid, step.env.created.value) &&
                forall i :: 0 <= i < |s.slots| && s.slots[i].inUse ==> s.slots[i].uid != s.tasks[step.t].cred.uid)
            || (var (b, a) := (s.slots[k], SlotsAfter(s, step)[k]);
                b.inUse && b.ready && a.uid == b.uid && a.sid == b.sid && a.file == b.file)
  {
    SlotMoves(s, step, k);
  }

  /** A task that keeps its residence, namespace and held file keeps its place. */
  ghost predicate SamePlace(before: Task, after: Task) {
    && (Resident(after).Some? ==> Resident(after) == Resident(before) && after.ns == before.ns)
    && (after.stage.Joining? ==> after.stage == before.stage)
    && (after.stage.HoldNs? ==> after.stage == before.stage && after.origin == before.origin)
  }

  lemma SamePlaceStays(slot: Slot, before: Task, slot': Slot, after: Task)
    requires InNamespace(slot, before) && SamePlace(before, after)
    requires slot'.ready ==> slot.ready && slot'.uid == slot.uid && slot'.sid == slot.sid && slot'.file == slot.file &&
                             (slot'.inUse ==> slot.inUse)
    ensures InNamespace(slot', after)
  {
  }

  /** Every resident, joining or comparing identity already has its slot. */
  lemma ResidentHasSlot(s: State, t: TaskId)
    requires Accounted(s) && Retained(s) && t < |s.tasks|
    ensures Resident(s.tasks[t]).Some? ==> HasSlot(s.slots, Resident(s.tasks[t]).value)
    ensures s.tasks[t].stage.Joining? ==> HasSlot(s.slots, s.tasks[t].stage.id)
    ensures s.tasks[t].stage.HoldNs? ==> s.tasks[t].origin.Some? && HasSlot(s.slots, s.tasks[t].origin.value.id)
  {
    assert TaskOk(s.tasks[t]);
  }

  /** The only slot of its UID is the one a sandboxed task lives in. */
  lemma SandboxedSlot(s: State, t: TaskId, k: nat)
    requires Accounted(s) && Retained(s) && t < |s.tasks| && Sandboxed(s.tasks[t])
    requires k < |s.slots| && s.slots[k].inUse && s.slots[k].uid == s.tasks[t].origin.value.id.uid
    ensures Holds(s.slots[k], s.tasks[t].origin.value.id)
  {
    var h :| 0 <= h < |s.slots| && Holds(s.slots[h], s.tasks[t].origin.value.id);
  }

  lemma PlaceStep(s: State, step: Step)
    requires Enabled(s, step) && !OfRequest(step) && !step.Enter? && !step.JoinDone? && !step.NsLock?
    requires TaskOk(s.tasks[step.t])
    ensures SamePlace(s.tasks[step.t], TaskAfter(s, step))
  {
    if step.Commit? {
    } else {
      InheritedOrigin(s, step);
      PlaceKept(s, step);
    }
  }

  lemma PlaceKept(s: State, step: Step)
    requires Enabled(s, step) && !OfRequest(step) && !step.Enter? && !step.JoinDone? && !step.NsLock? && !step.Commit?
    ensures TaskAfter(s, step).ns == s.tasks[step.t].ns || step.OtherCred?
    ensures !TaskAfter(s, step).stage.Joining? && !TaskAfter(s, step).stage.HoldNs? && !TaskAfter(s, step).stage.Committing?
  {
  }

  lemma SharedOther(s: State, step: Step, k: nat, before: Task, after: Task, u: TaskId)
    requires Enabled(s, step) && Accounted(s) && Recognised(s) && Shared(s) && |SlotsAfter(s, step)| == |s.slots|
    requires k < |s.slots| && u < |s.tasks| && before == s.tasks[u] && SamePlace(before, after)
    ensures InNamespace(SlotsAfter(s, step)[k], after)
  {
    var slot := SlotsAfter(s, step)[k];
    assert InNamespace(s.slots[k], before);
    if slot.inUse && slot.ready {
      ReadyBefore(s, step, k);
      if s.slots[k].inUse && s.slots[k].ready && slot.file == s.slots[k].file && slot.uid == s.slots[k].uid && slot.sid == s.slots[k].sid {
        SamePlaceStays(s.slots[k], before, slot, after);
      } else {
        NobodyInNewSlot(s, slot, before, u);
      }
    }
  }

  lemma NobodyInNewSlot(s: State, slot: Slot, task: Task, u: TaskId)
    requires Accounted(s) && Retained(s) && u < |s.tasks| && task == s.tasks[u]
    requires forall i :: 0 <= i < |s.slots| && s.slots[i].inUse ==> s.slots[i].uid != slot.uid
    ensures Resident(task).Some? ==> Resident(task).value.uid != slot.uid
    ensures task.stage.Joining? ==> task.stage.id.uid != slot.uid
    ensures task.stage.HoldNs? ==> task.origin.Some? && task.origin.value.id.uid != slot.uid
  {
    ResidentHasSlot(s, u);
  }

  /** The only slot of the UID after a successful entry, and the file it holds. */
  lemma EnteredSlot(slots: seq<Slot>, uid: nat, sid: nat, env: JoinEnv, k: nat)
    requires TableOk(slots) && k < |slots| == |JoinOrCreate(slots, uid, sid, env).0|
    requires JoinOrCreate(slots, uid, sid, env).0[k].inUse && JoinOrCreate(slots, uid, sid, env).0[k].uid == uid
    ensures var (after, outcome) := JoinOrCreate(slots, uid, sid, env);
            && (outcome.Joined? ==> after[k].file == outcome.file)
            && (outcome.Created? ==> after[k].file == env.created && env.created.Some?)
  {
    JoinOrCreateOutcome(slots, uid, sid, env);
    UidCases(slots, uid);
  }

  lemma SharedEnter(s: State, step: Step, k: nat)
    requires Enabled(s, step) && step.Enter? && Accounted(s) && k < |s.slots| == |SlotsAfter(s, step)|
    ensures InNamespace(SlotsAfter(s, step)[k], TaskAfter(s, step))
  {
    var uid := s.tasks[step.t].cred.uid;
    var slot := SlotsAfter(s, step)[k];
    if slot.inUse && slot.uid == uid {
      EnteredSlot(s.slots, uid, step.sid, step.env, k);
    }
    assert s.tasks[step.t].origin.None?;
  }

  lemma SharedJoinDone(s: State, step: Step, k: nat)
    requires Enabled(s, step) && step.JoinDone? && Shared(s) && k < |s.slots| && TaskOk(s.tasks[step.t])
    ensures InNamespace(s.slots[k], TaskAfter(s, step))
  {
    assert InNamespace(s.slots[k], s.tasks[step.t]);
  }

  lemma SharedNsLock(s: State, step: Step, k: nat)
    requires Enabled(s, step) && step.NsLock? && Accounted(s) && Recognised(s) && Shared(s) && k < |s.slots|
    ensures InNamespace(s.slots[k], TaskAfter(s, step))
  {
    var task := s.tasks[step.t];
    assert InNamespace(s.slots[k], task) && TaskOk(task) && ShapeOk(task);
    UidCases(s.slots, task.cred.fsuid);
    assert s.slots[k].inUse && s.slots[k].ready && s.slots[k].uid == task.cred.fsuid ==> k == FindReady(s.slots, task.cred.fsuid);
  }

  lemma SharedOwn(s: State, step: Step, k: nat)
    requires Enabled(s, step) && !OfRequest(step) && Accounted(s) && Recognised(s) && Shared(s)
    requires k < |s.slots| == |SlotsAfter(s, step)|
    ensures InNamespace(SlotsAfter(s, step)[k], TaskAfter(s, step))
  {
    if step.Enter? {
      SharedEnter(s, step, k);
    } else if step.JoinDone? {
      assert TaskOk(s.tasks[step.t]);
      SharedJoinDone(s, step, k);
    } else if step.NsLock? {
      SharedNsLock(s, step, k);
    } else {
      assert TaskOk(s.tasks[step.t]);
      PlaceStep(s, step);
      SharedOther(s, step, k, s.tasks[step.t], TaskAfter(s, step), step.t);
    }
  }

  lemma SharedStep(s: State, step: Step)
    requires Enabled(s, step) && Accounted(s) && Recognised(s) && Shared(s)
    ensures Shared(Apply(s, step))
  {
    TableStep(s, step);
    var after := Apply(s, step);
    forall k, u | 0 <= k < |after.slots| && 0 <= u < |after.tasks| ensures InNamespace(after.slots[k], after.tasks[u]) {
      if !OfRequest(step) && ((step.Fork? && u == |s.tasks|) || (!step.Fork? && u == step.t)) {
        SharedOwn(s, step, k);
        assert after.tasks[u] == TaskAfter(s, step);
      } else {
        assert after.tasks[u] == s.tasks[u];
        SharedOther(s, step, k, s.tasks[u], s.tasks[u], u);
      }
    }
  }

  // ----- entries in progress, whatever revocations overlap -----

  /** The namespace that an entry in progress is bound for, or already in. */
  function EntryNs(task: Task): Option<nat> {
    match task.stage
    case Joining(_, file) => if file.Some? then Some(file.value.ns) else None
    case Committing(_) => Some(task.ns)
    case Completing(_) => Some(task.ns)
    case _ => None
  }

  ghost predicate SameEntry(a: Task, b: Task) {
    EntryNs(a).Some? && EntryNs(b).Some? && a.stage.id.uid == b.stage.id.uid ==> EntryNs(a) == EntryNs(b)
  }

  ghost predicate EntersSlot(slot: Slot, task: Task) {
    EntryNs(task).Some? && slot.inUse && slot.ready && slot.uid == task.stage.id.uid ==>
      slot.file.Some? && EntryNs(task) == Some(slot.file.value.ns)
  }

  /** Entries of one UID are bound for one namespace, that of its ready slot if there is one. */
  ghost predicate EntriesShare(s: State) {
    && (forall t, u | 0 <= t < |s.tasks| && 0 <= u < |s.tasks| :: SameEntry(s.tasks[t], s.tasks[u]))
    && (forall k, t | 0 <= k < |s.slots| && 0 <= t < |s.tasks| :: EntersSlot(s.slots[k], s.tasks[t]))
  }

  predicate KeepsEntry(before: Task, after: Task) {
    EntryNs(after).Some? ==> EntryNs(before) == EntryNs(after) && before.stage.id == after.stage.id
  }

  lemma EntryKept(s: State, step: Step)
    requires Enabled(s, step) && !OfRequest(step) && !step.Enter?
    ensures KeepsEntry(s.tasks[step.t], TaskAfter(s, step))
    ensures step.Fork? ==> EntryNs(TaskAfter(s, step)).None?
  {
  }

  /** Only the entering task is bound for anything new. */
  lemma EntriesKept(s: State, step: Step, u: TaskId)
    requires Enabled(s, step) && u < |TasksAfter(s, step)| && (step.Enter? ==> u != step.t)
    ensures EntryNs(TasksAfter(s, step)[u]).Some? ==> u < |s.tasks| && KeepsEntry(s.tasks[u], TasksAfter(s, step)[u])
  {
    if !OfRequest(step) && !step.Enter? { EntryKept(s, step); }
  }

  lemma EnteringSlot(s: State, step: Step, k: nat)
    requires Enabled(s, step) && step.Enter? && Accounted(s) && k < |s.slots| == |SlotsAfter(s, step)|
    ensures EntersSlot(SlotsAfter(s, step)[k], TaskAfter(s, step))
  {
    var uid := s.tasks[step.t].cred.uid;
    var slot := SlotsAfter(s, step)[k];
    if slot.inUse && slot.uid == uid {
      EnteredSlot(s.slots, uid, step.sid, step.env, k);
    }
  }

  lemma EntersSlotStep(s: State, step: Step, k: nat, u: TaskId)
    requires Enabled(s, step) && Accounted(s) && EntriesShare(s) && k < |s.slots| == |SlotsAfter(s, step)|
    requires u < |TasksAfter(s, step)|
    ensures EntersSlot(SlotsAfter(s, step)[k], TasksAfter(s, step)[u])
  {
    var (slot, task) := (SlotsAfter(s, step)[k], TasksAfter(s, step)[u]);
    if step.Enter? && u == step.t {
      EnteringSlot(s, step, k);
    } else if EntryNs(task).Some? && slot.inUse && slot.ready && slot.uid == task.stage.id.uid {
      EntriesKept(s, step, u);
      var h := HomeOf(s, u);
      ReadyBefore(s, step, k);
      assert EntersSlot(s.slots[k], s.tasks[u]);
    }
  }

  /** A join finds the other entries of its UID in its own ready slot, and a creation finds none. */
  lemma NewEntryShares(s: State, step: Step, u: TaskId)
    requires Enabled(s, step) && step.Enter? && Accounted(s) && |SlotsAfter(s, step)| == |s.slots|
    requires u < |s.tasks| && u != step.t
    requires forall k :: 0 <= k < |s.slots| ==> EntersSlot(SlotsAfter(s, step)[k], s.tasks[u])
    requires forall k :: 0 <= k < |s.slots| ==> EntersSlot(SlotsAfter(s, step)[k], TaskAfter(s, step))
    ensures SameEntry(TaskAfter(s, step), s.tasks[u])
  {
    var uid := s.tasks[step.t].cred.uid;
    if EntryNs(s.tasks[u]).Some? && s.tasks[u].stage.id.uid == uid {
      var h := HomeOf(s, u);
      JoinOrCreateOutcome(s.slots, uid, step.sid, step.env);
      UidCases(s.slots, uid);
      assert EntersSlot(SlotsAfter(s, step)[h], s.tasks[u]);
    }
  }

  lemma SameEntryStep(s: State, step: Step, t: TaskId, u: TaskId)
    requires Enabled(s, step) && Accounted(s) && EntriesShare(s) && |SlotsAfter(s, step)| == |s.slots|
    requires t < |TasksAfter(s, step)| && u < |TasksAfter(s, step)| && (step.Enter? ==> u != step.t)
    ensures SameEntry(TasksAfter(s, step)[t], TasksAfter(s, step)[u])
  {
    EntriesKept(s, step, u);
    if step.Enter? && t == step.t {
      forall k | 0 <= k < |s.slots|
        ensures EntersSlot(SlotsAfter(s, step)[k], TasksAfter(s, step)[u]) && EntersSlot(SlotsAfter(s, step)[k], TaskAfter(s, step))
      {
        EntersSlotStep(s, step, k, u);
        EnteringSlot(s, step, k);
      }
      NewEntryShares(s, step, u);
    } else {
      EntriesKept(s, step, t);
      if t < |s.tasks| && u < |s.tasks| { assert SameEntry(s.tasks[t], s.tasks[u]); }
    }
  }

  lemma SameEntrySwap(a: Task, b: Task)
    requires SameEntry(a, b)
    ensures SameEntry(b, a)
  {
  }

  lemma EntriesShareStep(s: State, step: Step)
    requires Enabled(s, step) && Accounted(s) && EntriesShare(s)
    ensures EntriesShare(Apply(s, step))
  {
    TableStep(s, step);
    var (slots, tasks) := (SlotsAfter(s, step), TasksAfter(s, step));
    forall k, u | 0 <= k < |slots| && 0 <= u < |tasks| ensures EntersSlot(slots[k], tasks[u]) {
      EntersSlotStep(s, step, k, u);
    }
    forall t, u | 0 <= t < |tasks| && 0 <= u < |tasks| ensures SameEntry(tasks[t], tasks[u]) {
      if t != u {
        if step.Enter? && u == step.t {
          SameEntryStep(s, step, u, t);
          SameEntrySwap(tasks[u], tasks[t]);
        } else {
          SameEntryStep(s, step, t, u);
        }
      }
    }
    assert Apply(s, step).slots == slots && Apply(s, step).tasks == tasks;
  }
}
