/**
 Conservation of references: what the module has taken and not dropped is exactly what the table,
 the tasks inside a call and the workers between two critical sections hold.
 */
module References {
  import opened Sequences
  import opened SlotTable
  import opened SlotTableFacts
  import opened SandboxSystem
  import opened EntryAccounting
  import opened Revocation

  function SlotFiles(slot: Slot): multiset<NsFile> { Refs(slot.file) }

  function TaskFiles(task: Task): multiset<NsFile> {
    if task.stage.Joining? || task.stage.HoldNs? then Refs(task.stage.file) else multiset{}
  }

  function RequestFiles(req: Request): multiset<NsFile> {
    if req.phase.Letting? then Refs(req.phase.file) else multiset{}
  }

  function RecordMnt(r: Record): multiset<Mount> { Refs(r.mnt) }

  function SlotMnts(slot: Slot): multiset<Mount> {
    if slot.mounts.Some? then Total(RecordMnt, slot.mounts.value) else multiset{}
  }

  function TaskMnts(task: Task): multiset<Mount> {
    match task.stage
    case Reporting(mnt, _) => Refs(mnt)
    case Dropping(mnt) => multiset{mnt}
    case _ => multiset{}
  }

  function RequestMnts(req: Request): multiset<Mount> {
    if req.phase.Letting? then multiset(req.phase.mnts) else multiset{}
  }

  ghost predicate FilesConserved(s: State) {
    && s.fileRefs == Total(SlotFiles, s.slots) + Total(TaskFiles, s.tasks) + Total(RequestFiles, s.requests)
    && forall k :: 0 <= k < |s.slots| && !s.slots[k].inUse ==> s.slots[k].file.None?
  }

  ghost predicate MountsConserved(s: State) {
    s.mntRefs == Total(SlotMnts, s.slots) + Total(TaskMnts, s.tasks) + Total(RequestMnts, s.requests)
  }

  // ----- what moves in a step -----

  /** The part of the step's own task or request. */
  ghost function Own<V>(ofTask: Task -> multiset<V>, ofRequest: Request -> multiset<V>, s: State, step: Step): multiset<V>
    requires Enabled(s, step)
  {
    if OfRequest(step) then if step.Revoke? then multiset{} else ofRequest(s.requests[step.r])
    else if step.Fork? then multiset{} else ofTask(s.tasks[step.t])
  }

  ghost function OwnAfter<V>(ofTask: Task -> multiset<V>, ofRequest: Request -> multiset<V>, s: State, step: Step): multiset<V>
    requires Enabled(s, step)
  {
    if OfRequest(step) then ofRequest(RequestAfter(s, step)) else ofTask(TaskAfter(s, step))
  }

  lemma OthersMove<V>(ofTask: Task -> multiset<V>, ofRequest: Request -> multiset<V>, s: State, step: Step)
    requires Enabled(s, step)
    ensures Total(ofTask, TasksAfter(s, step)) + Total(ofRequest, RequestsAfter(s, step)) + Own(ofTask, ofRequest, s, step)
            == Total(ofTask, s.tasks) + Total(ofRequest, s.requests) + OwnAfter(ofTask, ofRequest, s, step)
    ensures Own(ofTask, ofRequest, s, step) <= Total(ofTask, s.tasks) + Total(ofRequest, s.requests)
  {
    TasksMove(ofTask, s, step);
    RequestsMove(ofRequest, s, step);
    Shift(Total(ofTask, s.tasks), Total(ofTask, TasksAfter(s, step)), Total(ofRequest, s.requests), Total(ofRequest, RequestsAfter(s, step)),
          Own(ofTask, ofRequest, s, step), OwnAfter(ofTask, ofRequest, s, step));
  }

  lemma Shift<V>(b: multiset<V>, b': multiset<V>, c: multiset<V>, c': multiset<V>, own: multiset<V>, own': multiset<V>)
    requires (b' == b && c' + own == c + own') || (c' == c && b' + own == b + own')
    ensures b' + c' + own == b + c + own'
  {
    if b' == b && c' + own == c + own' {
      assert b' + c' + own == b + (c' + own);
    } else {
      assert b' + c' + own == (b' + own) + c;
    }
  }

  lemma TasksMove<V>(ofTask: Task -> multiset<V>, s: State, step: Step)
    requires Enabled(s, step)
    ensures OfRequest(step) ==> TasksAfter(s, step) == s.tasks
    ensures !OfRequest(step) && step.Fork? ==>
              Total(ofTask, TasksAfter(s, step)) == Total(ofTask, s.tasks) + ofTask(TaskAfter(s, step))
    ensures !OfRequest(step) && !step.Fork? ==>
              && Total(ofTask, TasksAfter(s, step)) + ofTask(s.tasks[step.t]) == Total(ofTask, s.tasks) + ofTask(TaskAfter(s, step))
              && ofTask(s.tasks[step.t]) <= Total(ofTask, s.tasks)
  {
    if !OfRequest(step) {
      var task := TaskAfter(s, step);
      if step.Fork? {
        TotalAppend(ofTask, s.tasks, task);
      } else {
        TotalUpdate(ofTask, s.tasks, step.t, task);
        TotalAtLeast(ofTask, s.tasks, step.t);
      }
    }
  }

  lemma RequestsMove<V>(ofRequest: Request -> multiset<V>, s: State, step: Step)
    requires Enabled(s, step)
    ensures !OfRequest(step) ==> RequestsAfter(s, step) == s.requests
    ensures OfRequest(step) && step.Revoke? ==>
              Total(ofRequest, RequestsAfter(s, step)) == Total(ofRequest, s.requests) + ofRequest(RequestAfter(s, step))
    ensures OfRequest(step) && !step.Revoke? ==>
              && Total(ofRequest, RequestsAfter(s, step)) + ofRequest(s.requests[step.r])
                 == Total(ofRequest, s.requests) + ofRequest(RequestAfter(s, step))
              && ofRequest(s.requests[step.r]) <= Total(ofRequest, s.requests)
  {
    if OfRequest(step) {
      var req := RequestAfter(s, step);
      if step.Revoke? {
        TotalAppend(ofRequest, s.requests, req);
      } else {
        TotalUpdate(ofRequest, s.requests, step.r, req);
        TotalAtLeast(ofRequest, s.requests, step.r);
      }
    }
  }

  /** The bookkeeping of one step for one reference. */
  lemma Moves<V>(v: V, refs: multiset<V>, table: multiset<V>, table': multiset<V>, others: multiset<V>, others': multiset<V>,
                 own: multiset<V>, own': multiset<V>, taken: multiset<V>, dropped: multiset<V>, gain: multiset<V>, loss: multiset<V>)
    requires refs == table + others
    requires table' + loss == table + gain
    requires others' + own == others + own'
    requires own <= others
    requires own'[v] + dropped[v] + gain[v] == own[v] + taken[v] + loss[v]
    requires dropped[v] <= own[v]
    ensures (refs + taken - dropped)[v] == table'[v] + others'[v]
  {
    assert (table' + loss)[v] == (table + gain)[v];
    assert (others' + own)[v] == (others + own')[v];
  }

  /** The bookkeeping of one step, with its other movements as they are. */
  lemma MovesAt<V>(ofTask: Task -> multiset<V>, ofRequest: Request -> multiset<V>, s: State, step: Step, v: V,
                   refs: multiset<V>, table: multiset<V>, table': multiset<V>,
                   taken: multiset<V>, dropped: multiset<V>, gain: multiset<V>, loss: multiset<V>)
    requires Enabled(s, step) && refs == table + Total(ofTask, s.tasks) + Total(ofRequest, s.requests)
    requires table' + loss == table + gain
    requires OwnAfter(ofTask, ofRequest, s, step)[v] + dropped[v] + gain[v] == Own(ofTask, ofRequest, s, step)[v] + taken[v] + loss[v]
    requires dropped[v] <= Own(ofTask, ofRequest, s, step)[v]
    ensures (refs + taken - dropped)[v]
            == (table' + Total(ofTask, TasksAfter(s, step)) + Total(ofRequest, RequestsAfter(s, step)))[v]
  {
    OthersMove(ofTask, ofRequest, s, step);
    var (tasks, requests) := (Total(ofTask, s.tasks), Total(ofRequest, s.requests));
    var (tasks', requests') := (Total(ofTask, TasksAfter(s, step)), Total(ofRequest, RequestsAfter(s, step)));
    assert table + tasks + requests == table + (tasks + requests);
    Moves(v, refs, table, table', tasks + requests, tasks' + requests', Own(ofTask, ofRequest, s, step),
          OwnAfter(ofTask, ofRequest, s, step), taken, dropped, gain, loss);
  }

  predicate HoldsReference(slot: Slot) {
    slot.file.Some? || (slot.mounts.Some? && exists j :: 0 <= j < |slot.mounts.value| && slot.mounts.value[j].mnt.Some?)
  }

  /** A release that frees no slot which still holds a namespace file or a mount. */
  ghost predicate EmptyRelease(s: State, step: Step) {
    step.Release? && step.r < |s.requests| ==>
      forall k :: 0 <= k < |s.slots| && Releasable(s.slots[k], s.requests[step.r].uid) ==> !HoldsReference(s.slots[k])
  }

  /** Under one revocation per UID every slot a release frees was detached by the same worker run. */
  lemma ReleasedAreDetached(s: State, r: nat, k: nat)
    requires Enabled(s, Release(r)) && Accounted(s) && OneActive(s)
    requires k < |s.slots| && Releasable(s.slots[k], s.requests[r].uid)
    ensures Detached(s.slots[k])
  {
    assert SlotOk(s.slots[k]);
  }

  lemma SecuredReleasesEmpty(s: State, step: Step)
    requires Enabled(s, step) && Accounted(s) && OneActive(s)
    ensures EmptyRelease(s, step)
  {
    if step.Release? {
      forall k | 0 <= k < |s.slots| && Releasable(s.slots[k], s.requests[step.r].uid) ensures !HoldsReference(s.slots[k]) {
        ReleasedAreDetached(s, step.r, k);
      }
    }
  }

  // ----- namespace files -----

  /** What the table gains and gives up in a step. */
  ghost function TableGain(s: State, step: Step): multiset<NsFile>
    requires Enabled(s, step)
  {
    if step.Enter? && EnterOutcome(s, step.t, step.sid, step.env).Created? then Refs(step.env.created) else multiset{}
  }

  ghost function TableLoss(s: State, step: Step): multiset<NsFile>
    requires Enabled(s, step)
  {
    if step.DetachNext? then Refs(Detach(s.slots, s.requests[step.r].phase.next, s.requests[step.r].uid).1) else multiset{}
  }

  ghost predicate FreeHoldNoFile(slots: seq<Slot>) {
    forall k :: 0 <= k < |slots| && !slots[k].inUse ==> slots[k].file.None?
  }

  lemma EnterFiles(slots: seq<Slot>, uid: nat, sid: nat, env: JoinEnv)
    requires TableOk(slots) && FreeHoldNoFile(slots)
    ensures var (after, outcome) := JoinOrCreate(slots, uid, sid, env);
            && Total(SlotFiles, after) == Total(SlotFiles, slots) + (if outcome.Created? then Refs(env.created) else multiset{})
            && FreeHoldNoFile(after)
  {
    JoinOrCreateOutcome(slots, uid, sid, env);
    var (after, outcome) := JoinOrCreate(slots, uid, sid, env);
    var free := FirstIndex(slots, Unallocated());
    assert free < |slots| ==> !slots[free].inUse;
    if outcome.Created? {
      NewFile(slots, free, after[free]);
    } else {
      forall k | 0 <= k < |slots| ensures SlotFiles(after[k]) == SlotFiles(slots[k]) {}
      TotalPointwise(SlotFiles, slots, after);
    }
  }

  lemma NewFile(slots: seq<Slot>, k: nat, slot: Slot)
    requires k < |slots| && !slots[k].inUse && FreeHoldNoFile(slots) && slot.inUse
    ensures Total(SlotFiles, slots[k := slot]) == Total(SlotFiles, slots) + Refs(slot.file)
    ensures FreeHoldNoFile(slots[k := slot])
  {
    TotalUpdate(SlotFiles, slots, k, slot);
  }

  lemma DetachFiles(slots: seq<Slot>, i: nat, uid: nat)
    requires i < |slots| && FreeHoldNoFile(slots)
    ensures var (after, file, _) := Detach(slots, i, uid);
            Total(SlotFiles, after) + Refs(file) == Total(SlotFiles, slots) && FreeHoldNoFile(after)
  {
    var (after, file, _) := Detach(slots, i, uid);
    TotalUpdate(SlotFiles, slots, i, after[i]);
    assert slots[i := after[i]] == after;
  }

  lemma ReleaseFiles(s: State, r: nat)
    requires Enabled(s, Release(r)) && EmptyRelease(s, Release(r)) && FreeHoldNoFile(s.slots)
    ensures var after := ReleaseSlots(s.slots, s.requests[r].uid);
            Total(SlotFiles, after) == Total(SlotFiles, s.slots) && FreeHoldNoFile(after)
  {
    var after := ReleaseSlots(s.slots, s.requests[r].uid);
    forall k | 0 <= k < |after| ensures after[k].file == s.slots[k].file && (!after[k].inUse ==> after[k].file.None?) {
      assert Releasable(s.slots[k], s.requests[r].uid) ==> !HoldsReference(s.slots[k]);
    }
    TotalPointwise(SlotFiles, s.slots, after);
  }

  ghost predicate KeepsFiles(slots: seq<Slot>, after: seq<Slot>) {
    |after| == |slots| && forall k :: 0 <= k < |slots| ==> after[k].file == slots[k].file && after[k].inUse == slots[k].inUse
  }

  lemma KeptFiles(slots: seq<Slot>, after: seq<Slot>)
    requires KeepsFiles(slots, after) && FreeHoldNoFile(slots)
    ensures Total(SlotFiles, after) == Total(SlotFiles, slots) && FreeHoldNoFile(after)
  {
    TotalPointwise(SlotFiles, slots, after);
  }

  /** The other steps leave every slot's file alone. */
  lemma OtherTableFiles(s: State, step: Step)
    requires Enabled(s, step) && Accounted(s)
    requires !step.Enter? && !step.DetachNext? && !step.Release?
    ensures KeepsFiles(s.slots, SlotsAfter(s, step))
  {
    SlotMoves(s, step, 0);
    forall k | 0 <= k < |s.slots|
      ensures SlotsAfter(s, step)[k].file == s.slots[k].file && SlotsAfter(s, step)[k].inUse == s.slots[k].inUse
    {
      SlotMoves(s, step, k);
    }
  }

  ghost predicate TableBalance(s: State, step: Step)
    requires Enabled(s, step)
  {
    && Total(SlotFiles, SlotsAfter(s, step)) + TableLoss(s, step) == Total(SlotFiles, s.slots) + TableGain(s, step)
    && FreeHoldNoFile(SlotsAfter(s, step))
  }

  lemma EnterTableFiles(s: State, step: Step)
    requires Enabled(s, step) && step.Enter? && TableOk(s.slots) && FreeHoldNoFile(s.slots)
    ensures TableBalance(s, step)
  {
    EnterFiles(s.slots, s.tasks[step.t].cred.uid, step.sid, step.env);
  }

  lemma QuietTableFiles(s: State, step: Step)
    requires Enabled(s, step) && Accounted(s) && FreeHoldNoFile(s.slots)
    requires !step.Enter? && !step.DetachNext? && !step.Release?
    ensures TableBalance(s, step)
  {
    OtherTableFiles(s, step);
    KeptFiles(s.slots, SlotsAfter(s, step));
  }

  lemma TableFiles(s: State, step: Step)
    requires Enabled(s, step) && Accounted(s) && EmptyRelease(s, step) && FreeHoldNoFile(s.slots)
    ensures TableBalance(s, step)
  {
    if step.Enter? {
      EnterTableFiles(s, step);
    } else if step.DetachNext? {
      DetachFiles(s.slots, s.requests[step.r].phase.next, s.requests[step.r].uid);
    } else if step.Release? {
      ReleaseFiles(s, step.r);
    } else {
      QuietTableFiles(s, step);
    }
  }

  /**
   For one file: what the step's own task or request gains comes from the kernel or the table, and what it
   loses is dropped or handed over.
   */
  ghost predicate OwnFilesBalance(s: State, step: Step, v: NsFile)
    requires Enabled(s, step)
  {
    && OwnAfter(TaskFiles, RequestFiles, s, step)[v] + FilesDropped(s, step)[v] + TableGain(s, step)[v]
       == Own(TaskFiles, RequestFiles, s, step)[v] + FilesTaken(s, step)[v] + TableLoss(s, step)[v]
    && FilesDropped(s, step)[v] <= Own(TaskFiles, RequestFiles, s, step)[v]
  }

  lemma EnterOwnFiles(s: State, step: Step, v: NsFile)
    requires Enabled(s, step) && step.Enter?
    ensures OwnFilesBalance(s, step, v)
  {
    var outcome := EnterOutcome(s, step.t, step.sid, step.env);
    assert TaskFiles(s.tasks[step.t]) == multiset{};
    assert TaskFiles(TaskAfter(s, step)) == if outcome.Joined? then Refs(outcome.file) else multiset{};
  }

  lemma LockOwnFiles(s: State, t: TaskId, v: NsFile)
    requires Enabled(s, NsLock(t))
    ensures OwnFilesBalance(s, NsLock(t), v)
  {
    assert TaskFiles(s.tasks[t]) == multiset{};
    assert TaskFiles(TaskAfter(s, NsLock(t))) == FilesTaken(s, NsLock(t));
  }

  lemma LetOwnFiles(s: State, step: Step, v: NsFile)
    requires Enabled(s, step) && (step.JoinDone? || step.NsCompare?)
    ensures OwnFilesBalance(s, step, v)
  {
    assert TaskFiles(TaskAfter(s, step)) == multiset{};
    assert TaskFiles(s.tasks[step.t]) == FilesDropped(s, step);
  }

  /** No other task step begins or ends with a file in hand. */
  lemma EmptyHanded(s: State, step: Step)
    requires Enabled(s, step) && !OfRequest(step) && !step.Enter? && !step.JoinDone? && !step.NsLock? && !step.NsCompare?
    requires !step.Fork? && !step.ChangeCred? && !step.OtherCred? && !step.Exit?
    ensures TaskFiles(s.tasks[step.t]) == multiset{} && TaskFiles(TaskAfter(s, step)) == multiset{}
  {
  }

  lemma OtherTaskOwnFiles(s: State, step: Step, v: NsFile)
    requires Enabled(s, step) && !OfRequest(step) && !step.Enter? && !step.JoinDone? && !step.NsLock? && !step.NsCompare?
    ensures OwnFilesBalance(s, step, v)
  {
    assert FilesTaken(s, step) == FilesDropped(s, step) == TableGain(s, step) == TableLoss(s, step) == multiset{};
    if step.Fork? || step.ChangeCred? || step.OtherCred? || step.Exit? {
      assert TaskAfter(s, step).stage == s.tasks[step.t].stage == User;
    } else {
      EmptyHanded(s, step);
    }
  }

  lemma RequestOwnFiles(s: State, step: Step, v: NsFile)
    requires Enabled(s, step) && OfRequest(step)
    ensures OwnFilesBalance(s, step, v)
  {
    assert FilesTaken(s, step) == TableGain(s, step) == multiset{};
    if step.DetachNext? {
      assert RequestFiles(s.requests[step.r]) == multiset{};
      assert RequestFiles(RequestAfter(s, step)) == TableLoss(s, step);
    } else if step.LetGo? {
      assert RequestFiles(RequestAfter(s, step)) == multiset{};
      assert RequestFiles(s.requests[step.r]) == FilesDropped(s, step);
    } else {
      assert RequestFiles(RequestAfter(s, step)) == multiset{};
    }
  }

  lemma OwnFiles(s: State, step: Step, v: NsFile)
    requires Enabled(s, step)
    ensures OwnFilesBalance(s, step, v)
  {
    if OfRequest(step) {
      RequestOwnFiles(s, step, v);
    } else if step.Enter? {
      EnterOwnFiles(s, step, v);
    } else if step.NsLock? {
      LockOwnFiles(s, step.t, v);
    } else if step.JoinDone? || step.NsCompare? {
      LetOwnFiles(s, step, v);
    } else {
      OtherTaskOwnFiles(s, step, v);
    }
  }

  ghost function HeldFiles(s: State): multiset<NsFile> {
    Total(SlotFiles, s.slots) + Total(TaskFiles, s.tasks) + Total(RequestFiles, s.requests)
  }

  lemma FileMovesAt(s: State, step: Step, v: NsFile)
    requires Enabled(s, step) && FilesConserved(s) && OwnFilesBalance(s, step, v)
    requires Total(SlotFiles, SlotsAfter(s, step)) + TableLoss(s, step) == Total(SlotFiles, s.slots) + TableGain(s, step)
    ensures Apply(s, step).fileRefs[v] == HeldFiles(Apply(s, step))[v]
  {
    MovesAt(TaskFiles, RequestFiles, s, step, v, s.fileRefs, Total(SlotFiles, s.slots), Total(SlotFiles, SlotsAfter(s, step)),
            FilesTaken(s, step), FilesDropped(s, step), TableGain(s, step), TableLoss(s, step));
  }

  lemma FilesStep(s: State, step: Step)
    requires Enabled(s, step) && Accounted(s) && EmptyRelease(s, step) && FilesConserved(s)
    ensures FilesConserved(Apply(s, step))
  {
    TableFiles(s, step);
    forall v ensures Apply(s, step).fileRefs[v] == HeldFiles(Apply(s, step))[v] {
      OwnFiles(s, step, v);
      FileMovesAt(s, step, v);
    }
  }
}
