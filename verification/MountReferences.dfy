/** Conservation of mount references, along the same lines as for namespace files. */
module MountReferences {
  import opened Sequences
  import opened SlotTable
  import opened SlotTableFacts
  import opened SandboxSystem
  import opened EntryAccounting
  import opened References

  lemma {:induction false} LedgerMountsTotal(ms: seq<Record>)
    ensures multiset(LedgerMounts(ms)) == Total(RecordMnt, ms)
    decreases |ms|
  {
    if ms != [] {
      LedgerMountsTotal(ms[1..]);
      var head := if ms[0].mnt.Some? then [ms[0].mnt.value] else [];
      assert multiset(head + LedgerMounts(ms[1..])) == multiset(head) + multiset(LedgerMounts(ms[1..]));
    }
  }

  lemma WipedHoldsNothing(slot: Slot)
    requires slot.mounts.Some? ==> forall j :: 0 <= j < |slot.mounts.value| ==> slot.mounts.value[j] == FreeRecord
    ensures SlotMnts(slot) == multiset{}
  {
    if slot.mounts.Some? {
      forall j | 0 <= j < |slot.mounts.value| ensures RecordMnt(slot.mounts.value[j]) == multiset{} {}
      TotalEmpty(RecordMnt, slot.mounts.value);
    }
  }

  lemma NoMountHeld(slot: Slot)
    requires !HoldsReference(slot)
    ensures SlotMnts(slot) == multiset{}
  {
    if slot.mounts.Some? {
      forall j | 0 <= j < |slot.mounts.value| ensures RecordMnt(slot.mounts.value[j]) == multiset{} {
        assert slot.mounts.value[j].mnt.None?;
      }
      TotalEmpty(RecordMnt, slot.mounts.value);
    }
  }

  // ----- the table -----

  ghost function MountGain(s: State, step: Step): multiset<Mount>
    requires Enabled(s, step)
  {
    if step.Report? && MountResult(s.slots, s.tasks[step.t].cred.fsuid, step.t, s.tasks[step.t].stage.mnt).1.None? then
      Refs(s.tasks[step.t].stage.mnt)
    else multiset{}
  }

  ghost function MountLoss(s: State, step: Step): multiset<Mount>
    requires Enabled(s, step)
  {
    if step.Umount? then Refs(UmountResult(s.slots, s.tasks[step.t].cred.fsuid, step.target).1)
    else if step.DetachNext? then multiset(Detach(s.slots, s.requests[step.r].phase.next, s.requests[step.r].uid).2)
    else multiset{}
  }

  lemma RecordUpdate(slots: seq<Slot>, k: nat, slot: Slot, j: nat, r: Record)
    requires k < |slots| && slots[k].mounts.Some? && j < |slots[k].mounts.value|
    requires slot.mounts == Some(slots[k].mounts.value[j := r])
    ensures Total(SlotMnts, slots[k := slot]) + Refs(slots[k].mounts.value[j].mnt) == Total(SlotMnts, slots) + Refs(r.mnt)
  {
    var ms := slots[k].mounts.value;
    TotalUpdate(RecordMnt, ms, j, r);
    TotalUpdate(SlotMnts, slots, k, slot);
    forall v ensures (Total(SlotMnts, slots[k := slot]) + Refs(ms[j].mnt))[v] == (Total(SlotMnts, slots) + Refs(r.mnt))[v] {
      assert (SlotMnts(slot) + RecordMnt(ms[j]))[v] == (SlotMnts(slots[k]) + RecordMnt(r))[v];
      assert (Total(SlotMnts, slots[k := slot]) + SlotMnts(slots[k]))[v] == (Total(SlotMnts, slots) + SlotMnts(slot))[v];
    }
  }

  lemma ReserveMounts(slots: seq<Slot>, uid: nat, t: TaskId, bytes: nat)
    requires TableOk(slots)
    ensures Total(SlotMnts, MountReserve(slots, uid, t, bytes).0) == Total(SlotMnts, slots)
  {
    MountReserveOutcome(slots, uid, t, bytes);
    var (after, error) := MountReserve(slots, uid, t, bytes);
    if error.None? {
      var k := FindReady(slots, uid);
      var j := FirstIndex(slots[k].mounts.value, IsFree());
      assert SlotOk(slots[k]) && IsFree()(slots[k].mounts.value[j]) && RecordOk(slots[k].mounts.value[j]);
      var r := Record(Pending, Some(t), None, bytes);
      RecordUpdate(slots, k, after[k], j, r);
      assert Refs(r.mnt) == Refs(slots[k].mounts.value[j].mnt) == multiset{};
      assert after == slots[k := after[k]];
      assert Total(SlotMnts, after) + multiset{} == Total(SlotMnts, after);
      assert Total(SlotMnts, slots) + multiset{} == Total(SlotMnts, slots);
    }
  }

  lemma ReportMounts(slots: seq<Slot>, uid: nat, t: TaskId, mnt: Option<Mount>)
    requires TableOk(slots)
    ensures var (after, left) := MountResult(slots, uid, t, mnt);
            && Total(SlotMnts, after) == Total(SlotMnts, slots) + (if left.None? then Refs(mnt) else multiset{})
            && (left.Some? ==> left == mnt)
  {
    MountResultOutcome(slots, uid, t, mnt);
    UidCases(slots, uid);
    var (after, left) := MountResult(slots, uid, t, mnt);
    var k := FindReady(slots, uid);
    if k < |slots| {
      assert SlotOk(slots[k]);
      var j := FirstIndex(slots[k].mounts.value, PendingOf(t));
      if j < MaxMounts {
        assert RecordOk(slots[k].mounts.value[j]);
        RecordUpdate(slots, k, after[k], j, after[k].mounts.value[j]);
      }
    }
  }

  lemma UmountMounts(slots: seq<Slot>, uid: nat, mnt: Mount)
    requires TableOk(slots)
    ensures var (after, dropped) := UmountResult(slots, uid, mnt);
            Total(SlotMnts, after) + Refs(dropped) == Total(SlotMnts, slots)
  {
    UmountResultOutcome(slots, uid, mnt);
    var (after, dropped) := UmountResult(slots, uid, mnt);
    if MountIsTracked(slots, uid, mnt) {
      var k := FindReady(slots, uid);
      var j := FirstIndex(slots[k].mounts.value, TrackedAt(mnt));
      RecordUpdate(slots, k, after[k], j, FreeRecord);
    }
  }

  lemma EnterMounts(slots: seq<Slot>, uid: nat, sid: nat, env: JoinEnv)
    requires TableOk(slots)
    ensures Total(SlotMnts, JoinOrCreate(slots, uid, sid, env).0) == Total(SlotMnts, slots)
  {
    JoinOrCreateOutcome(slots, uid, sid, env);
    var after := JoinOrCreate(slots, uid, sid, env).0;
    var free := FirstIndex(slots, Unallocated());
    if free < |slots| {
      assert !slots[free].inUse && SlotOk(slots[free]);
      if after[free].inUse { WipedHoldsNothing(after[free]); }
    }
    TotalPointwise(SlotMnts, slots, after);
  }

  lemma DetachMounts(slots: seq<Slot>, i: nat, uid: nat)
    requires i < |slots|
    ensures var (after, _, mnts) := Detach(slots, i, uid);
            Total(SlotMnts, after) + multiset(mnts) == Total(SlotMnts, slots)
  {
    var (after, _, mnts) := Detach(slots, i, uid);
    if slots[i].inUse && slots[i].uid == uid {
      WipedHoldsNothing(after[i]);
      TotalUpdate(SlotMnts, slots, i, after[i]);
      if slots[i].mounts.Some? { LedgerMountsTotal(slots[i].mounts.value); }
    }
  }

  lemma ReleaseMounts(s: State, r: nat)
    requires Enabled(s, Release(r)) && EmptyRelease(s, Release(r))
    ensures Total(SlotMnts, ReleaseSlots(s.slots, s.requests[r].uid)) == Total(SlotMnts, s.slots)
  {
    var after := ReleaseSlots(s.slots, s.requests[r].uid);
    forall k | 0 <= k < |after| ensures SlotMnts(after[k]) == SlotMnts(s.slots[k]) {
      if Releasable(s.slots[k], s.requests[r].uid) { NoMountHeld(s.slots[k]); }
    }
    TotalPointwise(SlotMnts, s.slots, after);
  }

  lemma QuietTableMounts(s: State, step: Step)
    requires Enabled(s, step) && Accounted(s)
    requires Tableless(step) || step.Complete? || step.Revoke?
    ensures Total(SlotMnts, SlotsAfter(s, step)) == Total(SlotMnts, s.slots)
  {
    if step.Complete? {
      var h := HomeOf(s, step.t);
      EntryCompleteOutcome(s.slots, s.tasks[step.t].stage.id.uid, s.tasks[step.t].stage.id.sid, h);
    }
    if !Tableless(step) { TotalPointwise(SlotMnts, s.slots, SlotsAfter(s, step)); }
  }

  ghost predicate LedgerBalance(s: State, step: Step)
    requires Enabled(s, step)
  {
    Total(SlotMnts, SlotsAfter(s, step)) + MountLoss(s, step) == Total(SlotMnts, s.slots) + MountGain(s, step)
  }

  lemma CallMounts(s: State, step: Step)
    requires Enabled(s, step) && LedgerOnly(step) && TableOk(s.slots)
    ensures LedgerBalance(s, step)
  {
    match step {
      case Reserve(t, _) => ReserveMounts(s.slots, s.tasks[t].cred.fsuid, t, WantedBytes(s.tasks[t].stage.kind));
      case Report(t) => ReportMounts(s.slots, s.tasks[t].cred.fsuid, t, s.tasks[t].stage.mnt);
      case Umount(t, target) => UmountMounts(s.slots, s.tasks[t].cred.fsuid, target);
    }
  }

  lemma TableMounts(s: State, step: Step)
    requires Enabled(s, step) && Accounted(s) && EmptyRelease(s, step)
    ensures LedgerBalance(s, step)
  {
    if LedgerOnly(step) {
      CallMounts(s, step);
    } else if step.Enter? {
      EnterMounts(s.slots, s.tasks[step.t].cred.uid, step.sid, step.env);
    } else if step.DetachNext? {
      DetachMounts(s.slots, s.requests[step.r].phase.next, s.requests[step.r].uid);
    } else if step.Release? {
      ReleaseMounts(s, step.r);
    } else {
      QuietTableMounts(s, step);
    }
  }

  // ----- the step's own task or request -----

  ghost predicate OwnMountsBalance(s: State, step: Step, v: Mount)
    requires Enabled(s, step)
  {
    && OwnAfter(TaskMnts, RequestMnts, s, step)[v] + MountsDropped(s, step)[v] + MountGain(s, step)[v]
       == Own(TaskMnts, RequestMnts, s, step)[v] + MountsTaken(s, step)[v] + MountLoss(s, step)[v]
    && MountsDropped(s, step)[v] <= Own(TaskMnts, RequestMnts, s, step)[v]
  }

  lemma ReportLeft(slots: seq<Slot>, uid: nat, t: TaskId, mnt: Option<Mount>)
    requires TableOk(slots)
    ensures var left := MountResult(slots, uid, t, mnt).1; left.Some? ==> left == mnt
  {
    MountResultOutcome(slots, uid, t, mnt);
  }

  lemma ReportHands(s: State, t: TaskId)
    requires Enabled(s, Report(t))
    ensures Own(TaskMnts, RequestMnts, s, Report(t)) == Refs(s.tasks[t].stage.mnt)
  {
  }

  lemma ReportLeaves(s: State, t: TaskId)
    requires Enabled(s, Report(t))
    ensures OwnAfter(TaskMnts, RequestMnts, s, Report(t))
            == Refs(MountResult(s.slots, s.tasks[t].cred.fsuid, t, s.tasks[t].stage.mnt).1)
  {
    var left := MountResult(s.slots, s.tasks[t].cred.fsuid, t, s.tasks[t].stage.mnt).1;
    assert TaskAfter(s, Report(t)).stage == DropStage(left);
  }

  lemma ReportMovesNothing(s: State, t: TaskId)
    requires Enabled(s, Report(t))
    ensures MountsDropped(s, Report(t)) == MountsTaken(s, Report(t)) == MountLoss(s, Report(t)) == multiset{}
  {
  }

  lemma ReportOwnMounts(s: State, t: TaskId, v: Mount)
    requires Enabled(s, Report(t)) && TableOk(s.slots)
    ensures OwnMountsBalance(s, Report(t), v)
  {
    ReportLeft(s.slots, s.tasks[t].cred.fsuid, t, s.tasks[t].stage.mnt);
    ReportHands(s, t);
    ReportLeaves(s, t);
    ReportMovesNothing(s, t);
  }

  lemma UmountOwnMounts(s: State, t: TaskId, target: Mount, v: Mount)
    requires Enabled(s, Umount(t, target))
    ensures OwnMountsBalance(s, Umount(t, target), v)
  {
    assert TaskMnts(TaskAfter(s, Umount(t, target))) == MountLoss(s, Umount(t, target));
    assert TaskMnts(s.tasks[t]) == multiset{};
  }

  lemma StartReportOwnMounts(s: State, t: TaskId, v: Mount)
    requires Enabled(s, StartReport(t))
    ensures OwnMountsBalance(s, StartReport(t), v)
  {
    assert TaskMnts(s.tasks[t]) == multiset{};
    assert TaskMnts(TaskAfter(s, StartReport(t))) == MountsTaken(s, StartReport(t));
  }

  /** No other task step begins or ends with a mount in hand, except the one that drops it. */
  lemma NoMountInHand(s: State, step: Step)
    requires Enabled(s, step) && !OfRequest(step) && !step.Report? && !step.Umount? && !step.StartReport?
    requires !step.Fork? && !step.ChangeCred? && !step.OtherCred? && !step.Exit?
    ensures TaskMnts(s.tasks[step.t]) == MountsDropped(s, step) && TaskMnts(TaskAfter(s, step)) == multiset{}
  {
  }

  lemma OtherTaskOwnMounts(s: State, step: Step, v: Mount)
    requires Enabled(s, step) && !OfRequest(step) && !step.Report? && !step.Umount? && !step.StartReport?
    ensures OwnMountsBalance(s, step, v)
  {
    assert MountsTaken(s, step) == MountGain(s, step) == MountLoss(s, step) == multiset{};
    if step.Fork? || step.ChangeCred? || step.OtherCred? || step.Exit? {
      assert TaskAfter(s, step).stage == s.tasks[step.t].stage == User;
      assert MountsDropped(s, step) == multiset{};
    } else {
      NoMountInHand(s, step);
    }
  }

  lemma RequestOwnMounts(s: State, step: Step, v: Mount)
    requires Enabled(s, step) && OfRequest(step)
    ensures OwnMountsBalance(s, step, v)
  {
    assert MountsTaken(s, step) == MountGain(s, step) == multiset{};
    if step.DetachNext? {
      assert RequestMnts(s.requests[step.r]) == multiset{};
      assert RequestMnts(RequestAfter(s, step)) == MountLoss(s, step);
    } else if step.LetGo? {
      assert RequestMnts(RequestAfter(s, step)) == multiset{};
      assert RequestMnts(s.requests[step.r]) == MountsDropped(s, step);
    } else {
      assert RequestMnts(RequestAfter(s, step)) == multiset{};
    }
  }

  lemma OwnMounts(s: State, step: Step, v: Mount)
    requires Enabled(s, step) && TableOk(s.slots)
    ensures OwnMountsBalance(s, step, v)
  {
    if OfRequest(step) {
      RequestOwnMounts(s, step, v);
    } else if step.Report? {
      ReportOwnMounts(s, step.t, v);
    } else if step.Umount? {
      UmountOwnMounts(s, step.t, step.target, v);
    } else if step.StartReport? {
      StartReportOwnMounts(s, step.t, v);
    } else {
      OtherTaskOwnMounts(s, step, v);
    }
  }

  ghost function HeldMounts(s: State): multiset<Mount> {
    Total(SlotMnts, s.slots) + Total(TaskMnts, s.tasks) + Total(RequestMnts, s.requests)
  }

  lemma MountMovesAt(s: State, step: Step, v: Mount)
    requires Enabled(s, step) && MountsConserved(s) && OwnMountsBalance(s, step, v)
    requires LedgerBalance(s, step)
    ensures Apply(s, step).mntRefs[v] == HeldMounts(Apply(s, step))[v]
  {
    MovesAt(TaskMnts, RequestMnts, s, step, v, s.mntRefs, Total(SlotMnts, s.slots), Total(SlotMnts, SlotsAfter(s, step)),
            MountsTaken(s, step), MountsDropped(s, step), MountGain(s, step), MountLoss(s, step));
  }

  lemma MountsStep(s: State, step: Step)
    requires Enabled(s, step) && Accounted(s) && EmptyRelease(s, step) && MountsConserved(s)
    ensures MountsConserved(Apply(s, step))
  {
    TableMounts(s, step);
    var after := Apply(s, step);
    forall v ensures after.mntRefs[v] == HeldMounts(after)[v] {
      OwnMounts(s, step, v);
      MountMovesAt(s, step, v);
    }
    ConservedPointwise(after);
  }

  lemma ConservedPointwise(s: State)
    requires forall v :: s.mntRefs[v] == HeldMounts(s)[v]
    ensures MountsConserved(s)
  {
  }
}
