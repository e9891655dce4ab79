/** What each locked region does to a sound table, and that it leaves the table sound. */
module SlotTableFacts {
  import opened Sequences
  import opened SlotTable

  lemma UpdateOk(slots: seq<Slot>, k: nat, slot: Slot)
    requires TableOk(slots) && k < |slots| && SlotOk(slot)
    requires slot.inUse ==> forall i :: 0 <= i < |slots| && i != k && slots[i].inUse ==> slots[i].uid != slot.uid
    ensures TableOk(slots[k := slot])
  {
  }

  /** In a sound table the lookup by UID decides among exactly three cases. */
  lemma UidCases(slots: seq<Slot>, uid: nat)
    requires TableOk(slots)
    ensures var k := FindReady(slots, uid);
            && (k < |slots| ==> slots[k].inUse && slots[k].ready && !slots[k].revoking && slots[k].uid == uid &&
                                !UidRevoking(slots, uid))
            && (k == |slots| && !UidRevoking(slots, uid) <==>
                forall i :: 0 <= i < |slots| && slots[i].inUse ==> slots[i].uid != uid)
    ensures forall i :: 0 <= i < |slots| && slots[i].inUse && slots[i].uid == uid ==>
                          (slots[i].ready <==> FindReady(slots, uid) == i)
    ensures forall i :: 0 <= i < |slots| && slots[i].inUse && slots[i].uid == uid ==>
                          (slots[i].revoking <==> UidRevoking(slots, uid))
  {
    var k := FindReady(slots, uid);
    var v := FirstIndex(slots, RevokingFor(uid));
    forall i | 0 <= i < |slots| && slots[i].inUse && slots[i].uid == uid
      ensures (slots[i].ready <==> k == i) && (slots[i].revoking <==> v < |slots|)
    {
      if slots[i].ready {
        assert ReadyFor(uid)(slots[i]);
        assert k <= i;
      } else {
        assert RevokingFor(uid)(slots[i]);
        assert v <= i;
      }
    }
  }

  function NewSlot(uid: nat, sid: nat, file: NsFile): Slot {
    Slot(true, true, false, uid, sid, 1, 0, 0, Some(file), Some(EmptyLedger()))
  }

  lemma EmptyLedgerOk(slot: Slot)
    requires slot.mounts.Some? && |slot.mounts.value| == MaxMounts
    requires forall j :: 0 <= j < MaxMounts ==> slot.mounts.value[j] == FreeRecord
    requires slot.mountCount == 0 && slot.tmpfsBytes == 0
    ensures LedgerOk(slot)
  {
    AllFreeSums(slot.mounts.value);
  }

  lemma {:induction false} AllFreeSums(ms: seq<Record>)
    requires forall j :: 0 <= j < |ms| ==> ms[j] == FreeRecord
    ensures Sum(Occupied, ms) == 0 && Sum(BytesOf, ms) == 0
    decreases |ms|
  {
    if ms != [] { AllFreeSums(ms[1..]); }
  }

  lemma FurnishOutcome(slot: Slot, uid: nat, sid: nat, env: JoinEnv)
    requires SlotOk(slot) && !slot.inUse
    ensures Furnish(Reserved(slot, uid, sid), env) ==
            if !env.ledgerAllocated then (BlankSlot, NoMemory)
            else if env.created.None? then (BlankSlot, CreateFailed)
            else (NewSlot(uid, sid, env.created.value), Created)
    ensures SlotOk(Furnish(Reserved(slot, uid, sid), env).0)
  {
    if env.created.Some? { EmptyLedgerOk(NewSlot(uid, sid, env.created.value)); }
  }

  /**
   The whole decision of a join: a ready slot of the UID is shared when the SID agrees, a UID being
   revoked is refused, and otherwise no slot has the UID and the first free slot becomes its only one.
   The branches for an unfinished slot and for a reserved slot under revocation are never taken.
   */
  lemma JoinOrCreateOutcome(slots: seq<Slot>, uid: nat, sid: nat, env: JoinEnv)
    requires TableOk(slots)
    ensures TableOk(JoinOrCreate(slots, uid, sid, env).0)
    ensures var (after, outcome) := JoinOrCreate(slots, uid, sid, env);
            var k := FindReady(slots, uid);
            var free := FirstIndex(slots, Unallocated());
            if k < |slots| then
              if slots[k].sid == sid then
                after == slots[k := slots[k].(entrants := slots[k].entrants + 1)] && outcome == Joined(slots[k].file)
              else after == slots && outcome == Rejected
            else if UidRevoking(slots, uid) then after == slots && outcome == Revoked
            else if free == |slots| then after == slots && outcome == NoSpace
            else if !env.ledgerAllocated then after == slots[free := BlankSlot] && outcome == NoMemory
            else match env.created
              case None => after == slots[free := BlankSlot] && outcome == CreateFailed
              case Some(f) => after == slots[free := NewSlot(uid, sid, f)] && outcome == Created
  {
    UidCases(slots, uid);
    var k := FindReady(slots, uid);
    if k < |slots| {
      if slots[k].sid == sid {
        UpdateOk(slots, k, slots[k].(entrants := slots[k].entrants + 1));
      }
    } else if !UidRevoking(slots, uid) {
      var same := FirstIndex(slots, UnreadyFor(uid, sid));
      assert same < |slots| ==> UnreadyFor(uid, sid)(slots[same]);
      var free := FirstIndex(slots, Unallocated());
      assert ReserveIndex(slots, uid, sid) == free;
      if free < |slots| {
        assert SlotOk(slots[free]);
        FurnishOutcome(slots[free], uid, sid, env);
        UpdateOk(slots, free, Furnish(Reserved(slots[free], uid, sid), env).0);
      }
    }
  }

  /** Completion finds the one slot of the identity; only a zero count is left alone. */
  lemma EntryCompleteOutcome(slots: seq<Slot>, uid: nat, sid: nat, k: nat)
    requires TableOk(slots) && k < |slots| && Holds(slots[k], Identity(uid, sid)) && slots[k].entrants > 0
    ensures EntryComplete(slots, uid, sid) == slots[k := slots[k].(entrants := slots[k].entrants - 1)]
    ensures TableOk(EntryComplete(slots, uid, sid))
  {
    FirstIndexUnique(slots, HeldBy(uid, sid), k);
    UpdateOk(slots, k, slots[k].(entrants := slots[k].entrants - 1));
  }

  // ----- the ledger -----

  lemma OccupiedPigeonhole(ms: seq<Record>)
    ensures Sum(Occupied, ms) <= |ms|
    ensures Sum(Occupied, ms) < |ms| <==> FirstIndex(ms, IsFree()) < |ms|
  {
    SumPigeonhole(Occupied, ms);
    var j := FirstIndex(ms, IsFree());
    if j < |ms| {
      assert IsFree()(ms[j]);
      assert Occupied(ms[j]) == 0;
    }
    if i :| 0 <= i < |ms| && Occupied(ms[i]) == 0 {
      assert IsFree()(ms[i]);
    }
  }

  /**
   A reservation succeeds exactly when the UID has a ready slot with a record and the bytes to spare,
   counted in plain integers: the unsigned subtraction never wraps and the missing-record branch never runs.
   */
  lemma MountReserveOutcome(slots: seq<Slot>, uid: nat, owner: TaskId, bytes: nat)
    requires TableOk(slots)
    ensures TableOk(MountReserve(slots, uid, owner, bytes).0)
    ensures var (after, error) := MountReserve(slots, uid, owner, bytes);
            var k := FindReady(slots, uid);
            if k == |slots| then error == Some(EACCES) && after == slots
            else if slots[k].mountCount == MaxMounts || slots[k].tmpfsBytes + bytes > TmpfsLimit then
              error == Some(EDQUOT) && after == slots
            else
              && error == None
              && var ms := slots[k].mounts.value;
                 var j := FirstIndex(ms, IsFree());
                 && j < |ms|
                 && after == slots[k := slots[k].(
                      mounts := Some(ms[j := Record(Pending, Some(owner), None, bytes)]),
                      mountCount := slots[k].mountCount + 1,
                      tmpfsBytes := slots[k].tmpfsBytes + bytes)]
  {
    UidCases(slots, uid);
    var k := FindReady(slots, uid);
    if k < |slots| {
      var slot := slots[k];
      assert SlotOk(slot);
      var ms := slot.mounts.value;
      OccupiedPigeonhole(ms);
      if slot.mountCount < MaxMounts && slot.tmpfsBytes + bytes <= TmpfsLimit {
        var j := FirstIndex(ms, IsFree());
        assert IsFree()(ms[j]) && RecordOk(ms[j]);
        var r := Record(Pending, Some(owner), None, bytes);
        SumUpdate(Occupied, ms, j, r);
        SumUpdate(BytesOf, ms, j, r);
        UpdateOk(slots, k, slot.(mounts := Some(ms[j := r]), mountCount := slot.mountCount + 1,
                                 tmpfsBytes := slot.tmpfsBytes + bytes));
      }
    }
  }

  /** Clearing an occupied record takes exactly its share off both counters; neither guard skips. */
  lemma ClearRecordOutcome(slot: Slot, j: nat)
    requires slot.mounts.Some? && LedgerOk(slot) && j < MaxMounts && slot.mounts.value[j].state != Free
    ensures LedgerOk(ClearRecord(slot, j))
    ensures ClearRecord(slot, j).mountCount == slot.mountCount - 1
    ensures ClearRecord(slot, j).tmpfsBytes == slot.tmpfsBytes - slot.mounts.value[j].bytes
  {
    var ms := slot.mounts.value;
    SumAtLeast(Occupied, ms, j);
    SumAtLeast(BytesOf, ms, j);
    SumUpdate(Occupied, ms, j, FreeRecord);
    SumUpdate(BytesOf, ms, j, FreeRecord);
  }

  /**
   A mount result only touches the pending record of its owner in a ready slot. The record turns
   into a tracked one that takes over the reference, or is cleared; otherwise the caller keeps the reference.
   */
  lemma MountResultOutcome(slots: seq<Slot>, uid: nat, owner: TaskId, mnt: Option<Mount>)
    requires TableOk(slots)
    ensures TableOk(MountResult(slots, uid, owner, mnt).0)
    ensures var (after, left) := MountResult(slots, uid, owner, mnt);
            var k := FindReady(slots, uid);
            if k == |slots| || FirstIndex(slots[k].mounts.value, PendingOf(owner)) == MaxMounts then
              after == slots && left == mnt
            else
              var ms := slots[k].mounts.value;
              var j := FirstIndex(ms, PendingOf(owner));
              && left == None
              && ms[j].state == Pending && ms[j].owner == Some(owner)
              && 1 <= slots[k].mountCount && ms[j].bytes <= slots[k].tmpfsBytes
              && after == slots[k := slots[k].(
                   mounts := Some(ms[j := if mnt.None? then FreeRecord else Record(Tracked, None, mnt, ms[j].bytes)]),
                   mountCount := slots[k].mountCount - (if mnt.None? then 1 else 0),
                   tmpfsBytes := slots[k].tmpfsBytes - (if mnt.None? then ms[j].bytes else 0))]
  {
    UidCases(slots, uid);
    var k := FindReady(slots, uid);
    if k < |slots| {
      var slot := slots[k];
      assert SlotOk(slot);
      var ms := slot.mounts.value;
      var j := FirstIndex(ms, PendingOf(owner));
      if j < |ms| {
        assert PendingOf(owner)(ms[j]);
        SumAtLeast(Occupied, ms, j);
        SumAtLeast(BytesOf, ms, j);
        if mnt.None? {
          ClearRecordOutcome(slot, j);
          UpdateOk(slots, k, ClearRecord(slot, j));
        } else {
          var r := Record(Tracked, None, mnt, ms[j].bytes);
          SumUpdate(Occupied, ms, j, r);
          SumUpdate(BytesOf, ms, j, r);
          UpdateOk(slots, k, slot.(mounts := Some(ms[j := r])));
        }
      }
    }
  }

  /** An unmount frees the first record tracking the mount and hands its reference back. */
  lemma UmountResultOutcome(slots: seq<Slot>, uid: nat, mnt: Mount)
    requires TableOk(slots)
    ensures TableOk(UmountResult(slots, uid, mnt).0)
    ensures var (after, dropped) := UmountResult(slots, uid, mnt);
            var k := FindReady(slots, uid);
            if !MountIsTracked(slots, uid, mnt) then after == slots && dropped == None
            else
              var ms := slots[k].mounts.value;
              var j := FirstIndex(ms, TrackedAt(mnt));
              && dropped == Some(mnt)
              && ms[j].state == Tracked && ms[j].mnt == Some(mnt)
              && 1 <= slots[k].mountCount && ms[j].bytes <= slots[k].tmpfsBytes
              && after == slots[k := slots[k].(
                   mounts := Some(ms[j := FreeRecord]),
                   mountCount := slots[k].mountCount - 1,
                   tmpfsBytes := slots[k].tmpfsBytes - ms[j].bytes)]
  {
    UidCases(slots, uid);
    var k := FindReady(slots, uid);
    if k < |slots| {
      var slot := slots[k];
      assert SlotOk(slot);
      var ms := slot.mounts.value;
      var j := FirstIndex(ms, TrackedAt(mnt));
      if j < |ms| {
        assert TrackedAt(mnt)(ms[j]);
        ClearRecordOutcome(slot, j);
        UpdateOk(slots, k, ClearRecord(slot, j));
      }
    }
  }

  // ----- revocation -----

  lemma MarkRevokingOk(slots: seq<Slot>, uid: nat)
    requires TableOk(slots)
    ensures TableOk(MarkRevoking(slots, uid))
  {
    var after := MarkRevoking(slots, uid);
    forall i | 0 <= i < |after| ensures SlotOk(after[i]) && after[i].inUse == slots[i].inUse && after[i].uid == slots[i].uid {
      assert SlotOk(slots[i]);
    }
  }

  lemma DetachOk(slots: seq<Slot>, i: nat, uid: nat)
    requires TableOk(slots) && i < |slots|
    ensures TableOk(Detach(slots, i, uid).0)
  {
    var slot := slots[i];
    assert SlotOk(slot);
    if slot.inUse && slot.uid == uid {
      EmptyLedgerOk(DetachedSlot(slot));
      UpdateOk(slots, i, DetachedSlot(slot));
    }
  }

  lemma ReleaseSlotsOk(slots: seq<Slot>, uid: nat)
    requires TableOk(slots)
    ensures TableOk(ReleaseSlots(slots, uid))
  {
    var after := ReleaseSlots(slots, uid);
    forall i | 0 <= i < |after| ensures SlotOk(after[i]) && (after[i].inUse ==> after[i] == slots[i]) {
      assert SlotOk(slots[i]);
    }
  }
}
