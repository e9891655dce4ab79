/**
 The table as the kernel keeps it: a fixed array updated in place by scanning loops. Every method is
 one critical section, proved against the function of SlotTable of the same name.
 */
module InstanceTable {
  import opened Sequences
  import opened SlotTable
  import Facts = SlotTableFacts
  import opened Credentials

  lemma {:induction false} LedgerMountsAppend(ms: seq<Record>, r: Record)
    ensures LedgerMounts(ms + [r]) == LedgerMounts(ms) + if r.mnt.Some? then [r.mnt.value] else []
    decreases |ms|
  {
    if ms == [] {
      assert ms + [r] == [r];
    } else {
      var (head, tail) := (if ms[0].mnt.Some? then [ms[0].mnt.value] else [], ms[1..]);
      assert (ms + [r])[1..] == tail + [r];
      LedgerMountsAppend(tail, r);
      assert LedgerMounts(ms + [r]) == head + LedgerMounts(tail + [r]);
    }
  }

  class Instances {
    const slots: array<Slot>

    constructor ()
      ensures fresh(slots) && slots.Length == MaxInstances
      ensures forall i :: 0 <= i < slots.Length ==> slots[i] == BlankSlot
    {
      slots := new Slot[MaxInstances](_ => BlankSlot);
    }

    // ----- lookups -----

    method FindReadyLocked(uid: nat) returns (k: nat)
      ensures k == FindReady(slots[..], uid)
    {
      k := 0;
      while k < slots.Length
        invariant k <= slots.Length
        invariant forall j :: 0 <= j < k ==> !ReadyFor(uid)(slots[j])
      {
        if slots[k].inUse && slots[k].ready && slots[k].uid == uid {
          break;
        }
        k := k + 1;
      }
      FirstIndexUnique(slots[..], ReadyFor(uid), k);
    }

    method UidRevokingLocked(uid: nat) returns (revoking: bool)
      ensures revoking == UidRevoking(slots[..], uid)
    {
      var k := 0;
      while k < slots.Length
        invariant k <= slots.Length
        invariant forall j :: 0 <= j < k ==> !RevokingFor(uid)(slots[j])
      {
        if slots[k].inUse && slots[k].uid == uid && slots[k].revoking {
          FirstIndexUnique(slots[..], RevokingFor(uid), k);
          return true;
        }
        k := k + 1;
      }
      FirstIndexUnique(slots[..], RevokingFor(uid), k);
      return false;
    }

    /** abk_sandbox_identity_matches. */
    method IdentityMatches(uid: nat, sid: nat) returns (matches: bool)
      ensures matches <==> HasSlot(slots[..], Identity(uid, sid))
    {
      var k := 0;
      while k < slots.Length
        invariant k <= slots.Length
        invariant forall j :: 0 <= j < k ==> !Holds(slots[j], Identity(uid, sid))
      {
        if slots[k].inUse {
          if slots[k].uid == uid && slots[k].sid == sid {
            assert Holds(slots[..][k], Identity(uid, sid));
            return true;
          }
        }
        k := k + 1;
      }
      return false;
    }

    /** abk_revoke_has_entrants. */
    method RevokeHasEntrants(uid: nat) returns (entrants: bool)
      ensures entrants == HasEntrants(slots[..], uid)
    {
      var k := 0;
      while k < slots.Length
        invariant k <= slots.Length
        invariant forall j :: 0 <= j < k ==> !BusyFor(uid)(slots[j])
      {
        if slots[k].inUse && slots[k].uid == uid && slots[k].entrants > 0 {
          FirstIndexUnique(slots[..], BusyFor(uid), k);
          return true;
        }
        k := k + 1;
      }
      FirstIndexUnique(slots[..], BusyFor(uid), k);
      return false;
    }

    // ----- entry -----

    /** abk_release_unready_locked on a slot of the table. */
    method ReleaseUnreadyLocked(k: nat)
      requires k < slots.Length
      modifies slots
      ensures slots[..] == old(slots[..])[k := ReleaseUnready(old(slots[k]))]
    {
      if slots[k].ready || slots[k].revoking || slots[k].entrants > 0 {
        return;
      }
      slots[k] := slots[k].(mounts := None, file := None, mountCount := 0, tmpfsBytes := 0);
      slots[k] := slots[k].(uid := 0, sid := 0);
      slots[k] := slots[k].(inUse := false);
    }

    /** abk_reserve_locked; the length of the table stands for the null result. */
    method ReserveLocked(uid: nat, sid: nat) returns (r: nat)
      modifies slots
      ensures r == ReserveIndex(old(slots[..]), uid, sid) <= slots.Length
      ensures r == slots.Length ==> slots[..] == old(slots[..])
      ensures r < slots.Length ==> slots[..] == old(slots[..])[r := Reserved(old(slots[r]), uid, sid)]
    {
      var free: nat, i: nat := slots.Length, 0;
      while i < slots.Length
        invariant i <= slots.Length && free <= slots.Length
        invariant slots[..] == old(slots[..])
        invariant forall j :: 0 <= j < i ==> !UnreadyFor(uid, sid)(slots[j])
        invariant free == slots.Length ==> forall j :: 0 <= j < i ==> slots[j].inUse
        invariant free < slots.Length ==>
                    free < i <= slots.Length && !slots[free].inUse && forall j :: 0 <= j < free ==> slots[j].inUse
      {
        if !slots[i].inUse && free == slots.Length {
          free := i;
        }
        if slots[i].inUse && !slots[i].ready && !slots[i].revoking && slots[i].uid == uid && slots[i].sid == sid {
          FirstIndexUnique(slots[..], UnreadyFor(uid, sid), i);
          return i;
        }
        i := i + 1;
      }
      FirstIndexUnique(slots[..], UnreadyFor(uid, sid), slots.Length);
      FirstIndexUnique(slots[..], Unallocated(), free);
      if free == slots.Length {
        return free;
      }
      slots[free] := slots[free].(uid := uid, sid := sid, mountCount := 0, tmpfsBytes := 0, entrants := 0);
      slots[free] := slots[free].(file := None, mounts := None, revoking := false);
      slots[free] := slots[free].(inUse := true);
      return free;
    }

    /** The part of the join after the reservation. */
    method FurnishLocked(r: nat, env: JoinEnv) returns (outcome: JoinOutcome)
      requires r < slots.Length
      modifies slots
      ensures slots[..] == old(slots[..])[r := Furnish(old(slots[r]), env).0]
      ensures outcome == Furnish(old(slots[r]), env).1
    {
      if slots[r].revoking {
        ReleaseUnreadyLocked(r);
        return Revoked;
      }
      if slots[r].mounts.None? {
        if !env.ledgerAllocated {
          ReleaseUnreadyLocked(r);
          return NoMemory;
        }
        slots[r] := slots[r].(mounts := Some(EmptyLedger()));
      }
      if env.created.None? {
        ReleaseUnreadyLocked(r);
        return CreateFailed;
      }
      slots[r] := slots[r].(file := env.created);
      slots[r] := slots[r].(entrants := slots[r].entrants + 1);
      slots[r] := slots[r].(ready := true);
      return Created;
    }

    /** The locked part of abk_sandbox_join_or_create_namespace. */
    method JoinOrCreateNamespace(uid: nat, sid: nat, env: JoinEnv) returns (outcome: JoinOutcome)
      modifies slots
      ensures (slots[..], outcome) == JoinOrCreate(old(slots[..]), uid, sid, env)
    {
      var k := FindReadyLocked(uid);
      if k < slots.Length {
        if slots[k].sid != sid || slots[k].revoking {
          ReleaseUnreadyLocked(k);
          assert slots[..] == old(slots[..]);
          return Rejected;
        }
        slots[k] := slots[k].(entrants := slots[k].entrants + 1);
        return Joined(slots[k].file);
      }
      var revoking := UidRevokingLocked(uid);
      if revoking {
        return Revoked;
      }
      var r := ReserveLocked(uid, sid);
      if r == slots.Length {
        return NoSpace;
      }
      ghost var taken := slots[r];
      outcome := FurnishLocked(r, env);
      assert slots[..] == old(slots[..])[r := Furnish(taken, env).0];
    }

    /** abk_sandbox_entry_complete. */
    method EntryCompletes(uid: nat, sid: nat)
      modifies slots
      ensures slots[..] == EntryComplete(old(slots[..]), uid, sid)
    {
      var i := 0;
      while i < slots.Length
        invariant i <= slots.Length
        invariant slots[..] == old(slots[..])
        invariant forall j :: 0 <= j < i ==> !HeldBy(uid, sid)(slots[j])
      {
        if slots[i].inUse && slots[i].uid == uid && slots[i].sid == sid {
          FirstIndexUnique(slots[..], HeldBy(uid, sid), i);
          if slots[i].entrants > 0 {
            slots[i] := slots[i].(entrants := slots[i].entrants - 1);
          }
          return;
        }
        i := i + 1;
      }
      FirstIndexUnique(slots[..], HeldBy(uid, sid), i);
    }

    // ----- mount ledger -----

    /** abk_sandbox_mount_reserve. */
    method ReserveMount(uid: nat, owner: TaskId, bytes: nat) returns (error: Option<Errno>)
      modifies slots
      ensures (slots[..], error) == MountReserve(old(slots[..]), uid, owner, bytes)
    {
      var k := FindReadyLocked(uid);
      if k == slots.Length || slots[k].revoking {
        return Some(EACCES);
      }
      if slots[k].mountCount >= MaxMounts {
        return Some(EDQUOT);
      }
      if bytes > U64(TmpfsLimit - slots[k].tmpfsBytes) {
        return Some(EDQUOT);
      }
      if slots[k].mounts.None? {
        return Some(EDQUOT);
      }
      var ms := slots[k].mounts.value;
      var i := 0;
      while i < |ms| && ms[i].state != Free
        invariant i <= |ms|
        invariant forall j :: 0 <= j < i ==> !IsFree()(ms[j])
      {
        i := i + 1;
      }
      FirstIndexUnique(ms, IsFree(), i);
      if i == |ms| {
        return Some(EDQUOT);
      }
      slots[k] := slots[k].(mounts := Some(ms[i := Record(Pending, Some(owner), None, bytes)]));
      slots[k] := slots[k].(mountCount := slots[k].mountCount + 1);
      slots[k] := slots[k].(tmpfsBytes := U64(slots[k].tmpfsBytes + bytes));
      assert slots[..] == old(slots[..])[k := slots[k]];
      return None;
    }

    /** abk_clear_mount_locked. */
    method ClearMountLocked(k: nat, j: nat)
      requires k < slots.Length && slots[k].mounts.Some? && j < |slots[k].mounts.value|
      modifies slots
      ensures slots[..] == old(slots[..])[k := ClearRecord(old(slots[k]), j)]
    {
      var record := slots[k].mounts.value[j];
      if slots[k].mountCount > 0 {
        slots[k] := slots[k].(mountCount := slots[k].mountCount - 1);
      }
      if record.bytes <= slots[k].tmpfsBytes {
        slots[k] := slots[k].(tmpfsBytes := slots[k].tmpfsBytes - record.bytes);
      }
      slots[k] := slots[k].(mounts := Some(slots[k].mounts.value[j := FreeRecord]));
    }

    /** The locked part of abk_sandbox_mount_result. */
    method ResultOfMount(uid: nat, owner: TaskId, mnt: Option<Mount>) returns (left: Option<Mount>)
      modifies slots
      ensures (slots[..], left) == MountResult(old(slots[..]), uid, owner, mnt)
    {
      var k := FindReadyLocked(uid);
      if k == slots.Length || slots[k].mounts.None? {
        return mnt;
      }
      var ms := slots[k].mounts.value;
      var i := 0;
      while i < |ms| && !(ms[i].state == Pending && ms[i].owner == Some(owner))
        invariant i <= |ms|
        invariant forall j :: 0 <= j < i ==> !PendingOf(owner)(ms[j])
      {
        i := i + 1;
      }
      FirstIndexUnique(ms, PendingOf(owner), i);
      if i == |ms| {
        return mnt;
      }
      if mnt.None? {
        ClearMountLocked(k, i);
      } else {
        slots[k] := slots[k].(mounts := Some(ms[i := Record(Tracked, None, mnt, ms[i].bytes)]));
      }
      return None;
    }

    /** The index of the first record that tracks the mount, in the ready slot of the UID. */
    method FindTracked(ms: seq<Record>, mnt: Mount) returns (i: nat)
      ensures i == FirstIndex(ms, TrackedAt(mnt))
    {
      i := 0;
      while i < |ms| && !(ms[i].state == Tracked && ms[i].mnt == Some(mnt))
        invariant i <= |ms|
        invariant forall j :: 0 <= j < i ==> !TrackedAt(mnt)(ms[j])
      {
        i := i + 1;
      }
      FirstIndexUnique(ms, TrackedAt(mnt), i);
    }

    /** abk_sandbox_mount_is_tracked. */
    method IsTracked(uid: nat, mnt: Mount) returns (tracked: bool)
      ensures tracked == MountIsTracked(slots[..], uid, mnt)
    {
      var k := FindReadyLocked(uid);
      if k == slots.Length || slots[k].mounts.None? {
        return false;
      }
      var i := FindTracked(slots[k].mounts.value, mnt);
      return i < |slots[k].mounts.value|;
    }

    /** The locked part of abk_sandbox_umount_result. */
    method ResultOfUmount(uid: nat, mnt: Mount) returns (dropped: Option<Mount>)
      modifies slots
      ensures (slots[..], dropped) == UmountResult(old(slots[..]), uid, mnt)
    {
      var k := FindReadyLocked(uid);
      if k == slots.Length || slots[k].mounts.None? {
        return None;
      }
      var i := FindTracked(slots[k].mounts.value, mnt);
      if i == |slots[k].mounts.value| {
        return None;
      }
      dropped := slots[k].mounts.value[i].mnt;
      ClearMountLocked(k, i);
    }

    // ----- revocation -----

    /** abk_mark_uid_revoking. */
    method MarkUidRevoking(uid: nat)
      modifies slots
      ensures slots[..] == MarkRevoking(old(slots[..]), uid)
    {
      var i := 0;
      while i < slots.Length
        invariant i <= slots.Length
        invariant forall j :: 0 <= j < i ==> slots[j] == MarkedSlot(old(slots[j]), uid)
        invariant forall j :: i <= j < slots.Length ==> slots[j] == old(slots[j])
      {
        if slots[i].inUse && slots[i].uid == uid {
          slots[i] := slots[i].(revoking := true);
          slots[i] := slots[i].(ready := false);
        }
        i := i + 1;
      }
    }

    /** One round of abk_revoke_detach_resources: what it collects is dropped after the lock. */
    method DetachRound(i: nat, uid: nat) returns (file: Option<NsFile>, mounts: seq<Mount>)
      requires i < slots.Length
      modifies slots
      ensures (slots[..], file, mounts) == Detach(old(slots[..]), i, uid)
    {
      file, mounts := None, [];
      if slots[i].inUse && slots[i].uid == uid {
        slots[i] := slots[i].(revoking := true);
        file := slots[i].file;
        slots[i] := slots[i].(file := None);
        if slots[i].mounts.Some? {
          var ms := slots[i].mounts.value;
          var j := 0;
          ghost var before, table := ms, slots[..];
          while j < |ms|
            invariant |ms| == |before| && j <= |ms| && slots[..] == table
            invariant mounts == LedgerMounts(before[..j])
            invariant forall h :: 0 <= h < j ==> ms[h] == FreeRecord
            invariant forall h :: j <= h < |ms| ==> ms[h] == before[h]
          {
            assert before[..j + 1] == before[..j] + [before[j]];
            LedgerMountsAppend(before[..j], before[j]);
            if ms[j].mnt.Some? {
              mounts := mounts + [ms[j].mnt.value];
            }
            ms := ms[j := FreeRecord];
            j := j + 1;
          }
          assert before[..j] == before;
          assert ms == WipedLedger(before);
          slots[i] := slots[i].(mounts := Some(ms));
        }
        slots[i] := slots[i].(mountCount := 0, tmpfsBytes := 0);
        slots[i] := slots[i].(ready := false);
        assert slots[i] == DetachedSlot(old(slots[i]));
        assert slots[..] == old(slots[..])[i := slots[i]];
      }
    }

    /** abk_revoke_release_slots. */
    method RevokeReleaseSlots(uid: nat)
      modifies slots
      ensures slots[..] == ReleaseSlots(old(slots[..]), uid)
    {
      var i := 0;
      while i < slots.Length
        invariant i <= slots.Length
        invariant forall j :: 0 <= j < i ==> slots[j] == ReleasedSlot(old(slots[j]), uid)
        invariant forall j :: i <= j < slots.Length ==> slots[j] == old(slots[j])
      {
        if slots[i].inUse && slots[i].uid == uid && !slots[i].ready && slots[i].entrants == 0 {
          slots[i] := slots[i].(mounts := None);
          slots[i] := slots[i].(uid := 0, sid := 0, revoking := false);
          slots[i] := slots[i].(inUse := false);
        }
        i := i + 1;
      }
    }
  }

  // ----- the entry protocol -----

  /** What the kernel and the policy answer along abk_sandbox_try_escape. */
  datatype EscapeEnv = EscapeEnv(
    manager: bool,
    eligible: int,
    lsmReady: bool,
    enforcing: bool,
    policyError: int,
    secidError: int,
    sid: nat,
    credAllocated: bool,
    groupsAllocated: bool,
    blobPresent: bool,
    join: JoinEnv,
    createError: int,
    joinError: int)

  /** No slot that was in use has changed its entry count, and no new one is left with an entry. */
  ghost predicate EntriesBalanced(before: seq<Slot>, after: seq<Slot>) {
    && |before| == |after|
    && forall i :: 0 <= i < |before| && after[i].inUse ==>
         after[i].entrants == if before[i].inUse then before[i].entrants else 0
  }

  lemma CompletedEntry(before: seq<Slot>, uid: nat, sid: nat, env: JoinEnv)
    requires TableOk(before)
    ensures var (after, outcome) := JoinOrCreate(before, uid, sid, env);
            && TableOk(after)
            && (outcome.Joined? || outcome.Created? ==>
                  && TableOk(EntryComplete(after, uid, sid)) && EntriesBalanced(before, EntryComplete(after, uid, sid))
                  && HasSlot(EntryComplete(after, uid, sid), Identity(uid, sid)))
            && (!outcome.Joined? && !outcome.Created? ==> EntriesBalanced(before, after))
  {
    Facts.JoinOrCreateOutcome(before, uid, sid, env);
    var (after, outcome) := JoinOrCreate(before, uid, sid, env);
    Facts.UidCases(before, uid);
    var free := FirstIndex(before, Unallocated());
    assert free < |before| ==> !before[free].inUse;
    if outcome.Joined? || outcome.Created? {
      var k := if outcome.Joined? then FindReady(before, uid) else free;
      Facts.EntryCompleteOutcome(after, uid, sid, k);
      assert Holds(EntryComplete(after, uid, sid)[k], Identity(uid, sid));
    }
  }

  /** The tests an eligible attempt must pass before the table is touched, in order: whether each fails, and its error. */
  function Tests(env: EscapeEnv): seq<(bool, int)> {
    [(env.eligible < 0, env.eligible),
     (!env.lsmReady, -13),
     (!env.enforcing, -13),
     (env.policyError != 0, env.policyError),
     (env.secidError != 0, env.secidError),
     (!env.credAllocated, -12),
     (!env.groupsAllocated, -12),
     (!env.blobPresent, -13)]
  }

  /** The first test that fails. */
  predicate FailsFirst(env: EscapeEnv, i: nat) {
    i < |Tests(env)| && Tests(env)[i].0 && forall j :: 0 <= j < i ==> !Tests(env)[j].0
  }

  predicate AllPass(env: EscapeEnv) { forall j :: 0 <= j < |Tests(env)| ==> !Tests(env)[j].0 }

  lemma OneFailsFirst(env: EscapeEnv, i: nat)
    requires FailsFirst(env, i)
    ensures !AllPass(env) && forall j: nat :: FailsFirst(env, j) ==> j == i
  {
  }

  /** The part of abk_sandbox_try_escape before the table: the prepared credential, or the error of the first failing test. */
  method Prepare(current: Cred, env: EscapeEnv) returns (error: int, prepared: Option<Cred>)
    requires AppidInRange(current.uid)
    ensures AllPass(env) <==> error == 0
    ensures forall i: nat :: FailsFirst(env, i) ==> error == Tests(env)[i].1
    ensures error == 0 ==> env.eligible >= 0 && env.lsmReady && env.enforcing && env.policyError == 0 && env.secidError == 0
    ensures error == 0 ==> env.credAllocated && env.groupsAllocated && env.blobPresent
    ensures prepared.Some? <==> error == 0
    ensures error == 0 ==> SandboxShape(prepared.value, Origin(Identity(current.uid, env.sid), current.gid))
  {
    prepared := None;
    if env.eligible < 0 {
      OneFailsFirst(env, 0);
      return env.eligible, None;
    }
    if !env.lsmReady {
      OneFailsFirst(env, 1);
      return -13, None;
    }
    if !env.enforcing {
      OneFailsFirst(env, 2);
      return -13, None;
    }
    if env.policyError != 0 {
      OneFailsFirst(env, 3);
      return env.policyError, None;
    }
    if env.secidError != 0 {
      OneFailsFirst(env, 4);
      return env.secidError, None;
    }
    if !env.credAllocated {
      OneFailsFirst(env, 5);
      return -12, None;
    }
    var cred := new Credential(current);
    error := cred.PrepareSandbox(current.uid, current.gid, env.sid, env.groupsAllocated, env.blobPresent);
    if error != 0 {
      OneFailsFirst(env, if env.groupsAllocated then 7 else 6);
      return;
    }
    prepared := Some(cred.View());
  }

  /**
   abk_sandbox_try_escape without interleaving: on every exit each entry taken has been completed exactly once, and a
   credential is committed if and only if the attempt was handled and ends without an error; it is then recognised. The
   first failing test gives its own error and leaves the table alone; after the tests the join decides.
   */
  method TryEscape(table: Instances, current: Cred, env: EscapeEnv) returns (handled: bool, error: int, committed: Option<Cred>)
    requires TableOk(table.slots[..]) && env.createError != 0
    modifies table.slots
    ensures TableOk(table.slots[..]) && EntriesBalanced(old(table.slots[..]), table.slots[..])
    ensures handled <==> !env.manager && AppidMin <= current.uid % 100000 <= AppidMax && env.eligible != 0
    ensures !handled ==> error == 0 && table.slots[..] == old(table.slots[..])
    ensures committed.Some? <==> handled && error == 0
    ensures committed.Some? ==> SandboxShape(committed.value, Origin(Identity(current.uid, env.sid), current.gid))
    ensures committed.Some? ==> SandboxCurrent(table.slots[..], committed.value)
    ensures committed.Some? ==> env.lsmReady && env.enforcing && env.policyError == 0 && env.secidError == 0
    ensures forall i: nat :: handled && FailsFirst(env, i) ==>
              error == Tests(env)[i].1 && committed.None? && table.slots[..] == old(table.slots[..])
    ensures var (after, outcome) := JoinOrCreate(old(table.slots[..]), current.uid, env.sid, env.join);
            handled && AllPass(env) ==>
              && (outcome.Joined? ==> error == env.joinError)
              && (outcome.Created? ==> error == 0)
              && (outcome.Rejected? ==> error == -129)
              && (outcome.Revoked? ==> error == -128)
              && (outcome.NoSpace? ==> error == -28)
              && (outcome.NoMemory? ==> error == -12)
              && (outcome.CreateFailed? ==> error == env.createError)
              && table.slots[..] == if outcome.Joined? || outcome.Created? then EntryComplete(after, current.uid, env.sid) else after
  {
    handled, error, committed := false, 0, None;
    if env.manager {
      return;
    }
    if !AppidInRange(current.uid) {
      return;
    }
    if env.eligible == 0 {
      return;
    }
    handled := true;
    var prepared;
    error, prepared := Prepare(current, env);
    if error != 0 {
      return;
    }
    CompletedEntry(table.slots[..], current.uid, env.sid, env.join);
    var outcome := table.JoinOrCreateNamespace(current.uid, env.sid, env.join);
    match outcome {
      case Joined(_) =>
        if env.joinError != 0 {
          table.EntryCompletes(current.uid, env.sid);
          error := env.joinError;
          return;
        }
      case Created =>
      case Rejected =>
        error := -129;
        return;
      case Revoked =>
        error := -128;
        return;
      case NoSpace =>
        error := -28;
        return;
      case NoMemory =>
        error := -12;
        return;
      case CreateFailed =>
        error := env.createError;
        return;
    }
    committed := prepared;
    table.EntryCompletes(current.uid, env.sid);
    ShapeIsCurrent(table.slots[..], committed.value, Origin(Identity(current.uid, env.sid), current.gid));
  }
}
