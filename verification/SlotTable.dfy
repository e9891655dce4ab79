/**
 The instance table as a value: one function for each region of namespace.c that runs
 under the instance mutex, and what those regions keep true of every slot.
 */
module SlotTable {
  import opened Sequences

  const MaxInstances: nat := 256
  const MaxMounts: nat := 128
  const TmpfsLimit: nat := 0x4000_0000

  type TaskId = nat

  type Mount = nat

  /** An open namespace file and the mount namespace it stands for. */
  datatype NsFile = NsFile(inode: nat, ns: nat)

  datatype MountState = Free | Pending | Tracked

  datatype Record = Record(state: MountState, owner: Option<TaskId>, mnt: Option<Mount>, bytes: nat)

  /** A slot; `inUse` is the source's `allocated`, a reserved word here. */
  datatype Slot = Slot(
    inUse: bool,
    ready: bool,
    revoking: bool,
    uid: nat,
    sid: nat,
    entrants: nat,
    mountCount: nat,
    tmpfsBytes: nat,
    file: Option<NsFile>,
    mounts: Option<seq<Record>>)

  datatype Identity = Identity(uid: nat, sid: nat)

  datatype Errno = EACCES | EDQUOT

  const FreeRecord := Record(Free, None, None, 0)

  const BlankSlot := Slot(false, false, false, 0, 0, 0, 0, 0, None, None)

  function EmptyLedger(): (ms: seq<Record>)
    ensures |ms| == MaxMounts && forall j :: 0 <= j < |ms| ==> ms[j] == FreeRecord
  {
    seq(MaxMounts, _ => FreeRecord)
  }

  /** Reduction to the 64 bits of a u64. */
  function U64(x: int): nat { x % 0x1_0000_0000_0000_0000 }

  // ----- looking a slot up -----

  ghost predicate Holds(slot: Slot, id: Identity) {
    slot.inUse && slot.uid == id.uid && slot.sid == id.sid
  }

  /** What abk_sandbox_identity_matches answers. */
  ghost predicate HasSlot(slots: seq<Slot>, id: Identity) {
    exists i :: 0 <= i < |slots| && Holds(slots[i], id)
  }

  function ReadyFor(uid: nat): Slot -> bool {
    (slot: Slot) => slot.inUse && slot.ready && slot.uid == uid
  }

  function RevokingFor(uid: nat): Slot -> bool {
    (slot: Slot) => slot.inUse && slot.uid == uid && slot.revoking
  }

  function HeldBy(uid: nat, sid: nat): Slot -> bool {
    (slot: Slot) => slot.inUse && slot.uid == uid && slot.sid == sid
  }

  function UnreadyFor(uid: nat, sid: nat): Slot -> bool {
    (slot: Slot) => slot.inUse && !slot.ready && !slot.revoking && slot.uid == uid && slot.sid == sid
  }

  function Unallocated(): Slot -> bool {
    (slot: Slot) => !slot.inUse
  }

  function BusyFor(uid: nat): Slot -> bool {
    (slot: Slot) => slot.inUse && slot.uid == uid && slot.entrants > 0
  }

  function FindReady(slots: seq<Slot>, uid: nat): nat { FirstIndex(slots, ReadyFor(uid)) }

  predicate UidRevoking(slots: seq<Slot>, uid: nat) { FirstIndex(slots, RevokingFor(uid)) < |slots| }

  predicate HasEntrants(slots: seq<Slot>, uid: nat) { FirstIndex(slots, BusyFor(uid)) < |slots| }

  // ----- entry -----

  datatype JoinOutcome = Rejected | Revoked | NoSpace | NoMemory | CreateFailed | Joined(file: Option<NsFile>) | Created

  /** What the kernel answers inside the critical section: the ledger allocation and the new namespace. */
  datatype JoinEnv = JoinEnv(ledgerAllocated: bool, created: Option<NsFile>)

  function ReleaseUnready(slot: Slot): Slot {
    if slot.ready || slot.revoking || slot.entrants > 0 then slot
    else slot.(inUse := false, uid := 0, sid := 0, mountCount := 0, tmpfsBytes := 0, file := None, mounts := None)
  }

  /** abk_reserve_locked: an unfinished slot of the same identity, else the first free one. */
  function ReserveIndex(slots: seq<Slot>, uid: nat, sid: nat): nat {
    var same := FirstIndex(slots, UnreadyFor(uid, sid));
    if same < |slots| then same else FirstIndex(slots, Unallocated())
  }

  function Reserved(slot: Slot, uid: nat, sid: nat): Slot {
    if slot.inUse then slot
    else Slot(true, slot.ready, false, uid, sid, 0, 0, 0, None, None)
  }

  /** From the reserved slot to a ready one, or back to a free one. */
  function Furnish(taken: Slot, env: JoinEnv): (Slot, JoinOutcome) {
    if taken.revoking then (ReleaseUnready(taken), Revoked)
    else if taken.mounts.None? && !env.ledgerAllocated then (ReleaseUnready(taken), NoMemory)
    else
      var equipped := if taken.mounts.None? then taken.(mounts := Some(EmptyLedger())) else taken;
      if env.created.None? then (ReleaseUnready(equipped), CreateFailed)
      else (equipped.(file := env.created, entrants := equipped.entrants + 1, ready := true), Created)
  }

  function JoinOrCreate(slots: seq<Slot>, uid: nat, sid: nat, env: JoinEnv): (seq<Slot>, JoinOutcome) {
    var k := FindReady(slots, uid);
    if k < |slots| then
      if slots[k].sid != sid || slots[k].revoking then (slots, Rejected)
      else (slots[k := slots[k].(entrants := slots[k].entrants + 1)], Joined(slots[k].file))
    else if UidRevoking(slots, uid) then (slots, Revoked)
    else
      var r := ReserveIndex(slots, uid, sid);
      if r == |slots| then (slots, NoSpace)
      else
        var (slot, outcome) := Furnish(Reserved(slots[r], uid, sid), env);
        (slots[r := slot], outcome)
  }

  function EntryComplete(slots: seq<Slot>, uid: nat, sid: nat): seq<Slot> {
    var k := FirstIndex(slots, HeldBy(uid, sid));
    if k < |slots| && slots[k].entrants > 0 then slots[k := slots[k].(entrants := slots[k].entrants - 1)] else slots
  }

  // ----- mount ledger -----

  function IsFree(): Record -> bool { (r: Record) => r.state == Free }

  function PendingOf(owner: TaskId): Record -> bool {
    (r: Record) => r.state == Pending && r.owner == Some(owner)
  }

  function TrackedAt(mnt: Mount): Record -> bool {
    (r: Record) => r.state == Tracked && r.mnt == Some(mnt)
  }

  function MountReserve(slots: seq<Slot>, uid: nat, owner: TaskId, bytes: nat): (seq<Slot>, Option<Errno>) {
    var k := FindReady(slots, uid);
    if k == |slots| || slots[k].revoking then (slots, Some(EACCES))
    else
      var slot := slots[k];
      if slot.mountCount >= MaxMounts then (slots, Some(EDQUOT))
      else if bytes > U64(TmpfsLimit - slot.tmpfsBytes) then (slots, Some(EDQUOT))
      else if slot.mounts.None? then (slots, Some(EDQUOT))
      else
        var ms := slot.mounts.value;
        var j := FirstIndex(ms, IsFree());
        if j == |ms| then (slots, Some(EDQUOT))
        else (slots[k := slot.(
                    mounts := Some(ms[j := Record(Pending, Some(owner), None, bytes)]),
                    mountCount := slot.mountCount + 1,
                    tmpfsBytes := U64(slot.tmpfsBytes + bytes))], None)
  }

  /** abk_clear_mount_locked, with its two guards. */
  function ClearRecord(slot: Slot, j: nat): Slot
    requires slot.mounts.Some? && j < |slot.mounts.value|
  {
    var ms := slot.mounts.value;
    slot.(mountCount := if slot.mountCount > 0 then slot.mountCount - 1 else 0,
          tmpfsBytes := if ms[j].bytes <= slot.tmpfsBytes then slot.tmpfsBytes - ms[j].bytes else slot.tmpfsBytes,
          mounts := Some(ms[j := FreeRecord]))
  }

  /** The locked part of abk_sandbox_mount_result; the second part is the reference the caller still owns. */
  function MountResult(slots: seq<Slot>, uid: nat, owner: TaskId, mnt: Option<Mount>): (seq<Slot>, Option<Mount>) {
    var k := FindReady(slots, uid);
    if k == |slots| || slots[k].mounts.None? then (slots, mnt)
    else
      var slot := slots[k];
      var ms := slot.mounts.value;
      var j := FirstIndex(ms, PendingOf(owner));
      if j == |ms| then (slots, mnt)
      else if mnt.None? then (slots[k := ClearRecord(slot, j)], None)
      else (slots[k := slot.(mounts := Some(ms[j := Record(Tracked, None, mnt, ms[j].bytes)]))], None)
  }

  /** abk_sandbox_mount_is_tracked. */
  predicate MountIsTracked(slots: seq<Slot>, uid: nat, mnt: Mount) {
    var k := FindReady(slots, uid);
    k < |slots| && slots[k].mounts.Some? &&
    FirstIndex(slots[k].mounts.value, TrackedAt(mnt)) < |slots[k].mounts.value|
  }

  function UmountResult(slots: seq<Slot>, uid: nat, mnt: Mount): (seq<Slot>, Option<Mount>) {
    var k := FindReady(slots, uid);
    if k == |slots| || slots[k].mounts.None? then (slots, None)
    else
      var ms := slots[k].mounts.value;
      var j := FirstIndex(ms, TrackedAt(mnt));
      if j == |ms| then (slots, None)
      else (slots[k := ClearRecord(slots[k], j)], ms[j].mnt)
  }

  // ----- revocation -----

  function MarkedSlot(slot: Slot, uid: nat): Slot {
    if slot.inUse && slot.uid == uid then slot.(revoking := true, ready := false) else slot
  }

  function MarkRevoking(slots: seq<Slot>, uid: nat): (r: seq<Slot>)
    ensures |r| == |slots|
    ensures forall i :: 0 <= i < |slots| ==> r[i] == MarkedSlot(slots[i], uid)
  {
    seq(|slots|, i requires 0 <= i < |slots| => MarkedSlot(slots[i], uid))
  }

  /** The mount references a ledger holds, in ledger order. */
  function LedgerMounts(ms: seq<Record>): seq<Mount> {
    if ms == [] then []
    else (if ms[0].mnt.Some? then [ms[0].mnt.value] else []) + LedgerMounts(ms[1..])
  }

  function WipedLedger(ms: seq<Record>): (r: seq<Record>)
    ensures |r| == |ms|
    ensures forall j :: 0 <= j < |r| ==> r[j] == FreeRecord
  {
    seq(|ms|, _ => FreeRecord)
  }

  function DetachedSlot(slot: Slot): Slot {
    slot.(revoking := true, ready := false, file := None, mountCount := 0, tmpfsBytes := 0,
          mounts := if slot.mounts.Some? then Some(WipedLedger(slot.mounts.value)) else None)
  }

  /** One round of abk_revoke_detach_resources: the new table, the namespace file and the mounts to drop. */
  function Detach(slots: seq<Slot>, i: nat, uid: nat): (seq<Slot>, Option<NsFile>, seq<Mount>)
    requires i < |slots|
  {
    var slot := slots[i];
    if slot.inUse && slot.uid == uid then
      (slots[i := DetachedSlot(slot)], slot.file, if slot.mounts.Some? then LedgerMounts(slot.mounts.value) else [])
    else (slots, None, [])
  }

  predicate Releasable(slot: Slot, uid: nat) {
    slot.inUse && slot.uid == uid && !slot.ready && slot.entrants == 0
  }

  function ReleasedSlot(slot: Slot, uid: nat): Slot {
    if Releasable(slot, uid) then slot.(mounts := None, uid := 0, sid := 0, revoking := false, inUse := false) else slot
  }

  function ReleaseSlots(slots: seq<Slot>, uid: nat): (r: seq<Slot>)
    ensures |r| == |slots|
    ensures forall i :: 0 <= i < |slots| ==> r[i] == ReleasedSlot(slots[i], uid)
  {
    seq(|slots|, i requires 0 <= i < |slots| => ReleasedSlot(slots[i], uid))
  }

  // ----- what every lock release leaves true -----

  function Occupied(r: Record): nat { if r.state == Free then 0 else 1 }

  function BytesOf(r: Record): nat { r.bytes }

  ghost predicate RecordOk(r: Record) {
    match r.state
    case Free => r == FreeRecord
    case Pending => r.owner.Some? && r.mnt.None?
    case Tracked => r.owner.None? && r.mnt.Some?
  }

  /** The ledger's two counters agree with its records and stay inside the quota. */
  ghost predicate LedgerOk(slot: Slot)
    requires slot.mounts.Some?
  {
    var ms := slot.mounts.value;
    && |ms| == MaxMounts
    && (forall j :: 0 <= j < |ms| ==> RecordOk(ms[j]))
    && slot.mountCount == Sum(Occupied, ms)
    && slot.tmpfsBytes == Sum(BytesOf, ms)
    && slot.tmpfsBytes <= TmpfsLimit
  }

  ghost predicate SlotOk(slot: Slot) {
    if slot.inUse then
      slot.ready != slot.revoking && (slot.ready ==> slot.file.Some?) && slot.mounts.Some? && LedgerOk(slot)
    else
      !slot.ready && !slot.revoking && slot.entrants == 0 && slot.mounts.None?
  }

  /** Every slot is sound and no two allocated slots share a full UID. */
  ghost predicate TableOk(slots: seq<Slot>) {
    && (forall i :: 0 <= i < |slots| ==> SlotOk(slots[i]))
    && (forall i, j :: 0 <= i < j < |slots| && slots[i].inUse && slots[j].inUse ==> slots[i].uid != slots[j].uid)
  }
}
