/**
 The invariant of the checkpoint store: what holds in every reachable state.
 */
module ProtocolInvariant {
  import opened Wrappers
  import opened CrashFs
  import opened MetadataText
  import opened Protocol
  import ImageFormat

  // ---- What files hold ----

  /** The file is finished metadata naming `slot`. */
  predicate Names(fs: Fs, v: Option<nat>, slot: Slot) {
    v.Some? && v.value in fs.inodes && fs.inodes[v.value].content.MetaFile? && fs.inodes[v.value].content.slot == slot
  }

  predicate OnDisk(fs: Fs, v: Option<nat>) {
    v.Some? && v.value in fs.inodes && fs.inodes[v.value].synced
  }

  /** The file is an image with at least one dumped region. */
  predicate Dumped(fs: Fs, v: Option<nat>) {
    IsImage(fs, v) && fs.inodes[v.value].content.file.included > 0
  }

  /** A restore that opens this slot now, or after any power loss, finds a capture numbered at least `n`. */
  ghost predicate SlotHolds(fs: Fs, slot: Slot, n: nat) {
    forall v :: May(fs, Snap(slot), v) ==> IsImage(fs, v) && Number(fs, v) >= n
  }

  /** The slot visibly holds a capture numbered at least `n`. */
  predicate AtLeast(fs: Fs, slot: Slot, n: nat) {
    var v := Lookup(fs, Snap(slot));
    IsImage(fs, v) && Number(fs, v) >= n
  }

  // ---- The file system part ----

  /** Every entry, now and after a power loss, is an existing inode. */
  ghost predicate Closed(fs: Fs) {
    forall n, v :: May(fs, n, v) && v.Some? ==> v.value in fs.inodes
  }

  /** Whatever snapshot.bin or active.meta may be is finished and safely on disk. */
  ghost predicate Published(fs: Fs) {
    && (forall slot, v :: May(fs, Snap(slot), v) && v.Some? ==> IsImage(fs, v) && OnDisk(fs, v))
    && (forall v :: May(fs, Meta, v) && v.Some? ==> (Names(fs, v, A) || Names(fs, v, B)) && OnDisk(fs, v))
  }

  /** The inode a temporary name leads to has no other name, and no published one even after a power loss. */
  ghost predicate Separate(fs: Fs) {
    && (forall t, n :: IsTmp(t) && IsTmp(n) && t in fs.entries && n in fs.entries && t != n ==>
          fs.entries[t] != fs.entries[n])
    && (forall t, n, v :: IsTmp(t) && t in fs.entries && !IsTmp(n) && May(fs, n, v) ==> v != Some(fs.entries[t]))
    && Apart(fs)
  }

  /** No image may come back in both slots. */
  ghost predicate Apart(fs: Fs) {
    forall v: Option<nat> {:trigger May(fs, Snap(A), v)} {:trigger May(fs, Snap(B), v)} ::
      v.Some? && May(fs, Snap(A), v) ==> !May(fs, Snap(B), v)
  }

  /** Captures have different numbers, all below the next one. */
  ghost predicate Numbered(fs: Fs, next: nat) {
    && (forall i :: IsImage(fs, Some(i)) ==> 0 < Number(fs, Some(i)) < next)
    && (forall i, j :: IsImage(fs, Some(i)) && IsImage(fs, Some(j)) ==>
          (Number(fs, Some(i)) == Number(fs, Some(j)) ==> i == j))
  }

  /** Finished images load completely, and finished metadata reads back as the slot it was written for. */
  ghost predicate Sound(c: Content) {
    && (c.Image? ==> ImageFormat.Complete(c.file.bytes, c.file.included))
    && (c.MetaFile? ==> ReadActiveSlot(c.text) == Some(SlotName(c.slot)))
  }

  ghost predicate Contents(fs: Fs) {
    forall i :: i in fs.inodes ==> Sound(fs.inodes[i].content)
  }

  /** Whatever metadata a power loss may bring back names a slot that holds everything acknowledged. */
  ghost predicate Durable(fs: Fs, acked: nat) {
    && (forall v, slot :: May(fs, Meta, v) && Names(fs, v, slot) ==> SlotHolds(fs, slot, acked))
    && (acked > 0 ==> !May(fs, Meta, None))
  }

  ghost predicate StoreInv(fs: Fs, next: nat, acked: nat) {
    && Closed(fs)
    && Published(fs)
    && Separate(fs)
    && Numbered(fs, next)
    && Durable(fs, acked)
    && acked < next
  }

  // ---- The processes ----

  predicate Holding(q: Proc) {
    IsCheckpoint(q) && !q.CkStart?
  }

  /** `i` was published: no temporary name leads to it, so nobody will write it again. */
  ghost predicate Frozen(fs: Fs, i: nat) {
    i in fs.inodes && forall t :: IsTmp(t) ==> Lookup(fs, t) != Some(i)
  }

  ghost predicate ReaderInv(fs: Fs, q: Proc) {
    match q
    case RsReadMeta(ino, floor) =>
      Frozen(fs, ino) && exists slot :: Names(fs, Some(ino), slot) && AtLeast(fs, slot, floor)
    case RsOpen(slot, floor) => AtLeast(fs, slot, floor)
    case RsLoad(slot, floor, ino, seen) =>
      && Frozen(fs, ino) && fs.inodes[ino].content == seen
      && seen.Image? && seen.number >= floor && AtLeast(fs, slot, seen.number)
    case RsFork(slot, floor, seen) =>
      seen.Image? && seen.number >= floor && AtLeast(fs, slot, seen.number)
    case ChOpen(slot, floor, first) =>
      first.Image? && first.number >= floor && AtLeast(fs, slot, first.number)
    case ChLoad(slot, floor, first, ino, seen) =>
      && Frozen(fs, ino) && fs.inodes[ino].content == seen
      && seen.Image? && first.Image? && seen.number >= first.number >= floor
    case _ => true
  }

  /** The capture `ino` numbered `number` is the newest so far. */
  ghost predicate Newest(fs: Fs, ino: nat, number: nat, acked: nat) {
    && IsImage(fs, Some(ino)) && Number(fs, Some(ino)) == number
    && acked < number
    && forall slot, v :: May(fs, Snap(slot), v) && v != Some(ino) ==> Number(fs, v) < number
  }

  /** The slot durably holds the capture `ino` numbered `number`, and nothing else. */
  ghost predicate Settled(fs: Fs, slot: Slot, ino: nat, number: nat, acked: nat) {
    && IsImage(fs, Some(ino)) && Number(fs, Some(ino)) == number
    && acked < number
    && (forall v :: May(fs, Snap(slot), v) ==> v == Some(ino))
  }

  /** No metadata that may come back names this slot. */
  ghost predicate Spare(fs: Fs, slot: Slot) {
    forall v :: May(fs, Meta, v) ==> !Names(fs, v, slot)
  }

  ghost predicate WriterInv(s: Sys, q: Proc) {
    var fs := s.fs;
    match q
    case CkReadMeta(ino) => Lookup(fs, Meta) == Some(ino)
    case CkOpenTmp(slot, informed) => Chosen(s, slot, informed)
    case CkWrite(slot, informed, ino) => Chosen(s, slot, informed) && Lookup(fs, SnapTmp(slot)) == Some(ino)
    case CkFsync(slot, informed, ino, number) =>
      Chosen(s, slot, informed) && Lookup(fs, SnapTmp(slot)) == Some(ino) && Newest(fs, ino, number, s.acked)
    case CkRename(slot, informed, ino, number) =>
      && Chosen(s, slot, informed) && Lookup(fs, SnapTmp(slot)) == Some(ino) && Newest(fs, ino, number, s.acked)
      && OnDisk(fs, Some(ino))
    case CkFsyncDir(slot, ino, number) =>
      Newest(fs, ino, number, s.acked) && Lookup(fs, Snap(slot)) == Some(ino)
    case CkManifest(slot, ino, number) => Settled(fs, slot, ino, number, s.acked)
    case CkOpenMetaTmp(slot, ino, number) => Settled(fs, slot, ino, number, s.acked) && Dumped(fs, Some(ino))
    case CkWriteMeta(slot, ino, number, mino) =>
      Settled(fs, slot, ino, number, s.acked) && Dumped(fs, Some(ino)) && Lookup(fs, MetaTmp) == Some(mino)
    case CkFsyncMeta(slot, ino, number, mino) =>
      && Settled(fs, slot, ino, number, s.acked) && Dumped(fs, Some(ino)) && Lookup(fs, MetaTmp) == Some(mino)
      && Names(fs, Some(mino), slot)
    case CkRenameMeta(slot, ino, number, mino) =>
      && Settled(fs, slot, ino, number, s.acked) && Dumped(fs, Some(ino)) && Lookup(fs, MetaTmp) == Some(mino)
      && Names(fs, Some(mino), slot) && OnDisk(fs, Some(mino))
    case CkFsyncRoot(slot, ino, number, mino) =>
      && Settled(fs, slot, ino, number, s.acked) && Lookup(fs, Meta) == Some(mino) && Names(fs, Some(mino), slot)
    case CkUnlinkTmp(name) => IsTmp(name)
    case _ => true
  }

  ghost predicate Chosen(s: Sys, slot: Slot, informed: bool) {
    (informed && Meta in s.fs.entries ==> !Names(s.fs, Lookup(s.fs, Meta), slot))
  }

  /** Every capture that metadata may select, now or after a power loss, dumped at least one region. */
  ghost predicate NonEmpty(fs: Fs) {
    forall v, slot, w :: May(fs, Meta, v) && Names(fs, v, slot) && May(fs, Snap(slot), w) ==> Dumped(fs, w)
  }

  /** Slot B is written only after metadata was visible. */
  ghost predicate History(s: Sys) {
    !s.metaEver ==>
      && (forall v :: May(s.fs, Meta, v) ==> v.None?)
      && (forall v :: May(s.fs, Snap(B), v) ==> v.None?)
      && (forall p :: p in s.procs ==> OnlyA(s.procs[p]))
  }

  predicate OnlyA(q: Proc) {
    match q
    case CkReadMeta(_) => false
    case CkOpenTmp(slot, _) => slot.A?
    case CkWrite(slot, _, _) => slot.A?
    case CkFsync(slot, _, _, _) => slot.A?
    case CkRename(slot, _, _, _) => slot.A?
    case CkFsyncRoot(_, _, _, _) => false
    case _ => true
  }

  ghost predicate Inv(s: Sys) {
    && StoreInv(s.fs, s.nextNumber, s.acked)
    && Contents(s.fs)
    && (forall p :: p in s.procs ==> (Holding(s.procs[p]) ==> s.lock == Some(p)))
    && (forall p :: p in s.procs ==> ReaderInv(s.fs, s.procs[p]))
    && (forall p :: p in s.procs ==> WriterInv(s, s.procs[p]))
    && History(s)
  }
}
