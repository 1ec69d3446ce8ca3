/**
 Runs that show where the A/B store promises less than its documentation, and that less would
 be false to claim.
 */
module ProtocolScenarios {
  import opened Wrappers
  import opened CrashFs
  import opened Common
  import opened MetadataText
  import opened Protocol
  import opened ProtocolTheorems
  import opened ProtocolRestores
  import ProtocolProgress
  import opened Bytes
  import ImageFormat
  import Capture

  /** No call fails, nobody is killed, and the power stays on. */
  predicate Smooth(a: Action) {
    a.Spawn? || (a.Call? && a.outcome.ok)
  }

  /** Some run ends in this state; a smooth one if `smooth`. */
  ghost predicate Reachable(s: Sys, smooth: bool) {
    exists states, actions ::
      && RunFromInit(states, actions) && states[|actions|] == s
      && (smooth ==> forall i :: 0 <= i < |actions| ==> Smooth(actions[i]))
  }

  lemma ReachInit(smooth: bool)
    ensures Reachable(Init(), smooth)
  {
    var states: seq<Sys>, actions: seq<Action> := [Init()], [];
    assert RunFromInit(states, actions) && states[|actions|] == Init();
  }

  lemma Act(s: Sys, a: Action, smooth: bool) returns (s': Sys)
    requires Reachable(s, smooth) && Enabled(s, a) && (smooth ==> Smooth(a))
    ensures s' == Apply(s, a) && Reachable(s', smooth)
  {
    hide Apply, Enabled, Smooth;
    var states, actions :| RunFromInit(states, actions) && states[|actions|] == s
      && (smooth ==> forall i :: 0 <= i < |actions| ==> Smooth(actions[i]));
    s' := Next(s, a);
    var states', actions' := states + [s'], actions + [a];
    forall i | 0 <= i < |actions'|
      ensures Step(states'[i], actions'[i], states'[i + 1])
    {
      if i < |actions| {
        assert Step(states[i], actions[i], states[i + 1]);
      }
    }
    assert RunFromInit(states', actions') && states'[|actions'|] == s';
  }

  lemma Next(s: Sys, a: Action) returns (s': Sys)
    requires Enabled(s, a)
    ensures s' == Apply(s, a) && Step(s, a, s')
  {
    s' := Apply(s, a);
  }

  /** Process `p` is at `q`. */
  predicate At(s: Sys, p: Pid, q: Proc) {
    p in s.procs && s.procs[p] == q
  }

  /** Process `r` has not moved. */
  predicate Still(s: Sys, s': Sys, r: Pid) {
    (r in s'.procs <==> r in s.procs) && (r in s.procs ==> s'.procs[r] == s.procs[r])
  }

  /** The call succeeds, and creates the next inode or process if it creates one. */
  function Succeeds(s: Sys, file: ImageFile, st: Stamp): Outcome {
    Outcome(true, LowestUnused(s.fs.inodes), LowestUnused(s.procs), file, st, None)
  }

  ghost predicate Usable(file: ImageFile) {
    ImageFormat.Complete(file.bytes, file.included)
  }

  lemma OneCall(s: Sys, p: Pid, o: Outcome, smooth: bool) returns (s': Sys)
    requires Reachable(s, smooth) && p in s.procs && (smooth ==> o.ok)
    requires o.newInode !in s.fs.inodes && o.child !in s.procs && Usable(o.file)
    ensures Reachable(s', smooth)
    ensures s' == if IsCheckpoint(s.procs[p]) then Checkpoint(s, p, o) else Restore(s, p, o)
  {
    hide Reachable, Checkpoint, Restore;
    s' := Act(s, Call(p, o), smooth);
  }

  /** One successful call of a checkpoint. */
  lemma Call1(s: Sys, p: Pid, file: ImageFile, st: Stamp, smooth: bool) returns (s': Sys)
    requires Reachable(s, smooth) && p in s.procs && IsCheckpoint(s.procs[p]) && Usable(file)
    ensures Reachable(s', smooth) && s' == Checkpoint(s, p, Succeeds(s, file, st))
  {
    hide Reachable, Checkpoint, Usable, Restore;
    s' := OneCall(s, p, Succeeds(s, file, st), smooth);
  }

  lemma OpenAndWrite(s: Sys, p: Pid, r: Pid, slot: Slot, informed: bool, file: ImageFile, st: Stamp, smooth: bool)
    returns (s': Sys, i: nat)
    requires Reachable(s, smooth) && r != p && At(s, p, CkOpenTmp(slot, informed))
    requires SnapTmp(slot) !in s.fs.entries && Usable(file)
    ensures Reachable(s', smooth) && Still(s, s', r) && At(s', p, CkFsync(slot, informed, i, s.nextNumber))
    ensures i !in s.fs.inodes && s'.fs.inodes == s.fs.inodes[i := Inode(Image(s.nextNumber, file), false)]
    ensures s'.fs.entries == s.fs.entries[SnapTmp(slot) := i]
    ensures s'.lock == s.lock && s'.acked == s.acked && s'.nextNumber == s.nextNumber + 1
  {
    hide AtLock, AtMetaLookup, AtFsync, AtRename, AtFsyncDir, AtManifest, AtOpenMetaTmp, AtWriteMeta, AtFsyncMeta;
    hide AtRenameMeta, AtFsyncRoot, AtUnlink, Reachable, Usable;
    i := LowestUnused(s.fs.inodes);
    var s1 := Call1(s, p, file, st, smooth);
    assert At(s1, p, CkWrite(slot, informed, i));
    s' := Call1(s1, p, file, st, smooth);
  }

  lemma PublishSnapshot(
    s: Sys, p: Pid, r: Pid, slot: Slot, informed: bool, i: nat, number: nat, file: ImageFile, st: Stamp, smooth: bool)
    returns (s': Sys)
    requires Reachable(s, smooth) && r != p && At(s, p, CkFsync(slot, informed, i, number))
    requires SnapTmp(slot) in s.fs.entries && s.fs.entries[SnapTmp(slot)] == i && i in s.fs.inodes && Usable(file)
    ensures Reachable(s', smooth) && Still(s, s', r) && At(s', p, CkManifest(slot, i, number))
    ensures s'.fs.inodes == s.fs.inodes[i := s.fs.inodes[i].(synced := true)]
    ensures s'.fs.entries == s.fs.entries[Snap(slot) := i] - {SnapTmp(slot)}
    ensures s'.lock == s.lock && s'.acked == s.acked && s'.nextNumber == s.nextNumber
  {
    hide AtLock, AtMetaLookup, AtOpenTmp, AtWrite, AtManifest, AtOpenMetaTmp, AtWriteMeta, AtFsyncMeta,
      AtRenameMeta, AtFsyncRoot, AtUnlink, Reachable, Usable;
    var s1 := Call1(s, p, file, st, smooth);
    assert At(s1, p, CkRename(slot, informed, i, number));
    var s2 := Call1(s1, p, file, st, smooth);
    assert At(s2, p, CkFsyncDir(slot, i, number));
    s' := Call1(s2, p, file, st, smooth);
  }

  lemma WriteManifest(
    s: Sys, p: Pid, r: Pid, slot: Slot, i: nat, number: nat, file: ImageFile, st: Stamp, smooth: bool)
    returns (s': Sys)
    requires Reachable(s, smooth) && r != p && At(s, p, CkManifest(slot, i, number)) && Usable(file)
    requires i in s.fs.inodes && s.fs.inodes[i].content.Image?
    ensures Reachable(s', smooth) && Still(s, s', r)
    ensures At(s', p, if s.fs.inodes[i].content.file.included > 0 then CkOpenMetaTmp(slot, i, number) else CkUnlock)
    ensures s'.fs == s.fs && s'.lock == s.lock && s'.acked == s.acked && s'.nextNumber == s.nextNumber
  {
    hide AtLock, AtMetaLookup, AtOpenTmp, AtWrite, AtFsync, AtRename, AtFsyncDir, AtOpenMetaTmp, AtWriteMeta,
      AtFsyncMeta, AtRenameMeta, AtFsyncRoot, AtUnlink, Reachable, Usable;
    s' := Call1(s, p, file, st, smooth);
  }

  lemma WriteMetadata(
    s: Sys, p: Pid, r: Pid, slot: Slot, i: nat, number: nat, file: ImageFile, st: Stamp, smooth: bool)
    returns (s': Sys, j: nat)
    requires Reachable(s, smooth) && r != p && At(s, p, CkOpenMetaTmp(slot, i, number))
    requires MetaTmp !in s.fs.entries && Usable(file)
    ensures Reachable(s', smooth) && Still(s, s', r) && At(s', p, CkFsyncMeta(slot, i, number, j)) && j !in s.fs.inodes
    ensures s'.fs.inodes == s.fs.inodes[j := Inode(MetaFile(slot, FormatMetadata(slot, st)), false)]
    ensures s'.fs.entries == s.fs.entries[MetaTmp := j]
    ensures s'.lock == s.lock && s'.acked == s.acked && s'.nextNumber == s.nextNumber
  {
    hide AtLock, AtMetaLookup, AtOpenTmp, AtWrite, AtFsync, AtRename, AtFsyncDir, AtManifest, AtFsyncMeta,
      AtRenameMeta, AtFsyncRoot, AtUnlink, Reachable, Usable, FormatMetadata;
    j := LowestUnused(s.fs.inodes);
    var s1 := Call1(s, p, file, st, smooth);
    assert At(s1, p, CkWriteMeta(slot, i, number, j));
    s' := Call1(s1, p, file, st, smooth);
  }

  lemma RenameMetadata(
    s: Sys, p: Pid, r: Pid, slot: Slot, i: nat, number: nat, j: nat, file: ImageFile, st: Stamp, smooth: bool)
    returns (s': Sys)
    requires Reachable(s, smooth) && r != p && At(s, p, CkFsyncMeta(slot, i, number, j))
    requires MetaTmp in s.fs.entries && s.fs.entries[MetaTmp] == j && j in s.fs.inodes && Usable(file)
    ensures Reachable(s', smooth) && Still(s, s', r) && At(s', p, CkFsyncRoot(slot, i, number, j)) && s'.lock == s.lock
    ensures s'.fs.inodes == s.fs.inodes[j := s.fs.inodes[j].(synced := true)]
    ensures s'.fs.entries == s.fs.entries[Meta := j] - {MetaTmp}
    ensures s'.nextNumber == s.nextNumber
  {
    hide AtLock, AtMetaLookup, AtOpenTmp, AtWrite, AtFsync, AtRename, AtFsyncDir, AtManifest, AtOpenMetaTmp,
      AtWriteMeta, AtFsyncRoot, AtUnlink, Reachable, Usable;
    var s1 := Call1(s, p, file, st, smooth);
    assert At(s1, p, CkRenameMeta(slot, i, number, j));
    s' := Call1(s1, p, file, st, smooth);
  }

  lemma Acknowledge(
    s: Sys, p: Pid, r: Pid, slot: Slot, i: nat, number: nat, j: nat, file: ImageFile, st: Stamp, smooth: bool)
    returns (s': Sys)
    requires Reachable(s, smooth) && r != p && At(s, p, CkFsyncRoot(slot, i, number, j)) && s.lock == Some(p)
    requires Usable(file)
    ensures Reachable(s', smooth) && Still(s, s', r) && p !in s'.procs && s'.lock.None?
    ensures s'.fs.inodes == s.fs.inodes && s'.fs.entries == s.fs.entries
    ensures s'.acked == number && s'.nextNumber == s.nextNumber
  {
    hide AtLock, AtMetaLookup, AtOpenTmp, AtWrite, AtFsync, AtRename, AtFsyncDir, AtManifest, AtOpenMetaTmp,
      AtWriteMeta, AtFsyncMeta, AtRenameMeta, AtUnlink, Reachable, Usable;
    var s1 := Call1(s, p, file, st, smooth);
    assert At(s1, p, CkUnlock);
    s' := Call1(s1, p, file, st, smooth);
  }

  lemma Unlock(s: Sys, p: Pid, r: Pid, file: ImageFile, st: Stamp, smooth: bool) returns (s': Sys)
    requires Reachable(s, smooth) && r != p && At(s, p, CkUnlock) && s.lock == Some(p) && Usable(file)
    ensures Reachable(s', smooth) && Still(s, s', r) && p !in s'.procs && s'.lock.None?
    ensures s'.fs == s.fs && s'.acked == s.acked && s'.nextNumber == s.nextNumber
  {
    hide AtLock, AtMetaLookup, AtOpenTmp, AtWrite, AtFsync, AtRename, AtFsyncDir, AtManifest, AtOpenMetaTmp,
      AtWriteMeta, AtFsyncMeta, AtRenameMeta, AtFsyncRoot, AtUnlink, Reachable, Usable;
    s' := Call1(s, p, file, st, smooth);
  }

  // ---- Whole checkpoints ----

  /** Nobody has the lock, no temporary is left, and metadata names `active`, if anything. */
  ghost predicate Idle(s: Sys, active: Option<Slot>, smooth: bool) {
    && Reachable(s, smooth) && s.lock.None?
    && (forall n :: n in s.fs.entries ==> !IsTmp(n))
    && if active.None? then Meta !in s.fs.entries else Reads(s.fs, active.value)
  }

  ghost predicate Reads(fs: Fs, slot: Slot) {
    Meta in fs.entries && ReadSlot(fs, fs.entries[Meta], None) == Some(SlotName(slot))
  }

  lemma TakeLock(
    s: Sys, active: Option<Slot>, p: Pid, r: Pid, file: ImageFile, st: Stamp, smooth: bool)
    returns (s': Sys)
    requires Idle(s, active, smooth) && p !in s.procs && r != p && Usable(file)
    ensures Reachable(s', smooth) && Still(s, s', r) && At(s', p, CkAccessMeta) && s'.lock == Some(p)
    ensures s'.fs == s.fs && s'.acked == s.acked && s'.nextNumber == s.nextNumber
  {
    hide AtMetaLookup, AtOpenTmp, AtWrite, AtFsync, AtRename, AtFsyncDir, AtManifest, AtOpenMetaTmp,
      AtWriteMeta, AtFsyncMeta, AtRenameMeta, AtFsyncRoot, AtUnlink, Reachable, Usable, ReadSlot;
    var s1 := Act(s, Spawn(p, true), smooth);
    assert At(s1, p, CkStart);
    s' := Call1(s1, p, file, st, smooth);
  }

  lemma SeeMetadata(s: Sys, slot: Slot, p: Pid, r: Pid, file: ImageFile, st: Stamp, smooth: bool) returns (s': Sys)
    requires Reachable(s, smooth) && r != p && At(s, p, CkAccessMeta) && Reads(s.fs, slot) && Usable(file)
    ensures Reachable(s', smooth) && Still(s, s', r) && At(s', p, CkReadMeta(s.fs.entries[Meta]))
    ensures s'.fs == s.fs && s'.lock == s.lock && s'.acked == s.acked && s'.nextNumber == s.nextNumber
  {
    hide AtLock, AtOpenTmp, AtWrite, AtFsync, AtRename, AtFsyncDir, AtManifest, AtOpenMetaTmp, AtWriteMeta,
      AtFsyncMeta, AtRenameMeta, AtFsyncRoot, AtUnlink, Reachable, Usable, ReadSlot, Choose;
    var s1 := Call1(s, p, file, st, smooth);
    assert At(s1, p, CkOpenMeta);
    s' := Call1(s1, p, file, st, smooth);
  }

  lemma ReadMetadata(s: Sys, slot: Slot, p: Pid, r: Pid, file: ImageFile, st: Stamp, smooth: bool) returns (s': Sys)
    requires Reachable(s, smooth) && r != p && Reads(s.fs, slot) && At(s, p, CkReadMeta(s.fs.entries[Meta]))
    requires Usable(file)
    ensures Reachable(s', smooth) && Still(s, s', r) && At(s', p, CkOpenTmp(if slot == A then B else A, true))
    ensures s'.fs == s.fs && s'.lock == s.lock && s'.acked == s.acked && s'.nextNumber == s.nextNumber
  {
    hide AtLock, AtOpenTmp, AtWrite, AtFsync, AtRename, AtFsyncDir, AtManifest, AtOpenMetaTmp, AtWriteMeta,
      AtFsyncMeta, AtRenameMeta, AtFsyncRoot, AtUnlink, Reachable, Usable, ReadActiveSlot;
    s' := Call1(s, p, file, st, smooth);
  }

  /** access(active.meta) finds nothing, or fails. */
  lemma MissMetadata(s: Sys, p: Pid, r: Pid, sees: bool, file: ImageFile, st: Stamp, smooth: bool) returns (s': Sys)
    requires Reachable(s, smooth) && r != p && At(s, p, CkAccessMeta) && Usable(file)
    requires (sees ==> Meta !in s.fs.entries) && (smooth ==> sees)
    ensures Reachable(s', smooth) && Still(s, s', r) && At(s', p, CkOpenTmp(A, Meta !in s.fs.entries))
    ensures s'.fs == s.fs && s'.lock == s.lock && s'.acked == s.acked && s'.nextNumber == s.nextNumber
  {
    hide AtLock, AtOpenTmp, AtWrite, AtFsync, AtRename, AtFsyncDir, AtManifest, AtOpenMetaTmp, AtWriteMeta,
      AtFsyncMeta, AtRenameMeta, AtFsyncRoot, AtUnlink, Reachable, Usable, Restore;
    s' := OneCall(s, p, Succeeds(s, file, st).(ok := sees), smooth);
  }

  /** A checkpoint gets to its temporary; `sees` tells whether access(active.meta) succeeds. */
  lemma Begin(s: Sys, active: Option<Slot>, p: Pid, r: Pid, sees: bool, file: ImageFile, st: Stamp, smooth: bool)
    returns (s': Sys)
    requires Idle(s, active, smooth) && p !in s.procs && r != p && (smooth ==> sees) && Usable(file)
    ensures Reachable(s', smooth) && Still(s, s', r) && s'.fs == s.fs && s'.lock == Some(p)
    ensures s'.acked == s.acked && s'.nextNumber == s.nextNumber
    ensures At(s', p, CkOpenTmp(if sees && active == Some(A) then B else A, sees || active.None?))
  {
    hide Reachable, Usable, ReadSlot;
    var s1 := TakeLock(s, active, p, r, file, st, smooth);
    if sees && active.Some? {
      var s2 := SeeMetadata(s1, active.value, p, r, file, st, smooth);
      s' := ReadMetadata(s2, active.value, p, r, file, st, smooth);
    } else {
      s' := MissMetadata(s1, p, r, sees, file, st, smooth);
    }
  }

  /** A checkpoint that has its slot goes through to the manifest. */
  lemma WriteSnapshot(s: Sys, p: Pid, r: Pid, slot: Slot, informed: bool, file: ImageFile, st: Stamp, smooth: bool)
    returns (s': Sys, i: nat)
    requires Reachable(s, smooth) && r != p && At(s, p, CkOpenTmp(slot, informed))
    requires SnapTmp(slot) !in s.fs.entries && Usable(file)
    ensures Reachable(s', smooth) && Still(s, s', r)
    ensures At(s', p, if file.included > 0 then CkOpenMetaTmp(slot, i, s.nextNumber) else CkUnlock)
    ensures i !in s.fs.inodes && s'.fs.inodes == s.fs.inodes[i := Inode(Image(s.nextNumber, file), true)]
    ensures s'.fs.entries == s.fs.entries[Snap(slot) := i]
    ensures s'.lock == s.lock && s'.acked == s.acked && s'.nextNumber == s.nextNumber + 1
  {
    hide Reachable, Usable, At;
    var s1;
    s1, i := OpenAndWrite(s, p, r, slot, informed, file, st, smooth);
    var s2 := PublishSnapshot(s1, p, r, slot, informed, i, s.nextNumber, file, st, smooth);
    s' := WriteManifest(s2, p, r, slot, i, s.nextNumber, file, st, smooth);
    assert s'.fs.entries == s.fs.entries[Snap(slot) := i];
  }

  /** A checkpoint in which nothing fails. */
  lemma FullCheckpoint(s: Sys, active: Option<Slot>, p: Pid, r: Pid, file: ImageFile, st: Stamp, smooth: bool)
    returns (s': Sys)
    requires Idle(s, active, smooth) && p !in s.procs && r != p && Usable(file) && file.included > 0
    ensures var slot := if active == Some(A) then B else A;
      && Idle(s', Some(slot), smooth) && Still(s, s', r) && p !in s'.procs
      && s'.acked == s.nextNumber && s'.nextNumber == s.nextNumber + 1
      && InSlot(s'.fs, slot) == Some(Image(s.nextNumber, file))
      && (forall t :: t != slot && InSlot(s.fs, t).Some? ==> InSlot(s'.fs, t) == InSlot(s.fs, t))
  {
    hide Reachable, Usable, At, FormatMetadata, ReadActiveSlot;
    var slot := if active == Some(A) then B else A;
    var s1 := Begin(s, active, p, r, true, file, st, smooth);
    var s2, i := WriteSnapshot(s1, p, r, slot, true, file, st, smooth);
    var s3, j := WriteMetadata(s2, p, r, slot, i, s.nextNumber, file, st, smooth);
    var s4 := RenameMetadata(s3, p, r, slot, i, s.nextNumber, j, file, st, smooth);
    s' := Acknowledge(s4, p, r, slot, i, s.nextNumber, j, file, st, smooth);
    MetadataRoundTrip(slot, st);
  }

  /** A checkpoint of the slot that dumps nothing: it fails, after the rename of snapshot.bin. */
  lemma EmptyCheckpoint(
    s: Sys, active: Option<Slot>, p: Pid, r: Pid, sees: bool, empty: ImageFile, st: Stamp, smooth: bool)
    returns (s': Sys)
    requires Idle(s, active, smooth) && p !in s.procs && r != p && (smooth ==> sees) && Usable(empty)
    requires empty.included == 0
    ensures var slot := if sees && active == Some(A) then B else A;
      && Idle(s', active, smooth) && Still(s, s', r) && s'.acked == s.acked
      && InSlot(s'.fs, slot) == Some(Image(s.nextNumber, empty))
      && (forall t :: t != slot && InSlot(s.fs, t).Some? ==> InSlot(s'.fs, t) == InSlot(s.fs, t))
  {
    hide Reachable, Usable, At, ReadActiveSlot;
    var slot := if sees && active == Some(A) then B else A;
    var s1 := Begin(s, active, p, r, sees, empty, st, smooth);
    var s2, i := WriteSnapshot(s1, p, r, slot, sees || active.None?, empty, st, smooth);
    s' := Unlock(s2, p, r, empty, st, smooth);
  }

  /** One successful call of a restore. */
  lemma RestoreCall(s: Sys, r: Pid, file: ImageFile, st: Stamp, smooth: bool) returns (s': Sys)
    requires Reachable(s, smooth) && r in s.procs && !IsCheckpoint(s.procs[r]) && Usable(file)
    ensures Reachable(s', smooth) && s' == Restore(s, r, Succeeds(s, file, st))
  {
    hide Reachable, Checkpoint, Usable, Restore;
    s' := OneCall(s, r, Succeeds(s, file, st), smooth);
  }

  lemma StartRestore(s: Sys, r: Pid, smooth: bool) returns (s': Sys)
    requires Reachable(s, smooth) && r !in s.procs
    ensures Reachable(s', smooth) && At(s', r, RsAccessMeta) && s' == s.(procs := s'.procs)
    ensures s'.procs.Keys == s.procs.Keys + {r}
  {
    hide Reachable, Checkpoint, Restore;
    s' := Act(s, Spawn(r, false), smooth);
  }

  /** The open of snapshot.bin. */
  lemma OpenSnapshot(s: Sys, r: Pid, slot: Slot, floor: nat, file: ImageFile, st: Stamp, smooth: bool) returns (s': Sys)
    requires Reachable(s, smooth) && At(s, r, RsOpen(slot, floor)) && InSlot(s.fs, slot).Some? && Usable(file)
    ensures Reachable(s', smooth) && r in s'.procs && s'.procs[r].RsLoad?
    ensures Some(s'.procs[r].seen) == InSlot(s.fs, slot)
    ensures s'.fs == s.fs && s'.acked == s.acked && s'.nextNumber == s.nextNumber && s'.lock == s.lock
  {
    hide Reachable, Usable, ReadSlot;
    s' := RestoreCall(s, r, file, st, smooth);
  }

  /** A restore settles on the slot that metadata names. */
  lemma SettleByMetadata(s: Sys, r: Pid, slot: Slot, file: ImageFile, st: Stamp, smooth: bool) returns (s': Sys)
    requires Idle(s, Some(slot), smooth) && r !in s.procs && Usable(file)
    ensures Idle(s', Some(slot), smooth) && r in s'.procs && s'.procs[r].RsOpen? && s'.procs[r].slot == slot
    ensures s' == s.(procs := s'.procs) && s'.procs.Keys == s.procs.Keys + {r}
  {
    hide Reachable, Usable, ReadActiveSlot, ActiveNumber, Restore;
    var s1 := StartRestore(s, r, smooth);
    var s2 := RestoreCall(s1, r, file, st, smooth);
    ProtocolProgress.LookupCall(s1, r, Succeeds(s1, file, st));
    var s3 := RestoreCall(s2, r, file, st, smooth);
    ProtocolProgress.LookupCall(s2, r, Succeeds(s2, file, st));
    s' := RestoreCall(s3, r, file, st, smooth);
    ProtocolProgress.LookupCall(s3, r, Succeeds(s3, file, st));
    assert SlotForName(SlotName(slot)) == Some(slot);
  }

  // ---- The scenarios ----

  /** There are finished images to store: one that dumped a region of one byte, and one that dumped nothing. */
  lemma SomeImages() returns (file: ImageFile, empty: ImageFile)
    ensures Usable(file) && file.included == 1 && Usable(empty) && empty.included == 0
  {
    hide Usable;
    file := SomeImage(1);
    empty := SomeImage(0);
  }

  lemma SomeImage(included: nat) returns (file: ImageFile)
    requires included <= 1
    ensures Usable(file) && file.included == included
  {
    hide ImageFormat.Load, ImageFormat.EncodeTables, ImageFormat.HeaderFits, ImageFormat.RegionFits;
    var h := ImageFormat.Header(ImageFormat.MAGIC, ImageFormat.VERSION, 0, 1, 0, seq(27, _ => 0), [], [], []);
    Capture.NewHeaderFits(h);
    var m := ImageFormat.Region(0, 1, 0, 1, 2, 1, included, []);
    RegionFits(m);
    var r := ImageFormat.SavedRegion(m, if included == 1 then ImageFormat.TablesEnd(1, 0) else 0, included);
    Capture.FilledFits(m, r.fileOffset, r.dataSize);
    var img := ImageFormat.Image(h, [r], []);
    var data: seq<byte> := [0];
    ImageFormat.ImageRoundTrip(img, data);
    assert ImageFormat.CountIncluded([r]) == included by {
      assert [r][..0] == [];
    }
    file := ImageFile(ImageFormat.EncodeTables(img) + data, included);
  }

  lemma RegionFits(m: ImageFormat.Region)
    requires m.start == 0 && m.end == 1 && m.offset == 0 && m.name == []
    requires 0 <= m.prot < 8 && 0 <= m.flags < 4 && 0 <= m.isAnonymous <= 1 && 0 <= m.included <= 1
    ensures ImageFormat.RegionFits(ImageFormat.SavedRegion(m, 0, 0))
  {
    assert Pow256(8) == 0x1_0000_0000_0000_0000 && Pow256(4) == 0x1_0000_0000;
  }

  /**
   A restore can load a capture older than an acknowledged one.  After two full checkpoints the
   newest capture, number 2, is in slot B.  If access(active.meta) fails once, restore takes the
   branch for missing metadata and loads capture 1 from slot A.
   */
  lemma RestoreMayLoadOlder(st: Stamp) returns (s: Sys)
    ensures Reachable(s, false) && 1 in s.procs && s.acked == 2
    ensures s.procs[1].RsLoad? && s.procs[1].seen.Image? && s.procs[1].seen.number == 1
  {
    hide Reachable, Usable, ReadSlot, Checkpoint, Restore, InSlot;
    ReachInit(false);
    var file, _ := SomeImages();
    var s1 := FullCheckpoint(Init(), None, 0, 1, file, st, false);
    var s2 := FullCheckpoint(s1, Some(A), 0, 1, file, st, false);
    var s3 := StartRestore(s2, 1, false);
    var o := Succeeds(s3, file, st).(ok := false);
    var s4 := OneCall(s3, 1, o, false);
    ProtocolProgress.MissingCall(s3, 1, o);
    var s5 := RestoreCall(s4, 1, file, st, false);
    ProtocolProgress.LookupCall(s4, 1, Succeeds(s4, file, st));
    HasImage(s4.fs, A);
    s := OpenSnapshot(s5, 1, A, SlotNumber(s4.fs, A), file, st, false);
  }

  lemma HasImage(fs: Fs, slot: Slot)
    ensures InSlot(fs, slot).Some? ==> Snap(slot) in fs.entries
  {
  }

  /**
   A restore can load a capture that is not the selected one, and holds no data, although nothing
   failed.  It reads that slot A is active; before it opens slot A, capture 2 is taken
   and acknowledged in slot B, and a third checkpoint that dumps nothing renames its empty image
   into slot A.  All the time metadata selected a capture with data.
   */
  lemma RestoreMayLoadUnselected(st: Stamp) returns (s: Sys, empty: ImageFile)
    ensures Reachable(s, true) && s.acked == 2 && s.lock.None?
    ensures 1 in s.procs && s.procs[1].RsLoad? && s.procs[1].seen == Image(3, empty) && empty.included == 0
    ensures Dumps(Selected(s.fs)) && Selected(s.fs).value.number == 2
  {
    hide Reachable, Usable, Checkpoint, Restore, ReadActiveSlot;
    ReachInit(true);
    var file;
    file, empty := SomeImages();
    var s1 := FullCheckpoint(Init(), None, 0, 1, file, st, true);
    var s2 := SettleByMetadata(s1, 1, A, file, st, true);
    var s3 := FullCheckpoint(s2, Some(A), 0, 1, file, st, true);
    var s4 := EmptyCheckpoint(s3, Some(B), 0, 1, true, empty, st, true);
    s := OpenSnapshot(s4, 1, A, s4.procs[1].floor, file, st, true);
    assert SlotForName("B") == Some(B);
  }

  /**
   The fallback to slot B is taken in a run in which nothing fails.  A restore finds neither
   active.meta nor an image in slot A; then two checkpoints succeed; then it looks into slot B.
   */
  lemma FallbackToSlotB(st: Stamp) returns (s: Sys)
    ensures Reachable(s, true) && s.acked == 2 && Meta in s.fs.entries
    ensures 1 in s.procs && s.procs[1].RsOpen? && s.procs[1].slot == B
  {
    hide Reachable, Usable, Checkpoint, Restore, ReadActiveSlot, SlotNumber, InSlot;
    ReachInit(true);
    var file, _ := SomeImages();
    var s1 := StartRestore(Init(), 1, true);
    var s2 := RestoreCall(s1, 1, file, st, true);
    ProtocolProgress.LookupCall(s1, 1, Succeeds(s1, file, st));
    var s3 := RestoreCall(s2, 1, file, st, true);
    ProtocolProgress.LookupCall(s2, 1, Succeeds(s2, file, st));
    assert Idle(s3, None, true) && At(s3, 1, RsProbeB);
    var s4 := FullCheckpoint(s3, None, 0, 1, file, st, true);
    var s5 := FullCheckpoint(s4, Some(A), 0, 1, file, st, true);
    HasImage(s5.fs, B);
    s := RestoreCall(s5, 1, file, st, true);
    ProtocolProgress.LookupCall(s5, 1, Succeeds(s5, file, st));
  }

  /**
   A failed checkpoint can take the data away.  After one full checkpoint, active.meta names
   slot A.  If access(active.meta) fails once, the next checkpoint writes slot A itself; when
   no region can be dumped, it returns -1 after the rename, and the selected image is empty.
   */
  lemma FailedCheckpointMayEmptyTheSlot(st: Stamp) returns (s: Sys, empty: ImageFile)
    ensures Reachable(s, false) && s.lock.None? && s.acked == 1
    ensures Selected(s.fs) == Some(Image(2, empty)) && empty.included == 0
  {
    hide Reachable, Usable, Checkpoint, ReadActiveSlot;
    ReachInit(false);
    var file;
    file, empty := SomeImages();
    var s1 := FullCheckpoint(Init(), None, 0, 1, file, st, false);
    s := EmptyCheckpoint(s1, Some(A), 0, 1, false, empty, st, false);
    assert SlotForName("A") == Some(A);
  }

  /** Without metadata the same happens on the first checkpoint, with no failed call at all. */
  lemma FallbackMayBeEmpty(st: Stamp) returns (s: Sys, empty: ImageFile)
    ensures Reachable(s, true) && s.lock.None? && Meta !in s.fs.entries
    ensures Selected(s.fs) == Some(Image(1, empty)) && empty.included == 0
  {
    hide Reachable, Usable, Checkpoint;
    ReachInit(true);
    var file;
    file, empty := SomeImages();
    s := EmptyCheckpoint(Init(), None, 0, 1, true, empty, st, true);
  }
}
