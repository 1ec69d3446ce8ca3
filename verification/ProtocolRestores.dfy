/**
 What a restore loads, over whole runs.  It takes no lock, so checkpoints may run between the
 call that settles its slot, the open of that slot's snapshot.bin, and the child's second open.
 */
module ProtocolRestores {
  import opened Wrappers
  import opened CrashFs
  import opened MetadataText
  import opened Protocol
  import opened ProtocolInvariant
  import opened ProtocolSteps
  import opened ProtocolPreserved
  import opened ProtocolTheorems
  import ImageFormat

  // ---- Steps ----

  /** Nothing a checkpoint does takes a published file away from a reader. */
  lemma CheckpointEvolves(s: Sys, p: Pid, o: Outcome)
    requires Inv(s) && Enabled(s, Call(p, o)) && IsCheckpoint(s.procs[p])
    ensures Evolves(s.fs, Checkpoint(s, p, o).fs)
  {
    hide Inv, StoreInv, Closed, Published, Separate, Numbered, Durable, NonEmpty, Evolves, Contents, Sound, Spare;
    hide ReaderInv, History, FormatMetadata, Newest, Chosen, Settled, ImageFormat.Complete;
    InvParts(s, p);
    EvolvesSame(s.fs);
    var q := s.procs[p];
    match q {
      case CkOpenTmp(slot, _) => OpenTruncKeeps(s.fs, SnapTmp(slot), o.newInode, s.nextNumber, s.acked);
      case CkWrite(slot, _, _) => FillKeeps(s.fs, SnapTmp(slot), Image(s.nextNumber, o.file), s.nextNumber, s.acked);
      case CkFsync(slot, _, _, _) =>
        if o.ok && q.ino in s.fs.inodes { FsyncKeeps(s.fs, SnapTmp(slot), s.nextNumber, s.acked); }
      case CkRename(slot, _, ino, number) =>
        RenameRenames(s.fs, SnapTmp(slot), Snap(slot));
        PublishSnapEvolves(s.fs, Rename(s.fs, SnapTmp(slot), Snap(slot)), slot, ino, number, s.acked);
      case CkFsyncDir(slot, _, _) => FsyncDirKeeps(s.fs, SlotDir(slot), s.nextNumber, s.acked);
      case CkOpenMetaTmp(_, _, _) => OpenTruncKeeps(s.fs, MetaTmp, o.newInode, s.nextNumber, s.acked);
      case CkWriteMeta(slot, _, _, _) =>
        FillKeeps(s.fs, MetaTmp, MetaFile(slot, FormatMetadata(slot, o.stamp)), s.nextNumber, s.acked);
      case CkFsyncMeta(_, _, _, mino) =>
        if o.ok && mino in s.fs.inodes { FsyncKeeps(s.fs, MetaTmp, s.nextNumber, s.acked); }
      case CkRenameMeta(slot, ino, number, _) => PublishMeta(s.fs, slot, ino, number, s.nextNumber, s.acked);
      case CkFsyncRoot(_, _, _, _) => FsyncDirKeeps(s.fs, Root, s.nextNumber, s.acked);
      case CkUnlinkTmp(name) => UnlinkKeeps(s.fs, name, s.nextNumber, s.acked);
      case _ =>
    }
  }

  lemma EvolvesSame(fs: Fs)
    ensures Evolves(fs, fs)
  {
  }

  lemma StepEvolves(s: Sys, a: Action, s': Sys)
    requires Inv(s) && Step(s, a, s') && !a.PowerLoss?
    ensures Evolves(s.fs, s'.fs)
  {
    hide Inv, Checkpoint, Evolves, ReadSlot, ImageFormat.Complete;
    EvolvesSame(s.fs);
    if a.Call? && IsCheckpoint(s.procs[a.pid]) {
      CheckpointEvolves(s, a.pid, a.outcome);
    }
  }

  /** A process moves by its own calls only. */
  lemma OthersStay(s: Sys, a: Action, s': Sys, p: Pid)
    requires Step(s, a, s') && p in s'.procs && !(a.Call? && a.pid == p)
    ensures p in s.procs ==> s'.procs[p] == s.procs[p]
    ensures p !in s.procs ==> s'.procs[p].CkStart? || s'.procs[p].RsAccessMeta? || s'.procs[p].ChOpen?
  {
    hide Checkpoint, ReadSlot, ImageFormat.Complete;
    if a.Call? && IsCheckpoint(s.procs[a.pid]) {
      CheckpointEnds(s, a.pid, a.outcome);
    }
  }

  // ---- What a slot holds ----

  function InSlot(fs: Fs, slot: Slot): Option<Content> {
    if Snap(slot) in fs.entries && fs.entries[Snap(slot)] in fs.inodes
    then Some(fs.inodes[fs.entries[Snap(slot)]].content) else None
  }

  /** The action renames a new snapshot.bin into the slot. */
  predicate Renames(s: Sys, a: Action, slot: Slot) {
    Publishes(s, a) && s.procs[a.pid].CkRename? && s.procs[a.pid].slot == slot
  }

  /** The action renames an active.meta that names the slot. */
  predicate Activates(s: Sys, a: Action, slot: Slot) {
    Publishes(s, a) && s.procs[a.pid].CkRenameMeta? && s.procs[a.pid].slot == slot
  }

  /** The file that a checkpoint about to rename snapshot.bin.tmp publishes. */
  function NewImage(s: Sys, a: Action): Content {
    if a.Call? && a.pid in s.procs && s.procs[a.pid].CkRename? && s.procs[a.pid].ino in s.fs.inodes
    then s.fs.inodes[s.procs[a.pid].ino].content else Torn
  }

  lemma InSlotIsImage(s: Sys, slot: Slot)
    requires Inv(s)
    ensures Snap(slot) in s.fs.entries <==> InSlot(s.fs, slot).Some?
    ensures InSlot(s.fs, slot).Some? ==>
      InSlot(s.fs, slot).value.Image? && InSlot(s.fs, slot).value.number == SlotNumber(s.fs, slot) > 0
  {
    hide Inv, SlotNumber, ImageFormat.Complete;
    PublishedSlot(s, slot);
  }

  lemma PublishedSlot(s: Sys, slot: Slot)
    requires Inv(s)
    ensures Snap(slot) in s.fs.entries ==>
      && s.fs.entries[Snap(slot)] in s.fs.inodes && s.fs.inodes[s.fs.entries[Snap(slot)]].content.Image?
      && s.fs.inodes[s.fs.entries[Snap(slot)]].content.number == SlotNumber(s.fs, slot) > 0
  {
    hide Separate, Durable, Contents, ReaderInv, WriterInv, History, ImageFormat.Complete;
    assert May(s.fs, Snap(slot), Lookup(s.fs, Snap(slot)));
  }

  /** One step: a slot's image changes exactly if a newer one is renamed into it. */
  lemma InSlotStep(s: Sys, a: Action, s': Sys, slot: Slot)
    requires Inv(s) && Step(s, a, s') && !a.PowerLoss?
    ensures if Renames(s, a, slot)
      then
        && InSlot(s'.fs, slot) == Some(NewImage(s, a))
        && SlotNumber(s'.fs, slot) == s.procs[a.pid].number > SlotNumber(s.fs, slot)
      else InSlot(s'.fs, slot) == InSlot(s.fs, slot)
  {
    hide Inv, Apply, Enabled, SlotNumber, InSlot, ImageFormat.Complete;
    if Publishes(s, a) {
      var q := s.procs[a.pid];
      WriterHolds(s, a.pid);
      if q.CkRename? {
        SnapRenameMoves(s, a, s', slot);
      } else {
        MetaRenameLeaves(s, a, s', slot);
      }
    } else {
      VisibleStays(s, a, s');
      SameInSlot(s.fs, s'.fs, slot);
    }
  }

  lemma SameInSlot(fs: Fs, fs': Fs, slot: Slot)
    requires SameVisible(fs, fs') && Closed(fs)
    ensures InSlot(fs', slot) == InSlot(fs, slot)
  {
    assert May(fs, Snap(slot), Lookup(fs, Snap(slot)));
    assert Lookup(fs', Snap(slot)) == Lookup(fs, Snap(slot));
  }

  lemma VisibleStays(s: Sys, a: Action, s': Sys)
    requires Inv(s) && Step(s, a, s') && !a.PowerLoss? && !Publishes(s, a)
    ensures SameVisible(s.fs, s'.fs) && Closed(s.fs)
  {
    hide Inv, Checkpoint, SameVisible, Publishes, ReadSlot, ImageFormat.Complete;
    FsyncDirSame(s.fs);
    InvClosed(s);
    if a.Call? && IsCheckpoint(s.procs[a.pid]) {
      CheckpointInvisible(s, a.pid, a.outcome);
    }
  }

  lemma SnapRenameMoves(s: Sys, a: Action, s': Sys, slot: Slot)
    requires Inv(s) && Step(s, a, s') && Publishes(s, a) && s.procs[a.pid].CkRename?
    ensures if s.procs[a.pid].slot == slot
      then
        && InSlot(s'.fs, slot) == Some(NewImage(s, a))
        && SlotNumber(s'.fs, slot) == s.procs[a.pid].number > SlotNumber(s.fs, slot)
      else InSlot(s'.fs, slot) == InSlot(s.fs, slot)
  {
    hide Inv, ImageFormat.Complete;
    var q := s.procs[a.pid];
    WriterHolds(s, a.pid);
    assert s'.fs == Rename(s.fs, SnapTmp(q.slot), Snap(q.slot));
    assert May(s.fs, Snap(q.slot), Lookup(s.fs, Snap(q.slot)));
    if Snap(q.slot) in s.fs.entries {
      TmpApart(s, q.slot);
    }
  }

  lemma MetaRenameLeaves(s: Sys, a: Action, s': Sys, slot: Slot)
    requires Inv(s) && Step(s, a, s') && Publishes(s, a) && s.procs[a.pid].CkRenameMeta?
    ensures InSlot(s'.fs, slot) == InSlot(s.fs, slot)
  {
    hide Inv, ImageFormat.Complete;
    WriterHolds(s, a.pid);
    assert s'.fs == Rename(s.fs, MetaTmp, Meta);
  }

  // ---- Along runs ----

  ghost predicate Powered(actions: seq<Action>, k: nat, m: nat)
    requires m <= |actions|
  {
    forall t :: k <= t < m ==> !actions[t].PowerLoss?
  }

  /** A new snapshot.bin was renamed into the slot between states `k` and `m`. */
  ghost predicate RenamedIn(states: seq<Sys>, actions: seq<Action>, k: nat, m: nat, slot: Slot)
    requires m <= |actions| < |states|
  {
    exists t :: k <= t < m && Renames(states[t], actions[t], slot)
  }

  /** Step `r` was the last such rename. */
  ghost predicate LastRename(states: seq<Sys>, actions: seq<Action>, r: nat, m: nat, slot: Slot)
    requires m <= |actions| < |states|
  {
    r < m && Renames(states[r], actions[r], slot) && !RenamedIn(states, actions, r + 1, m, slot)
  }

  lemma {:induction false} InSlotAlong(states: seq<Sys>, actions: seq<Action>, k: nat, m: nat, slot: Slot)
    requires RunFromInit(states, actions) && k <= m <= |actions| && Powered(actions, k, m)
    ensures RenamedIn(states, actions, k, m, slot) ==> SlotNumber(states[m].fs, slot) > SlotNumber(states[k].fs, slot)
    ensures !RenamedIn(states, actions, k, m, slot) ==> InSlot(states[m].fs, slot) == InSlot(states[k].fs, slot)
    decreases m - k
  {
    hide Inv, Step, Renames, InSlot, SlotNumber, ImageFormat.Complete;
    if k < m {
      var n := m - 1;
      InSlotAlong(states, actions, k, n, slot);
      InitHolds();
      RunKeeps(states, actions);
      assert Step(states[n], actions[n], states[m]);
      InSlotStep(states[n], actions[n], states[m], slot);
      SameNumber(states[n], states[m], slot);
      if !RenamedIn(states, actions, k, n, slot) {
        SameNumber(states[k], states[n], slot);
      }
      assert RenamedIn(states, actions, k, m, slot) <==>
        RenamedIn(states, actions, k, n, slot) || Renames(states[n], actions[n], slot);
    }
  }

  lemma SameNumber(s: Sys, s': Sys, slot: Slot)
    requires Inv(s) && Inv(s')
    ensures InSlot(s.fs, slot) == InSlot(s'.fs, slot) ==> SlotNumber(s.fs, slot) == SlotNumber(s'.fs, slot)
  {
    hide Inv, ImageFormat.Complete;
    InSlotIsImage(s, slot);
    InSlotIsImage(s', slot);
  }

  // ---- From settling the slot to opening its snapshot.bin ----

  /** The call by which restore `p` settles on `slot`: the open of active.meta, or the probe that finds an image. */
  predicate Settles(s: Sys, a: Action, p: Pid, slot: Slot) {
    a.Call? && a.pid == p && p in s.procs && a.outcome.ok
    && match s.procs[p]
       case RsOpenMeta => Meta in s.fs.entries && SelectedSlot(s.fs) == Some(slot)
       case RsProbeA => Snap(A) in s.fs.entries && slot == A
       case RsProbeB => Snap(B) in s.fs.entries && slot == B
       case _ => false
  }

  /** Restore `p` is on its way from there to the open of snapshot.bin. */
  predicate OnItsWay(s: Sys, p: Pid) {
    p in s.procs && (s.procs[p].RsReadMeta? || s.procs[p].RsOpen?)
  }

  ghost predicate Underway(states: seq<Sys>, p: Pid, k: nat, m: nat)
    requires m < |states|
  {
    forall t :: k < t <= m ==> OnItsWay(states[t], p)
  }

  /** In state `s` the restore still has what it settled on: this slot, which then held capture `floor`. */
  predicate Tracks(s: Sys, p: Pid, slot: Slot, floor: nat) {
    && OnItsWay(s, p) && s.procs[p].floor == floor
    && if s.procs[p].RsReadMeta? then Names(s.fs, Some(s.procs[p].ino), slot) else s.procs[p].slot == slot
  }

  lemma SettlingTracks(s: Sys, a: Action, s': Sys, p: Pid, slot: Slot)
    requires Inv(s) && Step(s, a, s') && Settles(s, a, p, slot) && OnItsWay(s', p)
    ensures Tracks(s', p, slot, SlotNumber(s.fs, slot))
    ensures s.procs[p].RsOpenMeta? ==>
      Selected(s.fs) == InSlot(s.fs, slot) && SlotNumber(s.fs, slot) == ActiveNumber(s.fs) >= s.acked
  {
    hide Inv, SlotNumber, ReadSlot, SelectedSlot, ImageFormat.Complete;
    if s.procs[p].RsOpenMeta? {
      MetaSelects(s);
      NamedSlot(s, slot);
    }
  }

  /** What visible metadata names, in the words of the selection. */
  lemma NamedSlot(s: Sys, slot: Slot)
    requires Inv(s) && Meta in s.fs.entries && SelectedSlot(s.fs) == Some(slot)
    ensures Names(s.fs, Lookup(s.fs, Meta), slot) && SlotNumber(s.fs, slot) == ActiveNumber(s.fs) >= s.acked
  {
    hide SelectedSlot, Contents, Separate, ReaderInv, WriterInv, History, NonEmpty, ImageFormat.Complete;
    MetaSelects(s);
    var v := Lookup(s.fs, Meta);
    assert May(s.fs, Meta, v);
    assert SlotHolds(s.fs, slot, s.acked);
    assert May(s.fs, Snap(slot), Lookup(s.fs, Snap(slot)));
  }

  lemma TracksStep(s: Sys, a: Action, s': Sys, p: Pid, slot: Slot, floor: nat)
    requires Inv(s) && Step(s, a, s') && Tracks(s, p, slot, floor) && OnItsWay(s', p)
    ensures Tracks(s', p, slot, floor) && !a.PowerLoss?
  {
    hide Inv, Checkpoint, ReadActiveSlot, Evolves, ImageFormat.Complete;
    InvParts(s, p);
    if a.Call? && a.pid == p {
      if s.procs[p].RsReadMeta? {
        SoundHolds(s.fs, s.procs[p].ino);
      }
    } else {
      OthersStay(s, a, s', p);
      if s.procs[p].RsReadMeta? {
        StepEvolves(s, a, s');
        NamesStays(s.fs, s'.fs, s.procs[p].ino, slot);
      }
    }
  }

  lemma NamesStays(fs: Fs, fs': Fs, ino: nat, slot: Slot)
    requires Evolves(fs, fs') && Frozen(fs, ino) && Names(fs, Some(ino), slot)
    ensures Names(fs', Some(ino), slot)
  {
  }

  lemma {:induction false} TracksAlong(states: seq<Sys>, actions: seq<Action>, k: nat, m: nat, p: Pid, slot: Slot)
    requires RunFromInit(states, actions) && k < m <= |actions|
    requires Settles(states[k], actions[k], p, slot) && Underway(states, p, k, m)
    ensures Tracks(states[m], p, slot, SlotNumber(states[k].fs, slot)) && Powered(actions, k, m)
    decreases m
  {
    hide Inv, Apply, Enabled, Settles, OnItsWay, Tracks, SlotNumber, ImageFormat.Complete;
    InitHolds();
    RunKeeps(states, actions);
    var n := m - 1;
    assert Step(states[n], actions[n], states[m]) && OnItsWay(states[m], p);
    if n == k {
      SettlingTracks(states[k], actions[k], states[m], p, slot);
      assert !actions[k].PowerLoss? by { SettlesIsCall(states[k], actions[k], p, slot); }
    } else {
      TracksAlong(states, actions, k, n, p, slot);
      TracksStep(states[n], actions[n], states[m], p, slot, SlotNumber(states[k].fs, slot));
    }
  }

  lemma SettlesIsCall(s: Sys, a: Action, p: Pid, slot: Slot)
    requires Settles(s, a, p, slot)
    ensures a.Call?
  {
  }

  /** The open of snapshot.bin: it loads what the slot holds at that moment. */
  lemma OpenLoads(s: Sys, a: Action, s': Sys, p: Pid)
    requires Inv(s) && Step(s, a, s') && a.Call? && a.pid == p && p in s.procs && p in s'.procs
    ensures s.procs[p].RsOpen? ==> s'.procs[p].RsLoad? && Some(s'.procs[p].seen) == InSlot(s.fs, s.procs[p].slot)
    ensures s.procs[p].ChOpen? ==>
      && s'.procs[p].ChLoad? && Some(s'.procs[p].seen) == InSlot(s.fs, s.procs[p].slot)
      && s'.procs[p].first == s.procs[p].first
  {
    hide Inv, ReadSlot, ImageFormat.Complete;
  }

  function Dumps(c: Option<Content>): bool {
    c.Some? && c.value.Image? && c.value.file.included > 0
  }

  /**
   An open in step `m` loads `seen`: the image that the slot held at state `k`, exactly if no
   checkpoint renamed a new one into the slot since, and otherwise the last one renamed, which is
   newer.  It has data exactly if the one so determined dumped a region.
   */
  ghost predicate LoadsSince(states: seq<Sys>, actions: seq<Action>, k: nat, m: nat, slot: Slot, seen: Content)
    requires k < |states| && m <= |actions| < |states|
  {
    && (Some(seen) == InSlot(states[k].fs, slot) <==> !RenamedIn(states, actions, k, m, slot))
    && (RenamedIn(states, actions, k, m, slot) ==> seen.Image? && seen.number > SlotNumber(states[k].fs, slot))
    && (forall r :: k <= r && LastRename(states, actions, r, m, slot) ==> seen == NewImage(states[r], actions[r]))
    && (Dumps(Some(seen)) <==>
          if RenamedIn(states, actions, k, m, slot)
          then
            exists r ::
              k <= r && LastRename(states, actions, r, m, slot) && Dumps(Some(NewImage(states[r], actions[r])))
          else Dumps(InSlot(states[k].fs, slot)))
  }

  lemma LoadsFrom(states: seq<Sys>, actions: seq<Action>, k: nat, m: nat, slot: Slot, seen: Content)
    requires RunFromInit(states, actions) && k <= m <= |actions| && Powered(actions, k, m)
    requires Some(seen) == InSlot(states[m].fs, slot)
    ensures LoadsSince(states, actions, k, m, slot, seen)
  {
    hide Inv, Step, InSlot, SlotNumber, NewImage, Renames, Dumps, ImageFormat.Complete;
    InitHolds();
    RunKeeps(states, actions);
    InSlotSince(states, actions, k, m, slot);
    InSlotIsImage(states[m], slot);
    if RenamedIn(states, actions, k, m, slot) {
      var r := FindLast(states, actions, k, m, slot);
      assert Some(NewImage(states[r], actions[r])) == Some(seen);
    }
  }

  /** The manager's restore settles its slot in step `k`, and opens its snapshot.bin in step `m`. */
  lemma RestoreLoads(states: seq<Sys>, actions: seq<Action>, k: nat, m: nat, p: Pid, slot: Slot)
    requires RunFromInit(states, actions) && k < m < |actions|
    requires Settles(states[k], actions[k], p, slot) && Underway(states, p, k, m)
    requires Opens(states[m], actions[m], states[m + 1], p)
    ensures Powered(actions, k, m + 1) && states[m].procs[p].slot == slot
    ensures states[m + 1].procs[p].RsLoad? && states[m + 1].procs[p].slot == slot
    ensures Some(states[m + 1].procs[p].seen) == InSlot(states[m].fs, slot)
    ensures LoadsSince(states, actions, k, m, slot, states[m + 1].procs[p].seen)
    ensures states[k].procs[p].RsOpenMeta? ==>
      Selected(states[k].fs) == InSlot(states[k].fs, slot) && SlotNumber(states[k].fs, slot) >= states[k].acked
  {
    hide Inv, Apply, Enabled, Settles, InSlot, SlotNumber, LoadsSince, Selected, ImageFormat.Complete;
    InitHolds();
    RunKeeps(states, actions);
    TracksAlong(states, actions, k, m, p, slot);
    assert Step(states[m], actions[m], states[m + 1]) && Step(states[k], actions[k], states[k + 1]);
    OpenLoads(states[m], actions[m], states[m + 1], p);
    OpenedSlotStays(states[m], actions[m], states[m + 1], p);
    SettlingTracks(states[k], actions[k], states[k + 1], p, slot);
    LoadsFrom(states, actions, k, m, slot, states[m + 1].procs[p].seen);
  }

  /** Restore `p` opens its snapshot.bin. */
  predicate Opens(s: Sys, a: Action, s': Sys, p: Pid) {
    a.Call? && a.pid == p && p in s.procs && s.procs[p].RsOpen? && p in s'.procs
  }

  lemma OpenedSlotStays(s: Sys, a: Action, s': Sys, p: Pid)
    requires Step(s, a, s') && a.Call? && a.pid == p && p in s.procs && p in s'.procs && s.procs[p].RsOpen?
    ensures s'.procs[p].RsLoad? && s'.procs[p].slot == s.procs[p].slot
  {
    hide ReadSlot, ImageFormat.Complete;
  }

  /** What a slot holds at state `m`, in terms of what it held at `k` and the renames since. */
  lemma InSlotSince(states: seq<Sys>, actions: seq<Action>, k: nat, m: nat, slot: Slot)
    requires RunFromInit(states, actions) && k <= m <= |actions| && Powered(actions, k, m)
    ensures InSlot(states[m].fs, slot) == InSlot(states[k].fs, slot) <==> !RenamedIn(states, actions, k, m, slot)
    ensures RenamedIn(states, actions, k, m, slot) ==> SlotNumber(states[m].fs, slot) > SlotNumber(states[k].fs, slot)
    ensures forall r :: k <= r && LastRename(states, actions, r, m, slot) ==>
      InSlot(states[m].fs, slot) == Some(NewImage(states[r], actions[r]))
  {
    hide Inv, Step, Renames, InSlot, SlotNumber, NewImage, ImageFormat.Complete;
    InitHolds();
    RunKeeps(states, actions);
    InSlotAlong(states, actions, k, m, slot);
    SameNumber(states[k], states[m], slot);
    forall r | k <= r && LastRename(states, actions, r, m, slot)
      ensures InSlot(states[m].fs, slot) == Some(NewImage(states[r], actions[r]))
    {
      assert Step(states[r], actions[r], states[r + 1]);
      InSlotStep(states[r], actions[r], states[r + 1], slot);
      InSlotAlong(states, actions, r + 1, m, slot);
    }
  }

  lemma {:induction false} FindLast(states: seq<Sys>, actions: seq<Action>, k: nat, m: nat, slot: Slot) returns (r: nat)
    requires k <= m <= |actions| < |states| && RenamedIn(states, actions, k, m, slot)
    ensures k <= r && LastRename(states, actions, r, m, slot)
    decreases m
  {
    hide Renames;
    r := m - 1;
    if !Renames(states[r], actions[r], slot) {
      r := FindLast(states, actions, k, r, slot);
    }
  }

  // ---- The restored process ----

  /** The process has what its restore's first open loaded: the manager itself, or the child it forked. */
  predicate HasLoaded(q: Proc) {
    q.RsLoad? || q.RsFork? || q.ChOpen?
  }

  function FirstImage(q: Proc): Content
    requires HasLoaded(q)
  {
    if q.ChOpen? then q.first else q.seen
  }

  predicate SameLoad(q: Proc, q': Proc) {
    HasLoaded(q) && HasLoaded(q') && q.slot == q'.slot && FirstImage(q) == FirstImage(q')
  }

  /** Restore `r` forks the child `p`. */
  predicate Forks(s: Sys, a: Action, r: Pid, p: Pid) {
    a.Call? && a.pid == r && a.outcome.ok && a.outcome.child == p && r in s.procs && s.procs[r].RsFork?
  }

  lemma LoadedStep(s: Sys, a: Action, s': Sys, p: Pid)
    requires Step(s, a, s') && p in s'.procs && HasLoaded(s'.procs[p])
    ensures
      || (p in s.procs && SameLoad(s.procs[p], s'.procs[p]) && (s'.procs[p].ChOpen? <==> s.procs[p].ChOpen?))
      || (Opens(s, a, s', p) && s'.procs[p].RsLoad? && s'.procs[p].slot == s.procs[p].slot)
      || (a.Call? && s'.procs[p].ChOpen? && Forks(s, a, a.pid, p) && SameLoad(s.procs[a.pid], s'.procs[p]))
  {
    hide Checkpoint, ReadSlot, ImageFormat.Complete;
    if a.Call? && IsCheckpoint(s.procs[a.pid]) {
      CheckpointEnds(s, a.pid, a.outcome);
    }
  }

  /** Back from a process that has loaded an image to the open that loaded it. */
  lemma {:induction false} LoadOrigin(states: seq<Sys>, actions: seq<Action>, m: nat, p: Pid) returns (j: nat, r: Pid)
    requires RunFromInit(states, actions) && m < |states| && p in states[m].procs && HasLoaded(states[m].procs[p])
    ensures j < m && Powered(actions, j, m) && Opens(states[j], actions[j], states[j + 1], r)
    ensures states[j + 1].procs[r].RsLoad? && states[j].procs[r].slot == states[m].procs[p].slot
    ensures states[j + 1].procs[r].seen == FirstImage(states[m].procs[p])
    ensures if states[m].procs[p].ChOpen? then exists f :: j < f < m && Forks(states[f], actions[f], r, p) else r == p
    decreases m
  {
    hide Apply, Enabled, Opens, Forks, ImageFormat.Complete;
    NobodyAtFirst(states, actions);
    var n := m - 1;
    assert Step(states[n], actions[n], states[m]);
    LoadedStep(states[n], actions[n], states[m], p);
    assert !actions[n].PowerLoss? by { AliveMeansPowered(states[n], actions[n], states[m], p); }
    if p in states[n].procs && SameLoad(states[n].procs[p], states[m].procs[p])
      && (states[m].procs[p].ChOpen? <==> states[n].procs[p].ChOpen?) {
      j, r := LoadOrigin(states, actions, n, p);
      if states[m].procs[p].ChOpen? {
        var f :| j < f < n && Forks(states[f], actions[f], r, p);
      }
    } else if Opens(states[n], actions[n], states[m], p) && states[m].procs[p].RsLoad? {
      j, r := n, p;
    } else {
      var parent := actions[n].pid;
      assert states[n].procs[parent].RsFork? by { ForksMeans(states[n], actions[n], parent, p); }
      j, r := LoadOrigin(states, actions, n, parent);
    }
  }

  lemma NobodyAtFirst(states: seq<Sys>, actions: seq<Action>)
    requires RunFromInit(states, actions)
    ensures states[0].procs == map[]
  {
  }

  lemma AliveMeansPowered(s: Sys, a: Action, s': Sys, p: Pid)
    requires Step(s, a, s') && p in s'.procs
    ensures !a.PowerLoss?
  {
    hide Checkpoint, Restore, ImageFormat.Complete;
  }

  lemma ForksMeans(s: Sys, a: Action, r: Pid, p: Pid)
    requires Forks(s, a, r, p)
    ensures r in s.procs && s.procs[r].RsFork?
  {
  }

  /** Back from a restore that is on its way to the call that settled its slot. */
  lemma {:induction false} SettleOrigin(
    states: seq<Sys>, actions: seq<Action>, m: nat, p: Pid)
    returns (k: nat, slot: Slot)
    requires RunFromInit(states, actions) && m < |states| && OnItsWay(states[m], p)
    ensures k < m && Settles(states[k], actions[k], p, slot) && Underway(states, p, k, m)
    decreases m
  {
    hide Inv, Apply, Enabled, Settles, ImageFormat.Complete;
    NobodyAtFirst(states, actions);
    InitHolds();
    RunKeeps(states, actions);
    var n := m - 1;
    assert Step(states[n], actions[n], states[m]);
    if OnItsWay(states[n], p) {
      k, slot := SettleOrigin(states, actions, n, p);
    } else {
      k := n;
      slot := SettlingStep(states[n], actions[n], states[m], p);
    }
  }

  lemma SettlingStep(s: Sys, a: Action, s': Sys, p: Pid) returns (slot: Slot)
    requires Inv(s) && Step(s, a, s') && !OnItsWay(s, p) && OnItsWay(s', p)
    ensures Settles(s, a, p, slot)
  {
    hide Inv, Checkpoint, SelectedSlot, ReadSlot, ActiveNumber, SlotNumber, ImageFormat.Complete;
    slot := A;
    if !(a.Call? && a.pid == p) {
      OthersStay(s, a, s', p);
    } else if IsCheckpoint(s.procs[p]) {
      CheckpointEnds(s, p, a.outcome);
    } else if s.procs[p].RsOpenMeta? {
      MetaSelects(s);
      slot := if Names(s.fs, Lookup(s.fs, Meta), A) then A else B;
    } else if s.procs[p].RsProbeB? {
      slot := B;
    }
  }

  /**
   What the restored process loads.  Its open in step `m` goes back to the fork by its manager
   `r`, the manager's own open in step `j`, and the call in step `k` that settled the slot.  It
   loads the image of step `k` exactly if no checkpoint renamed a new one into the slot between
   `k` and `m`, and the image its manager loaded exactly if none did between `j` and `m`.
   */
  lemma ChildLoads(states: seq<Sys>, actions: seq<Action>, m: nat, p: Pid) returns (k: nat, j: nat, r: Pid)
    requires RunFromInit(states, actions) && m < |actions| && p in states[m].procs && states[m].procs[p].ChOpen?
    requires actions[m].Call? && actions[m].pid == p && p in states[m + 1].procs
    ensures k < j < m && Settles(states[k], actions[k], r, states[m].procs[p].slot) && Underway(states, r, k, j)
    ensures Opens(states[j], actions[j], states[j + 1], r)
    ensures exists f :: j < f < m && Forks(states[f], actions[f], r, p)
    ensures r in states[j + 1].procs && states[j + 1].procs[r].RsLoad? && states[m + 1].procs[p].ChLoad?
    ensures states[j + 1].procs[r].seen == states[m + 1].procs[p].first && Powered(actions, k, m)
    ensures var slot, seen := states[m].procs[p].slot, states[m + 1].procs[p].seen;
      && LoadsSince(states, actions, k, m, slot, seen)
      && LoadsSince(states, actions, j, m, slot, seen)
      && InSlot(states[j].fs, slot) == Some(states[m + 1].procs[p].first)
    ensures states[k].procs[r].RsOpenMeta? ==>
      var slot := states[m].procs[p].slot;
      Selected(states[k].fs) == InSlot(states[k].fs, slot) && SlotNumber(states[k].fs, slot) >= states[k].acked
  {
    hide Inv, Apply, Enabled, Settles, InSlot, SlotNumber, LoadsSince, Forks, Selected, ImageFormat.Complete;
    InitHolds();
    RunKeeps(states, actions);
    j, r := LoadOrigin(states, actions, m, p);
    var slot;
    k, slot := SettleOrigin(states, actions, j, r);
    RestoreLoads(states, actions, k, j, r, slot);
    assert Step(states[m], actions[m], states[m + 1]);
    OpenLoads(states[m], actions[m], states[m + 1], p);
    assert Powered(actions, k, m);
    LoadsFrom(states, actions, k, m, slot, states[m + 1].procs[p].seen);
    LoadsFrom(states, actions, j, m, slot, states[m + 1].procs[p].seen);
  }

  // ---- Was the loaded image ever the cell? ----

  /** While metadata is visible, only its rename changes which slot is selected. */
  lemma SelectedSlotStep(s: Sys, a: Action, s': Sys)
    requires Inv(s) && Step(s, a, s') && !a.PowerLoss? && Meta in s.fs.entries
    ensures Meta in s'.fs.entries
    ensures SelectedSlot(s'.fs) ==
      if Publishes(s, a) && s.procs[a.pid].CkRenameMeta? then Some(s.procs[a.pid].slot) else SelectedSlot(s.fs)
  {
    hide Inv, Apply, Enabled, SelectedSlot, ImageFormat.Complete;
    MetaSelects(s);
    MetadataStays(s, a, s');
    StepKeeps(s, a, s');
    MetaSelects(s');
    if Publishes(s, a) {
      WriterHolds(s, a.pid);
      RenamedNames(s, a, s');
    } else {
      VisibleStays(s, a, s');
      StillNames(s.fs, s'.fs);
    }
  }

  lemma StillNames(fs: Fs, fs': Fs)
    requires SameVisible(fs, fs') && Closed(fs)
    ensures forall slot :: Names(fs, Lookup(fs, Meta), slot) ==> Names(fs', Lookup(fs', Meta), slot)
  {
    assert May(fs, Meta, Lookup(fs, Meta));
  }

  lemma RenamedNames(s: Sys, a: Action, s': Sys)
    requires Inv(s) && Step(s, a, s') && Publishes(s, a)
    ensures s.procs[a.pid].CkRenameMeta? ==> Names(s'.fs, Lookup(s'.fs, Meta), s.procs[a.pid].slot)
    ensures s.procs[a.pid].CkRename? ==>
      forall slot :: Names(s.fs, Lookup(s.fs, Meta), slot) ==> Names(s'.fs, Lookup(s'.fs, Meta), slot)
  {
    hide Inv, ImageFormat.Complete;
    WriterHolds(s, a.pid);
  }

  /** Two slots never hold the same image. */
  lemma SlotsDiffer(s: Sys)
    requires Inv(s) && InSlot(s.fs, A).Some?
    ensures InSlot(s.fs, A) != InSlot(s.fs, B)
    ensures InSlot(s.fs, B).Some? ==> SlotNumber(s.fs, A) != SlotNumber(s.fs, B)
  {
    hide Contents, ReaderInv, WriterInv, History, NonEmpty, Durable, ImageFormat.Complete;
    assert May(s.fs, Snap(A), Lookup(s.fs, Snap(A)));
    assert May(s.fs, Snap(B), Lookup(s.fs, Snap(B)));
    InSlotIsImage(s, A);
    InSlotIsImage(s, B);
  }

  lemma SelectedIsInSlot(s: Sys, slot: Slot)
    requires Inv(s) && InSlot(s.fs, slot).Some?
    ensures Selected(s.fs) == InSlot(s.fs, slot) <==> SelectedSlot(s.fs) == Some(slot)
  {
    hide Inv, SelectedSlot, ImageFormat.Complete;
    SlotsDifferAll(s);
    var selected := SelectedSlot(s.fs);
    assert selected.Some? ==> Selected(s.fs) == InSlot(s.fs, selected.value);
    assert slot == A || slot == B;
    assert selected.Some? ==> selected.value == A || selected.value == B;
  }

  lemma SlotsDifferAll(s: Sys)
    requires Inv(s)
    ensures InSlot(s.fs, A).Some? ==> InSlot(s.fs, A) != InSlot(s.fs, B)
  {
    hide Inv, InSlot;
    if InSlot(s.fs, A).Some? {
      SlotsDiffer(s);
    }
  }

  /** Without metadata, the slot is the one that the fallback finds. */
  predicate FallsTo(fs: Fs, slot: Slot) {
    Meta !in fs.entries && (slot == A || Snap(A) !in fs.entries)
  }

  lemma SelectedWithoutMeta(fs: Fs, slot: Slot)
    requires Meta !in fs.entries && Snap(slot) in fs.entries
    ensures SelectedSlot(fs) == Some(slot) <==> FallsTo(fs, slot)
  {
  }

  /** While there is no metadata, only its rename and a rename into slot A change the fallback's choice. */
  lemma FallbackStep(s: Sys, a: Action, s': Sys, slot: Slot)
    requires Inv(s) && Step(s, a, s') && !a.PowerLoss? && Meta !in s.fs.entries && Snap(slot) in s.fs.entries
    ensures Snap(slot) in s'.fs.entries
    ensures SelectedSlot(s'.fs) == Some(slot) ==> SelectedSlot(s.fs) == Some(slot) || Activates(s, a, slot)
  {
    hide Inv, Apply, Enabled, SelectedSlot, InSlot, ImageFormat.Complete;
    SelectedWithoutMeta(s.fs, slot);
    InSlotStep(s, a, s', slot);
    InSlotStep(s, a, s', A);
    InSlotIsImage(s, slot);
    InSlotIsImage(s, A);
    StepKeeps(s, a, s');
    InSlotIsImage(s', slot);
    InSlotIsImage(s', A);
    if Meta !in s'.fs.entries {
      SelectedWithoutMeta(s'.fs, slot);
    } else {
      MetaAppears(s, a, s');
      MetaSelects(s');
    }
  }

  /** active.meta appears by its rename, and then names the renamer's slot. */
  lemma MetaAppears(s: Sys, a: Action, s': Sys)
    requires Inv(s) && Step(s, a, s') && !a.PowerLoss? && Meta !in s.fs.entries && Meta in s'.fs.entries
    ensures Publishes(s, a) && s.procs[a.pid].CkRenameMeta?
    ensures Names(s'.fs, Lookup(s'.fs, Meta), s.procs[a.pid].slot)
  {
    hide Inv, Apply, Enabled, SelectedSlot, ImageFormat.Complete;
    if Publishes(s, a) {
      WriterHolds(s, a.pid);
      RenamedNames(s, a, s');
      SnapRenameKeepsMeta(s, a, s');
    } else {
      assert Lookup(s'.fs, Meta) != Lookup(s.fs, Meta);
      VisibleStays(s, a, s');
    }
  }

  lemma SnapRenameKeepsMeta(s: Sys, a: Action, s': Sys)
    requires Step(s, a, s') && Publishes(s, a)
    ensures s.procs[a.pid].CkRename? ==> Lookup(s'.fs, Meta) == Lookup(s.fs, Meta)
  {
    hide ImageFormat.Complete;
  }

  /** A slot with an image is selected at state `m` only if it was at `k`, or was activated since. */
  lemma {:induction false} SelectedSince(states: seq<Sys>, actions: seq<Action>, k: nat, m: nat, slot: Slot)
    requires RunFromInit(states, actions) && k <= m <= |actions| && Powered(actions, k, m)
    requires Snap(slot) in states[k].fs.entries
    ensures Snap(slot) in states[m].fs.entries
    ensures SelectedSlot(states[m].fs) == Some(slot) ==>
      SelectedSlot(states[k].fs) == Some(slot) || exists u :: k <= u < m && Activates(states[u], actions[u], slot)
    decreases m
  {
    hide Inv, Step, SelectedSlot, Activates, InSlot, ImageFormat.Complete;
    if k < m {
      var n := m - 1;
      InitHolds();
      RunKeeps(states, actions);
      SelectedSince(states, actions, k, n, slot);
      assert Step(states[n], actions[n], states[m]);
      SelectedOneStep(states[n], actions[n], states[m], slot);
    }
  }

  lemma SelectedOneStep(s: Sys, a: Action, s': Sys, slot: Slot)
    requires Inv(s) && Step(s, a, s') && !a.PowerLoss? && Snap(slot) in s.fs.entries
    ensures Snap(slot) in s'.fs.entries
    ensures SelectedSlot(s'.fs) == Some(slot) ==> SelectedSlot(s.fs) == Some(slot) || Activates(s, a, slot)
  {
    hide Inv, Apply, Enabled, SelectedSlot, InSlot, ImageFormat.Complete;
    if Meta in s.fs.entries {
      SelectedSlotStep(s, a, s');
      InSlotStep(s, a, s', slot);
      InSlotIsImage(s, slot);
      StepKeeps(s, a, s');
      InSlotIsImage(s', slot);
    } else {
      FallbackStep(s, a, s', slot);
    }
  }

  /** Right after its rename an image is selected if its slot was, or, without metadata, if the fallback finds it. */
  lemma SelectedAtRename(s: Sys, a: Action, s': Sys, slot: Slot)
    requires Inv(s) && Step(s, a, s') && Renames(s, a, slot)
    ensures SelectedSlot(s'.fs) == Some(slot) <==>
      (Meta in s.fs.entries && SelectedSlot(s.fs) == Some(slot)) || FallsTo(s.fs, slot)
  {
    hide Inv, Apply, Enabled, SelectedSlot, InSlot, ImageFormat.Complete;
    if Meta in s.fs.entries {
      SelectedSlotStep(s, a, s');
    } else {
      SnapRenameKeepsMeta(s, a, s');
      InSlotStep(s, a, s', slot);
      InSlotStep(s, a, s', A);
      StepKeeps(s, a, s');
      InSlotIsImage(s, A);
      InSlotIsImage(s', A);
      InSlotIsImage(s', slot);
      SelectedWithoutMeta(s'.fs, slot);
    }
  }

  /** The rename of an active.meta that names the slot selects it. */
  lemma ActivatesSelects(s: Sys, a: Action, s': Sys, slot: Slot)
    requires Inv(s) && Step(s, a, s') && Activates(s, a, slot)
    ensures SelectedSlot(s'.fs) == Some(slot)
  {
    hide Inv, Apply, Enabled, SelectedSlot, ImageFormat.Complete;
    StepKeeps(s, a, s');
    CellSet(s, a, s');
    RenamedNames(s, a, s');
    MetaSelects(s');
  }

  /**
   Step `r` renamed the image that the slot holds at state `m`.  That image was the selected one
   at some moment in between exactly if its checkpoint hit the slot that was selected already, or
   that the fallback finds without metadata, or active.meta was renamed to name the slot.
   */
  lemma WasSelectedIff(states: seq<Sys>, actions: seq<Action>, r: nat, m: nat, slot: Slot)
    requires RunFromInit(states, actions) && r < m <= |actions| && Powered(actions, r, m)
    requires LastRename(states, actions, r, m, slot)
    ensures (exists t :: r < t <= m && Selected(states[t].fs) == InSlot(states[m].fs, slot)) <==>
      || (Meta in states[r].fs.entries && SelectedSlot(states[r].fs) == Some(slot))
      || FallsTo(states[r].fs, slot)
      || exists u :: r < u < m && Activates(states[u], actions[u], slot)
  {
    hide Inv, Step, Selected, SelectedSlot, InSlot, Activates, Renames, FallsTo, ImageFormat.Complete;
    InitHolds();
    RunKeeps(states, actions);
    forall t | r < t <= m
      ensures Selected(states[t].fs) == InSlot(states[m].fs, slot) <==> SelectedSlot(states[t].fs) == Some(slot)
    {
      HeldFrom(states, actions, r, t, m, slot);
      SelectedIsInSlot(states[t], slot);
    }
    HeldFrom(states, actions, r, r + 1, m, slot);
    InSlotIsImage(states[r + 1], slot);
    assert Step(states[r], actions[r], states[r + 1]);
    SelectedAtRename(states[r], actions[r], states[r + 1], slot);
    if t :| r < t <= m && SelectedSlot(states[t].fs) == Some(slot) {
      SelectedSince(states, actions, r + 1, t, slot);
    }
    if u :| r < u < m && Activates(states[u], actions[u], slot) {
      assert Step(states[u], actions[u], states[u + 1]);
      ActivatesSelects(states[u], actions[u], states[u + 1], slot);
    }
  }

  lemma HeldFrom(states: seq<Sys>, actions: seq<Action>, r: nat, t: nat, m: nat, slot: Slot)
    requires RunFromInit(states, actions) && r < t <= m <= |actions| && Powered(actions, r, m)
    requires LastRename(states, actions, r, m, slot)
    ensures InSlot(states[t].fs, slot) == InSlot(states[m].fs, slot) && InSlot(states[t].fs, slot).Some?
  {
    hide Inv, Step, Renames, InSlot, SlotNumber, NewImage, ImageFormat.Complete;
    assert LastRename(states, actions, r, t, slot);
    InSlotSince(states, actions, r, t, slot);
    InSlotSince(states, actions, r, m, slot);
  }

  // ---- Why a restore falls back ----

  /** Process `p` looks for the active slot and misses it: the call fails, or there is no active.meta. */
  predicate LookupMissed(s: Sys, a: Action, p: Pid) {
    && a.Call? && a.pid == p && p in s.procs
    && (s.procs[p].RsAccessMeta? || s.procs[p].RsOpenMeta? || s.procs[p].RsReadMeta?)
    && (!a.outcome.ok || (Meta !in s.fs.entries && !s.procs[p].RsReadMeta?))
  }

  predicate FallingBack(s: Sys, p: Pid) {
    p in s.procs && (s.procs[p].RsProbeA? || s.procs[p].RsProbeB?)
  }

  lemma FallsBackBecause(s: Sys, a: Action, s': Sys, p: Pid)
    requires Inv(s) && Step(s, a, s') && FallingBack(s', p)
    ensures FallingBack(s, p) || LookupMissed(s, a, p)
  {
    hide Inv, Checkpoint, ReadActiveSlot, ImageFormat.Complete;
    if a.Call? && a.pid == p {
      if IsCheckpoint(s.procs[p]) {
        CheckpointEnds(s, p, a.outcome);
      } else if s.procs[p].RsReadMeta? {
        InvParts(s, p);
        SoundHolds(s.fs, s.procs[p].ino);
      }
    } else {
      OthersStay(s, a, s', p);
    }
  }

  /**
   In every run, a process probes the slots only because its own lookup missed active.meta: one
   of its calls failed, or ran while there was no active.meta.  Without a power loss before, the
   latter means that no active.meta had existed at all.
   */
  lemma {:induction false} FallbackNeedsMiss(states: seq<Sys>, actions: seq<Action>, i: nat, p: Pid) returns (k: nat)
    requires RunFromInit(states, actions) && i < |states| && FallingBack(states[i], p)
    ensures k < i && LookupMissed(states[k], actions[k], p)
    ensures forall t :: k < t <= i ==> FallingBack(states[t], p)
    ensures actions[k].outcome.ok && Powered(actions, 0, k) ==> forall j :: 0 <= j <= k ==>
      Meta !in states[j].fs.entries
    decreases i
  {
    hide Inv, Apply, Enabled, ImageFormat.Complete;
    InitHolds();
    RunKeeps(states, actions);
    assert i > 0;
    assert Step(states[i - 1], actions[i - 1], states[i]);
    FallsBackBecause(states[i - 1], actions[i - 1], states[i], p);
    if LookupMissed(states[i - 1], actions[i - 1], p) {
      k := i - 1;
      forall j | 0 <= j <= k && actions[k].outcome.ok && Powered(actions, 0, k)
        ensures Meta !in states[j].fs.entries
      {
        if Meta in states[j].fs.entries {
          MetadataStaysAlong(states, actions, j, k);
        }
      }
    } else {
      k := FallbackNeedsMiss(states, actions, i - 1, p);
    }
  }

  /**
   The fallback to slot B in a run without a power loss: by then active.meta is visible, so the
   process got there by a failed call of its own, or by a lookup from before there was any.
   */
  lemma SlotBFallback(states: seq<Sys>, actions: seq<Action>, i: nat, p: Pid) returns (k: nat)
    requires RunFromInit(states, actions) && i < |actions| && Powered(actions, 0, i)
    requires Settles(states[i], actions[i], p, B) && states[i].procs[p].RsProbeB?
    ensures Meta in states[i].fs.entries
    ensures k < i && LookupMissed(states[k], actions[k], p) && forall t :: k < t <= i ==> FallingBack(states[t], p)
    ensures actions[k].outcome.ok ==> forall j :: 0 <= j <= k ==> Meta !in states[j].fs.entries
  {
    hide Step, Inv, ImageFormat.Complete;
    SlotBNeedsMetadata(states, actions, i);
    k := FallbackNeedsMiss(states, actions, i, p);
  }
}
