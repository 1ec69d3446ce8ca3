/**
 When does metadata select an image with data?  The exact condition, over whole runs: every
 rename of snapshot.bin brought data, or hit a slot that no metadata could select.
 */
module ProtocolData {
  import opened Wrappers
  import opened CrashFs
  import opened MetadataText
  import opened Protocol
  import opened ProtocolInvariant
  import opened ProtocolSteps
  import opened ProtocolPreserved
  import opened ProtocolTheorems
  import opened ProtocolRestores
  import ImageFormat

  /** If the action renames a snapshot.bin, that image has data, or no metadata that may come back names its slot. */
  ghost predicate SafeRename(s: Sys, a: Action) {
    Publishes(s, a) && s.procs[a.pid].CkRename? ==>
      Dumped(s.fs, Some(s.procs[a.pid].ino)) || Spare(s.fs, s.procs[a.pid].slot)
  }

  lemma RenameDataIff(fs: Fs, fs': Fs, slot: Slot, i: nat)
    requires Closed(fs) && Separate(fs) && NonEmpty(fs) && Renamed(fs, fs', SnapTmp(slot), Snap(slot), i)
    ensures NonEmpty(fs') <==> Dumped(fs, Some(i)) || Spare(fs, slot)
  {
    assert May(fs', Snap(slot), Some(i));
    forall v, s, w |
      May(fs', Meta, v) && Names(fs', v, s) && May(fs', Snap(s), w) && (Dumped(fs, Some(i)) || Spare(fs, slot))
      ensures Dumped(fs', w)
    {
      assert May(fs, Meta, v) && Names(fs, v, s);
      assert (May(fs, Snap(s), w) && Dumped(fs, w)) || w == Some(i);
    }
    if NonEmpty(fs') && !Spare(fs, slot) {
      var v :| May(fs, Meta, v) && Names(fs, v, slot);
      assert May(fs', Meta, v) && Names(fs', v, slot);
    }
  }

  lemma CheckpointData(s: Sys, p: Pid, o: Outcome)
    requires Inv(s) && Enabled(s, Call(p, o)) && IsCheckpoint(s.procs[p]) && NonEmpty(s.fs)
    ensures NonEmpty(Checkpoint(s, p, o).fs) <==> SafeRename(s, Call(p, o))
  {
    hide Inv, StoreInv, Closed, Published, Separate, Numbered, Durable, NonEmpty, Evolves, SamePublished,
      Contents, Sound, Spare;
    hide ReaderInv, History, FormatMetadata, Newest, Chosen, Settled, Dumped, ImageFormat.Complete;
    InvParts(s, p);
    var q := s.procs[p];
    match q {
      case CkOpenTmp(slot, _) =>
        OpenTruncKeeps(s.fs, SnapTmp(slot), o.newInode, s.nextNumber, s.acked);
        SameNonEmpty(s.fs, OpenTrunc(s.fs, SnapTmp(slot), o.newInode));
      case CkWrite(slot, _, _) =>
        FillKeeps(s.fs, SnapTmp(slot), Image(s.nextNumber, o.file), s.nextNumber, s.acked);
        SameNonEmpty(s.fs, Fill(s.fs, q.ino, Image(s.nextNumber, o.file)));
      case CkFsync(slot, _, _, _) =>
        if o.ok && q.ino in s.fs.inodes {
          FsyncKeeps(s.fs, SnapTmp(slot), s.nextNumber, s.acked);
          SameNonEmpty(s.fs, Fsync(s.fs, q.ino));
        }
      case CkRename(slot, _, ino, number) =>
        RenameRenames(s.fs, SnapTmp(slot), Snap(slot));
        RenameDataIff(s.fs, Rename(s.fs, SnapTmp(slot), Snap(slot)), slot, ino);
      case CkFsyncDir(slot, _, _) => FsyncDirKeeps(s.fs, SlotDir(slot), s.nextNumber, s.acked);
      case CkOpenMetaTmp(_, _, _) =>
        OpenTruncKeeps(s.fs, MetaTmp, o.newInode, s.nextNumber, s.acked);
        SameNonEmpty(s.fs, OpenTrunc(s.fs, MetaTmp, o.newInode));
      case CkWriteMeta(slot, _, _, mino) =>
        FillKeeps(s.fs, MetaTmp, MetaFile(slot, FormatMetadata(slot, o.stamp)), s.nextNumber, s.acked);
        SameNonEmpty(s.fs, Fill(s.fs, mino, MetaFile(slot, FormatMetadata(slot, o.stamp))));
      case CkFsyncMeta(_, _, _, mino) =>
        if o.ok && mino in s.fs.inodes {
          FsyncKeeps(s.fs, MetaTmp, s.nextNumber, s.acked);
          SameNonEmpty(s.fs, Fsync(s.fs, mino));
        }
      case CkRenameMeta(slot, ino, number, _) => PublishMeta(s.fs, slot, ino, number, s.nextNumber, s.acked);
      case CkFsyncRoot(_, _, _, _) => FsyncDirKeeps(s.fs, Root, s.nextNumber, s.acked);
      case CkUnlinkTmp(name) =>
        UnlinkKeeps(s.fs, name, s.nextNumber, s.acked);
        SameNonEmpty(s.fs, Unlink(s.fs, name));
      case _ =>
    }
  }

  lemma StepDataIff(s: Sys, a: Action, s': Sys)
    requires Inv(s) && Step(s, a, s') && NonEmpty(s.fs)
    ensures NonEmpty(s'.fs) <==> SafeRename(s, a)
  {
    hide StoreInv, Contents, NonEmpty, Checkpoint, Reboot, Survives, ReadSlot, WriterInv, ReaderInv, History,
      ImageFormat.Complete;
    if a.PowerLoss? {
      RebootKeeps(s.fs, a.pick, s.nextNumber, s.acked);
    } else if a.Call? && IsCheckpoint(s.procs[a.pid]) {
      CheckpointData(s, a.pid, a.outcome);
    }
  }

  lemma {:induction false} DataAlong(states: seq<Sys>, actions: seq<Action>, i: nat)
    requires RunFromInit(states, actions) && i < |states|
    ensures (forall j :: 0 <= j <= i ==> NonEmpty(states[j].fs)) <==>
      (forall j :: 0 <= j < i ==> SafeRename(states[j], actions[j]))
  {
    hide Inv, Step, NonEmpty, SafeRename, ImageFormat.Complete;
    InitHolds();
    RunKeeps(states, actions);
    if i == 0 {
      EmptyStore();
    } else {
      DataAlong(states, actions, i - 1);
      assert Step(states[i - 1], actions[i - 1], states[i]);
      if NonEmpty(states[i - 1].fs) {
        StepDataIff(states[i - 1], actions[i - 1], states[i]);
      }
    }
  }

  lemma EmptyStore()
    ensures NonEmpty(Init().fs)
  {
  }

  // ---- What a power loss may make of it ----

  /** Whatever a power loss leaves now, metadata selects an image with data. */
  ghost predicate SelectsData(fs: Fs) {
    forall pick :: Survives(fs, pick) && Meta in pick ==> Dumps(Selected(Reboot(fs, pick)))
  }

  /** Every entry is as visible, except for these values of active.meta and one slot's snapshot.bin. */
  function Pick(fs: Fs, v: Option<nat>, slot: Slot, w: Option<nat>): map<Name, nat> {
    map n | n in {Meta, MetaTmp, Snap(A), Snap(B), SnapTmp(A), SnapTmp(B)} && Chose(fs, v, slot, w, n).Some?
      :: Chose(fs, v, slot, w, n).value
  }

  function Chose(fs: Fs, v: Option<nat>, slot: Slot, w: Option<nat>, n: Name): Option<nat> {
    if n == Meta then v else if n == Snap(slot) then w else Lookup(fs, n)
  }

  lemma AllNames(n: Name)
    ensures n in {Meta, MetaTmp, Snap(A), Snap(B), SnapTmp(A), SnapTmp(B)}
  {
    if n.Snap? || n.SnapTmp? {
      assert n.slot == A || n.slot == B;
    }
  }

  lemma PickSurvives(fs: Fs, v: Option<nat>, slot: Slot, w: Option<nat>)
    requires Published(fs) && Separate(fs) && May(fs, Meta, v) && May(fs, Snap(slot), w)
    ensures Survives(fs, Pick(fs, v, slot, w))
  {
    var pick := Pick(fs, v, slot, w);
    forall n: Name
      ensures (if n in pick then Some(pick[n]) else None) == Chose(fs, v, slot, w, n)
      ensures May(fs, n, Chose(fs, v, slot, w, n))
    {
      AllNames(n);
    }
    forall n, m | n in pick && m in pick && pick[n] == pick[m]
      ensures n == m
    {
      ChosenDiffer(fs, v, slot, w, n, m);
    }
  }

  lemma ChosenDiffer(fs: Fs, v: Option<nat>, slot: Slot, w: Option<nat>, n: Name, m: Name)
    requires Published(fs) && Separate(fs) && May(fs, Meta, v) && May(fs, Snap(slot), w)
    requires Chose(fs, v, slot, w, n).Some? && Chose(fs, v, slot, w, n) == Chose(fs, v, slot, w, m)
    ensures n == m
  {
    var x := Chose(fs, v, slot, w, n);
    assert May(fs, n, x) && May(fs, m, x);
    if IsTmp(n) || IsTmp(m) {
      assert IsTmp(n) ==> n in fs.entries && Some(fs.entries[n]) == x;
      assert IsTmp(m) ==> m in fs.entries && Some(fs.entries[m]) == x;
    }
  }

  /** NonEmpty is exactly the promise about power losses. */
  lemma NonEmptyIff(s: Sys)
    requires Inv(s)
    ensures NonEmpty(s.fs) <==> SelectsData(s.fs)
  {
    hide Separate, Closed, Numbered, Survives, Reboot, Selected, SelectedSlot, Pick, Dumped, ReaderInv, WriterInv,
      History, ImageFormat.Complete;
    if NonEmpty(s.fs) {
      forall pick | Survives(s.fs, pick) && Meta in pick
        ensures Dumps(Selected(Reboot(s.fs, pick)))
      {
        SurvivorSelects(s, pick);
      }
    } else {
      var v, slot, w :| May(s.fs, Meta, v) && Names(s.fs, v, slot) && May(s.fs, Snap(slot), w) && !Dumped(s.fs, w);
      var pick := Pick(s.fs, v, slot, w);
      PickSurvives(s.fs, v, slot, w);
      PickHas(s.fs, v, slot, w);
      SurvivorSelects(s, pick);
    }
  }

  lemma PickHas(fs: Fs, v: Option<nat>, slot: Slot, w: Option<nat>)
    ensures var pick := Pick(fs, v, slot, w);
      && v == (if Meta in pick then Some(pick[Meta]) else None)
      && w == (if Snap(slot) in pick then Some(pick[Snap(slot)]) else None)
  {
    assert Snap(slot) == Snap(A) || Snap(slot) == Snap(B);
  }

  /** The slot that metadata names after a power loss, and its image. */
  lemma SurvivorSlot(s: Sys, pick: map<Name, nat>) returns (slot: Slot)
    requires Inv(s) && Survives(s.fs, pick) && Meta in pick
    ensures Names(s.fs, Some(pick[Meta]), slot) && OnDisk(s.fs, Some(pick[Meta])) && May(s.fs, Meta, Some(pick[Meta]))
    ensures Snap(slot) in pick && IsImage(s.fs, Some(pick[Snap(slot)])) && OnDisk(s.fs, Some(pick[Snap(slot)]))
    ensures May(s.fs, Snap(slot), Some(pick[Snap(slot)]))
  {
    hide Separate, Closed, Numbered, ReaderInv, WriterInv, History, NonEmpty, Contents, ImageFormat.Complete;
    var fs, v := s.fs, Some(pick[Meta]);
    assert May(fs, Meta, v);
    slot := fs.inodes[pick[Meta]].content.slot;
    assert Names(fs, v, slot) && SlotHolds(fs, slot, s.acked);
    var w := if Snap(slot) in pick then Some(pick[Snap(slot)]) else None;
    assert May(fs, Snap(slot), w) && IsImage(fs, w);
  }

  /** What is selected after a power loss, in terms of the files from before it. */
  lemma SurvivorSelects(s: Sys, pick: map<Name, nat>)
    requires Inv(s) && Survives(s.fs, pick) && Meta in pick
    ensures exists slot ::
      && Names(s.fs, Some(pick[Meta]), slot) && Snap(slot) in pick
      && May(s.fs, Meta, Some(pick[Meta])) && May(s.fs, Snap(slot), Some(pick[Snap(slot)]))
      && (Dumps(Selected(Reboot(s.fs, pick))) <==> Dumped(s.fs, Some(pick[Snap(slot)])))
  {
    hide Inv, May, Survives, SelectedSlot, ImageFormat.Complete;
    var slot := SurvivorSlot(s, pick);
    SurvivorImage(s, pick, slot);
  }

  lemma SurvivorImage(s: Sys, pick: map<Name, nat>, slot: Slot)
    requires Inv(s) && Survives(s.fs, pick) && Meta in pick && Names(s.fs, Some(pick[Meta]), slot)
    ensures Snap(slot) in pick && IsImage(s.fs, Some(pick[Snap(slot)]))
    ensures Selected(Reboot(s.fs, pick)) == Some(s.fs.inodes[pick[Snap(slot)]].content)
  {
    hide Inv, May, Survives, SelectedSlot, Contents, ImageFormat.Complete;
    var fs' := Reboot(s.fs, pick);
    var same := SurvivorSlot(s, pick);
    PowerLossKeeps(s, pick);
    ContentsHold(Apply(s, PowerLoss(pick)));
    SelectedByMeta(fs', slot);
  }

  lemma ContentsHold(s: Sys)
    requires Inv(s)
    ensures Contents(s.fs)
  {
    hide Contents;
  }

  /**
   In every run: metadata selects an image with data, now and after every power loss at every
   moment so far, exactly if every rename of snapshot.bin so far brought data or hit a slot that
   no metadata named, nor could name again.
   */
  lemma SelectsDataIff(states: seq<Sys>, actions: seq<Action>, i: nat)
    requires RunFromInit(states, actions) && i < |states|
    ensures (forall j :: 0 <= j <= i ==> SelectsData(states[j].fs)) <==>
      (forall j :: 0 <= j < i ==> SafeRename(states[j], actions[j]))
  {
    hide Inv, Step, NonEmpty, SafeRename, SelectsData, ImageFormat.Complete;
    InitHolds();
    RunKeeps(states, actions);
    DataAlong(states, actions, i);
    forall j | 0 <= j <= i
      ensures NonEmpty(states[j].fs) <==> SelectsData(states[j].fs)
    {
      NonEmptyIff(states[j]);
    }
  }

  lemma VisibleDumped(fs: Fs, slot: Slot)
    requires NonEmpty(fs) && Names(fs, Lookup(fs, Meta), slot)
    ensures Dumped(fs, Lookup(fs, Snap(slot)))
  {
    assert May(fs, Meta, Lookup(fs, Meta)) && May(fs, Snap(slot), Lookup(fs, Snap(slot)));
  }

  /** The visible selection is among them. */
  lemma VisibleSelectsData(s: Sys)
    requires Inv(s) && SelectsData(s.fs) && Meta in s.fs.entries
    ensures Dumps(Selected(s.fs))
  {
    hide Inv, SelectsData, SelectedSlot, NonEmpty, IsImage, Names, ImageFormat.Complete;
    NonEmptyIff(s);
    MetaSelects(s);
    var slot := SelectedSlot(s.fs).value;
    NamedSlot(s, slot);
    VisibleDumped(s.fs, slot);
  }

  // ---- When the selected image outlives a power loss ----

  /** With this value of active.meta after a power loss, the slot is still the one selected. */
  ghost predicate StillSelects(fs: Fs, v: Option<nat>, slot: Slot) {
    if v.Some? then Names(fs, v, slot) else slot == A || forall w :: May(fs, Snap(A), w) ==> w.None?
  }

  /** The image that may come back in a slot. */
  lemma MayBeImage(s: Sys, slot: Slot, w: Option<nat>)
    requires Inv(s) && May(s.fs, Snap(slot), w) && w.Some?
    ensures IsImage(s.fs, w) && OnDisk(s.fs, w)
  {
    hide Separate, Durable, Numbered, Contents, ReaderInv, WriterInv, History, ImageFormat.Complete;
  }

  /** Different images have different contents. */
  lemma ContentsDiffer(s: Sys, i: nat, j: nat)
    requires Inv(s) && IsImage(s.fs, Some(i)) && IsImage(s.fs, Some(j)) && i != j
    ensures s.fs.inodes[i].content != s.fs.inodes[j].content
  {
    hide Separate, Durable, Published, Closed, Contents, ReaderInv, WriterInv, History, ImageFormat.Complete;
  }

  lemma NotInBoth(s: Sys, slot: Slot, other: Slot, v: Option<nat>, w: Option<nat>)
    requires Inv(s) && slot != other && May(s.fs, Snap(slot), v) && May(s.fs, Snap(other), w) && v.Some?
    ensures v != w
  {
    hide Durable, Published, Closed, Contents, ReaderInv, WriterInv, History, ImageFormat.Complete;
    assert slot == A || slot == B;
    assert other == A || other == B;
  }

  /** Without metadata the fallback selects. */
  lemma SurvivorFalls(s: Sys, pick: map<Name, nat>, slot: Slot)
    requires Inv(s) && Survives(s.fs, pick) && Meta !in pick && Snap(slot) in pick && (slot == A || Snap(A) !in pick)
    ensures pick[Snap(slot)] in s.fs.inodes
    ensures Selected(Reboot(s.fs, pick)) == Some(s.fs.inodes[pick[Snap(slot)]].content)
  {
    hide Inv, ImageFormat.Complete;
    assert May(s.fs, Snap(slot), Some(pick[Snap(slot)]));
    MayBeImage(s, slot, Some(pick[Snap(slot)]));
  }

  lemma VisibleSelected(s: Sys, slot: Slot) returns (i: nat)
    requires Inv(s) && Meta in s.fs.entries && SelectedSlot(s.fs) == Some(slot)
    ensures Lookup(s.fs, Snap(slot)) == Some(i) && IsImage(s.fs, Some(i))
    ensures Selected(s.fs) == Some(s.fs.inodes[i].content)
    ensures May(s.fs, Snap(slot), Some(i)) && May(s.fs, Meta, Lookup(s.fs, Meta))
    ensures Names(s.fs, Lookup(s.fs, Meta), slot)
  {
    hide Inv, SelectedSlot, ImageFormat.Complete;
    MetaSelects(s);
    NamedSlot(s, slot);
    i := s.fs.entries[Snap(slot)];
  }

  /** Every power loss leaves the selected image alone, exactly if these values are the only ones. */
  lemma PowerLossKeepsCellIff(s: Sys, slot: Slot)
    requires Inv(s) && Meta in s.fs.entries && SelectedSlot(s.fs) == Some(slot)
    ensures (forall pick :: Survives(s.fs, pick) ==> Selected(Reboot(s.fs, pick)) == Selected(s.fs)) <==>
      && (forall v :: May(s.fs, Meta, v) ==> StillSelects(s.fs, v, slot))
      && (forall w :: May(s.fs, Snap(slot), w) ==> w == Lookup(s.fs, Snap(slot)))
  {
    hide Inv, May, Survives, Reboot, Selected, SelectedSlot, StillSelects, ImageFormat.Complete;
    if forall pick :: Survives(s.fs, pick) ==> Selected(Reboot(s.fs, pick)) == Selected(s.fs) {
      forall w | May(s.fs, Snap(slot), w)
        ensures w == Lookup(s.fs, Snap(slot))
      {
        OlderImageShows(s, slot, w);
      }
      forall v | May(s.fs, Meta, v)
        ensures StillSelects(s.fs, v, slot)
      {
        OlderMetaShows(s, slot, v);
      }
    }
    if (forall v :: May(s.fs, Meta, v) ==> StillSelects(s.fs, v, slot))
       && (forall w :: May(s.fs, Snap(slot), w) ==> w == Lookup(s.fs, Snap(slot))) {
      forall pick | Survives(s.fs, pick)
        ensures Selected(Reboot(s.fs, pick)) == Selected(s.fs)
      {
        NothingOlderShows(s, slot, pick);
      }
    }
  }

  lemma OlderImageShows(s: Sys, slot: Slot, w: Option<nat>)
    requires Inv(s) && Meta in s.fs.entries && SelectedSlot(s.fs) == Some(slot) && May(s.fs, Snap(slot), w)
    requires forall pick :: Survives(s.fs, pick) ==> Selected(Reboot(s.fs, pick)) == Selected(s.fs)
    ensures w == Lookup(s.fs, Snap(slot))
  {
    hide Inv, May, Survives, Reboot, Selected, SelectedSlot, Pick, ImageFormat.Complete;
    var i := VisibleSelected(s, slot);
    var v := Lookup(s.fs, Meta);
    PickOk(s, v, slot, w);
    SurvivorImage(s, Pick(s.fs, v, slot, w), slot);
    if w != Some(i) {
      ContentsDiffer(s, i, w.value);
    }
  }

  lemma PickOk(s: Sys, v: Option<nat>, slot: Slot, w: Option<nat>)
    requires Inv(s) && May(s.fs, Meta, v) && May(s.fs, Snap(slot), w)
    ensures var pick := Pick(s.fs, v, slot, w);
      && Survives(s.fs, pick)
      && v == (if Meta in pick then Some(pick[Meta]) else None)
      && w == (if Snap(slot) in pick then Some(pick[Snap(slot)]) else None)
  {
    hide May, Survives, Pick, Separate, Published, Durable, Contents, ReaderInv, WriterInv, History,
      ImageFormat.Complete;
    PickSurvives(s.fs, v, slot, w);
    PickHas(s.fs, v, slot, w);
  }

  lemma OlderMetaShows(s: Sys, slot: Slot, v: Option<nat>)
    requires Inv(s) && Meta in s.fs.entries && SelectedSlot(s.fs) == Some(slot) && May(s.fs, Meta, v)
    requires forall pick :: Survives(s.fs, pick) ==> Selected(Reboot(s.fs, pick)) == Selected(s.fs)
    ensures StillSelects(s.fs, v, slot)
  {
    hide Inv, May, Survives, Reboot, Selected, SelectedSlot, Pick, ImageFormat.Complete;
    var i := VisibleSelected(s, slot);
    if v.Some? {
      var other := MetaNames(s, v);
      if other != slot {
        var w := Lookup(s.fs, Snap(other));
        VisibleMayBack(s.fs, Snap(other));
        PickOk(s, v, other, w);
        SurvivorImage(s, Pick(s.fs, v, other, w), other);
        NotInBoth(s, slot, other, Some(i), w);
        ContentsDiffer(s, i, w.value);
      }
    } else if slot == B {
      forall w | May(s.fs, Snap(A), w)
        ensures w.None?
      {
        if w.Some? {
          PickOk(s, v, A, w);
          SurvivorFalls(s, Pick(s.fs, v, A, w), A);
          MayBeImage(s, A, w);
          NotInBoth(s, A, B, w, Some(i));
          ContentsDiffer(s, i, w.value);
        }
      }
    }
  }

  lemma VisibleMayBack(fs: Fs, n: Name)
    ensures May(fs, n, Lookup(fs, n))
  {
  }

  lemma MetaNames(s: Sys, v: Option<nat>) returns (slot: Slot)
    requires Inv(s) && May(s.fs, Meta, v) && v.Some?
    ensures Names(s.fs, v, slot)
  {
    hide Separate, Durable, Numbered, Contents, ReaderInv, WriterInv, History, ImageFormat.Complete;
    slot := if Names(s.fs, v, A) then A else B;
  }

  lemma NothingOlderShows(s: Sys, slot: Slot, pick: map<Name, nat>)
    requires Inv(s) && Meta in s.fs.entries && SelectedSlot(s.fs) == Some(slot) && Survives(s.fs, pick)
    requires forall v :: May(s.fs, Meta, v) ==> StillSelects(s.fs, v, slot)
    requires forall w :: May(s.fs, Snap(slot), w) ==> w == Lookup(s.fs, Snap(slot))
    ensures Selected(Reboot(s.fs, pick)) == Selected(s.fs)
  {
    hide Inv, May, Reboot, Selected, SelectedSlot, ImageFormat.Complete;
    var i := VisibleSelected(s, slot);
    assert May(s.fs, Meta, if Meta in pick then Some(pick[Meta]) else None);
    assert May(s.fs, Snap(slot), if Snap(slot) in pick then Some(pick[Snap(slot)]) else None);
    if Meta in pick {
      SurvivorImage(s, pick, slot);
    } else {
      assert May(s.fs, Snap(A), if Snap(A) in pick then Some(pick[Snap(A)]) else None);
      SurvivorFalls(s, pick, slot);
    }
  }

  // ---- The guard, at the time the slot is chosen ----

  /** The checkpoint has chosen its slot and not yet renamed a snapshot.bin into it. */
  predicate Capturing(s: Sys, p: Pid) {
    p in s.procs && (s.procs[p].CkOpenTmp? || s.procs[p].CkWrite? || s.procs[p].CkFsync? || s.procs[p].CkRename?)
  }

  /** The slot and whether it is spare are as they were. */
  ghost predicate SameChoice(s: Sys, s': Sys, p: Pid)
    requires Capturing(s, p) && Capturing(s', p)
  {
    s'.procs[p].slot == s.procs[p].slot && (Spare(s.fs, s.procs[p].slot) <==> Spare(s'.fs, s.procs[p].slot))
  }

  lemma SameSpare(fs: Fs, fs': Fs, slot: Slot)
    requires Published(fs) && SamePublished(fs, fs')
    ensures Spare(fs, slot) <==> Spare(fs', slot)
  {
    assert forall v :: May(fs, Meta, v) ==> Names(fs', v, slot) == Names(fs, v, slot);
  }

  lemma CapturingStep(s: Sys, a: Action, s': Sys, p: Pid)
    requires Inv(s) && Step(s, a, s') && Capturing(s, p) && Capturing(s', p)
    ensures SameChoice(s, s', p)
  {
    hide Inv, Checkpoint, Spare, ReadSlot, ImageFormat.Complete;
    InvParts(s, p);
    if a.Call? && a.pid == p {
      CaptureCall(s, p, a.outcome, s');
    } else {
      OthersStay(s, a, s', p);
      OnlyHolderWrites(s, a, s', p);
    }
  }

  lemma CaptureCall(s: Sys, p: Pid, o: Outcome, s': Sys)
    requires Capturing(s, p) && Capturing(s', p) && s' == Checkpoint(s, p, o)
    requires Inv(s) && Enabled(s, Call(p, o))
    ensures SameChoice(s, s', p)
  {
    hide Inv, StoreInv, Spare, Evolves, SamePublished, Published, Separate, Closed, Chosen, Newest,
      ImageFormat.Complete;
    InvParts(s, p);
    var slot := s.procs[p].slot;
    match s.procs[p] {
      case CkOpenTmp(_, _) => OpenTruncKeeps(s.fs, SnapTmp(slot), o.newInode, s.nextNumber, s.acked);
      case CkWrite(_, _, _) => FillKeeps(s.fs, SnapTmp(slot), Image(s.nextNumber, o.file), s.nextNumber, s.acked);
      case CkFsync(_, _, _, _) => FsyncKeeps(s.fs, SnapTmp(slot), s.nextNumber, s.acked);
      case _ =>
    }
    SameSpare(s.fs, s'.fs, slot);
  }

  lemma OnlyHolderWrites(s: Sys, a: Action, s': Sys, p: Pid)
    requires Inv(s) && Step(s, a, s') && p in s.procs && Holding(s.procs[p]) && !(a.Call? && a.pid == p)
    requires !a.PowerLoss?
    ensures s'.fs == s.fs
  {
    hide Inv, ReadSlot, ImageFormat.Complete;
    InvParts(s, p);
    if a.Call? && IsCheckpoint(s.procs[a.pid]) {
      InvParts(s, a.pid);
    }
  }

  /**
   Whether the slot may be overwritten with an empty image is settled when it is chosen: from
   then to the rename nobody else moves active.meta, so the slot is spare at the rename exactly
   if it was at the choice.
   */
  lemma {:induction false} SpareSinceChoice(states: seq<Sys>, actions: seq<Action>, k: nat, m: nat, p: Pid)
    requires RunFromInit(states, actions) && k <= m < |states|
    requires Capturing(states[k], p) && Capturing(states[m], p) && forall t :: k <= t <= m ==> Capturing(states[t], p)
    ensures states[m].procs[p].slot == states[k].procs[p].slot
    ensures Spare(states[m].fs, states[m].procs[p].slot) <==> Spare(states[k].fs, states[k].procs[p].slot)
    decreases m
  {
    hide Inv, Apply, Enabled, Spare, ImageFormat.Complete;
    if k < m {
      InitHolds();
      RunKeeps(states, actions);
      SpareSinceChoice(states, actions, k, m - 1, p);
      assert Step(states[m - 1], actions[m - 1], states[m]);
      CapturingStep(states[m - 1], actions[m - 1], states[m], p);
    }
  }
}
