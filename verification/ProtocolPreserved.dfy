/**
 The invariant holds in every reachable state: one lemma for each kind of step, then runs.
 */
module ProtocolPreserved {
  import opened Wrappers
  import opened CrashFs
  import opened MetadataText
  import opened Protocol
  import opened ProtocolInvariant
  import opened ProtocolSteps
  import ImageFormat

  // ---- Choosing a slot ----

  lemma ChooseKeeps(s: Sys, p: Pid, read: Option<string>)
    requires Inv(s) && p in s.procs && Holding(s.procs[p])
    requires read.Some? ==> Meta in s.fs.entries && read == ReadSlot(s.fs, s.fs.entries[Meta], None)
    ensures Inv(Choose(s, p, read))
  {
    hide ImageFormat.Complete;
    var s' := Choose(s, p, read);
    var v := Lookup(s.fs, Meta);
    assert May(s.fs, Meta, v);
    if read.Some? {
      assert Sound(s.fs.inodes[v.value].content);
      assert read == Some(SlotName(s.fs.inodes[v.value].content.slot));
    }
    assert Chosen(s', NextSlot(read), v.Some? ==> read.Some?);
    Moves(s, s', p, s'.procs[p]);
  }

  lemma LockStep(s: Sys, p: Pid, o: Outcome)
    requires Inv(s) && Enabled(s, Call(p, o)) && s.procs[p].CkStart?
    ensures Inv(AtLock(s, p, o))
  {
    hide ImageFormat.Complete, StoreInv, Contents, NonEmpty, History, Exit;
    var s' := AtLock(s, p, o);
    if o.ok && s.lock.None? {
      Moves(s, s', p, s'.procs[p]);
    } else {
      Exits(s, p);
    }
  }

  lemma MetaLookupStep(s: Sys, p: Pid, o: Outcome)
    requires Inv(s) && Enabled(s, Call(p, o))
    requires s.procs[p].CkAccessMeta? || s.procs[p].CkOpenMeta? || s.procs[p].CkReadMeta?
    ensures Inv(AtMetaLookup(s, p, s.procs[p], o))
  {
    hide ImageFormat.Complete, Contents, Choose, NonEmpty, Separate, Numbered, Durable;
    var q := s.procs[p];
    var s' := AtMetaLookup(s, p, q, o);
    assert May(s.fs, Meta, Lookup(s.fs, Meta));
    if q.CkReadMeta? {
      ChooseKeeps(s, p, if o.ok then ReadSlot(s.fs, q.ino, o.noise) else None);
    } else if o.ok && Meta in s.fs.entries {
      Moves(s, s', p, s'.procs[p]);
    } else {
      ChooseKeeps(s, p, None);
    }
  }

  lemma InvParts(s: Sys, p: Pid)
    requires Inv(s) && p in s.procs
    ensures StoreInv(s.fs, s.nextNumber, s.acked) && Closed(s.fs) && Separate(s.fs) && Published(s.fs) && Contents(s.fs)
    ensures History(s) && WriterInv(s, s.procs[p]) && ReaderInv(s.fs, s.procs[p])
    ensures Holding(s.procs[p]) ==> s.lock == Some(p)
  {
  }

  // ---- Writing the snapshot ----

  lemma ContentsKeep(fs: Fs)
    requires Contents(fs)
    ensures forall i, c :: Sound(c) ==> Contents(Fill(fs, i, c))
    ensures forall n, i :: Contents(OpenTrunc(fs, n, i))
    ensures forall i :: i in fs.inodes ==> Contents(Fsync(fs, i))
  {
    hide ImageFormat.Complete;
    assert Sound(Torn);
  }

  lemma ChosenKeeps(s: Sys, s': Sys, slot: Slot, informed: bool)
    requires Published(s.fs) && SamePublished(s.fs, s'.fs) && Chosen(s, slot, informed)
    ensures Chosen(s', slot, informed)
  {
    hide ImageFormat.Complete;
    assert Meta in s.fs.entries ==> May(s.fs, Meta, Lookup(s.fs, Meta));
    assert Lookup(s'.fs, Meta) == Lookup(s.fs, Meta);
  }

  /** No value of the entry may come back that could not before. */
  ghost predicate NoMore(fs: Fs, fs': Fs, n: Name) {
    forall v {:trigger May(fs', n, v)} :: May(fs', n, v) ==> May(fs, n, v)
  }

  lemma HistoryKeeps(s: Sys, s': Sys, p: Pid, q: Proc)
    requires History(s) && p in s.procs && s'.procs == s.procs[p := q] && s'.metaEver == s.metaEver
    requires OnlyA(s.procs[p]) ==> OnlyA(q)
    requires !s.metaEver && OnlyA(s.procs[p]) ==> NoMore(s.fs, s'.fs, Meta) && NoMore(s.fs, s'.fs, Snap(B))
    ensures History(s')
  {
    hide ImageFormat.Complete;
  }

  lemma HistoryOver(s: Sys)
    requires s.metaEver
    ensures History(s)
  {
    hide ImageFormat.Complete;
  }

  lemma SameIsNoMore(fs: Fs, fs': Fs)
    requires SamePublished(fs, fs')
    ensures NoMore(fs, fs', Meta) && NoMore(fs, fs', Snap(B))
  {
    hide ImageFormat.Complete;
  }

  lemma SoundImage(number: nat, file: ImageFile)
    requires ImageFormat.Complete(file.bytes, file.included)
    ensures Sound(Image(number, file))
  {
    hide ImageFormat.Complete;
  }

  lemma SoundMeta(slot: Slot, stamp: Stamp)
    ensures Sound(MetaFile(slot, FormatMetadata(slot, stamp)))
  {
    hide ImageFormat.Complete;
    MetadataRoundTrip(slot, stamp);
  }

  lemma ContentsSame(fs: Fs, fs': Fs)
    requires Contents(fs) && fs'.inodes == fs.inodes
    ensures Contents(fs')
  {
    hide ImageFormat.Complete;
  }

  lemma FsyncNewest(fs: Fs, t: Name, number: nat, acked: nat)
    requires t in fs.entries && Newest(fs, fs.entries[t], number, acked)
    ensures Newest(Fsync(fs, fs.entries[t]), fs.entries[t], number, acked)
  {
    hide ImageFormat.Complete;
    var fs' := Fsync(fs, fs.entries[t]);
    assert forall n, v {:trigger May(fs', n, v)} :: May(fs', n, v) == May(fs, n, v);
    assert forall v: Option<nat> :: Number(fs', v) == Number(fs, v);
  }

  /** Once the root directory is fsynced, the only metadata left names a slot that holds just this capture. */
  lemma Acknowledged(fs: Fs, slot: Slot, ino: nat, number: nat, mino: nat, next: nat, acked: nat)
    requires StoreInv(fs, next, acked) && Settled(fs, slot, ino, number, acked)
    requires Lookup(fs, Meta) == Some(mino) && Names(fs, Some(mino), slot)
    ensures StoreInv(FsyncDir(fs, Root), next, number)
  {
    hide ImageFormat.Complete;
    var fs' := FsyncDir(fs, Root);
    FsyncDirMay(fs, Root);
    NarrowerKeeps(fs, fs', next, acked);
    assert May(fs, Snap(slot), Lookup(fs, Snap(slot)));
    forall v, s | May(fs', Meta, v) && Names(fs', v, s)
      ensures SlotHolds(fs', s, number)
    {
      assert v == Some(mino) && s == slot;
      assert forall u :: May(fs', Snap(s), u) ==> u == Some(ino);
    }
  }

  lemma OpenTmpStep(s: Sys, p: Pid, o: Outcome)
    requires Inv(s) && Enabled(s, Call(p, o)) && s.procs[p].CkOpenTmp?
    ensures Inv(AtOpenTmp(s, p, s.procs[p], o))
  {
    hide Inv, StoreInv, Closed, Published, Separate, Numbered, Durable, NonEmpty, Evolves, SamePublished,
      Contents, Sound, Spare, ReaderInv, History, FormatMetadata, ImageFormat.Complete;
    InvParts(s, p);
    var s' := AtOpenTmp(s, p, s.procs[p], o);
    if o.ok {
      var slot := s.procs[p].slot;
      OpenTruncKeeps(s.fs, SnapTmp(slot), o.newInode, s.nextNumber, s.acked);
      ChosenKeeps(s, s', slot, s.procs[p].informed);
      ContentsKeep(s.fs);
      SameIsNoMore(s.fs, s'.fs);
      HistoryKeeps(s, s', p, s'.procs[p]);
      HolderMoves(s, s', p, s'.procs[p]);
    } else {
      Moves(s, s', p, CkUnlock);
    }
  }

  lemma WriteStep(s: Sys, p: Pid, o: Outcome)
    requires Inv(s) && Enabled(s, Call(p, o)) && s.procs[p].CkWrite?
    ensures Inv(AtWrite(s, p, s.procs[p], o))
  {
    hide Inv, StoreInv, Closed, Published, Separate, Numbered, Durable, NonEmpty, Evolves, SamePublished,
      Contents, Sound, Spare, ReaderInv, History, FormatMetadata, ImageFormat.Complete;
    InvParts(s, p);
    var s' := AtWrite(s, p, s.procs[p], o);
    if o.ok {
      var slot, ino := s.procs[p].slot, s.procs[p].ino;
      var c := Image(s.nextNumber, o.file);
      FillKeeps(s.fs, SnapTmp(slot), c, s.nextNumber, s.acked);
      ChosenKeeps(s, s', slot, s.procs[p].informed);
      SoundImage(s.nextNumber, o.file);
      ContentsKeep(s.fs);
      FilledIsNewest(s.fs, slot, c, s.nextNumber, s.acked);
      SameIsNoMore(s.fs, s'.fs);
      HistoryKeeps(s, s', p, s'.procs[p]);
      HolderMoves(s, s', p, s'.procs[p]);
    } else {
      Moves(s, s', p, CkUnlock);
    }
  }

  lemma FilledIsNewest(fs: Fs, slot: Slot, c: Content, next: nat, acked: nat)
    requires StoreInv(fs, next, acked) && SnapTmp(slot) in fs.entries && c.Image? && c.number == next
    ensures Newest(Fill(fs, fs.entries[SnapTmp(slot)], c), fs.entries[SnapTmp(slot)], next, acked)
  {
    hide ImageFormat.Complete;
    var fs' := Fill(fs, fs.entries[SnapTmp(slot)], c);
    assert forall n, v {:trigger May(fs', n, v)} :: May(fs', n, v) == May(fs, n, v);
  }

  lemma FsyncStep(s: Sys, p: Pid, o: Outcome)
    requires Inv(s) && Enabled(s, Call(p, o)) && s.procs[p].CkFsync?
    ensures Inv(AtFsync(s, p, s.procs[p], o))
  {
    hide Inv, StoreInv, Closed, Published, Separate, Numbered, Durable, NonEmpty, Evolves, SamePublished,
      Contents, Sound, Spare, ReaderInv, History, FormatMetadata, Newest, Chosen, ImageFormat.Complete;
    InvParts(s, p);
    var s' := AtFsync(s, p, s.procs[p], o);
    if o.ok && s.procs[p].ino in s.fs.inodes {
      var slot := s.procs[p].slot;
      FsyncKeeps(s.fs, SnapTmp(slot), s.nextNumber, s.acked);
      ChosenKeeps(s, s', slot, s.procs[p].informed);
      ContentsKeep(s.fs);
      FsyncNewest(s.fs, SnapTmp(slot), s.procs[p].number, s.acked);
      SameIsNoMore(s.fs, s'.fs);
      HistoryKeeps(s, s', p, s'.procs[p]);
      HolderMoves(s, s', p, s'.procs[p]);
    } else {
      Moves(s, s', p, CkUnlock);
    }
  }

  lemma RenameStep(s: Sys, p: Pid, o: Outcome)
    requires Inv(s) && Enabled(s, Call(p, o)) && s.procs[p].CkRename?
    ensures Inv(AtRename(s, p, s.procs[p], o))
  {
    hide Inv, Newest, OnDisk, StoreInv, IsImage, Closed, Published, Separate, Numbered, Durable, NonEmpty,
      Evolves, SamePublished, Contents, Sound, Spare, ReaderInv, History, FormatMetadata, ImageFormat.Complete;
    InvParts(s, p);
    var s' := AtRename(s, p, s.procs[p], o);
    if o.ok {
      var slot, ino, number := s.procs[p].slot, s.procs[p].ino, s.procs[p].number;
      RenameRenames(s.fs, SnapTmp(slot), Snap(slot));
      PublishSnapKeeps(s.fs, s'.fs, slot, ino, number, s.nextNumber, s.acked);
      PublishSnapEvolves(s.fs, s'.fs, slot, ino, number, s.acked);
      ContentsSame(s.fs, s'.fs);
      HistoryKeeps(s, s', p, s'.procs[p]);
      HolderMoves(s, s', p, s'.procs[p]);
    } else {
      Moves(s, s', p, s'.procs[p]);
    }
  }

  lemma FsyncDirStep(s: Sys, p: Pid, o: Outcome)
    requires Inv(s) && Enabled(s, Call(p, o)) && s.procs[p].CkFsyncDir?
    ensures Inv(AtFsyncDir(s, p, s.procs[p], o))
  {
    hide Inv, StoreInv, Closed, Published, Separate, Numbered, Durable, NonEmpty, Evolves, SamePublished,
      Contents, Sound, Spare, ReaderInv, History, FormatMetadata, ImageFormat.Complete;
    InvParts(s, p);
    var s' := AtFsyncDir(s, p, s.procs[p], o);
    if o.ok {
      FsyncDirKeeps(s.fs, SlotDir(s.procs[p].slot), s.nextNumber, s.acked);
      ContentsSame(s.fs, s'.fs);
      HistoryKeeps(s, s', p, s'.procs[p]);
      HolderMoves(s, s', p, s'.procs[p]);
    } else {
      Moves(s, s', p, CkUnlock);
    }
  }

  // ---- Writing the metadata ----

  lemma ManifestStep(s: Sys, p: Pid, o: Outcome)
    requires Inv(s) && Enabled(s, Call(p, o)) && s.procs[p].CkManifest?
    ensures Inv(AtManifest(s, p, s.procs[p], o))
  {
    hide Inv, Closed, Published, Separate, Numbered, Durable, NonEmpty, Evolves, SamePublished, Contents, Sound,
      Spare, ReaderInv, History, FormatMetadata, Settled, ImageFormat.Complete;
    InvParts(s, p);
    var s' := AtManifest(s, p, s.procs[p], o);
    Moves(s, s', p, s'.procs[p]);
  }

  lemma OpenMetaTmpStep(s: Sys, p: Pid, o: Outcome)
    requires Inv(s) && Enabled(s, Call(p, o)) && s.procs[p].CkOpenMetaTmp?
    ensures Inv(AtOpenMetaTmp(s, p, s.procs[p], o))
  {
    hide Inv, Dumped, StoreInv, Closed, Published, Separate, Numbered, Durable, NonEmpty, Evolves,
      SamePublished, Contents, Sound, Spare, ReaderInv, History, FormatMetadata, Settled, ImageFormat.Complete;
    InvParts(s, p);
    var q := s.procs[p];
    var s' := AtOpenMetaTmp(s, p, q, o);
    if o.ok {
      OpenTruncKeeps(s.fs, MetaTmp, o.newInode, s.nextNumber, s.acked);
      SettledKeeps(s.fs, s'.fs, q.slot, q.ino, q.number, s.acked);
      ContentsKeep(s.fs);
      SameIsNoMore(s.fs, s'.fs);
      HistoryKeeps(s, s', p, s'.procs[p]);
      HolderMoves(s, s', p, s'.procs[p]);
    } else {
      Moves(s, s', p, s'.procs[p]);
    }
  }

  lemma WriteMetaStep(s: Sys, p: Pid, o: Outcome)
    requires Inv(s) && Enabled(s, Call(p, o)) && s.procs[p].CkWriteMeta?
    ensures Inv(AtWriteMeta(s, p, s.procs[p], o))
  {
    hide Inv, Dumped, StoreInv, Closed, Published, Separate, Numbered, Durable, NonEmpty, Evolves,
      SamePublished, Contents, Sound, Spare, ReaderInv, History, FormatMetadata, Settled, ImageFormat.Complete;
    InvParts(s, p);
    var s' := AtWriteMeta(s, p, s.procs[p], o);
    var q := s.procs[p];
    if o.ok {
      var c := MetaFile(q.slot, FormatMetadata(q.slot, o.stamp));
      SoundMeta(q.slot, o.stamp);
      ContentsKeep(s.fs);
      FillKeeps(s.fs, MetaTmp, c, s.nextNumber, s.acked);
      SettledKeeps(s.fs, s'.fs, q.slot, q.ino, q.number, s.acked);
      SameIsNoMore(s.fs, s'.fs);
      HistoryKeeps(s, s', p, s'.procs[p]);
      HolderMoves(s, s', p, s'.procs[p]);
    } else {
      Moves(s, s', p, s'.procs[p]);
    }
  }

  lemma FsyncMetaStep(s: Sys, p: Pid, o: Outcome)
    requires Inv(s) && Enabled(s, Call(p, o)) && s.procs[p].CkFsyncMeta?
    ensures Inv(AtFsyncMeta(s, p, s.procs[p], o))
  {
    hide Inv, Dumped, StoreInv, Closed, Published, Separate, Numbered, Durable, NonEmpty, Evolves,
      SamePublished, Contents, Sound, Spare, ReaderInv, History, FormatMetadata, Settled, ImageFormat.Complete;
    InvParts(s, p);
    var s' := AtFsyncMeta(s, p, s.procs[p], o);
    var q := s.procs[p];
    if o.ok {
      FsyncKeeps(s.fs, MetaTmp, s.nextNumber, s.acked);
      SettledKeeps(s.fs, s'.fs, q.slot, q.ino, q.number, s.acked);
      ContentsKeep(s.fs);
      SameIsNoMore(s.fs, s'.fs);
      HistoryKeeps(s, s', p, s'.procs[p]);
      HolderMoves(s, s', p, s'.procs[p]);
    } else {
      Moves(s, s', p, s'.procs[p]);
    }
  }

  lemma PublishMeta(fs: Fs, slot: Slot, ino: nat, number: nat, next: nat, acked: nat)
    requires StoreInv(fs, next, acked) && MetaTmp in fs.entries
    requires Names(fs, Some(fs.entries[MetaTmp]), slot) && OnDisk(fs, Some(fs.entries[MetaTmp]))
    requires Settled(fs, slot, ino, number, acked)
    ensures var fs' := Rename(fs, MetaTmp, Meta);
      && StoreInv(fs', next, acked) && Evolves(fs, fs') && fs'.inodes == fs.inodes
      && Settled(fs', slot, ino, number, acked)
      && Lookup(fs', Meta) == Some(fs.entries[MetaTmp])
      && (NonEmpty(fs) && Dumped(fs, Some(ino)) ==> NonEmpty(fs'))
  {
    hide Closed, Published, Separate, Numbered, Durable, NonEmpty, Evolves, Settled, StoreInv, ImageFormat.Complete;
    var mino := fs.entries[MetaTmp];
    var fs' := Rename(fs, MetaTmp, Meta);
    RenameRenames(fs, MetaTmp, Meta);
    PublishMetaKeeps(fs, fs', mino, slot, ino, number, next, acked);
    StoreParts(fs, next, acked);
    PublishMetaEvolves(fs, fs', mino, slot, ino, number, acked);
  }

  lemma StoreParts(fs: Fs, next: nat, acked: nat)
    requires StoreInv(fs, next, acked)
    ensures Closed(fs) && Separate(fs)
  {
    hide ImageFormat.Complete;
  }

  lemma RenameMetaStep(s: Sys, p: Pid, o: Outcome)
    requires Inv(s) && Enabled(s, Call(p, o)) && s.procs[p].CkRenameMeta?
    ensures Inv(AtRenameMeta(s, p, s.procs[p], o))
  {
    hide Inv, StoreInv, Dumped, Closed, Published, Separate, Numbered, Durable, NonEmpty, Evolves,
      SamePublished, Contents, Sound, Spare, ReaderInv, History, FormatMetadata, Settled, ImageFormat.Complete;
    InvParts(s, p);
    var s' := AtRenameMeta(s, p, s.procs[p], o);
    var q := s.procs[p];
    if o.ok {
      PublishMeta(s.fs, q.slot, q.ino, q.number, s.nextNumber, s.acked);
      ContentsSame(s.fs, s'.fs);
      HistoryOver(s');
      HolderMoves(s, s', p, s'.procs[p]);
    } else {
      Moves(s, s', p, s'.procs[p]);
    }
  }

  /** The acknowledgement: the only metadata left names a slot whose only content is this capture. */
  lemma FsyncRootStep(s: Sys, p: Pid, o: Outcome)
    requires Inv(s) && Enabled(s, Call(p, o)) && s.procs[p].CkFsyncRoot?
    ensures Inv(AtFsyncRoot(s, p, s.procs[p], o))
  {
    hide Inv, Closed, Published, Separate, Numbered, Durable, NonEmpty, Evolves, SamePublished, Contents, Sound,
      Spare, ReaderInv, History, FormatMetadata, ImageFormat.Complete;
    InvParts(s, p);
    var s' := AtFsyncRoot(s, p, s.procs[p], o);
    var q := s.procs[p];
    if o.ok {
      FsyncDirKeeps(s.fs, Root, s.nextNumber, s.acked);
      ContentsSame(s.fs, s'.fs);
      Acknowledged(s.fs, q.slot, q.ino, q.number, q.mino, s.nextNumber, s.acked);
      HistoryKeeps(s, s', p, s'.procs[p]);
      HolderMoves(s, s', p, CkUnlock);
    } else {
      Moves(s, s', p, CkUnlock);
    }
  }

  lemma UnlinkStep(s: Sys, p: Pid, o: Outcome)
    requires Inv(s) && Enabled(s, Call(p, o)) && s.procs[p].CkUnlinkTmp?
    ensures Inv(AtUnlink(s, p, s.procs[p], o))
  {
    hide Inv, Closed, Published, Separate, Numbered, Durable, NonEmpty, Evolves, SamePublished, Contents, Sound,
      Spare, ReaderInv, History, FormatMetadata, ImageFormat.Complete;
    InvParts(s, p);
    var q := s.procs[p];
    var s' := AtUnlink(s, p, q, o);
    if o.ok {
      UnlinkKeeps(s.fs, q.name, s.nextNumber, s.acked);
      ContentsSame(s.fs, s'.fs);
      SameIsNoMore(s.fs, s'.fs);
      HistoryKeeps(s, s', p, s'.procs[p]);
      HolderMoves(s, s', p, CkUnlock);
    } else {
      Moves(s, s', p, CkUnlock);
    }
  }

  // ---- Restoring ----

  /** Opening whatever snapshot.bin is now: the inode will never be written again. */
  lemma OpenedIsFrozen(fs: Fs, slot: Slot)
    requires Separate(fs) && Closed(fs) && Published(fs) && Snap(slot) in fs.entries
    ensures Frozen(fs, fs.entries[Snap(slot)]) && IsImage(fs, Lookup(fs, Snap(slot)))
    ensures AtLeast(fs, slot, fs.inodes[fs.entries[Snap(slot)]].content.number)
  {
    hide ImageFormat.Complete;
    assert May(fs, Snap(slot), Lookup(fs, Snap(slot)));
  }

  lemma OpenedMeta(fs: Fs, acked: nat)
    requires Separate(fs) && Closed(fs) && Published(fs) && Durable(fs, acked) && Meta in fs.entries
    ensures ReaderInv(fs, RsReadMeta(fs.entries[Meta], acked))
  {
    hide ImageFormat.Complete;
    var v := Lookup(fs, Meta);
    assert May(fs, Meta, v);
    var slot := fs.inodes[v.value].content.slot;
    assert Names(fs, v, slot) && SlotHolds(fs, slot, acked);
    assert May(fs, Snap(slot), Lookup(fs, Snap(slot)));
    assert AtLeast(fs, slot, acked);
  }

  lemma RestoreOpens(s: Sys, p: Pid, o: Outcome)
    requires Inv(s) && Enabled(s, Call(p, o))
    requires var q := s.procs[p]; q.RsProbeA? || q.RsProbeB? || q.RsOpen? || q.ChOpen?
    ensures Inv(Restore(s, p, o))
  {
    hide Inv, StoreInv, Separate, Numbered, NonEmpty, History, Spare, Contents, Closed, Published, Durable,
      ReadSlot, ImageFormat.Complete;
    InvParts(s, p);
    var s' := Restore(s, p, o);
    if p !in s'.procs {
      Exits(s, p);
    } else if s'.procs[p].RsProbeB? {
      Moves(s, s', p, s'.procs[p]);
    } else {
      OpenedIsFrozen(s.fs, s'.procs[p].slot);
      Moves(s, s', p, s'.procs[p]);
    }
  }

  lemma RestoreForks(s: Sys, p: Pid, o: Outcome)
    requires Inv(s) && Enabled(s, Call(p, o)) && s.procs[p].RsFork?
    ensures Inv(Restore(s, p, o))
  {
    hide Inv, StoreInv, Separate, Numbered, NonEmpty, History, Spare, Contents, Closed, Published, Durable,
      ReadSlot, ImageFormat.Complete;
    InvParts(s, p);
    var s' := Restore(s, p, o);
    Exits(s, p);
    if o.ok {
      Moves(Exit(s, p), s', o.child, s'.procs[o.child]);
    }
  }

  lemma RestoreMeta(s: Sys, p: Pid, o: Outcome)
    requires Inv(s) && Enabled(s, Call(p, o))
    requires s.procs[p].RsAccessMeta? || s.procs[p].RsOpenMeta?
    ensures Inv(Restore(s, p, o))
  {
    hide Separate, Numbered, NonEmpty, History, Spare, Contents, Closed, Published, Durable, ImageFormat.Complete;
    var s' := Restore(s, p, o);
    if s.procs[p].RsOpenMeta? && o.ok && Meta in s.fs.entries {
      OpenedMeta(s.fs, s.acked);
    }
    Moves(s, s', p, s'.procs[p]);
  }

  lemma RestoreKeeps(s: Sys, p: Pid, o: Outcome)
    requires Inv(s) && Enabled(s, Call(p, o)) && !IsCheckpoint(s.procs[p])
    ensures Inv(Restore(s, p, o))
  {
    hide Inv, StoreInv, Separate, Numbered, NonEmpty, History, Spare, Contents, Closed, Published, Durable,
      ReadSlot, ImageFormat.Complete;
    InvParts(s, p);
    var q := s.procs[p];
    if q.RsAccessMeta? || q.RsOpenMeta? {
      RestoreMeta(s, p, o);
    } else if q.RsReadMeta? {
      ReadMetaKeeps(s, p, o);
    } else if q.RsProbeA? || q.RsProbeB? || q.RsOpen? || q.ChOpen? {
      RestoreOpens(s, p, o);
    } else if q.RsFork? {
      RestoreForks(s, p, o);
    } else if q.RsLoad? && o.ok {
      Moves(s, Restore(s, p, o), p, RsFork(q.slot, q.floor, q.seen));
    } else {
      Exits(s, p);
    }
  }

  lemma ReadMetaKeeps(s: Sys, p: Pid, o: Outcome)
    requires Inv(s) && Enabled(s, Call(p, o)) && s.procs[p].RsReadMeta?
    ensures Inv(Restore(s, p, o))
  {
    hide Separate, Numbered, NonEmpty, History, Spare, Closed, Published, Durable, ImageFormat.Complete;
    var s' := Restore(s, p, o);
    var q := s.procs[p];
    var slot :| Names(s.fs, Some(q.ino), slot) && AtLeast(s.fs, slot, q.floor);
    assert Sound(s.fs.inodes[q.ino].content);
    Moves(s, s', p, s'.procs[p]);
  }

  // ---- Every step, every run ----

  lemma RebootContents(fs: Fs, pick: map<Name, nat>)
    requires Contents(fs)
    ensures Contents(Reboot(fs, pick))
  {
    hide ImageFormat.Complete;
    assert Sound(Torn);
  }

  lemma PowerLossKeeps(s: Sys, pick: map<Name, nat>)
    requires Inv(s) && Survives(s.fs, pick)
    ensures Inv(Apply(s, PowerLoss(pick)))
  {
    hide StoreInv, Contents, Sound, Reboot, Survives, ReaderInv, WriterInv, ImageFormat.Complete;
    RebootKeeps(s.fs, pick, s.nextNumber, s.acked);
    RebootContents(s.fs, pick);
  }

  lemma CheckpointKeeps(s: Sys, p: Pid, o: Outcome)
    requires Inv(s) && Enabled(s, Call(p, o)) && IsCheckpoint(s.procs[p])
    ensures Inv(Checkpoint(s, p, o))
  {
    hide Inv, ImageFormat.Complete, Exit, AtLock, AtMetaLookup, AtOpenTmp, AtWrite, AtFsync, AtRename, AtFsyncDir;
    hide AtManifest, AtOpenMetaTmp, AtWriteMeta, AtFsyncMeta, AtRenameMeta, AtFsyncRoot, AtUnlink;
    match s.procs[p] {
      case CkStart => LockStep(s, p, o);
      case CkOpenTmp(_, _) => OpenTmpStep(s, p, o);
      case CkWrite(_, _, _) => WriteStep(s, p, o);
      case CkFsync(_, _, _, _) => FsyncStep(s, p, o);
      case CkRename(_, _, _, _) => RenameStep(s, p, o);
      case CkFsyncDir(_, _, _) => FsyncDirStep(s, p, o);
      case CkManifest(_, _, _) => ManifestStep(s, p, o);
      case CkOpenMetaTmp(_, _, _) => OpenMetaTmpStep(s, p, o);
      case CkWriteMeta(_, _, _, _) => WriteMetaStep(s, p, o);
      case CkFsyncMeta(_, _, _, _) => FsyncMetaStep(s, p, o);
      case CkRenameMeta(_, _, _, _) => RenameMetaStep(s, p, o);
      case CkFsyncRoot(_, _, _, _) => FsyncRootStep(s, p, o);
      case CkUnlinkTmp(_) => UnlinkStep(s, p, o);
      case CkUnlock => Exits(s, p);
      case _ => MetaLookupStep(s, p, o);
    }
  }

  lemma StepKeeps(s: Sys, a: Action, s': Sys)
    requires Inv(s) && Step(s, a, s')
    ensures Inv(s')
  {
    hide Closed, Published, Separate, Numbered, Durable, NonEmpty, Contents, StoreInv, ImageFormat.Complete;
    match a {
      case Spawn(p, checkpoint) => Moves(s, s', p, s'.procs[p]);
      case Call(p, o) => if IsCheckpoint(s.procs[p]) { CheckpointKeeps(s, p, o); } else { RestoreKeeps(s, p, o); }
      case Kill(p) => Exits(s, p);
      case PowerLoss(pick) => PowerLossKeeps(s, pick);
    }
  }

  lemma InitHolds()
    ensures Inv(Init())
  {
    hide ImageFormat.Complete;
  }

  lemma {:induction false} RunKeeps(states: seq<Sys>, actions: seq<Action>)
    requires Run(states, actions) && Inv(states[0])
    ensures forall i :: 0 <= i < |states| ==> Inv(states[i])
  {
    hide Inv, ImageFormat.Complete;
    if |actions| > 0 {
      var n := |actions| - 1;
      assert forall i :: 0 <= i < n ==> actions[..n][i] == actions[i] && states[..n + 1][i] == states[i];
      RunKeeps(states[..n + 1], actions[..n]);
      assert states[..n + 1][n] == states[n];
      StepKeeps(states[n], actions[n], states[n + 1]);
      forall i | 0 <= i < |states|
        ensures Inv(states[i])
      {
        assert i <= n ==> states[..n + 1][i] == states[i];
      }
    }
  }
}
