/**
 Every step of the checkpoint store keeps the invariant.
 */
module ProtocolSteps {
  import opened Wrappers
  import opened CrashFs
  import opened Protocol
  import opened ProtocolInvariant
  import ImageFormat

  /** What no system call takes away from a process that reads without the lock. */
  ghost predicate Evolves(fs: Fs, fs': Fs) {
    && (forall i :: Frozen(fs, i) ==> Frozen(fs', i) && fs'.inodes[i].content == fs.inodes[i].content)
    && (forall slot, n :: AtLeast(fs, slot, n) ==> AtLeast(fs', slot, n))
  }

  /** The published names keep every value they have or may have, and so do the files behind them. */
  ghost predicate SamePublished(fs: Fs, fs': Fs) {
    && (forall n :: !IsTmp(n) ==> Lookup(fs', n) == Lookup(fs, n))
    && (forall n, v {:trigger May(fs', n, v)} :: !IsTmp(n) ==> May(fs', n, v) == May(fs, n, v))
    && (forall n, v {:trigger May(fs, n, v)} :: !IsTmp(n) && May(fs, n, v) && v.Some? ==>
          v.value in fs.inodes && v.value in fs'.inodes && fs'.inodes[v.value] == fs.inodes[v.value])
  }

  // ---- System calls on temporaries ----

  lemma SamePublishedStays(fs: Fs, fs': Fs)
    requires Published(fs) && SamePublished(fs, fs')
    ensures Published(fs')
    ensures forall slot, n :: AtLeast(fs, slot, n) ==> AtLeast(fs', slot, n)
  {
    assert forall n {:trigger Lookup(fs, n)} :: May(fs, n, Lookup(fs, n));
  }

  lemma SamePublishedDurable(fs: Fs, fs': Fs, acked: nat)
    requires Published(fs) && Durable(fs, acked) && SamePublished(fs, fs')
    ensures Durable(fs', acked)
  {
    forall v, s | May(fs', Meta, v) && Names(fs', v, s)
      ensures SlotHolds(fs', s, acked)
    {
      assert May(fs, Meta, v) && Names(fs, v, s) && SlotHolds(fs, s, acked);
    }
  }

  lemma SamePublishedKeeps(fs: Fs, fs': Fs, next: nat, acked: nat)
    requires StoreInv(fs, next, acked) && SamePublished(fs, fs')
    ensures Published(fs') && Durable(fs', acked)
    ensures forall slot, n :: AtLeast(fs, slot, n) ==> AtLeast(fs', slot, n)
  {
    hide Published, Durable, SamePublished;
    SamePublishedStays(fs, fs');
    SamePublishedDurable(fs, fs', acked);
  }

  lemma SameNonEmpty(fs: Fs, fs': Fs)
    requires Published(fs) && SamePublished(fs, fs')
    ensures NonEmpty(fs) ==> NonEmpty(fs')
  {
    if NonEmpty(fs) {
      forall v, s, w | May(fs', Meta, v) && Names(fs', v, s) && May(fs', Snap(s), w)
        ensures Dumped(fs', w)
      {
        assert May(fs, Meta, v) && Names(fs, v, s);
        assert May(fs, Snap(s), w) && Dumped(fs, w);
      }
    }
  }

  lemma SettledKeeps(fs: Fs, fs': Fs, slot: Slot, i: nat, number: nat, acked: nat)
    requires SamePublished(fs, fs') && Settled(fs, slot, i, number, acked)
    ensures Settled(fs', slot, i, number, acked)
    ensures Dumped(fs, Some(i)) ==> Dumped(fs', Some(i))
  {
    assert May(fs, Snap(slot), Lookup(fs, Snap(slot)));
    assert May(fs, Snap(slot), Some(i));
  }

  /** A temporary name leads to an empty file, which is new or was reached by that name alone. */
  ghost predicate Truncated(fs: Fs, fs': Fs, t: Name, j: nat) {
    && fs'.entries == fs.entries[t := j] && fs'.inodes == fs.inodes[j := Inode(Torn, false)]
    && (j !in fs.inodes || Lookup(fs, t) == Some(j))
    && (forall n, v {:trigger May(fs', n, v)} {:trigger May(fs, n, v)} ::
          && (May(fs, n, v) ==> May(fs', n, v) || n == t)
          && (May(fs', n, v) ==> May(fs, n, v) || (n == t && v == Some(j))))
  }

  lemma OpenTruncates(fs: Fs, t: Name, i: nat)
    requires i !in fs.inodes
    ensures Truncated(fs, OpenTrunc(fs, t, i), t, if t in fs.entries then fs.entries[t] else i)
  {
    if t in fs.entries {
      assert fs.entries[t := fs.entries[t]] == fs.entries;
    }
  }

  lemma TruncatedSame(fs: Fs, fs': Fs, t: Name, j: nat)
    requires Closed(fs) && Separate(fs) && IsTmp(t) && Truncated(fs, fs', t, j)
    ensures SamePublished(fs, fs') && Closed(fs')
  {
    assert forall n {:trigger Lookup(fs, n)} :: May(fs, n, Lookup(fs, n));
  }

  lemma TruncatedSeparate(fs: Fs, fs': Fs, t: Name, j: nat)
    requires Closed(fs) && Separate(fs) && IsTmp(t) && Truncated(fs, fs', t, j)
    ensures SamePublished(fs, fs') && Closed(fs') && Separate(fs')
    ensures forall k :: Frozen(fs, k) ==> Frozen(fs', k) && fs'.inodes[k].content == fs.inodes[k].content
  {
    hide SamePublished;
    TruncatedSame(fs, fs', t, j);
    assert forall n {:trigger Lookup(fs, n)} :: May(fs, n, Lookup(fs, n));
    assert forall n :: n in fs.entries ==> Lookup(fs, n) == Some(fs.entries[n]);
  }

  lemma OpenTruncKeeps(fs: Fs, t: Name, i: nat, next: nat, acked: nat)
    requires StoreInv(fs, next, acked) && IsTmp(t) && i !in fs.inodes
    ensures var fs' := OpenTrunc(fs, t, i);
      StoreInv(fs', next, acked) && SamePublished(fs, fs') && Evolves(fs, fs') && t in fs'.entries
  {
    OpenTruncates(fs, t, i);
    TruncatedSeparate(fs, OpenTrunc(fs, t, i), t, if t in fs.entries then fs.entries[t] else i);
    SamePublishedKeeps(fs, OpenTrunc(fs, t, i), next, acked);
  }

  /** Writing an inode that only one temporary name leads to. */
  lemma FillKeeps(fs: Fs, t: Name, c: Content, next: nat, acked: nat)
    requires StoreInv(fs, next, acked) && IsTmp(t) && t in fs.entries
    requires c.Image? ==> c.number == next
    ensures var fs' := Fill(fs, fs.entries[t], c);
      StoreInv(fs', next + 1, acked) && (!c.Image? ==> StoreInv(fs', next, acked))
      && SamePublished(fs, fs') && Evolves(fs, fs')
  {
    var fs' := Fill(fs, fs.entries[t], c);
    assert forall n, v {:trigger May(fs', n, v)} :: May(fs', n, v) == May(fs, n, v);
    assert May(fs, t, Some(fs.entries[t]));
    assert SamePublished(fs, fs');
    SamePublishedKeeps(fs, fs', next, acked);
  }

  lemma FsyncKeeps(fs: Fs, t: Name, next: nat, acked: nat)
    requires StoreInv(fs, next, acked) && IsTmp(t) && t in fs.entries && fs.entries[t] in fs.inodes
    ensures var fs' := Fsync(fs, fs.entries[t]);
      StoreInv(fs', next, acked) && SamePublished(fs, fs') && Evolves(fs, fs')
  {
    var fs' := Fsync(fs, fs.entries[t]);
    assert forall n, v {:trigger May(fs', n, v)} :: May(fs', n, v) == May(fs, n, v);
    assert May(fs, t, Some(fs.entries[t]));
    assert SamePublished(fs, fs');
    SamePublishedKeeps(fs, fs', next, acked);
  }

  lemma UnlinkKeeps(fs: Fs, t: Name, next: nat, acked: nat)
    requires StoreInv(fs, next, acked) && IsTmp(t)
    ensures var fs' := Unlink(fs, t); StoreInv(fs', next, acked) && SamePublished(fs, fs') && Evolves(fs, fs')
  {
    var fs' := Unlink(fs, t);
    assert forall n, v {:trigger May(fs', n, v)} :: May(fs', n, v) ==> May(fs, n, v) || (n == t && v == None);
    assert SamePublished(fs, fs');
    SamePublishedKeeps(fs, fs', next, acked);
  }

  // ---- Publishing ----

  ghost predicate Renamed(fs: Fs, fs': Fs, from: Name, to: Name, i: nat) {
    && from in fs.entries && fs.entries[from] == i
    && IsTmp(from) && !IsTmp(to)
    && fs'.inodes == fs.inodes
    && fs'.entries == fs.entries[to := i] - {from}
    && (forall n, v {:trigger May(fs', n, v)} :: May(fs', n, v) <==>
          May(fs, n, v) || (n == to && v == Some(i)) || (n == from && v == None))
  }

  lemma RenameRenames(fs: Fs, from: Name, to: Name)
    requires from in fs.entries && IsTmp(from) && !IsTmp(to)
    ensures Renamed(fs, Rename(fs, from, to), from, to, fs.entries[from])
  {
  }

  lemma RenamedSeparate(fs: Fs, fs': Fs, from: Name, to: Name, i: nat)
    requires Closed(fs) && Separate(fs) && Renamed(fs, fs', from, to, i)
    ensures Closed(fs') && Separate(fs')
    ensures forall j :: Frozen(fs, j) ==> Frozen(fs', j)
  {
    assert May(fs, from, Lookup(fs, from));
  }

  lemma PublishSnapPublished(fs: Fs, fs': Fs, slot: Slot, i: nat)
    requires Published(fs) && Renamed(fs, fs', SnapTmp(slot), Snap(slot), i)
    requires IsImage(fs, Some(i)) && OnDisk(fs, Some(i))
    ensures Published(fs')
  {
  }

  lemma PublishSnapDurable(fs: Fs, fs': Fs, slot: Slot, i: nat, number: nat, acked: nat)
    requires Durable(fs, acked) && Renamed(fs, fs', SnapTmp(slot), Snap(slot), i) && Newest(fs, i, number, acked)
    ensures Durable(fs', acked) && Newest(fs', i, number, acked)
  {
    assert forall v: Option<nat> :: IsImage(fs', v) == IsImage(fs, v) && Number(fs', v) == Number(fs, v);
    forall v, s | May(fs', Meta, v) && Names(fs', v, s)
      ensures SlotHolds(fs', s, acked)
    {
      assert May(fs, Meta, v) && Names(fs, v, s) && SlotHolds(fs, s, acked);
    }
  }

  /** rename(snapshot.bin.tmp, snapshot.bin): the slot gains a newer capture, whichever slot it is. */
  lemma PublishSnapKeeps(fs: Fs, fs': Fs, slot: Slot, i: nat, number: nat, next: nat, acked: nat)
    requires StoreInv(fs, next, acked) && Renamed(fs, fs', SnapTmp(slot), Snap(slot), i)
    requires Newest(fs, i, number, acked) && OnDisk(fs, Some(i))
    ensures StoreInv(fs', next, acked) && Newest(fs', i, number, acked)
  {
    hide Published, Durable, Closed, Separate;
    RenamedSeparate(fs, fs', SnapTmp(slot), Snap(slot), i);
    PublishSnapPublished(fs, fs', slot, i);
    PublishSnapDurable(fs, fs', slot, i, number, acked);
  }

  lemma PublishSnapEvolves(fs: Fs, fs': Fs, slot: Slot, i: nat, number: nat, acked: nat)
    requires Closed(fs) && Separate(fs) && Renamed(fs, fs', SnapTmp(slot), Snap(slot), i)
    requires Newest(fs, i, number, acked)
    ensures Evolves(fs, fs')
  {
    RenamedSeparate(fs, fs', SnapTmp(slot), Snap(slot), i);
    assert forall n {:trigger Lookup(fs, n)} :: May(fs, n, Lookup(fs, n));
    assert forall s :: Lookup(fs', Snap(s)) == if s == slot then Some(i) else Lookup(fs, Snap(s));
  }

  /** rename(active.meta.tmp, active.meta) */
  lemma PublishMetaDurable(fs: Fs, fs': Fs, mino: nat, slot: Slot, ino: nat, number: nat, acked: nat)
    requires Durable(fs, acked) && Renamed(fs, fs', MetaTmp, Meta, mino)
    requires Names(fs, Some(mino), slot) && Settled(fs, slot, ino, number, acked)
    ensures Durable(fs', acked)
    ensures Settled(fs', slot, ino, number, acked)
  {
    forall v, s | May(fs', Meta, v) && Names(fs', v, s)
      ensures SlotHolds(fs', s, acked)
    {
      assert Names(fs, v, s) && (May(fs, Meta, v) || s == slot);
      assert SlotHolds(fs, s, acked);
    }
  }

  lemma PublishMetaPublished(fs: Fs, fs': Fs, mino: nat, slot: Slot)
    requires Published(fs) && Renamed(fs, fs', MetaTmp, Meta, mino)
    requires Names(fs, Some(mino), slot) && OnDisk(fs, Some(mino))
    ensures Published(fs')
  {
    assert slot == A || slot == B;
  }

  lemma PublishMetaKeeps(fs: Fs, fs': Fs, mino: nat, slot: Slot, ino: nat, number: nat, next: nat, acked: nat)
    requires StoreInv(fs, next, acked) && Renamed(fs, fs', MetaTmp, Meta, mino)
    requires Names(fs, Some(mino), slot) && OnDisk(fs, Some(mino)) && Settled(fs, slot, ino, number, acked)
    ensures StoreInv(fs', next, acked)
    ensures Settled(fs', slot, ino, number, acked)
  {
    RenamedSeparate(fs, fs', MetaTmp, Meta, mino);
    PublishMetaDurable(fs, fs', mino, slot, ino, number, acked);
    PublishMetaPublished(fs, fs', mino, slot);
  }

  lemma PublishMetaEvolves(fs: Fs, fs': Fs, mino: nat, slot: Slot, ino: nat, number: nat, acked: nat)
    requires Closed(fs) && Separate(fs) && Renamed(fs, fs', MetaTmp, Meta, mino)
    requires Names(fs, Some(mino), slot) && Settled(fs, slot, ino, number, acked)
    ensures Evolves(fs, fs')
    ensures NonEmpty(fs) && Dumped(fs, Some(ino)) ==> NonEmpty(fs')
  {
    RenamedSeparate(fs, fs', MetaTmp, Meta, mino);
    assert forall s :: Lookup(fs', Snap(s)) == Lookup(fs, Snap(s));
    if NonEmpty(fs) && Dumped(fs, Some(ino)) {
      forall v, s, w | May(fs', Meta, v) && Names(fs', v, s) && May(fs', Snap(s), w)
        ensures Dumped(fs', w)
      {
        assert Names(fs, v, s) && May(fs, Snap(s), w);
      }
    }
  }

  /** Less may be lost, and nothing else changes. */
  lemma FsyncDirMay(fs: Fs, d: Dir)
    ensures var fs' := FsyncDir(fs, d);
      && (forall n :: Lookup(fs', n) == Lookup(fs, n))
      && (forall n, v {:trigger May(fs', n, v)} :: May(fs', n, v) ==> May(fs, n, v))
      && (forall n, v {:trigger May(fs', n, v)} :: DirOf(n) == d ==> May(fs', n, v) == (v == Lookup(fs, n)))
      && (forall n, v {:trigger May(fs', n, v)} :: DirOf(n) != d ==> May(fs', n, v) == May(fs, n, v))
  {
  }

  /** Fewer values may come back for the same files. */
  ghost predicate Narrower(fs: Fs, fs': Fs) {
    && fs'.inodes == fs.inodes && fs'.entries == fs.entries
    && (forall n, v {:trigger May(fs', n, v)} :: May(fs', n, v) ==> May(fs, n, v))
  }

  lemma NarrowerNonEmpty(fs: Fs, fs': Fs)
    requires Narrower(fs, fs')
    ensures NonEmpty(fs) ==> NonEmpty(fs')
    ensures Evolves(fs, fs')
  {
    if NonEmpty(fs) {
      forall v, s, w | May(fs', Meta, v) && Names(fs', v, s) && May(fs', Snap(s), w)
        ensures Dumped(fs', w)
      {
        assert May(fs, Meta, v) && Names(fs, v, s) && May(fs, Snap(s), w);
      }
    }
  }

  lemma NarrowerDurable(fs: Fs, fs': Fs, acked: nat)
    requires Narrower(fs, fs') && Durable(fs, acked)
    ensures Durable(fs', acked)
  {
    forall v, s | May(fs', Meta, v) && Names(fs', v, s)
      ensures SlotHolds(fs', s, acked)
    {
      assert May(fs, Meta, v) && Names(fs, v, s) && SlotHolds(fs, s, acked);
    }
  }

  lemma NarrowerKeeps(fs: Fs, fs': Fs, next: nat, acked: nat)
    requires Narrower(fs, fs') && StoreInv(fs, next, acked)
    ensures StoreInv(fs', next, acked)
  {
    hide Durable;
    NarrowerDurable(fs, fs', acked);
  }

  lemma FsyncDirKeeps(fs: Fs, d: Dir, next: nat, acked: nat)
    requires StoreInv(fs, next, acked)
    ensures var fs' := FsyncDir(fs, d);
      StoreInv(fs', next, acked) && Evolves(fs, fs') && (NonEmpty(fs) ==> NonEmpty(fs'))
  {
    hide StoreInv, NonEmpty, Evolves;
    var fs' := FsyncDir(fs, d);
    FsyncDirMay(fs, d);
    assert Narrower(fs, fs');
    NarrowerNonEmpty(fs, fs');
    NarrowerKeeps(fs, fs', next, acked);
  }

  // ---- Power loss ----

  lemma RebootMay(fs: Fs, pick: map<Name, nat>)
    requires Survives(fs, pick)
    ensures var fs' := Reboot(fs, pick);
      && (forall n, v {:trigger May(fs', n, v)} :: May(fs', n, v) ==> v == Lookup(fs', n) && May(fs, n, v))
      && (forall v :: OnDisk(fs, v) ==> OnDisk(fs', v) && fs'.inodes[v.value] == fs.inodes[v.value])
  {
    var fs' := Reboot(fs, pick);
    assert forall n {:trigger Lookup(fs', n)} :: May(fs, n, Lookup(fs', n));
  }

  lemma RebootPublished(fs: Fs, pick: map<Name, nat>, next: nat)
    requires Closed(fs) && Published(fs) && Numbered(fs, next) && Survives(fs, pick)
    ensures var fs' := Reboot(fs, pick); Closed(fs') && Published(fs') && Numbered(fs', next)
  {
    hide Survives;
    RebootMay(fs, pick);
  }

  lemma RebootSeparate(fs: Fs, pick: map<Name, nat>)
    requires Survives(fs, pick)
    ensures Separate(Reboot(fs, pick))
  {
    var fs' := Reboot(fs, pick);
    RebootMay(fs, pick);
    assert forall n :: n in fs'.entries ==> Lookup(fs', n) == Some(fs'.entries[n]);
  }

  /** Published files are on disk, so what they are does not change. */
  lemma RebootFiles(fs: Fs, pick: map<Name, nat>)
    requires Published(fs) && Survives(fs, pick)
    ensures var fs' := Reboot(fs, pick);
      && (forall n, v {:trigger May(fs', n, v)} :: !IsTmp(n) && May(fs', n, v) ==>
            && May(fs, n, v)
            && (v.Some? ==> v.value in fs.inodes && v.value in fs'.inodes && fs'.inodes[v.value] == fs.inodes[v.value]))
  {
    hide Survives;
    RebootMay(fs, pick);
    assert forall n, v :: !IsTmp(n) && May(fs, n, v) && v.Some? ==> OnDisk(fs, v);
  }

  lemma RebootDurable(fs: Fs, pick: map<Name, nat>, acked: nat)
    requires Published(fs) && Durable(fs, acked) && Survives(fs, pick)
    ensures Durable(Reboot(fs, pick), acked)
    ensures NonEmpty(fs) ==> NonEmpty(Reboot(fs, pick))
  {
    hide Survives, Reboot, Published;
    var fs' := Reboot(fs, pick);
    RebootFiles(fs, pick);
    forall v, s | May(fs', Meta, v) && Names(fs', v, s)
      ensures SlotHolds(fs', s, acked)
    {
      assert May(fs, Meta, v) && Names(fs, v, s) && SlotHolds(fs, s, acked);
    }
    if NonEmpty(fs) {
      forall v, s, w | May(fs', Meta, v) && Names(fs', v, s) && May(fs', Snap(s), w)
        ensures Dumped(fs', w)
      {
        assert May(fs, Meta, v) && Names(fs, v, s) && May(fs, Snap(s), w) && Dumped(fs, w);
      }
    }
  }

  lemma RebootKeeps(fs: Fs, pick: map<Name, nat>, next: nat, acked: nat)
    requires StoreInv(fs, next, acked) && Survives(fs, pick)
    ensures var fs' := Reboot(fs, pick);
      StoreInv(fs', next, acked) && (NonEmpty(fs) ==> NonEmpty(fs'))
      && (forall n, v {:trigger May(fs', n, v)} :: May(fs', n, v) ==> May(fs, n, v))
  {
    hide Survives, Reboot, Closed, Published, Numbered, Separate, Durable, NonEmpty;
    RebootPublished(fs, pick, next);
    RebootSeparate(fs, pick);
    RebootDurable(fs, pick, acked);
    RebootMay(fs, pick);
  }

  // ---- Steps of one process ----

  lemma ReaderKeeps(fs: Fs, fs': Fs, q: Proc)
    requires Evolves(fs, fs') && ReaderInv(fs, q)
    ensures ReaderInv(fs', q)
  {
    if q.RsReadMeta? {
      var slot :| Names(fs, Some(q.ino), slot) && AtLeast(fs, slot, q.floor);
      assert Names(fs', Some(q.ino), slot) && AtLeast(fs', slot, q.floor);
    }
  }

  lemma IdleWrites(s: Sys, q: Proc)
    requires !Holding(q)
    ensures WriterInv(s, q)
  {
  }

  /** The lock holder moves on to `q`; all the others are readers, or wait for the lock. */
  lemma HolderMoves(s: Sys, s': Sys, p: Pid, q: Proc)
    requires Inv(s) && p in s.procs && Holding(s.procs[p]) && Holding(q)
    requires s'.procs == s.procs[p := q] && s'.lock == s.lock
    requires StoreInv(s'.fs, s'.nextNumber, s'.acked) && Contents(s'.fs) && Evolves(s.fs, s'.fs)
    requires WriterInv(s', q) && History(s')
    ensures Inv(s')
  {
    hide StoreInv, Contents, Evolves, NonEmpty, History, WriterInv;
    forall r | r in s'.procs
      ensures ReaderInv(s'.fs, s'.procs[r]) && WriterInv(s', s'.procs[r])
      ensures Holding(s'.procs[r]) ==> s'.lock == Some(r)
    {
      if r != p {
        ReaderKeeps(s.fs, s'.fs, s.procs[r]);
        IdleWrites(s', s.procs[r]);
      }
    }
  }

  /** A process that does not write moves on to `q`. */
  lemma Moves(s: Sys, s': Sys, p: Pid, q: Proc)
    requires Inv(s)
    requires s'.procs == s.procs[p := q] && s'.fs == s.fs && s'.nextNumber == s.nextNumber && s'.acked == s.acked
    requires s'.metaEver == s.metaEver
    requires s'.lock == s.lock || (s.lock.None? && s'.lock == Some(p))
    requires Holding(q) ==> s'.lock == Some(p)
    requires ReaderInv(s.fs, q) && WriterInv(s', q) && (!s.metaEver ==> OnlyA(q))
    ensures Inv(s')
  {
  }

  lemma Exits(s: Sys, p: Pid)
    requires Inv(s)
    ensures Inv(Exit(s, p))
  {
    hide StoreInv, Contents, ReaderInv, Holding;
    assert Exit(s, p).fs == s.fs;
  }
}
