/**
 `ulcr_atomic_write_text_file` on its own: replacing active.meta is all or nothing, and a return
 of 0 means the new text also survives a power loss.
 */
module DurableReplace {
  import opened Wrappers
  import opened CrashFs
  import opened Common
  import opened ProtocolInvariant
  import opened ProtocolSteps

  /** A file system that one process changes by system calls, each of which may fail. */
  class Disk {
    const kernel: Kernel
    var fs: Fs

    constructor (kernel: Kernel, fs: Fs)
      ensures this.kernel == kernel && this.fs == fs
    {
      this.kernel, this.fs := kernel, fs;
    }

    method Create(n: Name) returns (ok: bool)
      modifies this, kernel
      ensures kernel.faults == old(kernel.faults) + if ok then 0 else 1
      ensures !ok ==> fs == old(fs)
      ensures ok ==> exists i: nat :: i !in old(fs).inodes && fs == OpenTrunc(old(fs), n, i)
    {
      ok := kernel.Try();
      if ok {
        var i: nat := LowestUnused(fs.inodes);
        fs := OpenTrunc(fs, n, i);
      }
    }

    /** A short write leaves part of the text, which the model calls torn. */
    method Write(i: nat, c: Content) returns (full: bool)
      modifies this, kernel
      ensures kernel.faults == old(kernel.faults) + if full then 0 else 1
      ensures fs == Fill(old(fs), i, if full then c else Torn)
    {
      full := kernel.Try();
      fs := Fill(fs, i, if full then c else Torn);
    }

    method FsyncFile(i: nat) returns (ok: bool)
      requires i in fs.inodes
      modifies this, kernel
      ensures kernel.faults == old(kernel.faults) + if ok then 0 else 1
      ensures fs == if ok then Fsync(old(fs), i) else old(fs)
    {
      ok := kernel.Try();
      if ok {
        fs := Fsync(fs, i);
      }
    }

    method Move(from: Name, to: Name) returns (ok: bool)
      requires from in fs.entries
      modifies this, kernel
      ensures kernel.faults == old(kernel.faults) + if ok then 0 else 1
      ensures fs == if ok then Rename(old(fs), from, to) else old(fs)
    {
      ok := kernel.Try();
      if ok {
        fs := Rename(fs, from, to);
      }
    }

    method Remove(n: Name)
      modifies this, kernel
      ensures kernel.faults >= old(kernel.faults)
      ensures fs == old(fs) || fs == Unlink(old(fs), n)
    {
      var ok := kernel.Try();
      if ok {
        fs := Unlink(fs, n);
      }
    }

    method FsyncDirectory(d: Dir) returns (ok: bool)
      modifies this, kernel
      ensures kernel.faults == old(kernel.faults) + if ok then 0 else 1
      ensures fs == if ok then FsyncDir(old(fs), d) else old(fs)
    {
      ok := kernel.Try();
      if ok {
        fs := FsyncDir(fs, d);
      }
    }
  }

  /** What is in the file that an entry's value leads to after a power loss; None without a file. */
  function Left(fs: Fs, v: Option<nat>): Option<Content> {
    if v.None? then None
    else if v.value in fs.inodes && fs.inodes[v.value].synced then Some(fs.inodes[v.value].content)
    else Some(Torn)
  }

  /** What a process reads under the name now. */
  function Now(fs: Fs, n: Name): Option<Content> {
    if n in fs.entries && fs.entries[n] in fs.inodes then Some(fs.inodes[fs.entries[n]].content) else None
  }

  /** The entries are in the order the store's invariant asks for. */
  ghost predicate Ordered(fs: Fs) {
    Closed(fs) && Published(fs) && Separate(fs)
  }

  /** A power loss yields one of the values that `Left` is about. */
  lemma RebootLeaves(fs: Fs, pick: map<Name, nat>, n: Name)
    requires Survives(fs, pick) && Closed(fs)
    ensures var fs' := Reboot(fs, pick); May(fs, n, Lookup(fs', n)) && Now(fs', n) == Left(fs, Lookup(fs', n))
  {
    var fs' := Reboot(fs, pick);
    assert May(fs, n, Lookup(fs', n));
  }

  lemma SameIsTransitive(fs: Fs, fs': Fs, fs'': Fs)
    requires SamePublished(fs, fs') && SamePublished(fs', fs'')
    ensures SamePublished(fs, fs'')
  {
    forall n, v | !IsTmp(n) && May(fs, n, v) && v.Some?
      ensures v.value in fs.inodes && v.value in fs''.inodes && fs''.inodes[v.value] == fs.inodes[v.value]
    {
      assert May(fs', n, v);
    }
  }

  /** Any change of the file behind a temporary name. */
  lemma TmpFileChanges(fs: Fs, t: Name, node: Inode)
    requires Ordered(fs) && IsTmp(t) && t in fs.entries
    ensures var fs' := fs.(inodes := fs.inodes[fs.entries[t] := node]); SamePublished(fs, fs') && Ordered(fs')
  {
    var fs' := fs.(inodes := fs.inodes[fs.entries[t] := node]);
    assert forall n, v {:trigger May(fs', n, v)} :: May(fs', n, v) == May(fs, n, v);
    assert May(fs, t, Some(fs.entries[t]));
    assert SamePublished(fs, fs');
    SamePublishedStays(fs, fs');
  }

  lemma TmpRemoved(fs: Fs, t: Name)
    requires Ordered(fs) && IsTmp(t)
    ensures SamePublished(fs, Unlink(fs, t)) && Ordered(Unlink(fs, t))
  {
    var fs' := Unlink(fs, t);
    assert forall n, v {:trigger May(fs', n, v)} :: May(fs', n, v) ==> May(fs, n, v) || (n == t && v == None);
    assert SamePublished(fs, fs');
    SamePublishedStays(fs, fs');
  }

  lemma TmpCreated(fs: Fs, t: Name, i: nat)
    requires Ordered(fs) && IsTmp(t) && i !in fs.inodes
    ensures var fs' := OpenTrunc(fs, t, i); SamePublished(fs, fs') && Ordered(fs') && t in fs'.entries
  {
    OpenTruncates(fs, t, i);
    var fs' := OpenTrunc(fs, t, i);
    TruncatedSeparate(fs, fs', t, if t in fs.entries then fs.entries[t] else i);
    SamePublishedStays(fs, fs');
  }

  /** Nothing but active.meta and its temporary is any different. */
  ghost predicate OthersSame(fs: Fs, fs': Fs) {
    forall n, v {:trigger May(fs', n, v)} :: !IsTmp(n) && n != Meta ==>
      && Now(fs', n) == Now(fs, n)
      && May(fs', n, v) == May(fs, n, v) && (May(fs', n, v) ==> Left(fs', v) == Left(fs, v))
  }

  /** Every value active.meta may have after a power loss is new, or was possible before and reads the same. */
  ghost predicate AllOrNothing(fs: Fs, fs': Fs, file: Content) {
    forall v {:trigger May(fs', Meta, v)} :: May(fs', Meta, v) ==>
      Left(fs', v) == Some(file) || (May(fs, Meta, v) && Left(fs', v) == Left(fs, v))
  }

  /** Whatever happened to temporaries so far, nothing published is different. */
  lemma NothingHappened(fs: Fs, fs': Fs, c: Content)
    requires Ordered(fs) && SamePublished(fs, fs')
    ensures AllOrNothing(fs, fs', c) && OthersSame(fs, fs') && Now(fs', Meta) == Now(fs, Meta)
  {
    assert forall n {:trigger Lookup(fs, n)} :: May(fs, n, Lookup(fs, n));
    assert forall n :: n in fs.entries ==> Lookup(fs, n) == Some(fs.entries[n]);
    assert forall n :: n in fs'.entries ==> Lookup(fs', n) == Some(fs'.entries[n]);
    assert forall n :: !IsTmp(n) ==> Now(fs', n) == Now(fs, n);
  }

  /** The rename of a finished and fsynced temporary. */
  lemma Replaced(fs: Fs, fs1: Fs, slot: Slot, text: string)
    requires Ordered(fs) && SamePublished(fs, fs1) && Ordered(fs1)
    requires MetaTmp in fs1.entries && fs1.entries[MetaTmp] in fs1.inodes
    requires fs1.inodes[fs1.entries[MetaTmp]] == Inode(MetaFile(slot, text), true)
    ensures var fs2 := Rename(fs1, MetaTmp, Meta);
      && Ordered(fs2) && AllOrNothing(fs, fs2, MetaFile(slot, text)) && OthersSame(fs, fs2)
      && Now(fs2, Meta) == Some(MetaFile(slot, text)) && Left(fs2, Lookup(fs2, Meta)) == Some(MetaFile(slot, text))
  {
    hide Published, Separate, Closed;
    var c := MetaFile(slot, text);
    NothingHappened(fs, fs1, c);
    var mino := fs1.entries[MetaTmp];
    var fs2 := Rename(fs1, MetaTmp, Meta);
    RenameRenames(fs1, MetaTmp, Meta);
    RenamedSeparate(fs1, fs2, MetaTmp, Meta, mino);
    PublishMetaPublished(fs1, fs2, mino, slot);
    assert forall n :: !IsTmp(n) && n != Meta ==> Now(fs2, n) == Now(fs1, n);
    assert forall v :: Left(fs2, v) == Left(fs1, v);
    forall n, v | !IsTmp(n) && n != Meta
      ensures Now(fs2, n) == Now(fs, n) && May(fs2, n, v) == May(fs, n, v)
      ensures (May(fs2, n, v) ==> Left(fs2, v) == Left(fs, v))
    {
      assert May(fs2, n, v) == May(fs1, n, v);
    }
    assert forall v {:trigger May(fs2, Meta, v)} :: May(fs2, Meta, v) ==> May(fs1, Meta, v) || v == Some(mino);
  }

  /** The fsync of the directory leaves only the new file. */
  lemma Settles(fs: Fs, fs2: Fs, c: Content)
    requires Ordered(fs2) && AllOrNothing(fs, fs2, c) && OthersSame(fs, fs2)
    requires Now(fs2, Meta) == Some(c) && Left(fs2, Lookup(fs2, Meta)) == Some(c)
    ensures var fs3 := FsyncDir(fs2, Root);
      && Ordered(fs3) && AllOrNothing(fs, fs3, c) && OthersSame(fs, fs3) && Now(fs3, Meta) == Some(c)
      && (forall v :: May(fs3, Meta, v) ==> Left(fs3, v) == Some(c))
  {
    FsyncDirMay(fs2, Root);
    var fs3 := FsyncDir(fs2, Root);
    assert forall n :: Now(fs3, n) == Now(fs2, n);
  }

  /**
   ulcr_atomic_write_text_file(active.meta).  0: active.meta is the new file, now and after any
   power loss.  -1: it is as it was, or already the new file, which a power loss may take back.
   In both cases a power loss leaves all of the new file or what it could have left before, and
   no other published file changes.  `fits` tells whether the temporary's path fits its buffer;
   if it does, -1 takes a failing call.
   */
  method AtomicWriteTextFile(disk: Disk, slot: Slot, text: string, fits: bool) returns (code: int)
    requires Ordered(disk.fs)
    modifies disk, disk.kernel
    ensures code == 0 || code == -1
    ensures code == 0 <==> fits && disk.kernel.faults == old(disk.kernel.faults)
    ensures Ordered(disk.fs) && OthersSame(old(disk.fs), disk.fs)
    ensures AllOrNothing(old(disk.fs), disk.fs, MetaFile(slot, text))
    ensures code == 0 ==>
      && Now(disk.fs, Meta) == Some(MetaFile(slot, text))
      && forall v :: May(disk.fs, Meta, v) ==> Left(disk.fs, v) == Some(MetaFile(slot, text))
    ensures code == -1 ==>
      Now(disk.fs, Meta) == Now(old(disk.fs), Meta) || Now(disk.fs, Meta) == Some(MetaFile(slot, text))
  {
    hide Ordered, SamePublished, AllOrNothing, OthersSame, OpenTrunc, Unlink, FsyncDir, Rename, May, Now, Left;
    ghost var fs := disk.fs;
    var c := MetaFile(slot, text);
    SameAsItself(fs);
    NothingHappened(fs, fs, c);
    code := -1;
    if !fits { return; }
    var ok := disk.Create(MetaTmp);
    if !ok { return; }
    ghost var i: nat :| i !in fs.inodes && disk.fs == OpenTrunc(fs, MetaTmp, i);
    TmpCreated(fs, MetaTmp, i);
    var fd := disk.fs.entries[MetaTmp];
    ghost var fs1 := disk.fs;
    ok := disk.Write(fd, c);
    TmpFileChanges(fs1, MetaTmp, Inode(if ok then c else Torn, false));
    SameIsTransitive(fs, fs1, disk.fs);
    if !ok {
      Discard(disk, fs, c);
      return;
    }
    ghost var fs2 := disk.fs;
    ok := disk.FsyncFile(fd);
    if !ok {
      Discard(disk, fs, c);
      return;
    }
    TmpFileChanges(fs2, MetaTmp, Inode(c, true));
    SameIsTransitive(fs, fs2, disk.fs);
    Replaced(fs, disk.fs, slot, text);
    ok := disk.Move(MetaTmp, Meta);
    if !ok {
      Discard(disk, fs, c);
      return;
    }
    Settles(fs, disk.fs, c);
    ok := disk.FsyncDirectory(Root);
    if !ok { return; }
    code := 0;
  }

  /** The failure paths: unlink the temporary. */
  method Discard(disk: Disk, ghost fs: Fs, ghost c: Content)
    requires Ordered(fs) && Ordered(disk.fs) && SamePublished(fs, disk.fs)
    modifies disk, disk.kernel
    ensures disk.kernel.faults >= old(disk.kernel.faults)
    ensures Ordered(disk.fs) && AllOrNothing(fs, disk.fs, c) && OthersSame(fs, disk.fs)
    ensures Now(disk.fs, Meta) == Now(fs, Meta)
  {
    hide Ordered, SamePublished, AllOrNothing, OthersSame, Unlink, Now;
    TmpRemoved(disk.fs, MetaTmp);
    SameIsTransitive(fs, disk.fs, Unlink(disk.fs, MetaTmp));
    disk.Remove(MetaTmp);
    NothingHappened(fs, disk.fs, c);
  }

  lemma SameAsItself(fs: Fs)
    requires Ordered(fs)
    ensures SamePublished(fs, fs)
  {
  }

  /** After a replace, a power loss never leaves half a file: the new text, or what could have been left before. */
  lemma NeverHalf(fs: Fs, fs': Fs, pick: map<Name, nat>, c: Content)
    requires AllOrNothing(fs, fs', c) && Closed(fs') && Survives(fs', pick)
    ensures var read := Now(Reboot(fs', pick), Meta);
      read == Some(c) || exists v :: May(fs, Meta, v) && read == Left(fs, v)
  {
    hide Survives, Reboot, Now, Left;
    RebootLeaves(fs', pick, Meta);
  }
}
