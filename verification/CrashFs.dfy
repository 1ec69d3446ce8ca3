/**
 The part of a POSIX file system that the checkpoint store relies on.

 Directory entries are tracked by name.  Beside the entry that processes see now, every
 name carries the values it has had since its directory was last fsynced: after a power
 loss any one of them may come back.  An inode's bytes survive a power loss only if they
 were fsynced after the last write; otherwise they come back as `Torn`, that is, as any
 bytes at all.
 */
module CrashFs {
  import opened Wrappers
  import opened Bytes

  datatype Slot = A | B

  datatype Name =
    | Snap(slot: Slot)     // slot_X/snapshot.bin
    | SnapTmp(slot: Slot)  // slot_X/snapshot.bin.tmp
    | Meta                 // active.meta
    | MetaTmp              // active.meta.tmp

  datatype Dir = SlotDir(slot: Slot) | Root

  function DirOf(n: Name): Dir {
    match n
    case Snap(s) => SlotDir(s)
    case SnapTmp(s) => SlotDir(s)
    case Meta => Root
    case MetaTmp => Root
  }

  predicate IsTmp(n: Name) {
    n.SnapTmp? || n.MetaTmp?
  }

  /** The bytes `ulcr_capture_snapshot` left in a finished image, and how many regions it dumped. */
  datatype ImageFile = ImageFile(bytes: seq<byte>, included: nat)

  datatype Content =
    | Torn                                  // open for writing, half written, or lost
    | Image(number: nat, file: ImageFile)   // a finished capture; captures are numbered in order
    | MetaFile(slot: Slot, text: string)    // finished metadata, written for `slot`

  datatype Inode = Inode(content: Content, synced: bool)

  datatype Fs = Fs(
    inodes: map<nat, Inode>,
    entries: map<Name, nat>,
    past: set<(Name, Option<nat>)>)

  function Lookup(fs: Fs, n: Name): Option<nat> {
    if n in fs.entries then Some(fs.entries[n]) else None
  }

  /** After a power loss now, the entry `n` may have the value `v`. */
  predicate May(fs: Fs, n: Name, v: Option<nat>) {
    v == Lookup(fs, n) || (n, v) in fs.past
  }

  // ---- System calls ----

  function SetEntry(fs: Fs, n: Name, v: Option<nat>): Fs {
    fs.(entries := if v.Some? then fs.entries[n := v.value] else fs.entries - {n},
        past := fs.past + {(n, Lookup(fs, n))})
  }

  /** open(n, O_WRONLY | O_CREAT | O_TRUNC): `newInode` is the inode number a creation uses. */
  function OpenTrunc(fs: Fs, n: Name, newInode: nat): Fs {
    if n in fs.entries then fs.(inodes := fs.inodes[fs.entries[n] := Inode(Torn, false)])
    else SetEntry(fs.(inodes := fs.inodes[newInode := Inode(Torn, false)]), n, Some(newInode))
  }

  function Fill(fs: Fs, i: nat, c: Content): Fs {
    fs.(inodes := fs.inodes[i := Inode(c, false)])
  }

  function Fsync(fs: Fs, i: nat): Fs
    requires i in fs.inodes
  {
    fs.(inodes := fs.inodes[i := fs.inodes[i].(synced := true)])
  }

  function Rename(fs: Fs, from: Name, to: Name): Fs
    requires from in fs.entries
  {
    SetEntry(SetEntry(fs, to, Some(fs.entries[from])), from, None)
  }

  function Unlink(fs: Fs, n: Name): Fs {
    SetEntry(fs, n, None)
  }

  function FsyncDir(fs: Fs, d: Dir): Fs {
    fs.(past := set e | e in fs.past && DirOf(e.0) != d)
  }

  /**
   What a power loss may leave of the directories: every entry takes one of the values it
   may have, independently, except that a rename never leaves one inode under two names.
   */
  ghost predicate Survives(fs: Fs, pick: map<Name, nat>) {
    && (forall n: Name :: May(fs, n, if n in pick then Some(pick[n]) else None))
    && (forall n, m :: n in pick && m in pick && pick[n] == pick[m] ==> n == m)
  }

  function Reboot(fs: Fs, pick: map<Name, nat>): Fs {
    Fs(map i | i in fs.inodes :: if fs.inodes[i].synced then fs.inodes[i] else Inode(Torn, false),
       pick, {})
  }
}
