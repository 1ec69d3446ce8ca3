/**
 Rebuilding the fd table: `restore_supported_fds` with "lowest free descriptor" opens.
 */
module FdTable {
  import opened Bytes
  import opened ImageFormat
  import opened Common

  /** An open file: its path and flags, its position, and the bytes of the file it was opened on. */
  datatype OpenFile = OpenFile(path: CString, flags: int, position: nat, data: seq<byte>)

  type Fds = map<nat, OpenFile>

  /** Which of the calls made for one entry succeed. */
  datatype Calls = Calls(opens: bool, seeks: bool, dups: bool)

  /** The file system as the child sees it. */
  type Contents = CString -> seq<byte>

  /** The number open and dup hand out. */
  function LowestFree(fds: Fds): (fd: nat)
    ensures fd !in fds && forall k: nat :: k < fd ==> k in fds
  {
    LowestUnused(fds)
  }

  /** The loop does not skip the entry, and its open succeeds. */
  predicate Opened(e: FdEntry, c: Calls) {
    e.supported != 0 && e.fd > 2 && c.opens
  }

  /** The open and, if the file got another number, the dup succeed for an entry that is not skipped. */
  predicate Restores(e: FdEntry, c: Calls) {
    e.supported != 0 && e.fd > 2 && c.opens && c.dups
  }

  function FileOf(e: FdEntry, c: Calls, contents: Contents): OpenFile {
    OpenFile(e.target, e.flags, if e.position > 0 && c.seeks then e.position else 0, contents(e.target))
  }

  /** The file is open as the entry describes it, at the saved position if there is one and its seek succeeded. */
  predicate Reopened(f: OpenFile, e: FdEntry, c: Calls, contents: Contents) {
    && f.path == e.target && f.flags == e.flags && f.data == contents(e.target)
    && (e.position > 0 && c.seeks ==> f.position == e.position)
    && (e.position <= 0 || !c.seeks ==> f.position == 0)
  }

  /** The table after the first `k` entries. */
  function After(fds: Fds, entries: seq<FdEntry>, calls: seq<Calls>, contents: Contents, k: nat): Fds
    requires k <= |entries| == |calls|
  {
    if k == 0 then fds
    else
      var before := After(fds, entries, calls, contents, k - 1);
      if PlacedIn(before, entries[k - 1], calls[k - 1])
      then before[entries[k - 1].fd := FileOf(entries[k - 1], calls[k - 1], contents)]
      else before
  }

  /** The file ends up at its own number: the open happened to return it, or dup2 moved it there. */
  predicate PlacedIn(before: Fds, e: FdEntry, c: Calls) {
    Opened(e, c) && (LowestFree(before) == e.fd || c.dups)
  }

  predicate Placed(fds: Fds, entries: seq<FdEntry>, calls: seq<Calls>, contents: Contents, i: nat)
    requires i < |entries| == |calls|
  {
    PlacedIn(After(fds, entries, calls, contents, i), entries[i], calls[i])
  }

  /** The child's descriptors. */
  class Table {
    var fds: Fds

    constructor (fds: Fds)
      ensures this.fds == fds
    {
      this.fds := fds;
    }

    method Open(path: CString, flags: int, data: seq<byte>, ok: bool) returns (fd: int)
      modifies this
      ensures ok ==> fd == LowestFree(old(fds)) && fds == old(fds)[fd := OpenFile(path, flags, 0, data)]
      ensures !ok ==> fd == -1 && fds == old(fds)
    {
      if !ok { return -1; }
      var free := LowestFree(fds);
      fds := fds[free := OpenFile(path, flags, 0, data)];
      fd := free;
    }

    method LSeek(fd: nat, position: nat, ok: bool)
      requires fd in fds
      modifies this
      ensures fds == if ok then old(fds)[fd := old(fds)[fd].(position := position)] else old(fds)
    {
      if ok {
        fds := fds[fd := fds[fd].(position := position)];
      }
    }

    method Dup2(from: nat, to: nat, ok: bool)
      requires from in fds
      modifies this
      ensures fds == if ok then old(fds)[to := old(fds)[from]] else old(fds)
    {
      if ok {
        fds := fds[to := fds[from]];
      }
    }

    method Close(fd: nat)
      modifies this
      ensures fds == old(fds) - {fd}
    {
      fds := fds - {fd};
    }
  }

  /** restore_supported_fds */
  method RestoreSupportedFds(table: Table, entries: seq<FdEntry>, calls: seq<Calls>, contents: Contents)
    requires |calls| == |entries|
    modifies table
    ensures table.fds == After(old(table.fds), entries, calls, contents, |entries|)
    ensures DistinctFds(entries) ==> forall i :: 0 <= i < |entries| && Restores(entries[i], calls[i]) ==>
      entries[i].fd in table.fds && Reopened(table.fds[entries[i].fd], entries[i], calls[i], contents)
  {
    hide Reopened, DistinctFds;
    var index := 0;
    while index < |entries|
      invariant index <= |entries|
      invariant table.fds == After(old(table.fds), entries, calls, contents, index)
    {
      var e, c := entries[index], calls[index];
      ghost var before := table.fds;
      if e.supported == 0 || e.fd <= 2 {
        index := index + 1;
        continue;
      }
      var fd := table.Open(e.target, e.flags, contents(e.target), c.opens);
      if fd < 0 {
        index := index + 1;
        continue;
      }
      if e.position > 0 {
        table.LSeek(fd, e.position, c.seeks);
      }
      assert table.fds == before[fd := FileOf(e, c, contents)];
      if fd != e.fd {
        table.Dup2(fd, e.fd, c.dups);
        table.Close(fd);
        assert table.fds == if c.dups then before[e.fd := FileOf(e, c, contents)] else before;
      }
      index := index + 1;
    }
    if DistinctFds(entries) {
      FdsRestored(old(table.fds), entries, calls, contents);
    }
  }

  // ---- What the loop achieves ----

  predicate DistinctFds(entries: seq<FdEntry>) {
    forall i, j :: 0 <= i < j < |entries| ==> entries[i].fd != entries[j].fd
  }

  /**
   Number by number: `n` leads to the file of the last entry placed there, and without one it
   is as it was at the start, so no temporary descriptor remains and no other one changes.
   */
  lemma {:induction false} TableByNumber(
    fds: Fds, entries: seq<FdEntry>, calls: seq<Calls>, contents: Contents, k: nat, n: nat)
    requires k <= |entries| == |calls|
    ensures var final := After(fds, entries, calls, contents, k);
      var i := LastPlaced(fds, entries, calls, contents, k, n);
      if i >= 0 then n in final && Reopened(final[n], entries[i], calls[i], contents)
      else (n in final <==> n in fds) && (n in fds ==> final[n] == fds[n])
  {
    if k > 0 {
      TableByNumber(fds, entries, calls, contents, k - 1, n);
    }
  }

  function LastPlaced(fds: Fds, entries: seq<FdEntry>, calls: seq<Calls>, contents: Contents, k: nat, n: nat): (i: int)
    requires k <= |entries| == |calls|
    ensures -1 <= i < k
    ensures i >= 0 ==> entries[i].fd == n && Placed(fds, entries, calls, contents, i)
    ensures forall j :: i < j < k ==> !(entries[j].fd == n && Placed(fds, entries, calls, contents, j))
  {
    if k == 0 then -1
    else if entries[k - 1].fd == n && Placed(fds, entries, calls, contents, k - 1) then k - 1
    else LastPlaced(fds, entries, calls, contents, k - 1, n)
  }

  /**
   With distinct numbers, every placed entry keeps its place to the end.  Each entry that the
   loop does not skip is placed if its open and its dup succeed, and none is if it is skipped or
   its open fails.
   */
  lemma FdsRestored(fds: Fds, entries: seq<FdEntry>, calls: seq<Calls>, contents: Contents)
    requires |entries| == |calls| && DistinctFds(entries)
    ensures forall i :: 0 <= i < |entries| ==>
      && (Restores(entries[i], calls[i]) ==> Placed(fds, entries, calls, contents, i))
      && (Placed(fds, entries, calls, contents, i) ==>
            entries[i].supported != 0 && entries[i].fd > 2 && calls[i].opens)
    ensures var final := After(fds, entries, calls, contents, |entries|);
      && (forall i :: 0 <= i < |entries| && Placed(fds, entries, calls, contents, i) ==>
            entries[i].fd in final && Reopened(final[entries[i].fd], entries[i], calls[i], contents))
      && (forall n: nat ::
            (forall i :: 0 <= i < |entries| && Placed(fds, entries, calls, contents, i) ==> entries[i].fd != n) ==>
            (n in final <==> n in fds) && (n in fds ==> final[n] == fds[n]))
  {
    var final := After(fds, entries, calls, contents, |entries|);
    forall i | 0 <= i < |entries| && Placed(fds, entries, calls, contents, i)
      ensures entries[i].fd in final && Reopened(final[entries[i].fd], entries[i], calls[i], contents)
    {
      TableByNumber(fds, entries, calls, contents, |entries|, entries[i].fd);
    }
    forall n: nat | forall i :: 0 <= i < |entries| && Placed(fds, entries, calls, contents, i) ==> entries[i].fd != n
      ensures (n in final <==> n in fds) && (n in fds ==> final[n] == fds[n])
    {
      TableByNumber(fds, entries, calls, contents, |entries|, n);
    }
  }
}
