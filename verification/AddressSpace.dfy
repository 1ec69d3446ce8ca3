/**
 Rebuilding memory: `restore_managed_regions` on an address space of single bytes.
 */
module AddressSpace {
  import opened Bytes
  import opened Common
  import opened ImageFormat

  const MANAGED_BASE := 0x530000000000
  const MANAGED_LIMIT := 0x530000100000
  const READ_WRITE := 3
  /** No mapping reaches beyond the user half of the address space. */
  const TASK_SIZE := 0x800000000000

  datatype Cell = Cell(value: byte, prot: int)

  type Cells = map<nat, Cell>

  predicate InRange(a: nat, start: nat, size: nat) {
    start <= a < start + size
  }

  /** mmap(start, size, PROT_READ | PROT_WRITE, MAP_FIXED | MAP_PRIVATE | MAP_ANONYMOUS) */
  function MapAnonymous(cells: Cells, start: nat, size: nat): Cells {
    cells + map a: nat | start <= a < start + size && InRange(a, start, size) :: Cell(0, READ_WRITE)
  }

  function Mapped(cells: Cells, start: nat, size: nat): bool {
    forall a: nat :: start <= a < start + size ==> a in cells
  }

  function From(file: seq<byte>, offset: nat): seq<byte> {
    if offset <= |file| then file[offset..] else []
  }

  /** Storing bytes where memory is mapped. */
  function Store(cells: Cells, start: nat, data: seq<byte>): Cells
    requires Mapped(cells, start, |data|)
  {
    map a | a in cells :: if start <= a < start + |data| then cells[a].(value := data[a - start]) else cells[a]
  }

  function Protect(cells: Cells, start: nat, size: nat, prot: int): Cells {
    map a | a in cells :: if start <= a < start + size then cells[a].(prot := prot) else cells[a]
  }

  /** The regions that the loop does not skip. */
  predicate Managed(r: SavedRegion) {
    Included(r) && r.dataSize != 0 && MANAGED_BASE <= r.meta.start && r.meta.end <= MANAGED_LIMIT
  }

  predicate Covers(r: SavedRegion, a: nat) {
    r.meta.start <= a < r.meta.start + RegionSize(r.meta)
  }

  /** The child's memory. */
  class Space {
    const kernel: Kernel
    var cells: Cells

    constructor (kernel: Kernel, cells: Cells)
      ensures this.kernel == kernel && this.cells == cells
    {
      this.kernel, this.cells := kernel, cells;
    }

    method MMap(start: nat, size: nat) returns (ok: bool)
      modifies this, kernel
      ensures ok ==> size > 0 && start + size <= TASK_SIZE && cells == MapAnonymous(old(cells), start, size)
      ensures !ok ==> cells == old(cells)
      ensures kernel.faults >= old(kernel.faults)
      ensures (!ok && size > 0 && start + size <= TASK_SIZE ==> kernel.faults > old(kernel.faults))
    {
      ok := kernel.Try();
      ok := ok && size > 0 && start + size <= TASK_SIZE;
      if ok {
        cells := MapAnonymous(cells, start, size);
      }
    }

    /** pread into memory: a prefix of what the file has there; only a full read counts for the caller. */
    method PRead(file: seq<byte>, offset: nat, size: nat, start: nat) returns (full: bool)
      modifies this, kernel
      ensures full ==>
        && offset + size <= |file| && Mapped(old(cells), start, size)
        && cells == Store(old(cells), start, file[offset..offset + size])
      ensures exists n: nat | n <= |From(file, offset)| && n <= size && Mapped(old(cells), start, n) ::
        cells == Store(old(cells), start, From(file, offset)[..n])
      ensures kernel.faults >= old(kernel.faults)
      ensures !full && offset + size <= |file| && Mapped(old(cells), start, size) ==> kernel.faults > old(kernel.faults)
    {
      var rest := From(file, offset);
      var stop: nat :| stop <= size && stop <= |rest|;
      if stop < size && stop < |rest| {
        kernel.faults := kernel.faults + 1;
      }
      var n := 0;
      // The copy ends early at the first address that is not mapped.
      while n < stop && start + n in cells
        invariant n <= stop && Mapped(cells, start, n)
      {
        n := n + 1;
      }
      full := n == size && offset + size <= |file|;
      cells := Store(cells, start, rest[..n]);
    }

    method MProtect(start: nat, size: nat, prot: int) returns (ok: bool)
      modifies this, kernel
      ensures cells == if ok then Protect(old(cells), start, size, prot) else old(cells)
      ensures kernel.faults >= old(kernel.faults) && (!ok ==> kernel.faults > old(kernel.faults))
    {
      ok := kernel.Try();
      if ok {
        cells := Protect(cells, start, size, prot);
      }
    }
  }

  // ---- The loop ----

  /** What one region that is not skipped makes of memory. */
  function Place(cells: Cells, r: SavedRegion, file: seq<byte>): Cells
    requires r.fileOffset + r.dataSize <= |file|
    requires Mapped(MapAnonymous(cells, r.meta.start, RegionSize(r.meta)), r.meta.start, r.dataSize)
  {
    var start, size := r.meta.start, RegionSize(r.meta);
    var filled := Store(MapAnonymous(cells, start, size), start, file[r.fileOffset..r.fileOffset + r.dataSize]);
    Protect(filled, start, size, r.meta.prot)
  }

  /** Address `a` is as the region's dump was, under the region's protection. */
  ghost predicate Restored(cells: Cells, r: SavedRegion, file: seq<byte>, a: nat)
    requires Covers(r, a)
  {
    var i := r.fileOffset + (a - r.meta.start);
    i < |file| && a in cells && cells[a] == Cell(file[i], r.meta.prot)
  }

  /** The last managed region among the first `k` that covers `a`; none if the result is `k` or more. */
  function LastCover(regions: seq<SavedRegion>, k: nat, a: nat): (i: int)
    requires k <= |regions|
    ensures -1 <= i < k
    ensures i >= 0 ==> Managed(regions[i]) && Covers(regions[i], a)
    ensures forall j :: i < j < k ==> !(Managed(regions[j]) && Covers(regions[j], a))
  {
    if k == 0 then -1
    else if Managed(regions[k - 1]) && Covers(regions[k - 1], a) then k - 1
    else LastCover(regions, k - 1, a)
  }

  /** Memory after the first `k` regions: the last region covering an address decides; the rest is as it was. */
  ghost predicate Rebuilt(before: Cells, cells: Cells, regions: seq<SavedRegion>, k: nat, file: seq<byte>)
    requires k <= |regions|
  {
    forall a: nat ::
      var i := LastCover(regions, k, a);
      if i >= 0 then Restored(cells, regions[i], file, a)
      else (a in cells <==> a in before) && (a in cells ==> cells[a] == before[a])
  }

  /** Every managed region's data is exactly as long as the region. */
  ghost predicate Sized(regions: seq<SavedRegion>) {
    forall i :: 0 <= i < |regions| && Managed(regions[i]) ==> regions[i].dataSize == RegionSize(regions[i].meta)
  }

  /** One address after one region. */
  lemma PlaceAt(cells: Cells, r: SavedRegion, file: seq<byte>, a: nat)
    requires r.dataSize == RegionSize(r.meta) && r.fileOffset + r.dataSize <= |file|
    requires Mapped(MapAnonymous(cells, r.meta.start, RegionSize(r.meta)), r.meta.start, r.dataSize)
    ensures var cells' := Place(cells, r, file);
      if Covers(r, a) then Restored(cells', r, file, a)
      else (a in cells' <==> a in cells) && (a in cells' ==> cells'[a] == cells[a])
  {
    assert InRange(a, r.meta.start, RegionSize(r.meta)) <==> Covers(r, a);
  }

  lemma PlaceRestores(before: Cells, cells: Cells, regions: seq<SavedRegion>, k: nat, file: seq<byte>)
    requires k < |regions| && Managed(regions[k]) && Sized(regions)
    requires Rebuilt(before, cells, regions, k, file)
    requires var r := regions[k]; r.fileOffset + r.dataSize <= |file|
    requires var r := regions[k];
      Mapped(MapAnonymous(cells, r.meta.start, RegionSize(r.meta)), r.meta.start, r.dataSize)
    ensures Rebuilt(before, Place(cells, regions[k], file), regions, k + 1, file)
  {
    hide Place, MapAnonymous, Mapped;
    var cells' := Place(cells, regions[k], file);
    forall a: nat
      ensures var i := LastCover(regions, k + 1, a);
        if i >= 0 then Restored(cells', regions[i], file, a)
        else (a in cells' <==> a in before) && (a in cells' ==> cells'[a] == before[a])
    {
      PlaceAt(cells, regions[k], file, a);
      if !Covers(regions[k], a) {
        assert LastCover(regions, k + 1, a) == LastCover(regions, k, a);
      }
    }
  }

  /** Memory outside [start, start + size) is as it was. */
  ghost predicate SameExcept(before: Cells, cells: Cells, start: nat, size: nat) {
    forall a: nat {:trigger a in cells} {:trigger InRange(a, start, size)} :: !InRange(a, start, size) ==>
      (a in cells <==> a in before) && (a in cells ==> cells[a] == before[a])
  }

  /** Memory outside the managed window is untouched. */
  ghost predicate SameOutside(before: Cells, cells: Cells) {
    SameExcept(before, cells, MANAGED_BASE, MANAGED_LIMIT - MANAGED_BASE)
  }

  lemma CallsStayInside(cells: Cells, start: nat, size: nat, data: seq<byte>, prot: int)
    ensures SameExcept(cells, MapAnonymous(cells, start, size), start, size)
    ensures Mapped(cells, start, |data|) && |data| <= size ==> SameExcept(cells, Store(cells, start, data), start, size)
    ensures SameExcept(cells, Protect(cells, start, size, prot), start, size)
  {
  }

  lemma OutsideStays(before: Cells, cells: Cells, cells': Cells, r: SavedRegion)
    requires SameOutside(before, cells) && SameExcept(cells, cells', r.meta.start, RegionSize(r.meta))
    requires Managed(r) && r.meta.start + RegionSize(r.meta) <= TASK_SIZE
    ensures SameOutside(before, cells')
  {
    assert r.meta.start <= r.meta.end;
    assert forall a: nat ::
      InRange(a, r.meta.start, RegionSize(r.meta)) ==> InRange(a, MANAGED_BASE, MANAGED_LIMIT - MANAGED_BASE);
  }

  lemma NothingYet(cells: Cells, regions: seq<SavedRegion>, file: seq<byte>)
    ensures Rebuilt(cells, cells, regions, 0, file) && SameOutside(cells, cells)
  {
  }

  lemma SkipKeeps(before: Cells, cells: Cells, regions: seq<SavedRegion>, k: nat, file: seq<byte>)
    requires k < |regions| && !Managed(regions[k]) && Rebuilt(before, cells, regions, k, file)
    ensures Rebuilt(before, cells, regions, k + 1, file)
  {
    assert forall a: nat :: LastCover(regions, k + 1, a) == LastCover(regions, k, a);
  }

  /** The region lies in the user half of the address space, and its data in the file. */
  predicate Restorable(r: SavedRegion, file: seq<byte>) {
    && r.meta.start + RegionSize(r.meta) <= TASK_SIZE && r.dataSize <= RegionSize(r.meta)
    && r.fileOffset + r.dataSize <= |file|
  }

  lemma MapsAll(cells: Cells, start: nat, size: nat, n: nat)
    requires n <= size
    ensures Mapped(MapAnonymous(cells, start, size), start, n)
  {
    assert forall a: nat :: start <= a < start + n ==> InRange(a, start, size);
  }

  /** One region that is not skipped: mmap, pread, mprotect. */
  method RestoreRegion(space: Space, r: SavedRegion, file: seq<byte>) returns (ok: bool)
    requires Managed(r)
    modifies space, space.kernel
    ensures ok ==>
      && r.fileOffset + r.dataSize <= |file|
      && Mapped(MapAnonymous(old(space.cells), r.meta.start, RegionSize(r.meta)), r.meta.start, r.dataSize)
      && space.cells == Place(old(space.cells), r, file)
    ensures space.kernel.faults >= old(space.kernel.faults)
    ensures (!ok && Restorable(r, file) ==> space.kernel.faults > old(space.kernel.faults))
    ensures r.dataSize == RegionSize(r.meta) ==> forall before :: SameOutside(before, old(space.cells)) ==>
      SameOutside(before, space.cells)
  {
    hide SameExcept, SameOutside, MapAnonymous, Store, Protect, Mapped;
    var start, size := r.meta.start, RegionSize(r.meta);
    ghost var cells0 := space.cells;
    ok := space.MMap(start, size);
    if !ok { return; }
    ghost var cells1 := space.cells;
    if Restorable(r, file) {
      MapsAll(cells0, start, size, r.dataSize);
    }
    CallsStayInside(cells0, start, size, [], r.meta.prot);
    ok := space.PRead(file, r.fileOffset, r.dataSize, start);
    ghost var cells2 := space.cells;
    ghost var n :| 0 <= n <= |From(file, r.fileOffset)| && n <= r.dataSize && Mapped(cells1, start, n)
      && cells2 == Store(cells1, start, From(file, r.fileOffset)[..n]);
    CallsStayInside(cells1, start, size, From(file, r.fileOffset)[..n], r.meta.prot);
    if ok {
      ok := space.MProtect(start, size, r.meta.prot);
    }
    CallsStayInside(cells2, start, size, [], r.meta.prot);
    if r.dataSize == RegionSize(r.meta) {
      forall before | SameOutside(before, cells0)
        ensures SameOutside(before, space.cells)
      {
        OutsideStays(before, cells0, cells1, r);
        OutsideStays(before, cells1, cells2, r);
        if space.cells != cells2 {
          OutsideStays(before, cells2, space.cells, r);
        }
      }
    }
  }

  /**
   restore_managed_regions.  For an image whose extents have the regions' sizes, a return of 0
   means every managed region is in memory with its bytes and protection and nothing else
   changed; whatever is returned, memory outside the window is as it was.  Without a failing call
   it returns 0 if every managed region can be restored at all.
   */
  method RestoreManagedRegions(space: Space, regions: seq<SavedRegion>, file: seq<byte>) returns (code: int)
    modifies space, space.kernel
    ensures code == 0 || code == -1
    ensures Sized(regions) && code == 0 ==> Rebuilt(old(space.cells), space.cells, regions, |regions|, file)
    ensures Sized(regions) ==> SameOutside(old(space.cells), space.cells)
    ensures space.kernel.faults >= old(space.kernel.faults)
    ensures code == -1 && (forall i :: 0 <= i < |regions| && Managed(regions[i]) ==> Restorable(regions[i], file)) ==>
      space.kernel.faults > old(space.kernel.faults)
  {
    hide Restorable, Rebuilt, SameOutside, Place, MapAnonymous, Mapped, RegionSize;
    NothingYet(space.cells, regions, file);
    var index := 0;
    while index < |regions|
      invariant index <= |regions|
      invariant Sized(regions) ==> Rebuilt(old(space.cells), space.cells, regions, index, file)
      invariant Sized(regions) ==> SameOutside(old(space.cells), space.cells)
      invariant space.kernel.faults >= old(space.kernel.faults)
    {
      var r := regions[index];
      if !Included(r) || r.dataSize == 0 || r.meta.start < MANAGED_BASE || r.meta.end > MANAGED_LIMIT {
        if Sized(regions) {
          SkipKeeps(old(space.cells), space.cells, regions, index, file);
        }
        index := index + 1;
        continue;
      }
      ghost var before := space.cells;
      var ok := RestoreRegion(space, r, file);
      if !ok { return -1; }
      if Sized(regions) {
        PlaceRestores(old(space.cells), before, regions, index, file);
      }
      index := index + 1;
    }
    code := 0;
  }
}
