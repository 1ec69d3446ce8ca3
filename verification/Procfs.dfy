/**
 Collecting a process's layout from /proc: which regions a snapshot includes, and the bounded
 loops that fill the tables.
 */
module Procfs {
  import opened Wrappers
  import opened Common
  import opened Bytes
  import opened ImageFormat
  import opened FdTable
  import opened Capture

  const PROT_READ := 1
  const PROT_WRITE := 2
  const PROT_EXEC := 4
  const MAP_SHARED := 1
  const MAP_PRIVATE := 2

  /** What sscanf makes of one line of /proc/PID/maps; `parts` counts the fields it converted. */
  datatype MapsLine = MapsLine(parts: int, start: nat, end: nat, perms: string, offset: nat, path: CString)

  /** Conversions stay inside unsigned long and the char arrays. */
  ghost predicate Scanned(line: MapsLine) {
    line.start < U64 && line.end < U64 && line.offset < U64 && |line.path| < 256
  }

  predicate Has(perms: string, i: nat, c: char) {
    i < |perms| && perms[i] == c
  }

  predicate HasAt(s: CString, pat: CString, i: nat) {
    i + |pat| <= |s| && s[i..i + |pat|] == pat
  }

  /** strstr(s, pat) != NULL */
  predicate Contains(s: CString, pat: CString) {
    exists i :: 0 <= i <= |s| && HasAt(s, pat, i)
  }

  const HEAP: CString := "[heap]"
  const STACK: CString := "[stack]"
  const SPECIAL: set<CString> := {"[vvar]", "[vdso]", "[vsyscall]"}

  /** parse_maps_line */
  function ParseMapsLine(line: MapsLine): Option<Region> {
    if line.parts < 6 then None
    else
      var r, w, x := Has(line.perms, 0, 'r'), Has(line.perms, 1, 'w'), Has(line.perms, 2, 'x');
      var prot := (if r then PROT_READ else 0) + (if w then PROT_WRITE else 0) + (if x then PROT_EXEC else 0);
      var flags := if Has(line.perms, 3, 'p') then MAP_PRIVATE else MAP_SHARED;
      var name: CString := if line.parts >= 7 then line.path else [];
      var anonymous := name == [] || name[0] == '[';
      var wanted := r && (w || Contains(name, HEAP) || Contains(name, STACK) || name == []);
      var included := if name in SPECIAL then false else wanted;
      Some(Region(line.start, line.end, line.offset, prot, flags,
                  if anonymous then 1 else 0, if included then 1 else 0, name))
  }

  /** The snapshot policy: readable, and writable, unnamed, a heap or a stack, but not the kernel's own pages. */
  predicate Wanted(line: MapsLine) {
    var name := if line.parts >= 7 then line.path else [];
    && Has(line.perms, 0, 'r') && name !in {"[vvar]", "[vdso]", "[vsyscall]"}
    && (Has(line.perms, 1, 'w') || name == [] || Contains(name, "[heap]") || Contains(name, "[stack]"))
  }

  /** The region says what the line says: its fields, one bit for each permission, and the snapshot policy. */
  predicate Describes(r: Region, line: MapsLine) {
    && r.start == line.start && r.end == line.end && r.offset == line.offset
    && r.name == (if line.parts >= 7 then line.path else [])
    && 0 <= r.prot < 8
    && (r.prot % 2 == 1 <==> Has(line.perms, 0, 'r'))
    && (r.prot / 2 % 2 == 1 <==> Has(line.perms, 1, 'w'))
    && (r.prot / 4 % 2 == 1 <==> Has(line.perms, 2, 'x'))
    && r.flags == (if Has(line.perms, 3, 'p') then 2 else 1)
    && (r.isAnonymous != 0 <==> r.name == [] || r.name[0] == '[')
    && (r.included != 0 <==> Wanted(line))
  }

  /** A line parses exactly if six fields were converted, and its region describes it. */
  lemma ParsedDescribes(line: MapsLine)
    ensures ParseMapsLine(line).Some? <==> line.parts >= 6
    ensures ParseMapsLine(line).Some? ==> Describes(ParseMapsLine(line).value, line)
  {
    hide Contains;
  }

  /** The regions of all lines that parse, in order. */
  function Parsed(lines: seq<MapsLine>): (rs: seq<Region>)
    ensures |rs| <= |lines|
  {
    if lines == [] then []
    else
      var rest := Parsed(lines[..|lines| - 1]);
      match ParseMapsLine(lines[|lines| - 1])
      case None => rest
      case Some(r) => rest + [r]
  }

  lemma {:induction false} ParsedPrefix(lines: seq<MapsLine>, k: nat)
    requires k <= |lines|
    ensures Parsed(lines[..k]) <= Parsed(lines)
  {
    if k < |lines| {
      assert lines[..|lines| - 1][..k] == lines[..k];
      ParsedPrefix(lines[..|lines| - 1], k);
    } else {
      assert lines[..k] == lines;
    }
  }

  lemma ParsedFits(line: MapsLine)
    requires Scanned(line) && ParseMapsLine(line).Some?
    ensures RegionFits(SavedRegion(ParseMapsLine(line).value, 0, 0))
  {
    assert Pow256(8) == U64 && Pow256(4) == 0x1_0000_0000;
  }

  /** Line `k` has its own place in the table, unless 512 earlier lines have filled it. */
  lemma WhereParsed(lines: seq<MapsLine>, k: nat)
    requires k < |lines|
    ensures |Parsed(lines[..k + 1])| == |Parsed(lines[..k])| + if lines[k].parts >= 6 then 1 else 0
    ensures var n, all := |Parsed(lines[..k])|, Take(Parsed(lines), MAX_REGIONS);
      lines[k].parts >= 6 ==>
        if n < 512 then n < |all| && Describes(all[n], lines[k])
        else forall i :: 0 <= i < |all| ==> all[i] == Parsed(lines[..k])[i]
  {
    hide ParseMapsLine, Describes;
    ParsedDescribes(lines[k]);
    assert lines[..k + 1][..k] == lines[..k];
    ParsedPrefix(lines, k);
    ParsedPrefix(lines, k + 1);
  }

  lemma {:induction false} AllParsedFit(lines: seq<MapsLine>)
    requires forall i :: 0 <= i < |lines| ==> Scanned(lines[i])
    ensures forall i :: 0 <= i < |Parsed(lines)| ==> RegionFits(SavedRegion(Parsed(lines)[i], 0, 0))
  {
    hide RegionFits, ParseMapsLine;
    if lines != [] {
      AllParsedFit(lines[..|lines| - 1]);
      if ParseMapsLine(lines[|lines| - 1]).Some? {
        ParsedFits(lines[|lines| - 1]);
      }
    }
  }

  /** collect_regions: the first 512 regions, however many there are. */
  method CollectRegions(lines: seq<MapsLine>) returns (regions: seq<Region>)
    ensures regions == Take(Parsed(lines), MAX_REGIONS)
    ensures forall k :: 0 <= k < |lines| && lines[k].parts >= 6 && |Parsed(lines[..k])| < 512 ==>
      |Parsed(lines[..k])| < |regions| && Describes(regions[|Parsed(lines[..k])|], lines[k])
  {
    hide ParseMapsLine, Describes;
    regions := [];
    var i := 0;
    assert lines[..0] == [];
    while i < |lines|
      invariant i <= |lines| && |regions| <= MAX_REGIONS
      invariant regions == Parsed(lines[..i])
    {
      if |regions| >= MAX_REGIONS {
        break;
      }
      assert lines[..i + 1][..i] == lines[..i];
      var region := ParseMapsLine(lines[i]);
      if region.Some? {
        regions := regions + [region.value];
      }
      i := i + 1;
    }
    ParsedPrefix(lines, i);
    assert i == |lines| ==> lines[..i] == lines;
    forall k | 0 <= k < |lines| && lines[k].parts >= 6 && |Parsed(lines[..k])| < 512
      ensures |Parsed(lines[..k])| < |regions| && Describes(regions[|Parsed(lines[..k])|], lines[k])
    {
      WhereParsed(lines, k);
    }
  }

  // ---- Descriptors ----

  /**
   One entry of /proc/PID/fd: its number if the name is numeric, where the link leads (None if
   readlink fails), and what fdinfo says of it.
   */
  datatype FdListing = FdListing(number: Option<int>, link: Option<CString>, position: int, flags: int)

  ghost predicate Listed(d: FdListing) {
    && (d.number.Some? ==> IntFits(d.number.value, 4))
    && (d.link.Some? ==> |d.link.value| < 512)
    && IntFits(d.position, 8) && IntFits(d.flags, 4)
  }

  function EntryOf(d: FdListing): FdEntry
    requires d.number.Some?
  {
    if d.link.None? then FdEntry(d.number.value, 0, 0, 0, [])
    else
      FdEntry(d.number.value, d.flags, d.position,
              if d.link.value != [] && d.link.value[0] == '/' then 1 else 0, d.link.value)
  }

  /** The entry says what the listing says; restorable are exactly the links to an absolute path. */
  predicate Records(e: FdEntry, d: FdListing) {
    && d.number == Some(e.fd)
    && e.target == (if d.link.Some? then d.link.value else [])
    && (e.supported != 0 <==> 0 < |e.target| && e.target[0] == '/')
    && (d.link.Some? ==> e.flags == d.flags && e.position == d.position)
  }

  function Entries(listing: seq<FdListing>): (es: seq<FdEntry>)
    ensures |es| <= |listing|
  {
    if listing == [] then []
    else
      var d := listing[|listing| - 1];
      Entries(listing[..|listing| - 1]) + if d.number.Some? then [EntryOf(d)] else []
  }

  lemma {:induction false} EntriesPrefix(listing: seq<FdListing>, k: nat)
    requires k <= |listing|
    ensures Entries(listing[..k]) <= Entries(listing)
  {
    if k < |listing| {
      assert listing[..|listing| - 1][..k] == listing[..k];
      EntriesPrefix(listing[..|listing| - 1], k);
    } else {
      assert listing[..k] == listing;
    }
  }

  /** A directory lists every name once. */
  predicate DistinctNumbers(listing: seq<FdListing>) {
    forall i, j :: 0 <= i < j < |listing| && listing[i].number.Some? ==> listing[i].number != listing[j].number
  }

  ghost predicate Lists(listing: seq<FdListing>, e: FdEntry) {
    exists j :: 0 <= j < |listing| && Records(e, listing[j])
  }

  lemma {:induction false} EntriesFrom(listing: seq<FdListing>)
    ensures forall i :: 0 <= i < |Entries(listing)| ==> Lists(listing, Entries(listing)[i])
  {
    hide Records;
    if listing != [] {
      var init, last := listing[..|listing| - 1], listing[|listing| - 1];
      EntriesFrom(init);
      forall i | 0 <= i < |Entries(listing)|
        ensures Lists(listing, Entries(listing)[i])
      {
        if i < |Entries(init)| {
          var e := Entries(init)[i];
          var j :| 0 <= j < |init| && Records(e, init[j]);
          assert Records(e, listing[j]);
        } else {
          EntryRecords(last);
          assert Records(Entries(listing)[i], listing[|listing| - 1]);
        }
      }
    }
  }

  lemma EntryRecords(d: FdListing)
    requires d.number.Some?
    ensures Records(EntryOf(d), d)
  {
  }

  /** A numeric entry has its own place in the table, unless 128 earlier ones have filled it. */
  lemma WhereListed(listing: seq<FdListing>, k: nat)
    requires k < |listing|
    ensures |Entries(listing[..k + 1])| == |Entries(listing[..k])| + if listing[k].number.Some? then 1 else 0
    ensures var n, all := |Entries(listing[..k])|, Take(Entries(listing), MAX_FDS);
      listing[k].number.Some? ==>
        if n < 128 then n < |all| && Records(all[n], listing[k])
        else forall i :: 0 <= i < |all| ==> all[i] == Entries(listing[..k])[i]
  {
    hide EntryOf, Records;
    if listing[k].number.Some? {
      EntryRecords(listing[k]);
    }
    assert listing[..k + 1][..k] == listing[..k];
    EntriesPrefix(listing, k);
    EntriesPrefix(listing, k + 1);
  }

  lemma {:induction false} EntriesDistinct(listing: seq<FdListing>)
    requires DistinctNumbers(listing)
    ensures DistinctFds(Entries(listing))
  {
    if listing != [] {
      EntriesDistinct(listing[..|listing| - 1]);
      EntriesFrom(listing[..|listing| - 1]);
    }
  }

  lemma ListedFits(d: FdListing)
    requires Listed(d) && d.number.Some?
    ensures FdFits(EntryOf(d))
  {
    assert Pow256(4) == 0x1_0000_0000 && Pow256(8) == U64;
  }

  lemma {:induction false} AllEntriesFit(listing: seq<FdListing>)
    requires forall i :: 0 <= i < |listing| ==> Listed(listing[i])
    ensures forall i :: 0 <= i < |Entries(listing)| ==> FdFits(Entries(listing)[i])
  {
    hide FdFits, EntryOf;
    if listing != [] {
      AllEntriesFit(listing[..|listing| - 1]);
      if listing[|listing| - 1].number.Some? {
        ListedFits(listing[|listing| - 1]);
      }
    }
  }

  /** collect_fds: the first 128 numeric entries. */
  method CollectFds(listing: seq<FdListing>) returns (fds: seq<FdEntry>)
    ensures fds == Take(Entries(listing), MAX_FDS)
  {
    hide EntryOf;
    fds := [];
    var i := 0;
    assert listing[..0] == [];
    while i < |listing|
      invariant i <= |listing| && |fds| <= MAX_FDS
      invariant fds == Entries(listing[..i])
    {
      assert listing[..i + 1][..i] == listing[..i];
      if listing[i].number.None? {
        i := i + 1;
        continue;
      }
      if |fds| >= MAX_FDS {
        break;
      }
      fds := fds + [EntryOf(listing[i])];
      i := i + 1;
    }
    EntriesPrefix(listing, i);
    assert i == |listing| ==> listing[..i] == listing;
  }

  /** ulcr_collect_proc_layout; None for a file, directory or link that cannot be read. */
  method CollectLayout(
    maps: Option<seq<MapsLine>>, listing: Option<seq<FdListing>>, exe: Option<CString>, cwd: Option<CString>)
    returns (layout: Option<ProcLayout>)
    requires maps.Some? ==> forall i :: 0 <= i < |maps.value| ==> Scanned(maps.value[i])
    requires listing.Some? ==> forall i :: 0 <= i < |listing.value| ==> Listed(listing.value[i])
    ensures layout.Some? <==> maps.Some? && listing.Some? && exe.Some? && cwd.Some?
    ensures layout.Some? ==>
      && LayoutFits(layout.value)
      && layout.value == ProcLayout(
           Take(Parsed(maps.value), MAX_REGIONS), Take(Entries(listing.value), MAX_FDS), exe.value, cwd.value)
      && (DistinctNumbers(listing.value) ==> DistinctFds(layout.value.fds))
  {
    hide RegionFits, FdFits;
    layout := None;
    if maps.None? { return; }
    var regions := CollectRegions(maps.value);
    if listing.None? { return; }
    var fds := CollectFds(listing.value);
    if exe.None? || cwd.None? { return; }
    AllParsedFit(maps.value);
    AllEntriesFit(listing.value);
    if DistinctNumbers(listing.value) {
      EntriesDistinct(listing.value);
    }
    layout := Some(ProcLayout(regions, fds, exe.value, cwd.value));
  }
}
