/**
 The text of active.meta: how `write_active_metadata` formats it, and how `read_active_slot`
 gets the slot back out of the first 255 bytes of the file.
 */
module MetadataText {
  import opened Wrappers
  import opened Common
  import opened CrashFs

  const KEY := "active_slot="
  const META_BUFFER := 512
  const READ_BUFFER := 256
  const SLOT_BUFFER := 8

  function SlotName(s: Slot): string {
    if s.A? then "A" else "B"
  }

  /** slot_directory_for_name: only the two known names have a directory. */
  function SlotForName(name: string): Option<Slot> {
    if name == "A" then Some(A) else if name == "B" then Some(B) else None
  }

  /** What the three remaining fields of a metadata line are formatted to. */
  datatype Stamp = Stamp(updatedAt: string, interval: string, runtime: string)

  /** The bytes before the first terminator: what a C string function sees of `s`. */
  function CString(s: string): (r: string)
    ensures |r| <= |s| && r == s[..|r|]
    ensures '\0' !in r
    ensures |r| < |s| ==> s[|r|] == '\0'
  {
    if s == [] || s[0] == '\0' then [] else [s[0]] + CString(s[1..])
  }

  predicate OccursAt(s: string, pat: string, i: nat) {
    i + |pat| <= |s| && s[i..i + |pat|] == pat
  }

  /** strstr: the first occurrence, if there is one. */
  function Find(s: string, pat: string): (r: Option<nat>)
    ensures r.Some? ==> OccursAt(s, pat, r.value) && forall i: nat :: i < r.value ==> !OccursAt(s, pat, i)
    ensures r.None? ==> forall i: nat :: !OccursAt(s, pat, i)
  {
    FindFrom(s, pat, 0)
  }

  function FindFrom(s: string, pat: string, from: nat): (r: Option<nat>)
    requires from <= |s| + 1
    ensures r.Some? ==> r.value >= from && OccursAt(s, pat, r.value)
    ensures r.Some? ==> forall i: nat :: from <= i < r.value ==> !OccursAt(s, pat, i)
    ensures r.None? ==> forall i: nat :: from <= i ==> !OccursAt(s, pat, i)
    decreases |s| + 1 - from
  {
    if from + |pat| > |s| then None
    else if OccursAt(s, pat, from) then Some(from)
    else FindFrom(s, pat, from + 1)
  }

  /** line[strcspn(line, "\r\n")] = 0 */
  function FirstLine(s: string): (r: string)
    ensures |r| <= |s| && r == s[..|r|]
    ensures '\r' !in r && '\n' !in r
    ensures |r| < |s| ==> s[|r|] in "\r\n"
  {
    if s == [] || s[0] == '\r' || s[0] == '\n' then [] else [s[0]] + FirstLine(s[1..])
  }

  function FormatMetadata(slot: Slot, st: Stamp): string {
    Take(
      KEY + SlotName(slot) + "\nupdated_at=" + st.updatedAt + "\ncheckpoint_interval_sec=" + st.interval
        + "\nruntime_seconds=" + st.runtime + "\n",
      META_BUFFER - 1)
  }

  /** read_active_slot on a file holding `text`. */
  function ReadActiveSlot(text: string): Option<string> {
    var buffer := CString(Take(text, READ_BUFFER - 1));
    match Find(buffer, KEY)
    case None => None
    case Some(i) =>
      var name := FirstLine(buffer[i + |KEY|..]);
      if |name| < SLOT_BUFFER then Some(name) else None
  }

  lemma {:induction false} CStringOfPrefix(s: string, n: nat)
    requires n <= |s| && '\0' !in s[..n]
    ensures |CString(s)| >= n && CString(s)[..n] == s[..n]
  {
    if n > 0 {
      assert s[..n] == [s[0]] + s[1..][..n - 1];
      assert s[..n][0] in s[..n];
      CStringOfPrefix(s[1..], n - 1);
    }
  }

  lemma {:induction false} FirstLineOf(s: string, name: string)
    requires '\r' !in name && '\n' !in name
    requires |name| < |s| && s[..|name|] == name && s[|name|] == '\n'
    ensures FirstLine(s) == name
  {
    if name != [] {
      assert s[0] == name[0];
      assert s[1..][..|name| - 1] == name[1..];
      FirstLineOf(s[1..], name[1..]);
    }
  }

  /**
   For every timestamp, interval and run time, the slot comes back, although only 255 of up
   to 511 bytes are read.
   */
  lemma MetadataRoundTrip(slot: Slot, st: Stamp)
    ensures ReadActiveSlot(FormatMetadata(slot, st)) == Some(SlotName(slot))
    ensures SlotForName(SlotName(slot)) == Some(slot)
  {
    hide CString, Find, FirstLine, FormatMetadata;
    var text := FormatMetadata(slot, st);
    FormattedHead(slot, st);
    ReadsHead(text, SlotName(slot));
  }

  lemma FormattedHead(slot: Slot, st: Stamp)
    ensures var text := FormatMetadata(slot, st); |text| >= 14 && text[..14] == KEY + SlotName(slot) + "\n"
  {
    assert |KEY + SlotName(slot) + "\n"| == 14;
  }

  /** Only the first fourteen characters matter. */
  lemma ReadsHead(text: string, name: string)
    requires |name| == 1 && name[0] != '\r' && name[0] != '\n' && name[0] != '\0'
    requires |text| >= 14 && text[..14] == KEY + name + "\n"
    ensures ReadActiveSlot(text) == Some(name)
  {
    hide CString, FirstLine;
    var read := Take(text, READ_BUFFER - 1);
    assert read[..14] == text[..14];
    CStringOfPrefix(read, 14);
    var buffer := CString(read);
    assert buffer[..12] == buffer[..14][..12] == KEY;
    assert OccursAt(buffer, KEY, 0);
    var line := buffer[12..];
    assert line[0] == buffer[..14][12] == name[0] && line[1] == buffer[..14][13] == '\n';
    assert line[..1] == name;
    FirstLineOf(line, name);
  }
}
