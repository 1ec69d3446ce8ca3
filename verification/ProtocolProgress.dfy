/**
 What the store does when nothing goes wrong, from every reachable state: a checkpoint is
 acknowledged and selected, whatever temporaries were left behind, and a restore ends in a child
 that loads the selected image.
 */
module ProtocolProgress {
  import opened Wrappers
  import opened CrashFs
  import opened Protocol
  import opened ProtocolInvariant
  import opened ProtocolPreserved
  import opened ProtocolTheorems
  import opened ProtocolRestores
  import opened ProtocolFallback
  import MetadataText
  import ImageFormat

  /** The actions are possible from `s` on, one after the other, and lead to `s'`. */
  ghost predicate Leads(s: Sys, actions: seq<Action>, s': Sys)
    decreases |actions|
  {
    if actions == [] then s == s'
    else Enabled(s, actions[0]) && Leads(Apply(s, actions[0]), actions[1..], s')
  }

  /** Such actions extend every run that ends in `s`. */
  lemma {:induction false} LeadsExtends(states: seq<Sys>, actions: seq<Action>, more: seq<Action>, s': Sys)
    returns (states': seq<Sys>)
    requires RunFromInit(states, actions) && Leads(states[|actions|], more, s')
    ensures RunFromInit(states', actions + more) && states <= states' && states'[|actions + more|] == s'
    decreases |more|
  {
    hide Apply, ImageFormat.Complete;
    if more == [] {
      states' := states;
      assert actions + more == actions;
    } else {
      var next := Apply(states[|actions|], more[0]);
      assert Step(states[|actions|], more[0], next);
      assert RunFromInit(states + [next], actions + [more[0]]);
      states' := LeadsExtends(states + [next], actions + [more[0]], more[1..], s');
      assert actions + [more[0]] + more[1..] == actions + more;
    }
  }

  lemma {:induction false} LeadsThen(s: Sys, a: seq<Action>, t: Sys, b: seq<Action>, u: Sys)
    requires Leads(s, a, t) && Leads(t, b, u)
    ensures Leads(s, a + b, u)
    decreases |a|
  {
    hide Apply, ImageFormat.Complete;
    if a == [] {
      assert a + b == b;
    } else {
      LeadsThen(Apply(s, a[0]), a[1..], t, b, u);
      assert (a + b)[1..] == a[1..] + b;
    }
  }

  lemma LeadsOne(s: Sys, a: Action)
    requires Enabled(s, a)
    ensures Leads(s, [a], Apply(s, a))
  {
    hide Apply, Enabled, ImageFormat.Complete;
    assert [a][1..] == [];
  }

  /** Calls of process `p` with these outcomes. */
  function CallsOf(p: Pid, os: seq<Outcome>): (calls: seq<Action>)
    ensures |calls| == |os|
  {
    seq(|os|, i requires 0 <= i < |os| => Call(p, os[i]))
  }

  /** The outcome can happen in `s`. */
  ghost predicate Possible(s: Sys, o: Outcome) {
    o.newInode !in s.fs.inodes && o.child !in s.procs && ImageFormat.Complete(o.file.bytes, o.file.included)
  }

  /** It can, and the call succeeds. */
  ghost predicate Succeeds(s: Sys, o: Outcome) {
    o.ok && Possible(s, o)
  }

  // ---- Restores ----

  /** The child of a restore, after its load. */
  function Loaded(fs: Fs, slot: Slot, floor: nat): Proc
    requires InSlot(fs, slot).Some?
  {
    ChLoad(slot, floor, InSlot(fs, slot).value, fs.entries[Snap(slot)], InSlot(fs, slot).value)
  }

  lemma OpenCall(s: Sys, p: Pid, o: Outcome)
    requires p in s.procs && s.procs[p].RsOpen? && o.ok && InSlot(s.fs, s.procs[p].slot).Some?
    ensures var q := s.procs[p];
      Restore(s, p, o) == Goto(s, p, RsLoad(q.slot, q.floor, s.fs.entries[Snap(q.slot)], InSlot(s.fs, q.slot).value))
  {
  }

  lemma LoadCall(s: Sys, p: Pid, o: Outcome)
    requires p in s.procs && s.procs[p].RsLoad? && o.ok
    ensures Restore(s, p, o) == Goto(s, p, RsFork(s.procs[p].slot, s.procs[p].floor, s.procs[p].seen))
  {
  }

  lemma ForkCall(s: Sys, p: Pid, o: Outcome)
    requires p in s.procs && s.procs[p].RsFork? && o.ok && o.child !in s.procs && s.lock != Some(p)
    ensures var q := s.procs[p];
      Restore(s, p, o) == s.(procs := (s.procs - {p})[o.child := ChOpen(q.slot, q.floor, q.seen)])
  {
  }

  lemma ChildCall(s: Sys, p: Pid, o: Outcome)
    requires p in s.procs && s.procs[p].ChOpen? && o.ok && InSlot(s.fs, s.procs[p].slot).Some?
    ensures var q := s.procs[p];
      Restore(s, p, o)
        == Goto(s, p, ChLoad(q.slot, q.floor, q.first, s.fs.entries[Snap(q.slot)], InSlot(s.fs, q.slot).value))
  {
  }

  lemma OneCall(s: Sys, p: Pid, o: Outcome) returns (s': Sys)
    requires p in s.procs && !IsCheckpoint(s.procs[p]) && Possible(s, o)
    ensures s' == Restore(s, p, o) && Leads(s, [Call(p, o)], s')
  {
    hide Restore, Checkpoint, ImageFormat.Complete;
    LeadsOne(s, Call(p, o));
    s' := Restore(s, p, o);
  }

  /** From the open of snapshot.bin to the child's load: four calls, the last one by the child. */
  lemma OpensToChild(s: Sys, p: Pid, slot: Slot, floor: nat, os: seq<Outcome>)
    requires p in s.procs && s.procs[p] == RsOpen(slot, floor) && InSlot(s.fs, slot).Some? && s.lock != Some(p)
    requires |os| == 4 && forall i :: 0 <= i < 4 ==> Succeeds(s, os[i])
    requires os[3].child != os[2].child
    ensures Leads(s, [Call(p, os[0]), Call(p, os[1]), Call(p, os[2]), Call(os[2].child, os[3])],
                  s.(procs := (s.procs - {p})[os[2].child := Loaded(s.fs, slot, floor)]))
  {
    hide Restore, Leads, InSlot, ImageFormat.Complete;
    var c := os[2].child;
    var s1 := OneCall(s, p, os[0]);
    OpenCall(s, p, os[0]);
    var s2 := OneCall(s1, p, os[1]);
    LoadCall(s1, p, os[1]);
    var s3 := OneCall(s2, p, os[2]);
    ForkCall(s2, p, os[2]);
    assert s3.procs == (s.procs - {p})[c := ChOpen(slot, floor, InSlot(s.fs, slot).value)];
    var s4 := OneCall(s3, c, os[3]);
    ChildCall(s3, c, os[3]);
    assert s4.procs == (s.procs - {p})[c := Loaded(s.fs, slot, floor)];
    LeadsThen(s, [Call(p, os[0])], s1, [Call(p, os[1])], s2);
    LeadsThen(s, [Call(p, os[0])] + [Call(p, os[1])], s2, [Call(p, os[2])], s3);
    LeadsThen(s, [Call(p, os[0])] + [Call(p, os[1])] + [Call(p, os[2])], s3, [Call(c, os[3])], s4);
    assert [Call(p, os[0])] + [Call(p, os[1])] + [Call(p, os[2])] + [Call(c, os[3])]
        == [Call(p, os[0]), Call(p, os[1]), Call(p, os[2]), Call(c, os[3])];
  }

  /** One call of the lookup, when it succeeds. */
  lemma LookupCall(s: Sys, p: Pid, o: Outcome)
    requires p in s.procs && o.ok
    ensures var s' := Restore(s, p, o);
      match s.procs[p]
      case RsAccessMeta => s' == Goto(s, p, if Meta in s.fs.entries then RsOpenMeta else RsProbeA)
      case RsOpenMeta => Meta in s.fs.entries ==> s' == Goto(s, p, RsReadMeta(s.fs.entries[Meta], ActiveNumber(s.fs)))
      case RsReadMeta(ino, floor) =>
        var read := ReadSlot(s.fs, ino, o.noise);
        read.Some? && MetadataText.SlotForName(read.value).Some? ==>
          s' == Goto(s, p, RsOpen(MetadataText.SlotForName(read.value).value, floor))
      case RsProbeA =>
        s' == Goto(s, p, if Snap(A) in s.fs.entries then RsOpen(A, SlotNumber(s.fs, A)) else RsProbeB)
      case RsProbeB => Snap(B) in s.fs.entries ==> s' == Goto(s, p, RsOpen(B, SlotNumber(s.fs, B)))
      case _ => true
  {
    hide ReadSlot, ActiveNumber, SlotNumber;
  }

  lemma SpawnsRestore(s: Sys, p: Pid)
    requires p !in s.procs
    ensures Leads(s, [Spawn(p, false)], Goto(s, p, RsAccessMeta))
  {
    hide ImageFormat.Complete;
    LeadsOne(s, Spawn(p, false));
  }

  /** Process `p` goes from one place to the next. */
  lemma CallTo(s: Sys, p: Pid, q: Proc, q': Proc, o: Outcome)
    requires !IsCheckpoint(q) && Possible(s, o) && o.child != p
    requires Restore(Goto(s, p, q), p, o) == Goto(Goto(s, p, q), p, q')
    ensures Leads(Goto(s, p, q), [Call(p, o)], Goto(s, p, q'))
  {
    hide Restore, Leads, IsCheckpoint, ImageFormat.Complete;
    GotoTwice(s, p, q, q');
    var s' := OneCall(Goto(s, p, q), p, o);
  }

  lemma GotoTwice(s: Sys, p: Pid, q: Proc, q': Proc)
    ensures Goto(Goto(s, p, q), p, q') == Goto(s, p, q')
  {
    assert s.procs[p := q][p := q'] == s.procs[p := q'];
  }

  /** The lookup of visible metadata. */
  lemma LookupLeads(s: Sys, p: Pid, slot: Slot, os: seq<Outcome>)
    requires Meta in s.fs.entries && |os| >= 3 && forall i :: 0 <= i < 3 ==> Succeeds(s, os[i]) && os[i].child != p
    requires var read := ReadSlot(s.fs, s.fs.entries[Meta], os[2].noise);
      read.Some? && MetadataText.SlotForName(read.value) == Some(slot)
    ensures Leads(Goto(s, p, RsAccessMeta), CallsOf(p, os[..3]), Goto(s, p, RsOpen(slot, ActiveNumber(s.fs))))
  {
    hide Restore, Leads, ActiveNumber, ReadSlot, ImageFormat.Complete;
    var q0, q1, q2 := RsAccessMeta, RsOpenMeta, RsReadMeta(s.fs.entries[Meta], ActiveNumber(s.fs));
    var q3 := RsOpen(slot, ActiveNumber(s.fs));
    LookupCall(Goto(s, p, q0), p, os[0]);
    CallTo(s, p, q0, q1, os[0]);
    LookupCall(Goto(s, p, q1), p, os[1]);
    CallTo(s, p, q1, q2, os[1]);
    LookupCall(Goto(s, p, q2), p, os[2]);
    CallTo(s, p, q2, q3, os[2]);
    LeadsThen(Goto(s, p, q0), [Call(p, os[0])], Goto(s, p, q1), [Call(p, os[1])], Goto(s, p, q2));
    LeadsThen(Goto(s, p, q0), [Call(p, os[0])] + [Call(p, os[1])], Goto(s, p, q2), [Call(p, os[2])], Goto(s, p, q3));
    assert [Call(p, os[0])] + [Call(p, os[1])] + [Call(p, os[2])] == CallsOf(p, os[..3]);
  }

  /** What the calls of a restore need from the environment: success, and fresh numbers. */
  ghost predicate RestoreSucceeds(s: Sys, p: Pid, os: seq<Outcome>, fork: nat) {
    && fork < |os| - 1
    && (forall i :: 0 <= i < |os| ==> Succeeds(s, os[i]) && os[i].child != p)
    && os[|os| - 1].child != os[fork].child
  }

  /** The actions of a restore: its start, its calls up to the fork, and the child's load. */
  function RestoreActions(p: Pid, os: seq<Outcome>): seq<Action>
    requires |os| >= 2
  {
    var n := |os| - 1;
    [Spawn(p, false)] + CallsOf(p, os[..n]) + [Call(os[n - 1].child, os[n])]
  }

  /** The state after it: nothing but the child is new. */
  function WithChild(s: Sys, c: Pid, q: Proc): Sys {
    s.(procs := s.procs[c := q])
  }

  /**
   From every state of every run in which metadata is visible: a new restore whose calls succeed,
   with no other process in between, ends in a child that has loaded the selected image.  The
   manager is gone, and nothing else has changed.
   */
  lemma RestoreCompletes(states: seq<Sys>, actions: seq<Action>, i: nat, p: Pid, os: seq<Outcome>)
    requires RunFromInit(states, actions) && i < |states| && Meta in states[i].fs.entries && p !in states[i].procs
    requires |os| == 7 && RestoreSucceeds(states[i], p, os, 5)
    ensures var s, c := states[i], os[5].child;
      && SelectedSlot(s.fs).Some? && InSlot(s.fs, SelectedSlot(s.fs).value).Some?
      && Selected(s.fs) == InSlot(s.fs, SelectedSlot(s.fs).value)
      && Leads(s, RestoreActions(p, os), WithChild(s, c, Loaded(s.fs, SelectedSlot(s.fs).value, ActiveNumber(s.fs))))
  {
    hide Inv, Step, Restore, Leads, InSlot, ActiveNumber, SelectedSlot, MetadataText.ReadActiveSlot,
      ImageFormat.Complete;
    var s := states[i];
    InitHolds();
    RunKeeps(states, actions);
    NotTheHolder(states, actions, i, p);
    MetaSelects(s);
    var slot := SelectedSlot(s.fs).value;
    ReadsBack(s, slot, os[2].noise);
    InSlotIsImage(s, slot);
    SpawnsRestore(s, p);
    LookupLeads(s, p, slot, os);
    AfterLookup(s, p, slot, ActiveNumber(s.fs), os, 3);
  }

  lemma NotTheHolder(states: seq<Sys>, actions: seq<Action>, i: nat, p: Pid)
    requires RunFromInit(states, actions) && i < |states| && p !in states[i].procs
    ensures states[i].lock != Some(p)
  {
    hide Step, ImageFormat.Complete;
    LockIsHeld(states, actions, i);
  }

  lemma ReadsBack(s: Sys, slot: Slot, noise: Option<string>)
    requires Inv(s) && Meta in s.fs.entries && SelectedSlot(s.fs) == Some(slot)
    ensures var read := ReadSlot(s.fs, s.fs.entries[Meta], noise);
      read.Some? && MetadataText.SlotForName(read.value) == Some(slot)
    ensures Snap(slot) in s.fs.entries
    ensures Selected(s.fs) == InSlot(s.fs, slot)
  {
    hide Inv, MetadataText.ReadActiveSlot, ImageFormat.Complete;
    MetaSelects(s);
  }

  /** The lookup took `n` calls and is followed by the open, the load, the fork and the child's load. */
  lemma AfterLookup(s: Sys, p: Pid, slot: Slot, floor: nat, os: seq<Outcome>, n: nat)
    requires p !in s.procs && s.lock != Some(p) && InSlot(s.fs, slot).Some?
    requires |os| == n + 4 && forall i :: n <= i < n + 4 ==> Succeeds(s, os[i]) && os[i].child != p
    requires os[n + 3].child != os[n + 2].child
    requires Leads(s, [Spawn(p, false)], Goto(s, p, RsAccessMeta))
    requires Leads(Goto(s, p, RsAccessMeta), CallsOf(p, os[..n]), Goto(s, p, RsOpen(slot, floor)))
    ensures Leads(s, RestoreActions(p, os), WithChild(s, os[n + 2].child, Loaded(s.fs, slot, floor)))
  {
    hide Leads, Restore, InSlot, ImageFormat.Complete;
    var s0, s1 := Goto(s, p, RsAccessMeta), Goto(s, p, RsOpen(slot, floor));
    var lookup := CallsOf(p, os[..n]);
    LeadsThen(s, [Spawn(p, false)], s0, lookup, s1);
    var rest := [Call(p, os[n]), Call(p, os[n + 1]), Call(p, os[n + 2]), Call(os[n + 2].child, os[n + 3])];
    OpensToChild(s1, p, slot, floor, os[n..]);
    assert (s1.procs - {p})[os[n + 2].child := Loaded(s.fs, slot, floor)]
        == s.procs[os[n + 2].child := Loaded(s.fs, slot, floor)];
    LeadsThen(s, [Spawn(p, false)] + lookup, s1, rest, WithChild(s, os[n + 2].child, Loaded(s.fs, slot, floor)));
    assert [Spawn(p, false)] + lookup + rest == RestoreActions(p, os);
  }

  // ---- Restores that fall back ----

  /** The lookup misses active.meta at its last call: that call fails, or there is no active.meta at all. */
  ghost predicate Misses(s: Sys, ms: seq<Outcome>) {
    && 1 <= |ms| <= 3
    && (forall i :: 0 <= i < |ms| ==> Possible(s, ms[i]))
    && (forall i :: 0 <= i < |ms| - 1 ==> ms[i].ok)
    && if Meta in s.fs.entries then !ms[|ms| - 1].ok else |ms| == 1
  }

  lemma MissingCall(s: Sys, p: Pid, o: Outcome)
    requires p in s.procs && (s.procs[p].RsAccessMeta? || s.procs[p].RsOpenMeta? || s.procs[p].RsReadMeta?)
    requires !o.ok || (Meta !in s.fs.entries && !s.procs[p].RsReadMeta?)
    ensures Restore(s, p, o) == Goto(s, p, RsProbeA)
  {
    hide ReadSlot;
  }

  lemma {:induction false} MissLeads(s: Sys, p: Pid, ms: seq<Outcome>)
    requires Misses(s, ms) && p !in s.procs && forall i :: 0 <= i < |ms| ==> ms[i].child != p
    ensures Leads(Goto(s, p, RsAccessMeta), CallsOf(p, ms), Goto(s, p, RsProbeA))
  {
    hide Restore, Leads, ActiveNumber, ImageFormat.Complete;
    var s0 := Goto(s, p, RsAccessMeta);
    if |ms| == 1 {
      MissingCall(s0, p, ms[0]);
      var s1 := OneCall(s0, p, ms[0]);
      assert CallsOf(p, ms) == [Call(p, ms[0])];
      GotoTwice(s, p, RsAccessMeta, RsProbeA);
    } else {
      LookupCall(s0, p, ms[0]);
      var s1 := OneCall(s0, p, ms[0]);
      GotoTwice(s, p, RsAccessMeta, RsOpenMeta);
      MissLeadsFromOpen(s, p, ms[1..]);
      LeadsThen(s0, [Call(p, ms[0])], s1, CallsOf(p, ms[1..]), Goto(s, p, RsProbeA));
      assert [Call(p, ms[0])] + CallsOf(p, ms[1..]) == CallsOf(p, ms);
    }
  }

  lemma MissLeadsFromOpen(s: Sys, p: Pid, ms: seq<Outcome>)
    requires Meta in s.fs.entries && 1 <= |ms| <= 2 && p !in s.procs
    requires forall i :: 0 <= i < |ms| ==> Possible(s, ms[i]) && ms[i].child != p && (ms[i].ok <==> i < |ms| - 1)
    ensures Leads(Goto(s, p, RsOpenMeta), CallsOf(p, ms), Goto(s, p, RsProbeA))
  {
    hide Restore, Leads, ActiveNumber, ImageFormat.Complete;
    var s0 := Goto(s, p, RsOpenMeta);
    GotoTwice(s, p, RsOpenMeta, RsProbeA);
    if |ms| == 1 {
      MissingCall(s0, p, ms[0]);
      var s1 := OneCall(s0, p, ms[0]);
      assert CallsOf(p, ms) == [Call(p, ms[0])];
    } else {
      var q := RsReadMeta(s.fs.entries[Meta], ActiveNumber(s.fs));
      LookupCall(s0, p, ms[0]);
      var s1 := OneCall(s0, p, ms[0]);
      GotoTwice(s, p, RsOpenMeta, q);
      MissingCall(s1, p, ms[1]);
      var s2 := OneCall(s1, p, ms[1]);
      GotoTwice(s, p, q, RsProbeA);
      LeadsThen(s0, [Call(p, ms[0])], s1, [Call(p, ms[1])], s2);
      assert [Call(p, ms[0])] + [Call(p, ms[1])] == CallsOf(p, ms);
    }
  }

  /** The probes find the fallback's slot: one call for slot A, two for slot B. */
  lemma ProbesLead(s: Sys, p: Pid, slot: Slot, os: seq<Outcome>)
    requires p !in s.procs && Snap(slot) in s.fs.entries && (slot == B ==> Snap(A) !in s.fs.entries)
    requires |os| == (if slot == A then 1 else 2)
    requires forall i :: 0 <= i < |os| ==> Succeeds(s, os[i]) && os[i].child != p
    ensures Leads(Goto(s, p, RsProbeA), CallsOf(p, os), Goto(s, p, RsOpen(slot, SlotNumber(s.fs, slot))))
  {
    hide Restore, Leads, SlotNumber, ImageFormat.Complete;
    var s0 := Goto(s, p, RsProbeA);
    LookupCall(s0, p, os[0]);
    var s1 := OneCall(s0, p, os[0]);
    if slot == A {
      GotoTwice(s, p, RsProbeA, RsOpen(A, SlotNumber(s.fs, A)));
      assert CallsOf(p, os) == [Call(p, os[0])];
    } else {
      GotoTwice(s, p, RsProbeA, RsProbeB);
      LookupCall(s1, p, os[1]);
      var s2 := OneCall(s1, p, os[1]);
      GotoTwice(s, p, RsProbeB, RsOpen(B, SlotNumber(s.fs, B)));
      LeadsThen(s0, [Call(p, os[0])], s1, [Call(p, os[1])], s2);
      assert [Call(p, os[0])] + [Call(p, os[1])] == CallsOf(p, os);
    }
  }

  /** A restore that misses active.meta in one of the three ways, and whose other calls succeed. */
  ghost predicate FallbackSucceeds(s: Sys, p: Pid, slot: Slot, ms: seq<Outcome>, os: seq<Outcome>) {
    && Misses(s, ms) && (forall i :: 0 <= i < |ms| ==> ms[i].child != p)
    && |os| == (if slot == A then 5 else 6)
    && (forall i :: 0 <= i < |os| ==> Succeeds(s, os[i]) && os[i].child != p)
    && os[|os| - 1].child != os[|os| - 2].child
  }

  /**
   From every state of every run: a new restore that misses active.meta, whose other calls
   succeed, with no other process in between, ends in a child that has loaded slot A's image, or
   slot B's if slot A has none.  Without metadata that is the selected image.
   */
  lemma FallbackCompletes(
    states: seq<Sys>, actions: seq<Action>, i: nat, p: Pid, slot: Slot, ms: seq<Outcome>, os: seq<Outcome>)
    requires RunFromInit(states, actions) && i < |states| && p !in states[i].procs
    requires Snap(slot) in states[i].fs.entries && (slot == B ==> Snap(A) !in states[i].fs.entries)
    requires FallbackSucceeds(states[i], p, slot, ms, os)
    ensures var s := states[i];
      && InSlot(s.fs, slot).Some?
      && (Meta !in s.fs.entries ==> Selected(s.fs) == InSlot(s.fs, slot))
      && Leads(s, RestoreActions(p, ms + os),
               WithChild(s, os[|os| - 2].child, Loaded(s.fs, slot, SlotNumber(s.fs, slot))))
  {
    hide Inv, Step, Restore, Leads, InSlot, SlotNumber, ReadSlot, ImageFormat.Complete;
    var s, n := states[i], |os| - 4;
    InitHolds();
    RunKeeps(states, actions);
    NotTheHolder(states, actions, i, p);
    InSlotIsImage(s, slot);
    InSlotIsImage(s, A);
    if Meta !in s.fs.entries {
      SelectedWithoutMeta(s.fs, slot);
      SelectedIsInSlot(s, slot);
    }
    SpawnsRestore(s, p);
    MissLeads(s, p, ms);
    ProbesLead(s, p, slot, os[..n]);
    var floor := SlotNumber(s.fs, slot);
    LeadsThen(Goto(s, p, RsAccessMeta), CallsOf(p, ms), Goto(s, p, RsProbeA), CallsOf(p, os[..n]),
              Goto(s, p, RsOpen(slot, floor)));
    assert CallsOf(p, ms) + CallsOf(p, os[..n]) == CallsOf(p, (ms + os)[..|ms| + n]);
    AfterLookup(s, p, slot, floor, ms + os, |ms| + n);
  }

  /** A restore whose call succeeds ends only with its child forked, or loaded, or with no image to find. */
  lemma RestoreEndsOnlyFor(s: Sys, p: Pid, o: Outcome)
    requires Inv(s) && Enabled(s, Call(p, o)) && !IsCheckpoint(s.procs[p]) && o.ok
    ensures var q, s' := s.procs[p], Restore(s, p, o);
      p !in s'.procs ==>
        || (q.RsFork? && o.child in s'.procs && s'.procs[o.child] == ChOpen(q.slot, q.floor, q.seen))
        || q.ChLoad?
        || (q.RsProbeB? && Snap(B) !in s.fs.entries)
  {
    hide Inv, MetadataText.ReadActiveSlot, ImageFormat.Complete;
    InvParts(s, p);
    if s.procs[p].RsReadMeta? {
      SoundHolds(s.fs, s.procs[p].ino);
    }
  }
}
