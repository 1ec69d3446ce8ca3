/** Small helpers that several modules share. */
module Common {
  /** The first `n` elements, or all if there are no more. */
  function Take<T>(s: seq<T>, n: nat): seq<T> {
    if |s| <= n then s else s[..n]
  }

  /** The descriptor or inode number that the kernel hands out next. */
  function LowestUnused<T>(used: map<nat, T>): (n: nat)
    ensures n !in used && forall k: nat :: k < n ==> k in used
  {
    LowestFrom(used, 0)
  }

  ghost function UsedFrom<T>(used: map<nat, T>, k: nat): set<nat> {
    set n | n in used.Keys && n >= k
  }

  function LowestFrom<T>(used: map<nat, T>, k: nat): (n: nat)
    requires forall j: nat :: j < k ==> j in used
    ensures n !in used && forall j: nat :: j < n ==> j in used
    decreases UsedFrom(used, k)
  {
    if k !in used then k
    else
      assert k in UsedFrom(used, k) && k !in UsedFrom(used, k + 1) && UsedFrom(used, k + 1) <= UsedFrom(used, k);
      LowestFrom(used, k + 1)
  }

  /** Counts the system calls that failed, or did less than they were asked to. */
  class Kernel {
    var faults: nat

    constructor ()
      ensures faults == 0
    {
      faults := 0;
    }

    /** A call that either works or fails. */
    method Try() returns (ok: bool)
      modifies this
      ensures faults == old(faults) + if ok then 0 else 1
    {
      ok := *;
      faults := faults + if ok then 0 else 1;
    }
  }
}
