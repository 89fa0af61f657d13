/** The slot allocator of the session manager (allocSlot in cmd/poc/main.go). */
module Slots {
  import opened Options

  ghost predicate IsLeastFree(used: set<int>, i: int) {
    0 <= i && i !in used && forall j :: 0 <= j < i ==> j in used
  }

  /** Pigeonhole: when slots 0 .. i-1 are all taken, at least i slots are taken. */
  lemma {:induction false} TakenPrefix(used: set<int>, i: nat)
    requires forall j :: 0 <= j < i ==> j in used
    ensures i <= |used|
    decreases i
  {
    if i > 0 {
      TakenPrefix(used - {i - 1}, i - 1);
    }
  }

  /** The least free slot at or after `i`, when all slots before `i` are taken. */
  function LeastFreeFrom(used: set<int>, i: nat): (r: nat)
    requires forall j :: 0 <= j < i ==> j in used
    ensures IsLeastFree(used, r)
    decreases |used| - i
  {
    if i !in used then i
    else
      TakenPrefix(used, i + 1);
      LeastFreeFrom(used, i + 1)
  }

  /** What one allocation decides: a slot, or none when the limit is reached. Zero means no limit. */
  function Alloc(used: set<int>, maxSlots: int): (r: Option<nat>)
    ensures r.None? <==> 0 < maxSlots <= |used|
    ensures r.Some? ==> IsLeastFree(used, r.value) && r.value <= |used|
    ensures r.Some? && maxSlots > 0 ==> r.value < maxSlots && |used + {r.value}| <= maxSlots
  {
    if 0 < maxSlots <= |used| then None
    else
      var i := LeastFreeFrom(used, 0);
      TakenPrefix(used, i);
      Some(i)
  }

  class SlotTable {
    var usedSlots: set<int>
    const maxSlots: int

    constructor (maxSlots: int)
      ensures this.maxSlots == maxSlots && usedSlots == {}
    {
      this.maxSlots := maxSlots;
      usedSlots := {};
    }

    /** Takes the least free slot. Fails exactly when `maxSlots` > 0 slots are in use already, so the
        second bound check inside the loop never fires; it probes at most |usedSlots| + 1 slots. */
    method AllocSlot() returns (slot: int, ok: bool)
      modifies this`usedSlots
      ensures ok <==> !(0 < maxSlots <= |old(usedSlots)|)
      ensures ok ==> IsLeastFree(old(usedSlots), slot) && slot <= |old(usedSlots)|
      ensures ok ==> Alloc(old(usedSlots), maxSlots) == Some(slot)
      ensures usedSlots == if ok then old(usedSlots) + {slot} else old(usedSlots)
    {
      if maxSlots > 0 && |usedSlots| >= maxSlots {
        return 0, false;
      }
      var i := 0;
      while true
        invariant 0 <= i <= |usedSlots|
        invariant forall j :: 0 <= j < i ==> j in usedSlots
        invariant usedSlots == old(usedSlots)
        decreases |usedSlots| - i
      {
        if maxSlots > 0 && i >= maxSlots {
          return 0, false;
        }
        if i !in usedSlots {
          var free := Alloc(usedSlots, maxSlots);
          usedSlots := usedSlots + {i};
          return i, true;
        }
        TakenPrefix(usedSlots, i + 1);
        i := i + 1;
      }
    }

    method FreeSlot(slot: int)
      modifies this`usedSlots
      ensures usedSlots == old(usedSlots) - {slot}
    {
      usedSlots := usedSlots - {slot};
    }
  }
}
