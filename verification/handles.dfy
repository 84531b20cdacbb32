/** Handle liveness (src/stat.rs:49-58, 104). A caller keeps a reference-counted
    handle; each slot keeps a weak reference to it, and the slot is in force for
    exactly as long as some strong reference is still held. Here a handle is a
    number, and a registry records which numbers are still held. */
module Handles {
  import opened Slots

  /** The handles issued so far and those among them still held. */
  class Registry {
    /** Handles some caller still holds: a weak reference to one of them upgrades. */
    var live: set<HandleId>
    /** The next handle to issue: every handle issued so far is below it. */
    var next: HandleId

    ghost predicate Valid()
      reads this
    {
      forall h :: h in live ==> h < next
    }

    constructor ()
      ensures Valid()
      ensures live == {} && next == 0
    {
      live := {};
      next := 0;
    }

    /** Issues a new handle, distinct from every handle issued before, and holds it. */
    method Mint() returns (h: HandleId)
      requires Valid()
      modifies this
      ensures Valid()
      ensures h == old(next) && h !in old(live)
      ensures live == old(live) + {h}
      ensures next == old(next) + 1
    {
      h := next;
      live := live + {h};
      next := next + 1;
    }

    /** The last strong reference to `h` goes away: every slot observing `h` is
        stale from now on. The stat that holds such a slot is not touched. */
    method Drop(h: HandleId)
      requires Valid()
      modifies this
      ensures Valid()
      ensures live == old(live) - {h}
      ensures next == old(next)
    {
      live := live - {h};
    }
  }
}
