/** The packet ids that a session has locked, each by a file of its own (lib/myqtt-storage.c). */
module PkgIdLocks {

  /** Trying the ids of a range one by one: the first that is not locked, or the range's end, which is not tried. */
  function FirstFree(locks: set<int>, id: int, limit: int): (r: int)
    requires id <= limit
    ensures id <= r <= limit
    decreases limit - id
  {
    if id < limit && id in locks then FirstFree(locks, id + 1, limit) else id
  }

  /** The search ends before the range's end exactly if the range has a free id, and then at the smallest one. */
  lemma {:induction false} FreshIdExactly(locks: set<int>, from: int, limit: int)
    requires from <= limit
    ensures var id := FirstFree(locks, from, limit);
            && (id < limit <==> exists x :: from <= x < limit && x !in locks)
            && (id < limit ==> id !in locks) && forall x :: from <= x < id ==> x in locks
    decreases limit - from
  {
    if from < limit && from in locks {
      FreshIdExactly(locks, from + 1, limit);
    }
  }
}
