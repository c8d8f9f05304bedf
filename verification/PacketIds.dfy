/** The packet id allocator of a connection (lib/myqtt-conn.c; section 2.3.1 of MQTT 3.1.1). */
module PacketIds {
  import opened PkgIdLocks

  const MAX_ID: int := 65535

  /**
   * The ids in use in list order, the ids that a thread waits on, and the ids locked by a file in the session's
   * storage.
   */
  datatype Ids = Ids(sent: seq<int>, waits: set<int>, locks: set<int>)

  predicate Blocked(s: Ids, id: int) {
    id in s.waits || id in s.locks
  }

  /* ---------- The allocation as a function ---------- */

  /** Where the walk over the list ends: an id, and the position to insert it at. */
  datatype Place = Insert(id: int, at: nat) | Append(id: int)

  function Walk(s: Ids, at: nat, id: int): (p: Place)
    requires at <= |s.sent|
    ensures id <= p.id && (p.Insert? ==> at <= p.at < |s.sent| && !Blocked(s, p.id))
    decreases |s.sent| - at
  {
    if at == |s.sent| then Append(id)
    else if id == s.sent[at] then Walk(s, at + 1, id + 1)
    else if id < s.sent[at] then
      if Blocked(s, id) then Walk(s, at + 1, id + 1) else Insert(id, at)
    else Walk(s, at + 1, id)
  }

  /** The id handed out and the lists afterwards; without storage for ids the code hands out 1. */
  function Allocate(s: Ids, ready: bool): (r: (int, Ids)) {
    if !ready then (1, s)
    else if s.sent == [] && s.waits == {} then
      var id := FirstFree(s.locks, 1, MAX_ID);
      (id, s.(sent := [id], locks := if id < MAX_ID then s.locks + {id} else s.locks))
    else
      match Walk(s, 0, 1)
      case Append(id) => (id, s.(sent := s.sent + [id]))
      case Insert(id, at) => (id, s.(sent := s.sent[..at] + [id] + s.sent[at..], locks := s.locks + {id}))
  }

  function Remove(list: seq<int>, id: int): seq<int> {
    if list == [] then []
    else if list[0] == id then list[1..]
    else [list[0]] + Remove(list[1..], id)
  }

  function Release(s: Ids, id: int): Ids {
    s.(sent := Remove(s.sent, id), locks := s.locks - {id})
  }

  /* ---------- The code ---------- */

  class Connection {
    var sentPkgIds: seq<int>
    var waitReplies: set<int>
    var locked: set<int>

    function State(): Ids
      reads this
    {
      Ids(sentPkgIds, waitReplies, locked)
    }

    /** Locks an id in the storage unless it is locked. */
    method LockPkgId(id: int) returns (ok: bool)
      modifies this`locked
      ensures ok <==> id !in old(locked)
      ensures locked == old(locked) + {id}
    {
      ok := id !in locked;
      locked := locked + {id};
    }

    method GetNextPkgId(ready: bool) returns (pkgId: int)
      modifies this`sentPkgIds, this`locked
      ensures (pkgId, State()) == Allocate(old(State()), ready)
    {
      pkgId := 1;
      if !ready {
        return;
      }
      if sentPkgIds == [] && waitReplies == {} {
        pkgId := FindUnlocked();
        sentPkgIds := sentPkgIds + [pkgId];
        assert sentPkgIds == [pkgId];
        return;
      }
      var i := 0;
      while i < |sentPkgIds|
        invariant i <= |sentPkgIds| && State() == old(State())
        invariant Walk(State(), i, pkgId) == Walk(State(), 0, 1)
        decreases |sentPkgIds| - i
      {
        var value := sentPkgIds[i];
        if pkgId == value {
          pkgId := pkgId + 1;
        } else if pkgId < value {
          if pkgId in waitReplies {
            pkgId := pkgId + 1;
            i := i + 1;
            continue;
          }
          var obtained := LockPkgId(pkgId);
          if !obtained {
            assert locked == old(locked);
            pkgId := pkgId + 1;
            i := i + 1;
            continue;
          }
          sentPkgIds := sentPkgIds[..i] + [pkgId] + sentPkgIds[i..];
          return;
        }
        i := i + 1;
      }
      sentPkgIds := sentPkgIds + [pkgId];
    }

    method FindUnlocked() returns (pkgId: int)
      modifies this`locked
      ensures pkgId == FirstFree(old(locked), 1, MAX_ID)
      ensures locked == if pkgId < MAX_ID then old(locked) + {pkgId} else old(locked)
    {
      pkgId := 1;
      while pkgId < 65535
        invariant 1 <= pkgId <= MAX_ID && locked == old(locked)
        invariant FirstFree(locked, pkgId, MAX_ID) == FirstFree(locked, 1, MAX_ID)
      {
        var obtained := LockPkgId(pkgId);
        if obtained {
          return;
        }
        assert locked == old(locked);
        pkgId := pkgId + 1;
      }
    }

    method ReleasePkgId(id: int)
      modifies this`sentPkgIds, this`locked
      ensures State() == Release(old(State()), id)
    {
      sentPkgIds := Remove(sentPkgIds, id);
      locked := locked - {id};
    }
  }

  /* ---------- Any list ---------- */

  /** Ids are in use or waited on, so that the allocator walks over the list. */
  predicate Walks(s: Ids) {
    s.sent != [] || s.waits != {}
  }

  /** Where the walk goes on once it has passed the ids 1 to `k` at the given places of the list. */
  function From(stops: seq<nat>, k: nat): nat
    requires k <= |stops|
  {
    if k == 0 then 0 else stops[k - 1] + 1
  }

  /** The `k`th place is the first element there that is not smaller than `k + 1`: it is that id, or the id is blocked. */
  predicate PassesAt(s: Ids, stops: seq<nat>, k: nat)
    requires k < |stops|
  {
    && From(stops, k) <= stops[k] < |s.sent| && (forall j :: From(stops, k) <= j < stops[k] ==> s.sent[j] <= k)
    && (s.sent[stops[k]] == k + 1 || (k + 1 < s.sent[stops[k]] && Blocked(s, k + 1)))
  }

  predicate Passes(s: Ids, stops: seq<nat>) {
    forall k :: 0 <= k < |stops| ==> PassesAt(s, stops, k)
  }

  /**
   * The course of a walk: the places at which it passes the ids 1 to `|stops|`, and the place where it ends with the next
   * one, in front of a greater id in use and not blocked, or behind the list, untried.
   */
  predicate Trail(s: Ids, stops: seq<nat>, at: nat) {
    var id := |stops| + 1;
    && Passes(s, stops)
    && From(stops, |stops|) <= at <= |s.sent| && (forall j :: From(stops, |stops|) <= j < at ==> s.sent[j] < id)
    && (at < |s.sent| ==> id < s.sent[at] && !Blocked(s, id))
  }

  lemma {:induction false} WalkSkipsSmaller(s: Ids, i: nat, j: nat, id: int)
    requires i <= j <= |s.sent| && forall k :: i <= k < j ==> s.sent[k] < id
    ensures Walk(s, i, id) == Walk(s, j, id)
    decreases j - i
  {
    if i < j {
      WalkSkipsSmaller(s, i + 1, j, id);
    }
  }

  lemma {:induction false} WalkFollowsStops(s: Ids, stops: seq<nat>, k: nat)
    requires Passes(s, stops) && k <= |stops|
    ensures From(stops, k) <= |s.sent| && Walk(s, 0, 1) == Walk(s, From(stops, k), k + 1)
  {
    if 0 < k {
      WalkFollowsStops(s, stops, k - 1);
      assert PassesAt(s, stops, k - 1);
      WalkSkipsSmaller(s, From(stops, k - 1), stops[k - 1], k);
    }
  }

  lemma TrailDecides(s: Ids, stops: seq<nat>, at: nat)
    requires Trail(s, stops, at)
    ensures Walk(s, 0, 1) == if at < |s.sent| then Insert(|stops| + 1, at) else Append(|stops| + 1)
  {
    WalkFollowsStops(s, stops, |stops|);
    WalkSkipsSmaller(s, From(stops, |stops|), at, |stops| + 1);
  }

  lemma {:induction false} TrailFrom(s: Ids, stops: seq<nat>, i: nat) returns (all: seq<nat>, at: nat)
    requires Passes(s, stops) && From(stops, |stops|) <= i <= |s.sent|
    requires forall j :: From(stops, |stops|) <= j < i ==> s.sent[j] <= |stops|
    ensures Trail(s, all, at)
    decreases |s.sent| - i
  {
    var id := |stops| + 1;
    if i == |s.sent| || (id < s.sent[i] && !Blocked(s, id)) {
      return stops, i;
    }
    if s.sent[i] < id {
      all, at := TrailFrom(s, stops, i + 1);
    } else {
      var longer := stops + [i];
      forall k | 0 <= k < |longer| ensures PassesAt(s, longer, k) {
        assert k < |stops| ==> PassesAt(s, stops, k);
      }
      all, at := TrailFrom(s, longer, i + 1);
    }
  }

  lemma WholeTrail(s: Ids) returns (all: seq<nat>, at: nat)
    ensures Trail(s, all, at)
  {
    all, at := TrailFrom(s, [], 0);
  }

  /** Every list has a trail, and where it ends decides what is handed out. */
  lemma WalkExactly(s: Ids, id: int)
    requires Walks(s)
    ensures Allocate(s, true).0 == id <==> exists stops, at :: Trail(s, stops, at) && |stops| + 1 == id
  {
    var all, end := WholeTrail(s);
    TrailDecides(s, all, end);
    forall stops, at | Trail(s, stops, at) ensures |stops| + 1 == Allocate(s, true).0 {
      TrailDecides(s, stops, at);
    }
  }

  /** With nothing in use: the smallest id that is not locked, or 65535 if all below are, locked or not. */
  lemma SearchExactly(s: Ids, id: int)
    requires !Walks(s)
    ensures Allocate(s, true).0 == id <==>
              && 1 <= id <= MAX_ID && (forall x :: 1 <= x < id ==> x in s.locks) && (id == MAX_ID || id !in s.locks)
  {
    FreshIdExactly(s.locks, 1, MAX_ID);
  }

  /** The list's element with the id that the walk ends with was used up in passing a smaller, blocked one. */
  predicate UsedUp(s: Ids, stops: seq<nat>, k: nat)
    requires k < |stops|
  {
    PassesAt(s, stops, k) && Blocked(s, k + 1) && s.sent[stops[k]] == |stops| + 1
  }

  /** A walk meets the id it ends with: the list's element with that id was used up, or lies behind the end. */
  predicate Meets(s: Ids, stops: seq<nat>, at: nat)
    requires Trail(s, stops, at)
  {
    (exists k :: 0 <= k < |stops| && UsedUp(s, stops, k)) || |stops| + 1 in s.sent[at..]
  }

  /** The next take hands out an id that is in use: the guard is what the walk does not look at. */
  ghost predicate Repeats(s: Ids) {
    exists stops, at :: Trail(s, stops, at) && Meets(s, stops, at)
  }

  lemma {:induction false} MetBefore(s: Ids, stops: seq<nat>, k: nat, i: nat)
    requires Passes(s, stops) && k <= |stops| && i < From(stops, k) && i < |s.sent| && s.sent[i] == |stops| + 1
    ensures exists j :: 0 <= j < |stops| && UsedUp(s, stops, j)
  {
    if 0 < k {
      assert PassesAt(s, stops, k - 1);
      if i < From(stops, k - 1) {
        MetBefore(s, stops, k - 1, i);
      } else {
        assert UsedUp(s, stops, k - 1);
      }
    }
  }

  lemma MeetsExactly(s: Ids, stops: seq<nat>, at: nat)
    requires Trail(s, stops, at)
    ensures Meets(s, stops, at) <==> |stops| + 1 in s.sent
  {
    hide Passes, PassesAt;
    var r := |stops| + 1;
    if r in s.sent {
      var i :| 0 <= i < |s.sent| && s.sent[i] == r;
      if i < From(stops, |stops|) {
        MetBefore(s, stops, |stops|, i);
      } else {
        assert s.sent[at..][i - at] == r;
      }
    }
    if k :| 0 <= k < |stops| && UsedUp(s, stops, k) {
      UsedUpIsInUse(s, stops, k);
    }
  }

  lemma UsedUpIsInUse(s: Ids, stops: seq<nat>, k: nat)
    requires k < |stops| && UsedUp(s, stops, k)
    ensures |stops| + 1 in s.sent
  {
  }

  /**
   * On any list an id is handed out that is in use already if and only if the walk meets it; without storage for ids, if
   * and only if 1 is in use.
   */
  lemma RepeatsExactly(s: Ids, ready: bool)
    ensures Allocate(s, ready).0 in s.sent <==> if ready then Repeats(s) else 1 in s.sent
  {
    hide Meets, Trail, Walk;
    if ready {
      var all, end := WholeTrail(s);
      MeetsExactly(s, all, end);
      forall stops, at | Trail(s, stops, at) && Meets(s, stops, at) ensures Allocate(s, true).0 in s.sent {
        MeetsExactly(s, stops, at);
        TrailDecides(s, stops, at);
      }
      TrailDecides(s, all, end);
    }
  }

  /** On any list the id handed out is waited on or locked by somebody else if and only if it was taken untried. */
  lemma TakesBlockedExactly(s: Ids)
    ensures Blocked(s, Allocate(s, true).0) <==>
              if Walks(s) then exists stops :: Trail(s, stops, |s.sent|) && Blocked(s, |stops| + 1)
              else forall id :: 1 <= id <= MAX_ID ==> id in s.locks
  {
    if Walks(s) {
      var all, end := WholeTrail(s);
      TrailDecides(s, all, end);
      if Blocked(s, |all| + 1) {
        assert Trail(s, all, |s.sent|);
      }
      forall stops | Trail(s, stops, |s.sent|) ensures |stops| + 1 == Allocate(s, true).0 {
        TrailDecides(s, stops, |s.sent|);
      }
    } else {
      SearchExactly(s, Allocate(s, true).0);
    }
  }

  /**
   * The id handed out is locked and goes into the list where the walk ends; at the list's end, and at the end of the search,
   * it is taken without a lock of its own. Nothing else is locked or put into the list.
   */
  lemma LocksExactly(s: Ids, stops: seq<nat>, at: nat)
    requires Trail(s, stops, at)
    ensures var (id, s') := Allocate(s, true);
            && s'.waits == s.waits
            && (Walks(s) ==> s'.sent == s.sent[..at] + [id] + s.sent[at..])
            && (Walks(s) ==> s'.locks == if at < |s.sent| then s.locks + {id} else s.locks)
            && (!Walks(s) ==> s'.sent == [id] && s'.locks == if id < 65535 then s.locks + {id} else s.locks)
            && ((Walks(s) && at < |s.sent|) || (!Walks(s) && id < 65535) ==> id !in s.locks && id in s'.locks)
  {
    TrailDecides(s, stops, at);
    if Walks(s) {
      assert at == |s.sent| ==> s.sent[..at] + [|stops| + 1] + s.sent[at..] == s.sent + [|stops| + 1];
    } else {
      FreshIdExactly(s.locks, 1, MAX_ID);
    }
  }

  /* ---------- The smallest free id ---------- */

  /** The smallest positive number not in the list, found by counting up. */
  function Smallest(list: seq<int>, k: nat): (id: int)
    requires k <= |list|
    ensures k < id <= |list| + 1
    decreases |list| - k
  {
    if k < |list| && k + 1 in list then Smallest(list, k + 1) else k + 1
  }

  lemma {:induction false} SmallestIsSmallest(list: seq<int>, k: nat)
    requires k <= |list| && forall id :: 1 <= id <= k ==> id in list
    ensures Smallest(list, k) !in list && forall id :: 1 <= id < Smallest(list, k) ==> id in list
    decreases |list| - k
  {
    if k < |list| && k + 1 in list {
      SmallestIsSmallest(list, k + 1);
    } else if k == |list| && k + 1 in list {
      NoRoomForMore(list, k + 1);
    }
  }

  /** A list that holds 1 to `k` has at least `k` elements. */
  lemma {:induction false} NoRoomForMore(list: seq<int>, k: nat)
    requires forall id :: 1 <= id <= k ==> id in list
    ensures k <= |list|
    decreases k
  {
    if 0 < k {
      RemovedOnce(list, k);
      NoRoomForMore(Remove(list, k), k - 1);
    }
  }

  lemma {:induction false} RemovedOnce(list: seq<int>, id: int)
    requires id in list
    ensures |Remove(list, id)| == |list| - 1 && forall x :: x in list && x != id ==> x in Remove(list, id)
  {
    if list[0] != id {
      RemovedOnce(list[1..], id);
    }
  }

  /** All smaller ids are passed, and the smallest free one is not blocked or has no greater one behind it. */
  predicate ReachesSmallest(s: Ids, stops: seq<nat>) {
    var id := Smallest(s.sent, 0);
    && |stops| + 1 == id && Passes(s, stops) && From(stops, |stops|) <= |s.sent|
    && (!Blocked(s, id) || forall j :: From(stops, |stops|) <= j < |s.sent| ==> s.sent[j] < id)
  }

  /** On any list the smallest id that is not in use is handed out if and only if the walk reaches it. */
  lemma SmallestExactly(s: Ids)
    ensures var id := Smallest(s.sent, 0);
            && id !in s.sent && (forall x :: 1 <= x < id ==> x in s.sent)
            && (Allocate(s, true).0 == id <==>
                  if Walks(s) then exists stops :: ReachesSmallest(s, stops) else !Blocked(s, id))
  {
    var id := Smallest(s.sent, 0);
    SmallestIsSmallest(s.sent, 0);
    if Walks(s) {
      var all, end := WholeTrail(s);
      TrailDecides(s, all, end);
      if |all| + 1 == id {
        assert ReachesSmallest(s, all);
      }
      forall stops | ReachesSmallest(s, stops) ensures Allocate(s, true).0 == id {
        var at := FirstGreater(s.sent, From(stops, |stops|), id);
        assert Trail(s, stops, at);
        TrailDecides(s, stops, at);
      }
    } else {
      SearchExactly(s, id);
    }
  }

  /** The first element from `i` on that is greater than an id that the list does not have. */
  function FirstGreater(list: seq<int>, i: nat, id: int): (at: nat)
    requires i <= |list| && id !in list
    ensures i <= at <= |list| && (forall j :: i <= j < at ==> list[j] < id) && (at < |list| ==> id < list[at])
    decreases |list| - i
  {
    if i == |list| || id < list[i] then i else FirstGreater(list, i + 1, id)
  }

  /* ---------- Lists in order ---------- */

  predicate Increasing(list: seq<int>) {
    && (forall k :: 0 <= k < |list| ==> 0 < list[k])
    && (forall j, k :: 0 <= j < k < |list| ==> list[j] < list[k])
  }

  /** An increasing list that holds 1 to `k` starts with them. */
  lemma {:induction false} FrontIsFull(list: seq<int>, k: nat)
    requires Increasing(list) && forall id :: 1 <= id <= k ==> id in list
    ensures k <= |list| && forall j :: 0 <= j < k ==> list[j] == j + 1
  {
    if 0 < k {
      FrontIsFull(list, k - 1);
      assert k in list;
      var i :| 0 <= i < |list| && list[i] == k;
      var before := if 1 < k then list[k - 2] else 0;
      assert list[k - 1] > before;
    }
  }

  /** The walk passes the ids in use at the front of the list. */
  lemma {:induction false} WalkSkipsFront(s: Ids, k: nat)
    requires k <= |s.sent| && forall j :: 0 <= j < k ==> s.sent[j] == j + 1
    ensures Walk(s, 0, 1) == Walk(s, k, k + 1)
  {
    if 0 < k {
      WalkSkipsFront(s, k - 1);
    }
  }

  /** Where the walk stands once it reaches the smallest free id. */
  lemma WalkReachesSmallest(s: Ids)
    requires Increasing(s.sent)
    ensures var k := Smallest(s.sent, 0) - 1;
            && k <= |s.sent| && Walk(s, 0, 1) == Walk(s, k, k + 1)
            && (forall j :: 0 <= j < k ==> s.sent[j] == j + 1)
            && (k < |s.sent| ==> k + 1 < s.sent[k])
  {
    var id := Smallest(s.sent, 0);
    SmallestIsSmallest(s.sent, 0);
    FrontIsFull(s.sent, id - 1);
    WalkSkipsFront(s, id - 1);
    if id - 1 < |s.sent| {
      assert s.sent[id - 1] in s.sent;
      assert 1 < id ==> s.sent[id - 2] < s.sent[id - 1];
    }
  }

  /** From `id` on, the first id that nothing blocks; an id past the number of ids in use is taken untried. */
  function FirstOpen(s: Ids, id: int): (r: int)
    requires id <= |s.sent| + 1
    ensures id <= r <= |s.sent| + 1
    decreases |s.sent| + 1 - id
  {
    if id <= |s.sent| && Blocked(s, id) then FirstOpen(s, id + 1) else id
  }

  lemma {:induction false} FirstOpenExactly(s: Ids, id: int, r: int)
    requires id <= |s.sent| + 1
    ensures FirstOpen(s, id) == r <==>
              && id <= r <= |s.sent| + 1 && (forall x :: id <= x < r ==> Blocked(s, x))
              && (r == |s.sent| + 1 || !Blocked(s, r))
    decreases |s.sent| + 1 - id
  {
    if id <= |s.sent| && Blocked(s, id) {
      FirstOpenExactly(s, id + 1, r);
    }
  }

  /** From the smallest free id on, every list element is greater than the id under test. */
  lemma {:induction false} WalkIsFirstOpen(s: Ids, at: nat)
    requires Increasing(s.sent) && at <= |s.sent| && (at < |s.sent| ==> at + 1 < s.sent[at])
    ensures Walk(s, at, at + 1).id == FirstOpen(s, at + 1)
    decreases |s.sent| - at
  {
    if at < |s.sent| && Blocked(s, at + 1) {
      WalkIsFirstOpen(s, at + 1);
    }
  }

  function Inserted(list: seq<int>, at: nat, id: int): seq<int>
    requires at <= |list|
  {
    list[..at] + [id] + list[at..]
  }

  lemma InsertedAt(list: seq<int>, at: nat, id: int)
    requires at <= |list|
    ensures |Inserted(list, at, id)| == |list| + 1
    ensures forall k {:trigger Inserted(list, at, id)[k]} :: 0 <= k <= |list| ==>
              Inserted(list, at, id)[k] == if k < at then list[k] else if k == at then id else list[k - 1]
  {
  }

  lemma InsertedHas(list: seq<int>, at: nat, id: int, x: int)
    requires at <= |list|
    ensures x in Inserted(list, at, id) <==> x in list || x == id
  {
    hide Inserted;
    InsertedAt(list, at, id);
    var r := Inserted(list, at, id);
    assert r[at] == id;
    if x in list {
      var i :| 0 <= i < |list| && list[i] == x;
      assert r[if i < at then i else i + 1] == x;
    }
  }

  lemma InsertKeepsIncreasing(list: seq<int>, at: nat, id: int)
    requires Increasing(list) && at <= |list| && 0 < id
    requires (forall k :: 0 <= k < at ==> list[k] < id) && (at < |list| ==> id < list[at])
    ensures Increasing(Inserted(list, at, id))
  {
    hide Inserted;
    InsertedAt(list, at, id);
    var r := Inserted(list, at, id);
    forall j, k | 0 <= j < k < |r| ensures r[j] < r[k] {
      if j == at && at < k - 1 {
        assert list[at] < list[k - 1];
      }
    }
  }

  /**
   * What is handed out from a list in order: from the smallest free id on the first id that nothing blocks, or the number
   * of ids in use plus one if everything up to there is blocked.
   */
  lemma OrderedWalkExactly(s: Ids)
    requires Increasing(s.sent) && Walks(s)
    ensures Allocate(s, true).0 == FirstOpen(s, Smallest(s.sent, 0))
  {
    WalkReachesSmallest(s);
    WalkIsFirstOpen(s, Smallest(s.sent, 0) - 1);
  }

  /** With nothing in use or waited on, with the smallest free id not blocked, or with no greater id in use. */
  predicate Orderly(s: Ids) {
    var id := Smallest(s.sent, 0);
    !Walks(s) || !Blocked(s, id) || forall x :: x in s.sent ==> x < id
  }

  /** A take keeps a list in order exactly if it is orderly, and then, if it walks, it hands out the smallest free id. */
  lemma OrderKeptExactly(s: Ids)
    requires Increasing(s.sent)
    ensures Increasing(Allocate(s, true).1.sent) <==> Orderly(s)
    ensures Orderly(s) <==> !Walks(s) || Allocate(s, true).0 == Smallest(s.sent, 0)
  {
    var id := Smallest(s.sent, 0);
    SmallestIsSmallest(s.sent, 0);
    if Walks(s) {
      OrderedWalkExactly(s);
      FirstOpenExactly(s, id, id);
      WalkReachesSmallest(s);
      if id - 1 < |s.sent| {
        assert s.sent[id - 1] in s.sent && id < s.sent[id - 1];
      }
      if Allocate(s, true).0 == id {
        SmallestIsInserted(s);
      } else {
        GreaterBreaksOrder(s, id - 1);
      }
    }
  }

  lemma SmallestIsPlaced(s: Ids)
    requires Increasing(s.sent) && Walks(s) && Allocate(s, true).0 == Smallest(s.sent, 0)
    ensures var (id, k) := (Smallest(s.sent, 0), Smallest(s.sent, 0) - 1);
            && k <= |s.sent| && Allocate(s, true).1.sent == Inserted(s.sent, k, id)
            && (forall j :: 0 <= j < k ==> s.sent[j] < id) && (k < |s.sent| ==> id < s.sent[k])
  {
    hide Smallest, Increasing;
    var k := Smallest(s.sent, 0) - 1;
    WalkReachesSmallest(s);
    if k == |s.sent| {
      assert s.sent[..k] + [k + 1] + s.sent[k..] == s.sent + [k + 1];
    }
  }

  lemma SmallestIsInserted(s: Ids)
    requires Increasing(s.sent) && Walks(s) && Allocate(s, true).0 == Smallest(s.sent, 0)
    ensures var (id, s') := (Smallest(s.sent, 0), Allocate(s, true).1);
            Increasing(s'.sent) && forall x :: x in s'.sent <==> x in s.sent || x == id
  {
    hide Smallest, Increasing, Inserted, Allocate;
    var id := Smallest(s.sent, 0);
    SmallestIsSmallest(s.sent, 0);
    SmallestIsPlaced(s);
    InsertKeepsIncreasing(s.sent, id - 1, id);
    forall x ensures x in Inserted(s.sent, id - 1, id) <==> x in s.sent || x == id {
      InsertedHas(s.sent, id - 1, id, x);
    }
  }

  /** Passing the smallest free id puts the next one behind an element that is not smaller. */
  lemma {:induction false} GreaterBreaksOrder(s: Ids, at: nat)
    requires Increasing(s.sent) && Walks(s) && at < |s.sent| && at + 1 < s.sent[at] && Blocked(s, at + 1)
    requires Walk(s, 0, 1) == Walk(s, at, at + 1)
    ensures !Increasing(Allocate(s, true).1.sent)
    decreases |s.sent| - at
  {
    var list := Allocate(s, true).1.sent;
    if at + 1 < |s.sent| {
      if Blocked(s, at + 2) {
        GreaterBreaksOrder(s, at + 1);
      } else {
        assert list[at] >= list[at + 1];
      }
    } else {
      assert list[at] >= list[at + 1];
    }
  }

  /** From a list in order an id in use is handed out exactly when one is reached over blocked ids only. */
  lemma OrderedRepeatsExactly(s: Ids)
    requires Increasing(s.sent)
    ensures Allocate(s, true).0 in s.sent <==> exists id :: id in s.sent && Reached(s, id)
  {
    if Walks(s) {
      var r := Allocate(s, true).0;
      OrderedWalkExactly(s);
      FirstOpenExactly(s, Smallest(s.sent, 0), r);
      assert Reached(s, r);
      forall id | Reached(s, id) ensures id == r {
        FirstOpenExactly(s, Smallest(s.sent, 0), id);
      }
    }
  }

  predicate Reached(s: Ids, id: int) {
    && Smallest(s.sent, 0) <= id <= |s.sent| + 1 && (forall x :: Smallest(s.sent, 0) <= x < id ==> Blocked(s, x))
    && (id == |s.sent| + 1 || !Blocked(s, id))
  }

  /**
   * When every id in use is blocked, an id repeats exactly if one in use is taken untried; on a list in order, if all ids up
   * to the number in use are blocked and the next one is in use.
   */
  lemma RepeatsWhenAllBlocked(s: Ids)
    requires forall id :: id in s.sent ==> Blocked(s, id)
    ensures Allocate(s, true).0 in s.sent <==> exists stops :: Trail(s, stops, |s.sent|) && |stops| + 1 in s.sent
    ensures Increasing(s.sent) ==>
              (Allocate(s, true).0 in s.sent <==>
                 |s.sent| + 1 in s.sent && forall id :: 1 <= id <= |s.sent| ==> Blocked(s, id))
  {
    hide Trail, Increasing;
    var all, end := WholeTrail(s);
    TrailDecides(s, all, end);
    if |all| + 1 in s.sent {
      assert Trail(s, all, |s.sent|) by {
        EndsUnblocked(s, all, end);
      }
    }
    forall stops | Trail(s, stops, |s.sent|) && |stops| + 1 in s.sent ensures Allocate(s, true).0 in s.sent {
      TrailDecides(s, stops, |s.sent|);
    }
    if Increasing(s.sent) {
      OrderedRepeatsWhenAllBlocked(s);
    }
  }

  lemma EndsUnblocked(s: Ids, stops: seq<nat>, at: nat)
    requires Trail(s, stops, at)
    ensures at <= |s.sent| && (at < |s.sent| ==> !Blocked(s, |stops| + 1))
  {
  }

  lemma OrderedRepeatsWhenAllBlocked(s: Ids)
    requires Increasing(s.sent) && forall id :: id in s.sent ==> Blocked(s, id)
    ensures Allocate(s, true).0 in s.sent <==>
              |s.sent| + 1 in s.sent && forall id :: 1 <= id <= |s.sent| ==> Blocked(s, id)
  {
    var (low, last) := (Smallest(s.sent, 0), |s.sent| + 1);
    SmallestIsSmallest(s.sent, 0);
    OrderedRepeatsExactly(s);
    if |s.sent| + 1 in s.sent && forall id :: 1 <= id <= |s.sent| ==> Blocked(s, id) {
      assert Reached(s, last);
    }
    forall id | id in s.sent && Reached(s, id)
      ensures |s.sent| + 1 in s.sent && forall x :: 1 <= x <= |s.sent| ==> Blocked(s, x)
    {
      assert id == last;
    }
  }

  /* ---------- Runs ---------- */

  /**
   * `Wait` stands for the exchanges, which wait on ids in use only and stop before they release them. `Lock` and `Unlock`
   * stand for the other holders of ids in the session's storage: the queue of messages and other connections.
   */
  datatype Action = Take(ready: bool) | Free(id: int) | Wait(ids: set<int>) | Lock(id: int) | Unlock(id: int)

  predicate Enabled(s: Ids, a: Action) {
    match a
    case Take(_) => true
    case Free(id) => id !in s.waits
    case Wait(ids) => forall id :: id in ids ==> id in s.sent
    case Lock(id) => id !in s.locks
    case Unlock(_) => true
  }

  function Apply(s: Ids, a: Action): Ids {
    match a
    case Take(ready) => Allocate(s, ready).1
    case Free(id) => Release(s, id)
    case Wait(ids) => s.(waits := ids)
    case Lock(id) => s.(locks := s.locks + {id})
    case Unlock(id) => s.(locks := s.locks - {id})
  }

  predicate Run(states: seq<Ids>, actions: seq<Action>) {
    && |states| == |actions| + 1 && states[0] == Ids([], {}, {})
    && forall k :: 0 <= k < |actions| ==> Enabled(states[k], actions[k]) && states[k + 1] == Apply(states[k], actions[k])
  }

  lemma {:induction false} RemoveFromIncreasing(list: seq<int>, id: int)
    requires Increasing(list)
    ensures Increasing(Remove(list, id))
    ensures forall x :: x in Remove(list, id) <==> x in list && x != id
  {
    if list != [] {
      var rest := list[1..];
      assert forall x :: x in list <==> x == list[0] || x in rest;
      if list[0] == id {
        assert forall k :: 0 <= k < |rest| ==> rest[k] == list[k + 1];
      } else {
        RemoveFromIncreasing(rest, id);
        var removed := Remove(rest, id);
        forall k | 0 <= k < |removed| ensures list[0] < removed[k] {
          assert removed[k] in rest;
        }
      }
    }
  }

  lemma StepKeepsOrderExactly(s: Ids, a: Action)
    requires Increasing(s.sent)
    ensures Increasing(Apply(s, a).sent) <==> (a == Take(true) ==> Orderly(s))
  {
    hide Allocate, Increasing, Orderly;
    match a {
      case Take(ready) =>
        if ready {
          OrderKeptExactly(s);
        } else {
          assert Allocate(s, false) == (1, s) by {
            UnreadyKeeps(s);
          }
        }
      case Free(id) => RemoveFromIncreasing(s.sent, id);
      case _ =>
    }
  }

  lemma UnreadyKeeps(s: Ids)
    ensures Allocate(s, false) == (1, s)
  {
  }

  lemma EmptyIsInOrder()
    ensures Increasing([]) && Distinct([])
  {
  }

  ghost predicate InOrderUpTo(states: seq<Ids>, n: nat)
    requires n < |states|
  {
    forall k :: 0 <= k <= n ==> Increasing(states[k].sent)
  }

  /**
   * In every run, whatever ids others lock and unlock, the list is in order up to the first take that finds the smallest
   * free id blocked and a greater one in use, and no longer.
   */
  lemma {:induction false} OrderHoldsExactly(states: seq<Ids>, actions: seq<Action>, n: nat)
    requires Run(states, actions) && n < |states|
    ensures InOrderUpTo(states, n) <==> forall k :: 0 <= k < n && actions[k] == Take(true) ==> Orderly(states[k])
  {
    hide Orderly, Enabled, Apply, Increasing;
    if n == 0 {
      assert Increasing(states[0].sent) by {
        EmptyIsInOrder();
      }
    } else {
      OrderHoldsExactly(states, actions, n - 1);
      assert InOrderUpTo(states, n) <==> InOrderUpTo(states, n - 1) && Increasing(states[n].sent);
      if InOrderUpTo(states, n - 1) {
        StepKeepsOrderExactly(states[n - 1], actions[n - 1]);
      }
    }
  }

  predicate Distinct(list: seq<int>) {
    forall j, k :: 0 <= j < k < |list| ==> list[j] != list[k]
  }

  lemma StepKeepsDistinctExactly(s: Ids, a: Action)
    requires Distinct(s.sent)
    ensures Distinct(Apply(s, a).sent) <==> (a == Take(true) ==> !Repeats(s))
  {
    hide Repeats;
    match a {
      case Take(ready) =>
        if ready {
          RepeatsExactly(s, true);
          TakeIsInsertion(s);
        }
      case Free(id) => RemoveFromDistinct(s.sent, id);
      case _ =>
    }
  }

  lemma TakeIsInsertion(s: Ids)
    requires Distinct(s.sent)
    ensures Distinct(Allocate(s, true).1.sent) <==> Allocate(s, true).0 !in s.sent
  {
    if Walks(s) {
      var at := if Walk(s, 0, 1).Insert? then Walk(s, 0, 1).at else |s.sent|;
      var id := Allocate(s, true).0;
      assert Inserted(s.sent, at, id) == Allocate(s, true).1.sent;
      InsertedOnce(s.sent, at, id);
    }
  }

  lemma InsertedOnce(list: seq<int>, at: nat, id: int)
    requires Distinct(list) && at <= |list|
    ensures Distinct(Inserted(list, at, id)) <==> id !in list
  {
    hide Inserted;
    InsertedAt(list, at, id);
    var r := Inserted(list, at, id);
    if id in list {
      var i :| 0 <= i < |list| && list[i] == id;
      assert r[if i < at then i else i + 1] == r[at];
    }
  }

  lemma {:induction false} RemoveFromDistinct(list: seq<int>, id: int)
    requires Distinct(list)
    ensures Distinct(Remove(list, id)) && forall x :: x in Remove(list, id) ==> x in list
  {
    if list != [] {
      var rest := list[1..];
      assert forall k :: 0 <= k < |rest| ==> rest[k] == list[k + 1];
      if list[0] != id {
        RemoveFromDistinct(rest, id);
        var removed := Remove(rest, id);
        forall k | 0 <= k < |removed| ensures list[0] != removed[k] {
          assert removed[k] in removed;
        }
      }
    }
  }

  ghost predicate DistinctUpTo(states: seq<Ids>, n: nat)
    requires n < |states|
  {
    forall k :: 0 <= k <= n ==> Distinct(states[k].sent)
  }

  /** In every run, whatever others lock and unlock, ids in use are distinct up to the first take whose walk meets its id. */
  lemma {:induction false} DistinctHoldsExactly(states: seq<Ids>, actions: seq<Action>, n: nat)
    requires Run(states, actions) && n < |states|
    ensures DistinctUpTo(states, n) <==> forall k :: 0 <= k < n && actions[k] == Take(true) ==> !Repeats(states[k])
  {
    hide Repeats, Enabled, Apply, Distinct;
    if n == 0 {
      assert Distinct(states[0].sent) by {
        EmptyIsInOrder();
      }
    } else {
      DistinctHoldsExactly(states, actions, n - 1);
      assert DistinctUpTo(states, n) <==> DistinctUpTo(states, n - 1) && Distinct(states[n].sent);
      if DistinctUpTo(states, n - 1) {
        StepKeepsDistinctExactly(states[n - 1], actions[n - 1]);
      }
    }
  }

  /** A run in which others hold 1 and 2: the first take breaks no order, the second does, the third repeats an id. */
  lemma OutsideLocksRepeat()
    ensures var actions := [Lock(1), Lock(2), Take(true), Take(true), Take(true)];
            exists states: seq<Ids> ::
              && Run(states, actions) && states[3].sent == [3] && states[4].sent == [3, 2] && states[5].sent == [3, 2, 3]
  {
    var actions := [Lock(1), Lock(2), Take(true), Take(true), Take(true)];
    var s3 := Ids([3], {}, {1, 2, 3});
    var s4 := Ids([3, 2], {}, {1, 2, 3});
    SearchExactly(Ids([], {}, {1, 2}), 3);
    assert {1, 2} + {3} == {1, 2, 3};
    assert Allocate(Ids([], {}, {1, 2}), true) == (3, s3);
    assert Walk(s3, 1, 2) == Append(2);
    assert Walk(s4, 1, 2) == Walk(s4, 2, 3) == Append(3);
    assert [3] + [2] == [3, 2] && [3, 2] + [3] == [3, 2, 3];
    var states := [Ids([], {}, {}), Ids([], {}, {1}), Ids([], {}, {1, 2}), s3, s4, Ids([3, 2, 3], {}, {1, 2, 3})];
    assert Run(states, actions);
  }

  /** Freeing an id takes it out of the list once and unlocks it, and touches no other id. */
  lemma FreedExactly(s: Ids, id: int)
    requires Distinct(s.sent)
    ensures var s' := Release(s, id);
            && (forall x :: x in s'.sent <==> x in s.sent && x != id) && Distinct(s'.sent)
            && (forall x :: x in s'.locks <==> x in s.locks && x != id) && s'.waits == s.waits
  {
    RemoveFromDistinct(s.sent, id);
    RemovedIsGone(s.sent, id);
    if id in s.sent {
      RemovedOnce(s.sent, id);
    }
    forall x | x in s.sent && x != id ensures x in Remove(s.sent, id) {
      if id in s.sent {
        RemovedOnce(s.sent, id);
      } else {
        RemovedNever(s.sent, id);
      }
    }
  }

  lemma {:induction false} RemovedIsGone(list: seq<int>, id: int)
    requires Distinct(list)
    ensures id !in Remove(list, id)
  {
    if list != [] {
      var rest := list[1..];
      assert forall k :: 0 <= k < |rest| ==> rest[k] == list[k + 1];
      if list[0] != id {
        RemovedIsGone(rest, id);
      }
    }
  }

  lemma {:induction false} RemovedNever(list: seq<int>, id: int)
    requires id !in list
    ensures Remove(list, id) == list
  {
    if list != [] {
      RemovedNever(list[1..], id);
    }
  }

  /* Runs in which nobody else locks ids. */

  predicate Alone(actions: seq<Action>) {
    forall k :: 0 <= k < |actions| ==> !actions[k].Lock?
  }

  /** Everything that blocks an id belongs to an id in use. */
  ghost predicate Inv(s: Ids) {
    Increasing(s.sent) && forall id :: Blocked(s, id) ==> id in s.sent
  }

  lemma TakeHandsOutSmallest(s: Ids)
    requires Inv(s)
    ensures var (id, s') := Allocate(s, true);
            && id == Smallest(s.sent, 0) && Increasing(s'.sent)
            && (forall x :: x in s'.sent <==> x in s.sent || x == id)
            && s'.locks <= s.locks + {id}
  {
    SmallestIsSmallest(s.sent, 0);
    OrderKeptExactly(s);
    if Walks(s) {
      SmallestIsInserted(s);
    } else {
      SearchExactly(s, 1);
    }
  }

  lemma StepKeepsInv(s: Ids, a: Action)
    requires Inv(s) && Enabled(s, a) && !a.Lock?
    ensures Inv(Apply(s, a))
  {
    hide Allocate, Increasing;
    var s' := Apply(s, a);
    match a {
      case Take(ready) =>
        UnreadyKeeps(s);
        TakeHandsOutSmallest(s);
        UntouchedWaits(s, ready);
        forall id | Blocked(s', id) ensures id in s'.sent {
          assert Blocked(s, id) ==> id in s.sent;
        }
      case Free(id) =>
        RemoveFromIncreasing(s.sent, id);
        forall x | Blocked(s', x) ensures x in s'.sent {
          assert Blocked(s, x);
        }
      case Wait(ids) =>
        forall x | Blocked(s', x) ensures x in s'.sent {
          assert x in s.locks ==> Blocked(s, x);
        }
      case Unlock(id) =>
        forall x | Blocked(s', x) ensures x in s'.sent {
          assert Blocked(s, x);
        }
    }
  }

  lemma UntouchedWaits(s: Ids, ready: bool)
    ensures Allocate(s, ready).1.waits == s.waits
  {
  }

  lemma {:induction false} RunsKeepInv(states: seq<Ids>, actions: seq<Action>, n: nat)
    requires Run(states, actions) && Alone(actions) && n < |states|
    ensures Inv(states[n])
  {
    if 0 < n {
      RunsKeepInv(states, actions, n - 1);
      StepKeepsInv(states[n - 1], actions[n - 1]);
    }
  }

  /**
   * In every run in which nobody else locks ids the allocator hands out the smallest id not in use, the list stays strictly
   * increasing, and with fewer than 65535 ids in use the id is valid on the wire.
   */
  lemma RunsHandOutSmallest(states: seq<Ids>, actions: seq<Action>, n: nat)
    requires Run(states, actions) && Alone(actions) && n < |actions| && actions[n] == Take(true)
    ensures var (id, s) := (Allocate(states[n], true).0, states[n]);
            && Increasing(s.sent) && Increasing(states[n + 1].sent)
            && 1 <= id && id !in s.sent && id in states[n + 1].sent
            && (forall x :: 1 <= x < id ==> x in s.sent)
            && (|s.sent| < 65535 ==> id <= MAX_ID)
  {
    RunsKeepInv(states, actions, n);
    RunsKeepInv(states, actions, n + 1);
    TakeHandsOutSmallest(states[n]);
    SmallestIsSmallest(states[n].sent, 0);
  }

  /** In every such run an id that is given back below all free ones is the next to be handed out. */
  lemma FreedIsTakenAgain(states: seq<Ids>, actions: seq<Action>, n: nat, id: int)
    requires Run(states, actions) && Alone(actions) && n + 1 < |actions|
    requires actions[n] == Free(id) && actions[n + 1] == Take(true) && id in states[n].sent
    requires forall x :: 1 <= x < id ==> x in states[n].sent
    ensures Allocate(states[n + 1], true).0 == id
  {
    RunsKeepInv(states, actions, n);
    assert states[n + 1] == Apply(states[n], actions[n]);
    var s := states[n];
    assert Distinct(s.sent);
    FreedExactly(s, id);
    RunsHandOutSmallest(states, actions, n + 1);
    assert s.sent != [] && 0 < id;
  }
}
