/** Writing a whole slice to a socket with a bounded number of retries (`myqtt_msg_send_raw`, lib/myqtt-msg.c). */
module SocketWrite {
  import opened Bytes
  import opened Wrappers

  const TRIES: nat := 3

  /** What one `send` meets; no bytes written means that the peer closed. */
  datatype Write = Wrote(n: nat) | Blocked | Interrupted | Refused

  /** What waiting for the socket to accept more ends with. */
  datatype Wait = Ready | TimedOut | Broken

  /**
   * The tries that a sender without a limit would use up before all of `left` bytes are written: one for every write that
   * falls short and one for every wait that times out. None if it never gets there.
   */
  function Cost(left: nat, writes: seq<Write>, waits: seq<Wait>): Option<nat>
    decreases |writes|, 0
  {
    if writes == [] then None
    else
      match writes[0]
      case Interrupted => Cost(left, writes[1..], waits)
      case Refused => None
      case Blocked => CostOfWait(left, writes[1..], waits, 0)
      case Wrote(n) =>
        if n == 0 then None else if left <= n then Some(0) else CostOfWait(left - n, writes[1..], waits, 1)
  }

  function CostOfWait(left: nat, writes: seq<Write>, waits: seq<Wait>, used: nat): Option<nat>
    decreases |writes|, 1
  {
    if waits == [] || waits[0] == Broken then None
    else Plus(used + if waits[0] == TimedOut then 1 else 0, Cost(left, writes, waits[1..]))
  }

  function Plus(used: nat, cost: Option<nat>): Option<nat> {
    if cost.None? then None else Some(used + cost.value)
  }

  /**
   * The sender uses up its last try on a write that falls short. Only then a failure leaves the socket open: every other one
   * shuts it down.
   */
  predicate WornOut(left: nat, tries: nat, writes: seq<Write>, waits: seq<Wait>)
    decreases |writes|, 0
  {
    writes != [] &&
    match writes[0]
    case Interrupted => WornOut(left, tries, writes[1..], waits)
    case Refused => false
    case Blocked => WornAfterWait(left, tries, writes[1..], waits)
    case Wrote(n) =>
      0 < n < left && (tries == 1 || (1 < tries && WornAfterWait(left - n, tries - 1, writes[1..], waits)))
  }

  predicate WornAfterWait(left: nat, tries: nat, writes: seq<Write>, waits: seq<Wait>)
    decreases |writes|, 1
  {
    && waits != [] && waits[0] != Broken
    && if waits[0] == TimedOut then 1 < tries && WornOut(left, tries - 1, writes, waits[1..])
       else WornOut(left, tries, writes, waits[1..])
  }

  /* ---------- Courses ---------- */

  /**
   * What a sender can get over: an interruption, a socket that is not ready, a short write; the last two with the wait
   * behind them, in time or too late.
   */
  datatype Meet = Retry | Stall(late: bool) | Short(n: nat, late: bool)

  function WritesOf(c: seq<Meet>): (ws: seq<Write>)
    ensures |ws| == |c|
  {
    if c == [] then []
    else [match c[0] case Retry => Interrupted case Stall(_) => Blocked case Short(n, _) => Wrote(n)] + WritesOf(c[1..])
  }

  function WaitsOf(c: seq<Meet>): seq<Wait> {
    if c == [] then []
    else (if c[0].Retry? then [] else [if c[0].late then TimedOut else Ready]) + WaitsOf(c[1..])
  }

  /** The bytes that go out on the way. */
  function Written(c: seq<Meet>): nat {
    if c == [] then 0 else (if c[0].Short? then c[0].n else 0) + Written(c[1..])
  }

  /** The tries that it takes: one for every short write, one for every wait that comes too late. */
  function Tries(c: seq<Meet>): nat {
    if c == [] then 0
    else (if c[0].Short? then 1 else 0) + (if !c[0].Retry? && c[0].late then 1 else 0) + Tries(c[1..])
  }

  /** What happens first is this course, with something of `left` bytes still to be written, and then a write of `n`. */
  predicate Goes(c: seq<Meet>, n: nat, left: nat, writes: seq<Write>, waits: seq<Wait>) {
    && (forall k :: 0 <= k < |c| && c[k].Short? ==> 0 < c[k].n) && Written(c) < left
    && |c| < |writes| && WritesOf(c) == writes[..|c|] && writes[|c|] == Wrote(n)
    && |WaitsOf(c)| <= |waits| && WaitsOf(c) == waits[..|WaitsOf(c)|]
  }

  /** One meeting less. */
  lemma GoesOn(m: Meet, c: seq<Meet>, n: nat, left: nat, writes: seq<Write>, waits: seq<Wait>)
    requires writes != [] && (m.Retry? || waits != [])
    requires m.Short? ==> 0 < m.n < left
    ensures var taken := if m.Short? then m.n else 0;
            Goes([m] + c, n, left, writes, waits) <==>
              && writes[0] == (match m case Retry => Interrupted case Stall(_) => Blocked case Short(k, _) => Wrote(k))
              && (m.Retry? || waits[0] == if m.late then TimedOut else Ready)
              && Goes(c, n, left - taken, writes[1..], if m.Retry? then waits else waits[1..])
  {
    var all := [m] + c;
    assert all[1..] == c && all[0] == m;
    assert forall k :: 0 <= k < |c| ==> all[k + 1] == c[k];
    if |c| + 1 < |writes| {
      assert writes[..|c| + 1] == [writes[0]] + writes[1..][..|c|];
    }
    var (ws, rest) := (WaitsOf(c), if m.Retry? then waits else waits[1..]);
    if !m.Retry? && |ws| + 1 <= |waits| {
      assert waits[..|ws| + 1] == [waits[0]] + waits[1..][..|ws|];
    }
  }

  lemma FirstMeet(c: seq<Meet>, n: nat, left: nat, writes: seq<Write>, waits: seq<Wait>)
    requires c != [] && Goes(c, n, left, writes, waits)
    ensures c == [c[0]] + c[1..] && writes != [] && (c[0].Retry? || waits != []) && (c[0].Short? ==> 0 < c[0].n < left)
    ensures Tries(c) == (if c[0].Short? then 1 else 0) + (if !c[0].Retry? && c[0].late then 1 else 0) + Tries(c[1..])
    ensures Written(c) == (if c[0].Short? then c[0].n else 0) + Written(c[1..])
  {
    assert WaitsOf(c)[..] == WaitsOf(c);
  }

  lemma {:induction false} CourseCosts(c: seq<Meet>, n: nat, left: nat, writes: seq<Write>, waits: seq<Wait>)
    requires Goes(c, n, left, writes, waits)
    ensures left - Written(c) <= n ==> Cost(left, writes, waits) == Some(Tries(c))
    ensures 0 < n < left - Written(c) ==> WornOut(left, Tries(c) + 1, writes, waits)
    decreases |c|
  {
    if c != [] {
      FirstMeet(c, n, left, writes, waits);
      GoesOn(c[0], c[1..], n, left, writes, waits);
      var taken := if c[0].Short? then c[0].n else 0;
      CourseCosts(c[1..], n, left - taken, writes[1..], if c[0].Retry? then waits else waits[1..]);
    }
  }

  lemma {:induction false} CostHasCourse(left: nat, writes: seq<Write>, waits: seq<Wait>) returns (c: seq<Meet>, n: nat)
    requires 0 < left && Cost(left, writes, waits).Some?
    ensures Goes(c, n, left, writes, waits) && left - Written(c) <= n && Tries(c) == Cost(left, writes, waits).value
    decreases |writes|
  {
    if writes[0].Wrote? && left <= writes[0].n {
      return [], writes[0].n;
    }
    var m := if writes[0].Interrupted? then Retry
             else if writes[0].Blocked? then Stall(waits[0] == TimedOut) else Short(writes[0].n, waits[0] == TimedOut);
    var taken := if m.Short? then m.n else 0;
    c, n := CostHasCourse(left - taken, writes[1..], if m.Retry? then waits else waits[1..]);
    GoesOn(m, c, n, left, writes, waits);
    assert ([m] + c)[1..] == c;
    c := [m] + c;
  }

  lemma {:induction false} WearHasCourse(left: nat, tries: nat, writes: seq<Write>, waits: seq<Wait>)
    returns (c: seq<Meet>, n: nat)
    requires 0 < left && WornOut(left, tries, writes, waits)
    ensures Goes(c, n, left, writes, waits) && 0 < n < left - Written(c) && Tries(c) + 1 == tries
    decreases |writes|
  {
    if writes[0].Wrote? && tries == 1 {
      return [], writes[0].n;
    }
    var m := if writes[0].Interrupted? then Retry
             else if writes[0].Blocked? then Stall(waits[0] == TimedOut) else Short(writes[0].n, waits[0] == TimedOut);
    var taken := if m.Short? then m.n else 0;
    var used := (if m.Short? then 1 else 0) + if !m.Retry? && m.late then 1 else 0;
    c, n := WearHasCourse(left - taken, tries - used, writes[1..], if m.Retry? then waits else waits[1..]);
    GoesOn(m, c, n, left, writes, waits);
    assert ([m] + c)[1..] == c;
    c := [m] + c;
  }

  /** All bytes go out exactly if some course of fewer than three tries ends with a write of all that is left. */
  lemma SucceedsExactly(left: nat, writes: seq<Write>, waits: seq<Wait>)
    requires 0 < left
    ensures Cost(left, writes, waits).Some? && Cost(left, writes, waits).value < TRIES <==>
              exists c, n: nat :: Goes(c, n, left, writes, waits) && left - Written(c) <= n && Tries(c) < 3
  {
    if Cost(left, writes, waits).Some? {
      var c, n := CostHasCourse(left, writes, waits);
    }
    forall c, n: nat | Goes(c, n, left, writes, waits) && left - Written(c) <= n
      ensures Cost(left, writes, waits) == Some(Tries(c))
    {
      CourseCosts(c, n, left, writes, waits);
    }
  }

  /** The last try is used up on a short write exactly if some course of two tries ends with one. */
  lemma WornOutExactly(left: nat, writes: seq<Write>, waits: seq<Wait>)
    requires 0 < left
    ensures WornOut(left, TRIES, writes, waits) <==>
              exists c, n: nat :: Goes(c, n, left, writes, waits) && 0 < n < left - Written(c) && Tries(c) == 2
  {
    if WornOut(left, TRIES, writes, waits) {
      var c, n := WearHasCourse(left, TRIES, writes, waits);
    }
    forall c, n: nat | Goes(c, n, left, writes, waits) && 0 < n < left - Written(c) && Tries(c) == 2
      ensures WornOut(left, TRIES, writes, waits)
    {
      CourseCosts(c, n, left, writes, waits);
    }
  }

  class Socket {
    var open: bool
    var wire: seq<byte>
    /* What the operating system will answer, in order; a list that ends stands for an error. */
    var writes: seq<Write>
    var waits: seq<Wait>

    /**
     * Writes `data`, or a part of it: all of it exactly when fewer than three tries are needed. Only running out of tries
     * on a short write leaves a failed socket open.
     */
    method SendRaw(data: seq<byte>) returns (ok: bool)
      requires data != [] && open
      modifies this
      ensures ok <==> var cost := Cost(|data|, old(writes), old(waits)); cost.Some? && cost.value < TRIES
      ensures ok ==> open && wire == old(wire) + data
      ensures !ok ==> (open <==> WornOut(|data|, TRIES, old(writes), old(waits)))
      ensures !ok ==> exists n :: 0 <= n < |data| && wire == old(wire) + data[..n]
    {
      var total: nat, tries: nat := 0, TRIES;
      ghost var goal := Cost(|data|, writes, waits);
      ghost var worn := WornOut(|data|, TRIES, writes, waits);
      while true
        invariant total < |data| && 0 < tries <= TRIES && open
        invariant wire == old(wire) + data[..total]
        invariant worn <==> WornOut(|data| - total, tries, writes, waits)
        invariant goal == Plus(TRIES - tries, Cost(|data| - total, writes, waits))
        decreases |writes|
      {
        if writes == [] {
          open := false;
          return false;
        }
        var result := writes[0];
        writes := writes[1..];
        match result {
          case Interrupted => continue;
          case Refused =>
            open := false;
            return false;
          case Blocked =>
          case Wrote(n) =>
            if n == 0 {
              open := false;
              return false;
            }
            var bytes := if n < |data| - total then n else |data| - total;
            assert data[..total + bytes] == data[..total] + data[total..total + bytes];
            wire := wire + data[total..total + bytes];
            total := total + bytes;
            if total == |data| {
              assert data[..total] == data;
              return true;
            }
            tries := tries - 1;
            if tries == 0 {
              return false;
            }
        }
        if waits == [] || waits[0] == Broken {
          open := false;
          return false;
        }
        if waits[0] == TimedOut {
          tries := tries - 1;
          if tries == 0 {
            open := false;
            return false;
          }
        }
        waits := waits[1..];
      }
    }
  }
}
