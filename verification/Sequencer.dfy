/**
 * The sequencer that sends queued messages in slices of at most 4096 bytes (lib/myqtt-sequencer.c), and its socket
 * writes.
 */
module Sequencer {
  import opened Bytes

  const SLICE: nat := 4096

  /** A queued message; `step` counts its bytes already sent. */
  datatype Entry = Entry(id: nat, conn: nat, message: seq<byte>, step: nat)

  /** Bytes that reached a connection's socket, with the message they belong to. */
  datatype Slice = Slice(id: nat, conn: nat, bytes: seq<byte>)

  /** What a visit to an entry meets: a closed connection, a send that fails after some bytes, or one that succeeds. */
  datatype Outcome = Down | Broke(written: nat) | Sent

  predicate Unfinished(e: Entry) {
    e.step < |e.message|
  }

  predicate AllUnfinished(p: seq<Entry>) {
    forall k :: 0 <= k < |p| ==> Unfinished(p[k])
  }

  /* ---------- One pass over the queue ---------- */

  function SliceSize(e: Entry): (n: nat)
    requires Unfinished(e)
    ensures 0 < n <= SLICE
  {
    if |e.message| - e.step > SLICE then SLICE else |e.message| - e.step
  }

  function Next(e: Entry, n: nat): (bs: seq<byte>)
    requires e.step + n <= |e.message|
    ensures |bs| == n
  {
    e.message[e.step..e.step + n]
  }

  /** What a visit sends. */
  function SliceOf(e: Entry, o: Outcome): seq<Slice>
    requires Unfinished(e)
  {
    match o
    case Down => []
    case Broke(written) => [Slice(e.id, e.conn, Next(e, if written < SliceSize(e) then written else SliceSize(e)))]
    case Sent => [Slice(e.id, e.conn, Next(e, SliceSize(e)))]
  }

  /** A send that breaks off has put out the next bytes of the message, as many as it says and no more than a slice. */
  lemma BrokenOff(e: Entry, written: nat)
    requires Unfinished(e)
    ensures var sent := SliceOf(e, Broke(written));
            && |sent| == 1 && sent[0].id == e.id && sent[0].conn == e.conn
            && |sent[0].bytes| <= written && |sent[0].bytes| <= SLICE && sent[0].bytes <= e.message[e.step..]
            && (|sent[0].bytes| == written || |sent[0].bytes| == SLICE || |sent[0].bytes| == |e.message| - e.step)
  {
  }

  /** What a visit leaves in the queue: a failed or finished message is released. */
  function Remains(e: Entry, o: Outcome): (r: seq<Entry>)
    requires Unfinished(e)
    ensures |r| <= 1 && AllUnfinished(r)
  {
    if o != Sent || e.step + SliceSize(e) == |e.message| then []
    else [e.(step := e.step + SliceSize(e))]
  }

  /** Outcomes are listed by queue position; where the list ends, sends succeed. */
  function OutcomeAt(os: seq<Outcome>, k: nat): Outcome {
    if k < |os| then os[k] else Sent
  }

  /** The queue that the first `n` visits of a pass leave behind. */
  function Kept(p: seq<Entry>, os: seq<Outcome>, n: nat): (kept: seq<Entry>)
    requires n <= |p| && AllUnfinished(p)
    ensures |kept| <= n && AllUnfinished(kept)
  {
    if n == 0 then [] else Kept(p, os, n - 1) + Remains(p[n - 1], OutcomeAt(os, n - 1))
  }

  /** What the first `n` visits send. */
  function Slices(p: seq<Entry>, os: seq<Outcome>, n: nat): seq<Slice>
    requires n <= |p| && AllUnfinished(p)
  {
    if n == 0 then [] else Slices(p, os, n - 1) + SliceOf(p[n - 1], OutcomeAt(os, n - 1))
  }

  lemma PassSteps(p: seq<Entry>, os: seq<Outcome>, n: nat)
    requires n <= |p| && AllUnfinished(p)
    ensures Kept(p, os, 0) == [] && Slices(p, os, 0) == []
    ensures n < |p| ==>
              && Kept(p, os, n + 1) == Kept(p, os, n) + Remains(p[n], OutcomeAt(os, n))
              && Slices(p, os, n + 1) == Slices(p, os, n) + SliceOf(p[n], OutcomeAt(os, n))
  {
  }

  lemma Split<T>(front: seq<T>, all: seq<T>, n: nat)
    requires n < |all|
    ensures var joined := front + all[n..];
            joined[|front|] == all[n] && joined[..|front|] == front && joined[|front| + 1..] == all[n + 1..]
  {
  }

  /* ---------- The code ---------- */

  function Conns(p: seq<Entry>): seq<nat> {
    seq(|p|, k requires 0 <= k < |p| => p[k].conn)
  }

  /** How many queued messages a connection has. */
  ghost function Count(p: seq<Entry>, conn: nat): nat {
    multiset(Conns(p))[conn]
  }

  lemma CountOfJoined(a: seq<Entry>, b: seq<Entry>, conn: nat)
    ensures Count(a + b, conn) == Count(a, conn) + Count(b, conn)
  {
    assert Conns(a + b) == Conns(a) + Conns(b);
  }

  lemma CountOfOne(e: Entry, conn: nat)
    ensures Count([e], conn) == if e.conn == conn then 1 else 0
  {
    assert Conns([e]) == [e.conn];
  }

  class Queue {
    var pending: seq<Entry>
    var sequencerMessages: map<nat, nat>
    var log: seq<Slice>
    var exiting: bool

    function Counter(conn: nat): nat
      reads this
    {
      if conn in sequencerMessages then sequencerMessages[conn] else 0
    }

    /** Every connection's counter is the number of its queued messages. */
    ghost predicate Valid()
      reads this
    {
      AllUnfinished(pending) && forall conn: nat :: Counter(conn) == Count(pending, conn)
    }

    constructor ()
      ensures Valid() && pending == [] && log == [] && !exiting
    {
      pending, sequencerMessages, log, exiting := [], map[], [], false;
    }

    /** Queues a message; empty ones, a finishing context and a connection that cannot be referenced are refused. */
    method Send(id: nat, conn: nat, message: seq<byte>, usable: bool) returns (ok: bool)
      requires Valid()
      modifies this`pending, this`sequencerMessages
      ensures Valid()
      ensures ok <==> message != [] && !exiting && usable
      ensures pending == old(pending) + if ok then [Entry(id, conn, message, 0)] else []
    {
      if message == [] || exiting || !usable {
        return false;
      }
      var e := Entry(id, conn, message, 0);
      sequencerMessages := sequencerMessages[conn := Counter(conn) + 1];
      pending := pending + [e];
      forall c: nat ensures Counter(c) == Count(pending, c) {
        CountOfJoined(old(pending), [e], c);
        CountOfOne(e, c);
      }
      return true;
    }

    /** One pass of the cursor, from the front of the queue to its end. */
    method RunPass(os: seq<Outcome>)
      requires Valid()
      modifies this`pending, this`sequencerMessages, this`log
      ensures Valid()
      ensures pending == Kept(old(pending), os, |old(pending)|)
      ensures log == old(log) + Slices(old(pending), os, |old(pending)|)
    {
      hide Remains, SliceOf, Kept, Slices, Count;
      ghost var all := pending;
      PassSteps(all, os, 0);
      assert all[0..] == all;
      var cursor, visits := 0, 0;
      while cursor < |pending|
        invariant visits <= |all| && cursor == |Kept(all, os, visits)|
        invariant pending == Kept(all, os, visits) + all[visits..]
        invariant log == old(log) + Slices(all, os, visits)
        invariant Valid()
        decreases |all| - visits
      {
        PassSteps(all, os, visits);
        Split(Kept(all, os, visits), all, visits);
        cursor := Visit(cursor, OutcomeAt(os, visits));
        visits := visits + 1;
      }
    }

    /** Handles the entry under the cursor and moves the cursor behind what remains of it. */
    method Visit(cursor: nat, o: Outcome) returns (next: nat)
      requires Valid() && cursor < |pending|
      modifies this`pending, this`sequencerMessages, this`log
      ensures Valid()
      ensures var e := old(pending[cursor]);
              && pending == old(pending[..cursor]) + Remains(e, o) + old(pending[cursor + 1..])
              && log == old(log) + SliceOf(e, o)
              && next == cursor + |Remains(e, o)|
    {
      var e := pending[cursor];
      log := log + SliceOf(e, o);
      if o == Sent && e.step + SliceSize(e) != |e.message| {
        Advance(cursor);
        return cursor + 1;
      }
      Release(cursor);
      return cursor;
    }

    /** Counts a slice as sent. */
    method Advance(cursor: nat)
      requires Valid() && cursor < |pending| && Remains(pending[cursor], Sent) != []
      modifies this`pending
      ensures Valid()
      ensures pending == old(pending[..cursor]) + Remains(old(pending[cursor]), Sent) + old(pending[cursor + 1..])
    {
      var e := pending[cursor];
      ghost var before := pending;
      pending := pending[cursor := e.(step := e.step + SliceSize(e))];
      assert Conns(pending) == Conns(before);
      assert forall c: nat :: Count(pending, c) == Count(before, c);
    }

    /** Drops a finished or failed message. */
    method Release(cursor: nat)
      requires Valid() && cursor < |pending|
      modifies this`pending, this`sequencerMessages
      ensures Valid()
      ensures pending == old(pending[..cursor]) + old(pending[cursor + 1..])
    {
      var e := pending[cursor];
      ghost var (before, after) := (pending[..cursor], pending[cursor + 1..]);
      assert pending == before + [e] + after;
      forall c: nat ensures Count(pending, c) == Count(before, c) + Count([e], c) + Count(after, c) {
        CountOfJoined(before + [e], after, c);
        CountOfJoined(before, [e], c);
      }
      CountOfOne(e, e.conn);
      sequencerMessages := sequencerMessages[e.conn := Counter(e.conn) - 1];
      pending := pending[..cursor] + pending[cursor + 1..];
      forall c: nat ensures Counter(c) == Count(pending, c) {
        CountOfJoined(before, after, c);
        CountOfOne(e, c);
      }
    }
  }
}
