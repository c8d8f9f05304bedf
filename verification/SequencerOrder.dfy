/**
 * The order in which one connection's bytes go out: with messages of one slice always the queue's, otherwise exactly
 * when.
 */
module SequencerOrder {
  import opened Bytes
  import opened Sequencer
  import opened SequencerRuns
  import opened Wrappers

  /** What the entries still have to send, in queue order. */
  function Rest(q: seq<Entry>): seq<byte>
    requires AllUnfinished(q)
  {
    if q == [] then [] else Rest(q[..|q| - 1]) + q[|q| - 1].message[q[|q| - 1].step..]
  }

  predicate Short(e: Entry)
    requires Unfinished(e)
  {
    Left(e) <= SLICE
  }

  predicate AllSent(os: seq<Outcome>) {
    forall k :: 0 <= k < |os| ==> os[k] == Sent
  }

  lemma {:induction false} RestJoined(a: seq<Entry>, b: seq<Entry>)
    requires AllUnfinished(a) && AllUnfinished(b)
    ensures Rest(a + b) == Rest(a) + Rest(b)
  {
    if b == [] {
      assert a + b == a;
    } else {
      var (front, e) := (b[..|b| - 1], b[|b| - 1]);
      assert (a + b)[..|a + b| - 1] == a + front && (a + b)[|a + b| - 1] == e;
      RestJoined(a, front);
      Regroup(Rest(a), Rest(front), e.message[e.step..]);
    }
  }

  lemma RestOfOne(e: Entry)
    requires Unfinished(e)
    ensures Rest([e]) == e.message[e.step..]
  {
    assert [e][..0] == [];
  }

  lemma ShortVisit(e: Entry)
    requires Unfinished(e) && Short(e)
    ensures Remains(e, Sent) == [] && Joined(SliceOf(e, Sent)) == e.message[e.step..]
  {
    JoinedOne(Slice(e.id, e.conn, Next(e, SliceSize(e))));
  }

  /** One pass sends short messages whole, in queue order. */
  lemma {:induction false} PassOfShort(q: seq<Entry>, os: seq<Outcome>)
    requires AllUnfinished(q) && AllSent(os) && forall k :: 0 <= k < |q| ==> Short(q[k])
    ensures After(q, os) == [] && Joined(Output(q, os)) == Rest(q)
  {
    if q != [] {
      var (front, e) := (q[..|q| - 1], q[|q| - 1]);
      assert q == front + [e];
      PassOfShort(front, os);
      PassOfLast(front, e, os, Sent, os);
      ShortVisit(e);
      JoinedTogether(Output(front, os), SliceOf(e, Sent));
    }
  }

  /* ---------- Connections whose messages all fit one slice ---------- */

  predicate ShortAndFresh(q: seq<Entry>) {
    forall k :: 0 <= k < |q| ==> q[k].step == 0 && 0 < |q[k].message| <= SLICE
  }

  /** Everything that was queued for a connection has gone out or is still waiting, in queue order. */
  ghost predicate Ordered(s: State, conn: nat) {
    var sel := ByConn(conn);
    && AllUnfinished(s.pending) && AllUnfinished(s.queued) && ShortAndFresh(Of(s.pending, sel))
    && Joined(SlicesFor(s.log, sel)) + Rest(Of(s.pending, sel)) == Rest(Of(s.queued, sel))
  }

  lemma PassKeepsOrdered(s: State, os: seq<Outcome>, conn: nat)
    requires Ordered(s, conn) && Succeeds(s, Pass(os), ByConn(conn))
    ensures Ordered(Apply(s, Pass(os)), conn)
  {
    hide Of, SlicesFor, OutcomesOf, After, Output, Joined;
    var (sel, p) := (ByConn(conn), s.pending);
    var (q, outs) := (Of(p, sel), OutcomesOf(p, os, sel));
    PassCommutes(p, os, sel);
    assert forall k :: 0 <= k < |outs| ==> outs[k] in outs;
    PassOfShort(q, outs);
    SlicesForJoined(s.log, Output(p, os), sel);
    JoinedTogether(SlicesFor(s.log, sel), Output(q, outs));
    EmptyTail(Joined(SlicesFor(s.log, sel)) + Rest(q));
  }

  lemma EnqueueKeepsOrdered(s: State, a: Action, conn: nat)
    requires a.Enqueue? && Enabled(s, a) && Ordered(s, conn)
    requires a.conn == conn ==> |a.message| <= SLICE
    ensures Ordered(Apply(s, a), conn)
  {
    hide Of, SlicesFor, Joined, Rest;
    var (e, sel) := (Entry(a.id, a.conn, a.message, 0), ByConn(conn));
    OfJoined(s.pending, [e], sel);
    OfJoined(s.queued, [e], sel);
    OfOne(e, sel);
    if a.conn == conn {
      OrderedAppend(Joined(SlicesFor(s.log, sel)), Of(s.pending, sel), Of(s.queued, sel), e);
    } else {
      EmptyTail(Of(s.pending, sel));
      EmptyTail(Of(s.queued, sel));
    }
  }

  lemma OrderedAppend(sent: seq<byte>, waiting: seq<Entry>, queued: seq<Entry>, e: Entry)
    requires AllUnfinished(waiting) && AllUnfinished(queued) && Unfinished(e)
    requires sent + Rest(waiting) == Rest(queued)
    ensures sent + Rest(waiting + [e]) == Rest(queued + [e])
  {
    hide Rest;
    RestJoined(waiting, [e]);
    RestJoined(queued, [e]);
    Regroup(sent, Rest(waiting), Rest([e]));
  }

  /** A connection's queued messages and sends, as the hypotheses of the theorem below. */
  predicate Friendly(s: State, a: Action, conn: nat) {
    && Succeeds(s, a, ByConn(conn))
    && (a.Enqueue? && a.conn == conn ==> |a.message| <= SLICE)
  }

  /**
   * In every run in which a connection's messages fit one slice and its sends succeed, whatever the others do, its socket
   * receives exactly its messages in queue order.
   */
  lemma {:induction false} ShortMessagesKeepOrder(states: seq<State>, actions: seq<Action>, n: nat, conn: nat)
    requires Run(states, actions) && n < |states|
    requires forall k :: 0 <= k < n ==> Friendly(states[k], actions[k], conn)
    ensures Ordered(states[n], conn)
    ensures states[n].pending == [] ==>
              Joined(SlicesFor(states[n].log, ByConn(conn))) == Rest(Of(states[n].queued, ByConn(conn)))
  {
    if n == 0 {
      assert states[0] == START;
    } else {
      ShortMessagesKeepOrder(states, actions, n - 1, conn);
      assert Friendly(states[n - 1], actions[n - 1], conn);
      match actions[n - 1] {
        case Enqueue(_, _, _) => EnqueueKeepsOrdered(states[n - 1], actions[n - 1], conn);
        case Pass(os) => PassKeepsOrdered(states[n - 1], os, conn);
      }
    }
    if states[n].pending == [] {
      EmptyTail(Joined(SlicesFor(states[n].log, ByConn(conn))));
    }
  }

  /* ---------- Draining a queue: when the messages stay in one piece ---------- */

  /** What passes without failures send until the queue is empty. */
  function Drain(p: seq<Entry>): seq<Slice>
    requires AllUnfinished(p)
    decreases Unsent(p)
  {
    if p == [] then []
    else
      PassMakesProgress(p, []);
      Output(p, []) + Drain(After(p, []))
  }

  lemma SentPass(q: seq<Entry>, os: seq<Outcome>)
    requires AllUnfinished(q) && AllSent(os)
    ensures After(q, os) == After(q, []) && Output(q, os) == Output(q, [])
  {
    PassOfPrefix(q, [], q, os, |q|);
  }

  lemma {:induction false} OutcomesAreSent(p: seq<Entry>, sel: Selection)
    ensures AllSent(OutcomesOf(p, [], sel))
  {
    if p != [] {
      OutcomesAreSent(p[..|p| - 1], sel);
    }
  }

  /** A connection's share of the drained queue is what its own queue would drain to. */
  lemma {:induction false} DrainCommutes(p: seq<Entry>, sel: Selection)
    requires AllUnfinished(p)
    ensures SlicesFor(Drain(p), sel) == Drain(Of(p, sel))
    decreases Unsent(p)
  {
    if p != [] {
      var (p', q) := (After(p, []), Of(p, sel));
      PassMakesProgress(p, []);
      DrainCommutes(p', sel);
      PassCommutes(p, [], sel);
      OutcomesAreSent(p, sel);
      SentPass(q, OutcomesOf(p, [], sel));
      SlicesForJoined(Output(p, []), Drain(p'), sel);
      if q == [] {
        assert After(q, []) == [] && Output(q, []) == [];
      }
    }
  }

  /** Messages numbered as they were queued. */
  predicate Numbered(q: seq<Entry>) {
    forall j, k :: 0 <= j < k < |q| ==> q[j].id < q[k].id
  }

  /** No slice of an earlier message comes after one of a later message. */
  predicate InOrder(log: seq<Slice>) {
    forall j, k :: 0 <= j < k < |log| ==> log[j].id <= log[k].id
  }

  predicate OnlyLastLong(q: seq<Entry>)
    requires AllUnfinished(q)
  {
    forall k :: 0 <= k < |q| - 1 ==> Short(q[k])
  }

  /** Every entry sends one slice in a pass. */
  lemma {:induction false} OutputPerEntry(q: seq<Entry>, n: nat)
    requires AllUnfinished(q) && n <= |q|
    ensures |Slices(q, [], n)| == n
    ensures forall k :: 0 <= k < n ==> Slices(q, [], n)[k].id == q[k].id
  {
    if 0 < n {
      OutputPerEntry(q, n - 1);
    }
  }

  /** A message that is longer than a slice is still in the queue after a pass. */
  lemma {:induction false} LongRemains(q: seq<Entry>, n: nat, k: nat) returns (m: nat)
    requires AllUnfinished(q) && k < n <= |q| && !Short(q[k])
    ensures m < |Kept(q, [], n)| && Kept(q, [], n)[m].id == q[k].id
  {
    if k == n - 1 {
      m := |Kept(q, [], n - 1)|;
    } else {
      m := LongRemains(q, n - 1, k);
    }
  }

  lemma {:induction false} LongBreaksOrder(q: seq<Entry>, k: nat)
    requires AllUnfinished(q) && Numbered(q) && k < |q| - 1 && !Short(q[k])
    ensures !InOrder(Drain(q))
  {
    var q' := After(q, []);
    PassMakesProgress(q, []);
    var m := LongRemains(q, |q|, k);
    OutputPerEntry(q, |q|);
    OutputPerEntry(q', |q'|);
    var log := Drain(q);
    assert Drain(q') == Output(q', []) + Drain(After(q', [])) by {
      PassMakesProgress(q', []);
    }
    assert log[|q| - 1].id == q[|q| - 1].id && log[|q| + m].id == q[k].id;
  }

  lemma DrainStep(q: seq<Entry>)
    requires AllUnfinished(q) && q != []
    ensures Unsent(After(q, [])) < Unsent(q) && Drain(q) == Output(q, []) + Drain(After(q, []))
  {
    PassMakesProgress(q, []);
  }

  lemma OneSentPass(e: Entry)
    requires Unfinished(e)
    ensures After([e], []) == Remains(e, Sent) && Output([e], []) == SliceOf(e, Sent)
  {
    hide Remains, SliceOf;
    OnePass(e, [Sent]);
    SentPass([e], [Sent]);
  }

  lemma {:induction false} SingleDrain(e: Entry)
    requires Unfinished(e)
    ensures forall k :: 0 <= k < |Drain([e])| ==> Drain([e])[k].id == e.id
    ensures Joined(Drain([e])) == e.message[e.step..]
    decreases Left(e)
  {
    hide After, Output, Joined, Drain, Next, Unsent;
    DrainStep([e]);
    OneSentPass(e);
    var x := Slice(e.id, e.conn, Next(e, SliceSize(e)));
    JoinedOne(x);
    JoinedTogether([x], Drain(After([e], [])));
    var e' := e.(step := e.step + SliceSize(e));
    if !Short(e) {
      SingleDrain(e');
    } else {
      NothingToDrain();
    }
    NextThenRest(e, SliceSize(e));
  }

  lemma NextThenRest(e: Entry, n: nat)
    requires e.step + n <= |e.message|
    ensures e.message[e.step..] == Next(e, n) + e.message[e.step + n..]
    ensures e.step + n == |e.message| ==> e.message[e.step..] == Next(e, n) + []
  {
  }

  lemma NothingToDrain()
    ensures Drain([]) == [] && Joined([]) == [] && Rest([]) == []
  {
  }

  /** A queue in which only the last message is long: one pass leaves nothing but that message. */
  lemma DrainOfOnlyLastLong(front: seq<Entry>, e: Entry)
    requires AllUnfinished(front) && Unfinished(e) && forall k :: 0 <= k < |front| ==> Short(front[k])
    ensures AllUnfinished(front + [e])
    ensures Drain(front + [e]) == Output(front, []) + Drain([e])
  {
    hide After, Output, Remains, SliceOf, Rest, Joined, Drain;
    PassOfShort(front, []);
    PassOfLast(front, e, [], Sent, []);
    OneSentPass(e);
    DrainStep(front + [e]);
    DrainStep([e]);
    EmptyFront(Remains(e, Sent));
    Regroup(Output(front, []), SliceOf(e, Sent), Drain(After([e], [])));
  }

  lemma OrderOfParts(front: seq<Entry>, e: Entry, first: seq<Slice>, later: seq<Slice>)
    requires Numbered(front + [e]) && |first| == |front|
    requires forall k :: 0 <= k < |first| ==> first[k].id == front[k].id
    requires forall k :: 0 <= k < |later| ==> later[k].id == e.id
    ensures InOrder(first + later)
  {
    var (log, q) := (first + later, front + [e]);
    forall j, k | 0 <= j < k < |log| ensures log[j].id <= log[k].id {
      if k < |first| {
        assert q[j].id < q[k].id;
      } else if j < |first| {
        assert q[j].id < q[|front|].id;
      }
    }
  }

  lemma LastLongKeepsOrder(q: seq<Entry>)
    requires AllUnfinished(q) && Numbered(q) && OnlyLastLong(q)
    ensures InOrder(Drain(q)) && Joined(Drain(q)) == Rest(q)
  {
    hide Drain, Rest, Joined, Slices;
    if q == [] {
      NothingToDrain();
    } else {
      var (front, e) := (q[..|q| - 1], q[|q| - 1]);
      assert q == front + [e];
      DrainOfOnlyLastLong(front, e);
      SingleDrain(e);
      OutputPerEntry(front, |front|);
      OrderOfParts(front, e, Output(front, []), Drain([e]));
      PassOfShort(front, []);
      JoinedTogether(Output(front, []), Drain([e]));
      RestJoined(front, [e]);
      RestOfOne(e);
    }
  }

  lemma {:induction false} OfKeepsNumbers(p: seq<Entry>, sel: Selection)
    requires Numbered(p)
    ensures Numbered(Of(p, sel))
  {
    if p != [] {
      var front := p[..|p| - 1];
      OfKeepsNumbers(front, sel);
      forall x | x in Of(front, sel) ensures x.id < p[|p| - 1].id {
        assert x in front;
      }
    }
  }

  /**
   * Draining a queue without failures sends a connection's messages in one piece and in queue order exactly when every
   * message of that connection but its last fits one slice; then its socket receives their concatenation.
   */
  lemma ContiguousExactly(p: seq<Entry>, conn: nat)
    requires AllUnfinished(p) && Numbered(p)
    ensures var (q, log) := (Of(p, ByConn(conn)), SlicesFor(Drain(p), ByConn(conn)));
            && (InOrder(log) <==> OnlyLastLong(q))
            && (OnlyLastLong(q) ==> Joined(log) == Rest(q))
  {
    var q := Of(p, ByConn(conn));
    DrainCommutes(p, ByConn(conn));
    OfKeepsNumbers(p, ByConn(conn));
    if OnlyLastLong(q) {
      LastLongKeepsOrder(q);
    } else {
      var k :| 0 <= k < |q| - 1 && !Short(q[k]);
      LongBreaksOrder(q, k);
    }
  }
}
