/** What the sequencer guarantees over whole runs: progress, order and completeness, per message and per connection. */
module SequencerRuns {
  import opened Bytes
  import opened Sequencer
  import opened Wrappers

  /* ---------- Progress ---------- */

  function Left(e: Entry): (n: nat)
    requires Unfinished(e)
    ensures 0 < n
  {
    |e.message| - e.step
  }

  /** The bytes of the first `n` entries still to be sent. */
  function UnsentTo(p: seq<Entry>, n: nat): nat
    requires n <= |p| && AllUnfinished(p)
  {
    if n == 0 then 0 else UnsentTo(p, n - 1) + Left(p[n - 1])
  }

  function Unsent(p: seq<Entry>): nat
    requires AllUnfinished(p)
  {
    UnsentTo(p, |p|)
  }

  lemma {:induction false} UnsentOfPrefix(p: seq<Entry>, p': seq<Entry>, n: nat)
    requires n <= |p| && AllUnfinished(p) && p <= p' && AllUnfinished(p')
    ensures UnsentTo(p', n) == UnsentTo(p, n)
  {
    if 0 < n {
      UnsentOfPrefix(p, p', n - 1);
    }
  }

  lemma {:induction false} KeptSendsLess(p: seq<Entry>, os: seq<Outcome>, n: nat)
    requires n <= |p| && AllUnfinished(p)
    ensures Unsent(Kept(p, os, n)) + n <= UnsentTo(p, n)
  {
    if 0 < n {
      var (kept, r) := (Kept(p, os, n - 1), Remains(p[n - 1], OutcomeAt(os, n - 1)));
      KeptSendsLess(p, os, n - 1);
      UnsentOfPrefix(kept, kept + r, |kept|);
      if r == [] {
        assert kept + r == kept;
      }
    }
  }

  /** Whatever the sends meet, every pass over a queue with messages leaves fewer bytes to be sent. */
  lemma PassMakesProgress(p: seq<Entry>, os: seq<Outcome>)
    requires AllUnfinished(p) && p != []
    ensures Unsent(Kept(p, os, |p|)) < Unsent(p)
  {
    KeptSendsLess(p, os, |p|);
  }

  /* ---------- Messages and connections do not interfere ---------- */

  /** Selects entries and slices by connection and message id. */
  type Selection = (nat, nat) -> bool

  function ByConn(conn: nat): Selection {
    (c: nat, i: nat) => c == conn
  }

  function ById(id: nat): Selection {
    (c: nat, i: nat) => i == id
  }

  function Of(p: seq<Entry>, sel: Selection): (r: seq<Entry>)
    ensures |r| <= |p| && (AllUnfinished(p) ==> AllUnfinished(r))
    ensures forall k :: 0 <= k < |r| ==> r[k] in p && sel(r[k].conn, r[k].id)
  {
    if p == [] then []
    else
      var (front, e) := (p[..|p| - 1], p[|p| - 1]);
      Of(front, sel) + if sel(e.conn, e.id) then [e] else []
  }

  function SlicesFor(log: seq<Slice>, sel: Selection): seq<Slice> {
    if log == [] then []
    else
      var (front, x) := (log[..|log| - 1], log[|log| - 1]);
      SlicesFor(front, sel) + if sel(x.conn, x.id) then [x] else []
  }

  /** The outcomes that the selected entries meet. */
  function OutcomesOf(p: seq<Entry>, os: seq<Outcome>, sel: Selection): (r: seq<Outcome>)
    ensures |r| == |Of(p, sel)|
  {
    if p == [] then []
    else
      var (front, e) := (p[..|p| - 1], p[|p| - 1]);
      OutcomesOf(front, os, sel) + if sel(e.conn, e.id) then [OutcomeAt(os, |p| - 1)] else []
  }

  lemma {:induction false} OfJoined(a: seq<Entry>, b: seq<Entry>, sel: Selection)
    ensures Of(a + b, sel) == Of(a, sel) + Of(b, sel)
  {
    if b == [] {
      assert a + b == a;
    } else {
      assert (a + b)[..|a + b| - 1] == a + b[..|b| - 1];
      OfJoined(a, b[..|b| - 1], sel);
    }
  }

  lemma {:induction false} SlicesForJoined(a: seq<Slice>, b: seq<Slice>, sel: Selection)
    ensures SlicesFor(a + b, sel) == SlicesFor(a, sel) + SlicesFor(b, sel)
  {
    if b == [] {
      assert a + b == a;
    } else {
      assert (a + b)[..|a + b| - 1] == a + b[..|b| - 1];
      SlicesForJoined(a, b[..|b| - 1], sel);
    }
  }

  /** A pass looks at nothing behind the entries it has visited. */
  lemma {:induction false} PassOfPrefix(p: seq<Entry>, os: seq<Outcome>, p': seq<Entry>, os': seq<Outcome>, n: nat)
    requires n <= |p| && AllUnfinished(p) && p <= p' && AllUnfinished(p')
    requires forall k :: 0 <= k < n ==> OutcomeAt(os, k) == OutcomeAt(os', k)
    ensures Kept(p', os', n) == Kept(p, os, n) && Slices(p', os', n) == Slices(p, os, n)
  {
    if 0 < n {
      PassOfPrefix(p, os, p', os', n - 1);
    }
  }

  /** The kept entries and the slices of a whole queue. */
  function After(p: seq<Entry>, os: seq<Outcome>): (r: seq<Entry>)
    requires AllUnfinished(p)
    ensures AllUnfinished(r)
  {
    Kept(p, os, |p|)
  }

  function Output(p: seq<Entry>, os: seq<Outcome>): seq<Slice>
    requires AllUnfinished(p)
  {
    Slices(p, os, |p|)
  }

  lemma PassOfLast(front: seq<Entry>, e: Entry, os: seq<Outcome>, o: Outcome, all: seq<Outcome>)
    requires AllUnfinished(front + [e]) && AllUnfinished(front) && Unfinished(e)
    requires forall k :: 0 <= k < |front| ==> OutcomeAt(os, k) == OutcomeAt(all, k)
    requires OutcomeAt(all, |front|) == o
    ensures After(front + [e], all) == After(front, os) + Remains(e, o)
    ensures Output(front + [e], all) == Output(front, os) + SliceOf(e, o)
  {
    hide Remains, SliceOf;
    PassOfPrefix(front, os, front + [e], all, |front|);
    PassSteps(front + [e], all, |front|);
  }

  lemma SelectedVisit(e: Entry, o: Outcome, sel: Selection)
    requires Unfinished(e)
    ensures Of(Remains(e, o), sel) == if sel(e.conn, e.id) then Remains(e, o) else []
    ensures SlicesFor(SliceOf(e, o), sel) == if sel(e.conn, e.id) then SliceOf(e, o) else []
  {
    var r, x := Remains(e, o), SliceOf(e, o);
    assert r != [] ==> r[..|r| - 1] == [];
    assert x != [] ==> x[..|x| - 1] == [];
  }

  lemma LastSelected(front: seq<Entry>, e: Entry, os: seq<Outcome>, sel: Selection)
    ensures Of(front + [e], sel) == Of(front, sel) + if sel(e.conn, e.id) then [e] else []
    ensures OutcomesOf(front + [e], os, sel)
         == OutcomesOf(front, os, sel) + if sel(e.conn, e.id) then [OutcomeAt(os, |front|)] else []
  {
    assert (front + [e])[..|front|] == front;
  }

  /** A pass over the whole queue does to the selected entries exactly what a pass over them alone would do. */
  lemma {:induction false} PassCommutes(p: seq<Entry>, os: seq<Outcome>, sel: Selection)
    requires AllUnfinished(p)
    ensures Of(After(p, os), sel) == After(Of(p, sel), OutcomesOf(p, os, sel))
    ensures SlicesFor(Output(p, os), sel) == Output(Of(p, sel), OutcomesOf(p, os, sel))
  {
    hide After, Output, OutcomesOf, SlicesFor;
    if p == [] {
      NothingCommutes(os, sel);
    } else {
      var (front, e) := (p[..|p| - 1], p[|p| - 1]);
      PassCommutes(front, os, sel);
      assert p == front + [e];
      CommutesWithLast(front, e, os, sel);
    }
  }

  lemma NothingCommutes(os: seq<Outcome>, sel: Selection)
    ensures Of(After([], os), sel) == [] && After([], OutcomesOf([], os, sel)) == []
    ensures SlicesFor(Output([], os), sel) == [] && Output([], OutcomesOf([], os, sel)) == []
  {
  }

  lemma CommutesWithLast(front: seq<Entry>, e: Entry, os: seq<Outcome>, sel: Selection)
    requires AllUnfinished(front + [e]) && AllUnfinished(front) && Unfinished(e)
    requires Of(After(front, os), sel) == After(Of(front, sel), OutcomesOf(front, os, sel))
    requires SlicesFor(Output(front, os), sel) == Output(Of(front, sel), OutcomesOf(front, os, sel))
    ensures var p := front + [e];
            && Of(After(p, os), sel) == After(Of(p, sel), OutcomesOf(p, os, sel))
            && SlicesFor(Output(p, os), sel) == Output(Of(p, sel), OutcomesOf(p, os, sel))
  {
    hide Of, OutcomesOf, SlicesFor, After, Output, Remains, SliceOf;
    var o := OutcomeAt(os, |front|);
    LastSelected(front, e, os, sel);
    PassOfLast(front, e, os, o, os);
    OfJoined(After(front, os), Remains(e, o), sel);
    SlicesForJoined(Output(front, os), SliceOf(e, o), sel);
    SelectedVisit(e, o, sel);
    if sel(e.conn, e.id) {
      PassOfLast(Of(front, sel), e, OutcomesOf(front, os, sel), o, OutcomesOf(front + [e], os, sel));
    } else {
      EmptyTail(Of(front, sel));
      EmptyTail(OutcomesOf(front, os, sel));
      EmptyTail(Of(After(front, os), sel));
      EmptyTail(SlicesFor(Output(front, os), sel));
    }
  }

  /* ---------- Runs ---------- */

  /** `queued` remembers every message that was ever accepted. */
  datatype State = State(pending: seq<Entry>, log: seq<Slice>, queued: seq<Entry>)

  datatype Action = Enqueue(id: nat, conn: nat, message: seq<byte>) | Pass(outcomes: seq<Outcome>)

  const START: State := State([], [], [])

  predicate Enabled(s: State, a: Action) {
    && AllUnfinished(s.pending)
    && (a.Enqueue? ==> a.message != [] && forall k :: 0 <= k < |s.queued| ==> s.queued[k].id != a.id)
  }

  function Apply(s: State, a: Action): (s': State)
    requires Enabled(s, a)
    ensures AllUnfinished(s'.pending)
  {
    match a
    case Enqueue(id, conn, message) =>
      var e := Entry(id, conn, message, 0);
      State(s.pending + [e], s.log, s.queued + [e])
    case Pass(os) => State(After(s.pending, os), s.log + Output(s.pending, os), s.queued)
  }

  /** A run visits `states` one action at a time. */
  predicate Run(states: seq<State>, actions: seq<Action>) {
    && |states| == |actions| + 1 && states[0] == START
    && forall k :: 0 <= k < |actions| ==> Enabled(states[k], actions[k]) && states[k + 1] == Apply(states[k], actions[k])
  }

  /* ---------- Each message: its slices go out in order ---------- */

  function Joined(log: seq<Slice>): seq<byte> {
    if log == [] then [] else Joined(log[..|log| - 1]) + log[|log| - 1].bytes
  }

  lemma {:induction false} JoinedTogether(a: seq<Slice>, b: seq<Slice>)
    ensures Joined(a + b) == Joined(a) + Joined(b)
  {
    if b == [] {
      assert a + b == a;
    } else {
      assert (a + b)[..|a + b| - 1] == a + b[..|b| - 1];
      JoinedTogether(a, b[..|b| - 1]);
    }
  }

  function SentOf(s: State, id: nat): seq<byte> {
    Joined(SlicesFor(s.log, ById(id)))
  }

  /** How far a message has got: in the queue its step says so; gone, a prefix of it was sent. */
  predicate Tracks(s: State, q: Entry) {
    var mine := Of(s.pending, ById(q.id));
    if mine == [] then SentOf(s, q.id) <= q.message
    else
      && mine == [q.(step := mine[0].step)] && mine[0].step <= |q.message|
      && SentOf(s, q.id) == q.message[..mine[0].step]
  }

  predicate Unknown(s: State, id: nat) {
    Of(s.pending, ById(id)) == [] && SentOf(s, id) == []
  }

  ghost predicate Tracked(s: State) {
    && AllUnfinished(s.pending)
    && (forall k :: 0 <= k < |s.queued| ==> Tracks(s, s.queued[k]))
    && (forall id: nat :: (forall k :: 0 <= k < |s.queued| ==> s.queued[k].id != id) ==> Unknown(s, id))
  }

  /** The effect of a pass on one message. */
  lemma PassOnMessage(s: State, os: seq<Outcome>, id: nat)
    requires AllUnfinished(s.pending) && |Of(s.pending, ById(id))| <= 1
    ensures var (mine, s') := (Of(s.pending, ById(id)), Apply(s, Pass(os)));
            if mine == [] then Of(s'.pending, ById(id)) == [] && SentOf(s', id) == SentOf(s, id)
            else var o := OutcomesOf(s.pending, os, ById(id))[0];
              && Of(s'.pending, ById(id)) == Remains(mine[0], o)
              && SentOf(s', id) == SentOf(s, id) + Joined(SliceOf(mine[0], o))
  {
    hide Of, OutcomesOf, SlicesFor, Remains, SliceOf, Joined;
    var (sel, p) := (ById(id), s.pending);
    var (mine, outs) := (Of(p, sel), OutcomesOf(p, os, sel));
    PassCommutes(p, os, sel);
    SlicesForJoined(s.log, Output(p, os), sel);
    JoinedTogether(SlicesFor(s.log, sel), Output(mine, outs));
    if mine == [] {
      assert Output(mine, outs) == [];
      assert SlicesFor(s.log, sel) + [] == SlicesFor(s.log, sel);
    } else {
      assert mine == [mine[0]];
      OnePass(mine[0], outs);
    }
  }

  lemma OnePass(e: Entry, outs: seq<Outcome>)
    requires Unfinished(e) && outs != []
    ensures After([e], outs) == Remains(e, outs[0]) && Output([e], outs) == SliceOf(e, outs[0])
  {
    hide Remains, SliceOf;
    PassSteps([e], outs, 0);
    assert [] + Remains(e, outs[0]) == Remains(e, outs[0]);
    assert [] + SliceOf(e, outs[0]) == SliceOf(e, outs[0]);
  }

  lemma JoinedOne(x: Slice)
    ensures Joined([x]) == x.bytes
  {
    assert [x][..0] == [] && [] + x.bytes == x.bytes;
  }

  lemma StepBytes(e: Entry, n: nat)
    requires e.step + n <= |e.message|
    ensures |Next(e, n)| == n && e.message[..e.step] + Next(e, n) == e.message[..e.step + n]
  {
  }

  lemma SliceBytes(e: Entry, o: Outcome)
    requires Unfinished(e)
    ensures var bytes := Joined(SliceOf(e, o));
            && e.message[..e.step] + bytes <= e.message
            && (o.Sent? ==> e.message[..e.step] + bytes == e.message[..e.step + SliceSize(e)])
  {
    hide Next;
    var x := SliceOf(e, o);
    if x != [] {
      JoinedOne(x[0]);
      StepBytes(e, |x[0].bytes|);
    }
  }

  lemma PassKeepsTracking(s: State, os: seq<Outcome>, q: Entry)
    requires AllUnfinished(s.pending) && Tracks(s, q)
    ensures Tracks(Apply(s, Pass(os)), q)
  {
    PassOnMessage(s, os, q.id);
    var mine := Of(s.pending, ById(q.id));
    if mine != [] {
      SliceBytes(mine[0], OutcomesOf(s.pending, os, ById(q.id))[0]);
    }
  }

  lemma OfOne(e: Entry, sel: Selection)
    ensures Of([e], sel) == if sel(e.conn, e.id) then [e] else []
  {
    assert [e][..0] == [];
  }

  lemma EnqueueOnMessage(s: State, a: Action, id: nat)
    requires a.Enqueue? && Enabled(s, a)
    ensures SentOf(Apply(s, a), id) == SentOf(s, id)
    ensures var e := Entry(a.id, a.conn, a.message, 0);
            Of(Apply(s, a).pending, ById(id)) == Of(s.pending, ById(id)) + if id == a.id then [e] else []
  {
    var e := Entry(a.id, a.conn, a.message, 0);
    OfJoined(s.pending, [e], ById(id));
    OfOne(e, ById(id));
  }

  lemma EnqueueKeepsTracked(s: State, a: Action)
    requires a.Enqueue? && Enabled(s, a) && Tracked(s)
    ensures Tracked(Apply(s, a))
  {
    hide Of, SentOf;
    var s' := Apply(s, a);
    var e := Entry(a.id, a.conn, a.message, 0);
    forall k | 0 <= k < |s'.queued| ensures Tracks(s', s'.queued[k]) {
      EnqueueOnMessage(s, a, s'.queued[k].id);
      if k < |s.queued| {
        assert Tracks(s, s.queued[k]);
      } else {
        assert Unknown(s, a.id);
        assert [] + [e] == [e] && e.message[..0] == [];
      }
    }
    forall id: nat | forall k :: 0 <= k < |s'.queued| ==> s'.queued[k].id != id ensures Unknown(s', id) {
      assert s'.queued[|s.queued|] == e;
      assert forall k :: 0 <= k < |s.queued| ==> s.queued[k] == s'.queued[k];
      assert Unknown(s, id);
      EnqueueOnMessage(s, a, id);
    }
  }

  lemma PassKeepsTracked(s: State, os: seq<Outcome>)
    requires Tracked(s)
    ensures Tracked(Apply(s, Pass(os)))
  {
    var s' := Apply(s, Pass(os));
    forall k | 0 <= k < |s'.queued| ensures Tracks(s', s'.queued[k]) {
      PassKeepsTracking(s, os, s.queued[k]);
    }
    forall id: nat | forall k :: 0 <= k < |s'.queued| ==> s'.queued[k].id != id ensures Unknown(s', id) {
      assert Unknown(s, id);
      PassOnMessage(s, os, id);
    }
  }

  /** In every run, whatever sends fail, what has gone out of a message is the part of it before its step, in order. */
  lemma {:induction false} RunsTrackMessages(states: seq<State>, actions: seq<Action>, n: nat)
    requires Run(states, actions) && n < |states|
    ensures Tracked(states[n])
  {
    if n == 0 {
      assert states[0] == START;
    } else {
      RunsTrackMessages(states, actions, n - 1);
      match actions[n - 1] {
        case Enqueue(_, _, _) => EnqueueKeepsTracked(states[n - 1], actions[n - 1]);
        case Pass(os) => PassKeepsTracked(states[n - 1], os);
      }
    }
  }

  /* ---------- Completeness, when sends succeed ---------- */

  /** No visit to a selected entry fails. */
  predicate Succeeds(s: State, a: Action, sel: Selection) {
    a.Pass? ==> forall o :: o in OutcomesOf(s.pending, a.outcomes, sel) ==> o == Sent
  }

  predicate Complete(s: State, q: Entry) {
    Tracks(s, q) && (Of(s.pending, ById(q.id)) == [] ==> SentOf(s, q.id) == q.message)
  }

  lemma PassKeepsComplete(s: State, os: seq<Outcome>, q: Entry)
    requires AllUnfinished(s.pending) && Complete(s, q) && Succeeds(s, Pass(os), ById(q.id))
    ensures Complete(Apply(s, Pass(os)), q)
  {
    hide Of, OutcomesOf, SentOf, SliceOf, Joined;
    PassKeepsTracking(s, os, q);
    PassOnMessage(s, os, q.id);
    var mine := Of(s.pending, ById(q.id));
    if mine != [] {
      var o := OutcomesOf(s.pending, os, ById(q.id))[0];
      assert o in OutcomesOf(s.pending, os, ById(q.id));
      SliceBytes(mine[0], o);
      assert q.message[..|q.message|] == q.message;
    }
  }

  lemma EnqueueKeepsComplete(s: State, a: Action, q: Entry)
    requires a.Enqueue? && Enabled(s, a) && Complete(s, q) && q.id != a.id
    ensures Complete(Apply(s, a), q)
  {
    EnqueueOnMessage(s, a, q.id);
  }

  /**
   * In every run in which no send of a message fails, the slices that went out cover the message once it left the
   * queue.
   */
  lemma {:induction false} SentMessagesAreWhole(states: seq<State>, actions: seq<Action>, n: nat, j: nat)
    requires Run(states, actions) && n < |states| && j < |states[n].queued|
    requires forall k :: 0 <= k < n ==> Succeeds(states[k], actions[k], ById(states[n].queued[j].id))
    ensures Complete(states[n], states[n].queued[j])
  {
    RunsTrackMessages(states, actions, n);
    if 0 < n {
      var (s, a, q) := (states[n - 1], actions[n - 1], states[n].queued[j]);
      if j < |s.queued| {
        SentMessagesAreWhole(states, actions, n - 1, j);
        assert s.queued[j] == q;
        match a {
          case Enqueue(_, _, _) => EnqueueKeepsComplete(s, a, q);
          case Pass(os) => PassKeepsComplete(s, os, q);
        }
      } else {
        assert Tracked(s) by {
          RunsTrackMessages(states, actions, n - 1);
        }
        assert Unknown(s, q.id);
        EnqueueOnMessage(s, a, q.id);
      }
    }
  }
}
