/**
 * The subscription index in every reachable state. A handler changes its connection's own maps and the index in two locked
 * sections, one after the other, and the pool runs several handlers of one connection at a time; a closing connection is
 * taken out of the index by the reader's thread. When does the index agree with the own maps?
 */
module RoutingRuns {
  import opened Bytes
  import opened TopicFilter
  import opened Routing
  import opened Wrappers

  /* ---------- One pair of connection and filter ---------- */

  function Lookup(s: Subs, f: CString): Option<int> {
    if HasWildcard(f) then (if f in s.wild then Some(s.wild[f]) else None)
    else (if f in s.exact then Some(s.exact[f]) else None)
  }

  function At(m: map<CString, map<nat, int>>, f: CString, id: nat): Option<int> {
    if f in m && id in m[f] then Some(m[f][id]) else None
  }

  function Entry(x: Index<nat>, f: CString, id: nat): Option<int> {
    if HasWildcard(f) then At(x.wild, f, id) else At(x.exact, f, id)
  }

  /** A handler between its two sections: it grants a QoS, or takes the subscription back. */
  datatype Work = Work(id: nat, f: CString, grant: Option<int>)

  /** The effect of the first section, as of `Context.Subscribe` and `Context.Unsubscribe`. */
  function OwnAfter(s: Subs, w: Work): Subs {
    if w.grant.Some? then Insert(s, w.f, w.grant.value) else Delete(s, w.f)
  }

  /** The effect of the second. */
  function IndexAfter(x: Index<nat>, w: Work): Index<nat> {
    if w.grant.Some? then Enter(x, w.f, w.id, w.grant.value)
    else Index(Without(x.exact, {w.f}, w.id), Without(x.wild, {w.f}, w.id))
  }

  lemma OwnAfterAt(s: Subs, w: Work, f: CString)
    ensures Lookup(OwnAfter(s, w), f) == if f == w.f then w.grant else Lookup(s, f)
  {
    hide HasWildcard;
  }

  lemma AtWithout(m: map<CString, map<nat, int>>, fs: set<CString>, k: nat, f: CString, id: nat)
    ensures At(Without(m, fs, k), f, id) == if f in fs && id == k then None else At(m, f, id)
  {
    if f in fs && f in m && id in m[f] && id != k {
      assert id in m[f] - {k};
    }
  }

  lemma IndexAfterAt(x: Index<nat>, w: Work, f: CString, id: nat)
    ensures Entry(IndexAfter(x, w), f, id) == if f == w.f && id == w.id then w.grant else Entry(x, f, id)
  {
    hide HasWildcard, Without;
    if w.grant.None? {
      AtWithout(x.exact, {w.f}, w.id, f, id);
      AtWithout(x.wild, {w.f}, w.id, f, id);
    }
  }

  /* ---------- The machine ---------- */

  /**
   * The own maps of the connections; those that have been taken out of the index, first of its exact part, then of all; the
   * handlers between their two sections, in the order of their first ones; and the index.
   */
  datatype State = State(own: map<nat, Subs>, leaving: set<nat>, gone: set<nat>, work: seq<Work>, index: Index<nat>)

  const START: State := State(map[], {}, {}, [], Index(map[], map[]))

  datatype Action = Accept(id: nat) | Begin(work: Work) | Finish(k: nat) | RemoveExact(id: nat) | RemoveWild(id: nat)

  /** A handler still runs when its connection is gone; a filter that is granted is not empty. */
  predicate Enabled(s: State, a: Action) {
    match a
    case Accept(id) => id !in s.own
    case Begin(w) => w.id in s.own && (w.grant.Some? ==> w.f != [])
    case Finish(k) => k < |s.work|
    case RemoveExact(id) => id in s.own && id !in s.leaving && id !in s.gone
    case RemoveWild(id) => id in s.own && id in s.leaving && id !in s.gone
  }

  function Apply(s: State, a: Action): State
    requires Enabled(s, a)
  {
    match a
    case Accept(id) => s.(own := s.own[id := NO_SUBS])
    case Begin(w) => s.(own := s.own[w.id := OwnAfter(s.own[w.id], w)], work := s.work + [w])
    case Finish(k) => s.(work := s.work[..k] + s.work[k + 1..], index := IndexAfter(s.index, s.work[k]))
    case RemoveExact(id) =>
      s.(leaving := s.leaving + {id}, index := s.index.(exact := Without(s.index.exact, s.own[id].exact.Keys, id)))
    case RemoveWild(id) =>
      s.(gone := s.gone + {id}, index := s.index.(wild := Without(s.index.wild, s.own[id].wild.Keys, id)))
  }

  /* ---------- What holds in every run ---------- */

  /** Filters are filed by kind, entries have holders, holders are known. */
  ghost predicate WellFiled(s: State) {
    && (forall id :: id in s.own ==> Sorted(s.own[id]) && [] !in s.own[id].exact)
    && (forall f :: f in s.index.exact ==> f != [] && !HasWildcard(f) && s.index.exact[f] != map[])
    && (forall f :: f in s.index.wild ==> HasWildcard(f) && s.index.wild[f] != map[])
    && (forall f, id :: f in s.index.exact && id in s.index.exact[f] ==> id in s.own)
    && (forall f, id :: f in s.index.wild && id in s.index.wild[f] ==> id in s.own)
    && (forall k :: 0 <= k < |s.work| ==> s.work[k].id in s.own && (s.work[k].grant.Some? ==> s.work[k].f != []))
    && s.leaving <= s.own.Keys && s.gone <= s.leaving
  }

  lemma StepKeepsFiling(s: State, a: Action)
    requires WellFiled(s) && Enabled(s, a)
    ensures WellFiled(Apply(s, a))
  {
    match a {
      case Accept(id) =>
      case Begin(w) => BeginKeepsFiling(s, w);
      case Finish(k) => FinishKeepsFiling(s, k);
      case RemoveExact(id) =>
      case RemoveWild(id) =>
    }
  }

  lemma BeginKeepsFiling(s: State, w: Work)
    requires WellFiled(s) && Enabled(s, Begin(w))
    ensures WellFiled(Apply(s, Begin(w)))
  {
    hide HasWildcard;
    var s' := Apply(s, Begin(w));
    assert Sorted(s.own[w.id]);
    assert Sorted(s'.own[w.id]);
  }

  lemma FinishKeepsFiling(s: State, k: nat)
    requires WellFiled(s) && Enabled(s, Finish(k))
    ensures WellFiled(Apply(s, Finish(k)))
  {
    hide HasWildcard, Sorted;
    var (s', w) := (Apply(s, Finish(k)), s.work[k]);
    assert w.id in s.own;
    forall f | f in s'.index.exact
      ensures f != [] && !HasWildcard(f) && s'.index.exact[f] != map[]
      ensures forall id :: id in s'.index.exact[f] ==> id in s.own
    {
      if w.grant.Some? && f == w.f && !HasWildcard(f) {
        assert w.id in s'.index.exact[f];
      }
    }
    forall f | f in s'.index.wild
      ensures HasWildcard(f) && s'.index.wild[f] != map[]
      ensures forall id :: id in s'.index.wild[f] ==> id in s.own
    {
      if w.grant.Some? && f == w.f && HasWildcard(f) {
        assert w.id in s'.index.wild[f];
      }
    }
    forall j | 0 <= j < |s'.work|
      ensures s'.work[j].id in s'.own && (s'.work[j].grant.Some? ==> s'.work[j].f != [])
    {
      assert s'.work[j] == s.work[if j < k then j else j + 1];
    }
  }

  /* ---------- Agreement ---------- */

  /** The grant of the newest work under way on a pair; `none` if there is no such work. */
  function Newest(work: seq<Work>, id: nat, f: CString, none: Option<int>): Option<int> {
    if work == [] then none
    else
      var w := work[|work| - 1];
      if w.id == id && w.f == f then w.grant else Newest(work[..|work| - 1], id, f, none)
  }

  /** Some work is under way on a pair. */
  predicate Busy(work: seq<Work>, id: nat, f: CString) {
    exists k :: 0 <= k < |work| && work[k].id == id && work[k].f == f
  }

  /** What the index is to show of a connection. */
  function Shown(s: State, id: nat): Subs
    requires id in s.own
  {
    if id in s.gone then NO_SUBS else if id in s.leaving then Subs(map[], s.own[id].wild) else s.own[id]
  }

  /** Once the work under way is done, the index shows what the own maps say. */
  predicate AgreesAt(s: State, id: nat, f: CString)
    requires id in s.own
  {
    Newest(s.work, id, f, Entry(s.index, f, id)) == Lookup(Shown(s, id), f)
  }

  ghost predicate Agrees(s: State) {
    forall id, f :: id in s.own ==> AgreesAt(s, id, f)
  }

  predicate Closed(s: State, id: nat, f: CString) {
    id in s.gone || (id in s.leaving && !HasWildcard(f))
  }

  /** No subscription on a filter of this kind is the newest work on it. */
  ghost predicate NoneGranted(work: seq<Work>, id: nat, wild: bool) {
    forall f: CString :: HasWildcard(f) == wild ==> Newest(work, id, f, None) == None
  }

  /**
   * A step that does no harm: no subscribing on a closed connection, no closing between the two sections of a subscription,
   * and no second section of the newest work on a filter that leaves behind older work with another grant.
   */
  ghost predicate Harmless(s: State, a: Action)
    requires Enabled(s, a)
  {
    match a
    case Accept(_) => true
    case Begin(w) => Closed(s, w.id, w.f) ==> w.grant == None
    case Finish(k) =>
      var w := s.work[k];
      Busy(s.work[k + 1..], w.id, w.f) || Newest(s.work[..k], w.id, w.f, w.grant) == w.grant
    case RemoveExact(id) => NoneGranted(s.work, id, false)
    case RemoveWild(id) => NoneGranted(s.work, id, true)
  }

  lemma {:induction false} NewestOfBoth(before: seq<Work>, after: seq<Work>, id: nat, f: CString, none: Option<int>)
    ensures Newest(before + after, id, f, none) == Newest(after, id, f, Newest(before, id, f, none))
  {
    if after == [] {
      assert before + after == before;
    } else {
      assert (before + after)[..|before + after| - 1] == before + after[..|after| - 1];
      NewestOfBoth(before, after[..|after| - 1], id, f, none);
    }
  }

  /** Work under way decides, whatever the index shows. */
  lemma {:induction false} NewestDecides(work: seq<Work>, id: nat, f: CString, none: Option<int>, none': Option<int>)
    ensures Busy(work, id, f) ==> Newest(work, id, f, none) == Newest(work, id, f, none')
    ensures !Busy(work, id, f) ==> Newest(work, id, f, none) == none
  {
    if work != [] {
      var (w, older) := (work[|work| - 1], work[..|work| - 1]);
      if w.id == id && w.f == f {
        assert Busy(work, id, f);
      } else {
        NewestDecides(older, id, f, none, none');
        if Busy(work, id, f) {
          var k :| 0 <= k < |work| && work[k].id == id && work[k].f == f;
          assert older[k] == work[k];
        }
        if Busy(older, id, f) {
          var k :| 0 <= k < |older| && older[k].id == id && older[k].f == f;
          assert work[k] == older[k];
        }
      }
    }
  }

  lemma AcceptAgrees(s: State, id: nat)
    requires WellFiled(s) && Agrees(s) && Enabled(s, Accept(id))
    ensures Agrees(Apply(s, Accept(id)))
  {
    hide HasWildcard;
    var s' := Apply(s, Accept(id));
    forall j, f | j in s'.own ensures AgreesAt(s', j, f) {
      if j == id {
        assert !Busy(s.work, id, f);
        NewestDecides(s.work, id, f, Entry(s.index, f, id), None);
      } else {
        assert AgreesAt(s, j, f);
      }
    }
  }

  lemma BeginAgreesExactly(s: State, w: Work)
    requires Agrees(s) && Enabled(s, Begin(w))
    ensures Agrees(Apply(s, Begin(w))) <==> Harmless(s, Begin(w))
  {
    hide HasWildcard, OwnAfter, Entry;
    var s' := Apply(s, Begin(w));
    forall id, f | id in s'.own ensures AgreesAt(s', id, f) <==> (id == w.id && f == w.f ==> Harmless(s, Begin(w))) {
      assert AgreesAt(s, id, f);
      assert s'.work[..|s.work|] == s.work;
      OwnAfterAt(s.own[w.id], w, f);
    }
    assert AgreesAt(s', w.id, w.f) <==> Harmless(s, Begin(w));
  }

  lemma FinishAgreesExactly(s: State, k: nat)
    requires WellFiled(s) && Agrees(s) && Enabled(s, Finish(k))
    ensures Agrees(Apply(s, Finish(k))) <==> Harmless(s, Finish(k))
  {
    hide HasWildcard, IndexAfter, Entry, Newest;
    var s' := Apply(s, Finish(k));
    var w := s.work[k];
    forall id, f | id in s'.own ensures AgreesAt(s', id, f) <==> (id == w.id && f == w.f ==> Harmless(s, Finish(k))) {
      assert AgreesAt(s, id, f);
      IndexAfterAt(s.index, w, f, id);
      NewestAfterFinish(s.work, k, id, f, Entry(s.index, f, id));
    }
    assert AgreesAt(s', w.id, w.f) <==> Harmless(s, Finish(k));
  }

  lemma NewestAfterFinish(work: seq<Work>, k: nat, id: nat, f: CString, entry: Option<int>)
    requires k < |work|
    ensures var (w, older, younger) := (work[k], work[..k], work[k + 1..]);
            if w.id == id && w.f == f
            then Newest(older + younger, id, f, w.grant) == Newest(work, id, f, entry) <==>
                   Busy(younger, id, f) || Newest(older, id, f, w.grant) == w.grant
            else Newest(older + younger, id, f, entry) == Newest(work, id, f, entry)
  {
    var (w, older, younger) := (work[k], work[..k], work[k + 1..]);
    assert work == older + [w] + younger;
    NewestOfBoth(older + [w], younger, id, f, entry);
    assert (older + [w])[..k] == older;
    var shown := if w.id == id && w.f == f then w.grant else entry;
    NewestOfBoth(older, younger, id, f, shown);
    NewestDecides(younger, id, f, w.grant, Newest(older, id, f, w.grant));
    NewestDecides(younger, id, f, Newest(older, id, f, w.grant), w.grant);
  }

  lemma RemovedAt(s: State, a: Action, id: nat, j: nat, f: CString)
    requires WellFiled(s) && Agrees(s) && Enabled(s, a) && (a == RemoveExact(id) || a == RemoveWild(id)) && j in s.own
    ensures AgreesAt(Apply(s, a), j, f) <==>
              (j == id && HasWildcard(f) == a.RemoveWild? ==> Newest(s.work, id, f, None) == None)
  {
    hide HasWildcard, Without, Newest;
    assert AgreesAt(s, j, f);
    AtWithout(s.index.exact, s.own[id].exact.Keys, id, f, j);
    AtWithout(s.index.wild, s.own[id].wild.Keys, id, f, j);
    NewestDecides(s.work, id, f, None, Entry(s.index, f, id));
    NewestDecides(s.work, id, f, Entry(s.index, f, id), None);
  }

  lemma RemoveAgreesExactly(s: State, a: Action, id: nat)
    requires WellFiled(s) && Agrees(s) && Enabled(s, a) && (a == RemoveExact(id) || a == RemoveWild(id))
    ensures Agrees(Apply(s, a)) <==> Harmless(s, a)
  {
    hide HasWildcard, Without, Newest, AgreesAt;
    var s' := Apply(s, a);
    forall j, f: CString | j in s'.own
      ensures AgreesAt(s', j, f) <==> (j == id && HasWildcard(f) == a.RemoveWild? ==> Newest(s.work, id, f, None) == None)
    {
      RemovedAt(s, a, id, j, f);
    }
    if Agrees(s') {
      forall f: CString | HasWildcard(f) == a.RemoveWild? ensures Newest(s.work, id, f, None) == None {
        assert AgreesAt(s', id, f);
      }
    }
  }

  /** A step keeps the index and the own maps in agreement if and only if it does no harm. */
  lemma StepAgreesExactly(s: State, a: Action)
    requires WellFiled(s) && Agrees(s) && Enabled(s, a)
    ensures Agrees(Apply(s, a)) <==> Harmless(s, a)
  {
    match a {
      case Accept(id) => AcceptAgrees(s, id);
      case Begin(w) => BeginAgreesExactly(s, w);
      case Finish(k) => FinishAgreesExactly(s, k);
      case RemoveExact(id) => RemoveAgreesExactly(s, a, id);
      case RemoveWild(id) => RemoveAgreesExactly(s, a, id);
    }
  }

  /* ---------- One handler at a time ---------- */

  predicate Idle(s: State, id: nat) {
    forall k :: 0 <= k < |s.work| ==> s.work[k].id != id
  }

  /** A handler starts on an open connection when the one before it is done, and closing waits for handlers. */
  predicate Serial(s: State, a: Action) {
    match a
    case Begin(w) => Idle(s, w.id) && w.id !in s.leaving
    case RemoveExact(id) => Idle(s, id)
    case RemoveWild(id) => Idle(s, id)
    case _ => true
  }

  predicate OneEach(work: seq<Work>) {
    forall i, j :: 0 <= i < j < |work| ==> work[i].id != work[j].id
  }

  /** If the handlers of each connection took turns, no step would do harm. */
  lemma SerialIsHarmless(s: State, a: Action)
    requires WellFiled(s) && OneEach(s.work) && Enabled(s, a) && Serial(s, a)
    ensures Harmless(s, a) && OneEach(Apply(s, a).work)
  {
    hide HasWildcard, Newest;
    match a {
      case Accept(_) =>
      case Begin(w) =>
      case Finish(k) =>
        var w := s.work[k];
        NewestDecides(s.work[..k], w.id, w.f, w.grant, None);
      case RemoveExact(id) =>
        forall f: CString ensures Newest(s.work, id, f, None) == None {
          NewestDecides(s.work, id, f, None, None);
        }
      case RemoveWild(id) =>
        forall f: CString ensures Newest(s.work, id, f, None) == None {
          NewestDecides(s.work, id, f, None, None);
        }
    }
  }

  /* ---------- Runs ---------- */

  predicate Run(states: seq<State>, actions: seq<Action>) {
    && |states| == |actions| + 1 && states[0] == START
    && forall k :: 0 <= k < |actions| ==> Enabled(states[k], actions[k]) && states[k + 1] == Apply(states[k], actions[k])
  }

  lemma {:induction false} RunsKeepFiling(states: seq<State>, actions: seq<Action>, n: nat)
    requires Run(states, actions) && n < |states|
    ensures WellFiled(states[n])
  {
    if 0 < n {
      RunsKeepFiling(states, actions, n - 1);
      StepKeepsFiling(states[n - 1], actions[n - 1]);
    }
  }

  predicate Known(actions: seq<Action>, n: nat, id: nat)
    requires n <= |actions|
  {
    exists k :: 0 <= k < n && actions[k] == Accept(id)
  }

  /** What the handlers that have begun want for a pair: the newest one counts. */
  function LastBegun(actions: seq<Action>, n: nat, id: nat, f: CString): Option<int>
    requires n <= |actions|
  {
    if n == 0 then None
    else
      var a := actions[n - 1];
      if a.Begin? && a.work.id == id && a.work.f == f then a.work.grant else LastBegun(actions, n - 1, id, f)
  }

  /** In every run exactly the accepted connections are known, each with what was last begun for it. */
  lemma {:induction false} OwnIsLastBegun(states: seq<State>, actions: seq<Action>, n: nat, id: nat, f: CString)
    requires Run(states, actions) && n < |states|
    ensures id in states[n].own <==> Known(actions, n, id)
    ensures LastBegun(actions, n, id, f) == if id in states[n].own then Lookup(states[n].own[id], f) else None
  {
    hide OwnAfter, IndexAfter, Lookup, HasWildcard;
    if 0 < n {
      OwnIsLastBegun(states, actions, n - 1, id, f);
      var (s, a) := (states[n - 1], actions[n - 1]);
      KnownSoFar(actions, n, id);
      if a.Begin? && a.work.id == id {
        OwnAfterAt(s.own[id], a.work, f);
      } else if a == Accept(id) {
        NothingOwned(f);
      }
    }
  }

  lemma KnownSoFar(actions: seq<Action>, n: nat, id: nat)
    requires 0 < n <= |actions|
    ensures Known(actions, n, id) <==> Known(actions, n - 1, id) || actions[n - 1] == Accept(id)
  {
  }

  lemma NothingOwned(f: CString)
    ensures Lookup(NO_SUBS, f) == None
  {
  }

  ghost predicate HarmlessRun(states: seq<State>, actions: seq<Action>) {
    Run(states, actions) && forall k :: 0 <= k < |actions| ==> Harmless(states[k], actions[k])
  }

  lemma {:induction false} RunsStayInAgreement(states: seq<State>, actions: seq<Action>, n: nat)
    requires HarmlessRun(states, actions) && n < |states|
    ensures Agrees(states[n])
  {
    hide Agrees, WellFiled, Harmless;
    if n == 0 {
      StartAgrees();
    } else {
      RunsStayInAgreement(states, actions, n - 1);
      RunsKeepFiling(states, actions, n - 1);
      StepAgreesExactly(states[n - 1], actions[n - 1]);
    }
  }

  lemma StartAgrees()
    ensures Agrees(START)
  {
  }

  /**
   * In every run of harmless steps, for every connection and filter that no handler is at work on, the index shows exactly
   * what the connection's own maps say, and nothing of a connection that is gone.
   */
  lemma RunsAgree(states: seq<State>, actions: seq<Action>, n: nat, id: nat, f: CString)
    requires HarmlessRun(states, actions) && n < |states| && id in states[n].own && !Busy(states[n].work, id, f)
    ensures Entry(states[n].index, f, id) == Lookup(Shown(states[n], id), f)
  {
    hide Shown, Newest, Entry, Lookup, Harmless;
    var s := states[n];
    RunsStayInAgreement(states, actions, n);
    assert AgreesAt(s, id, f);
    NewestDecides(s.work, id, f, Entry(s.index, f, id), None);
  }

  /* ---------- Publishing is a linear scan ---------- */

  /** The QoS argument of a message for a subscription: the lower QoS, and every bit set for QoS 1. */
  function Argument(qos: int, granted: int): int {
    var lower := if granted < qos then granted else qos;
    if lower == 1 then 127 else lower
  }

  /** The messages for one reachable connection: one for each of its filters that accepts the topic. */
  ghost function ScanOf(id: nat, s: Subs, topic: CString, qos: int): set<Delivery<nat>> {
    (set f | f in s.exact && Matches(topic, f) :: Delivery(f, id, Argument(qos, s.exact[f])))
    + (set f | f in s.wild && Matches(topic, f) :: Delivery(f, id, Argument(qos, s.wild[f])))
  }

  /** What a scan over all connections and all their filters would send. */
  ghost function Scan(own: map<nat, Subs>, topic: CString, qos: int, working: nat -> bool): set<Delivery<nat>> {
    set id, d | id in own && working(id) && d in ScanOf(id, own[id], topic, qos) :: d
  }


  /** What the index is to show of all connections. */
  function ShownOfAll(s: State): map<nat, Subs> {
    map id | id in s.own :: Shown(s, id)
  }

  /** An exact filter matches by being the topic. */
  lemma ExactIsScanned(s: State, topic: CString, qos: int, working: nat -> bool, d: Delivery<nat>)
    requires WellFiled(s)
    requires d.to in s.own ==> Entry(s.index, d.filter, d.to) == Lookup(Shown(s, d.to), d.filter)
    ensures d in FanOut(topic, Holders(s.index.exact, topic), Holders(s.index.exact, topic).Keys, qos, ToConnections(working))
       <==> && d.to in s.own && working(d.to) && d.filter in Shown(s, d.to).exact && Matches(topic, d.filter)
            && d.qos == Argument(qos, Shown(s, d.to).exact[d.filter])
  {
    hide Matches, HasWildcard;
    var (f, k) := (d.filter, d.to);
    if k in s.own && f in Shown(s, k).exact {
      assert Sorted(s.own[k]);
      LiteralFilter(topic, f);
    }
    if topic in s.index.exact {
      LiteralFilter(topic, topic);
    }
  }

  lemma WildIsScanned(s: State, topic: CString, qos: int, working: nat -> bool, d: Delivery<nat>)
    requires WellFiled(s)
    requires d.to in s.own ==> Entry(s.index, d.filter, d.to) == Lookup(Shown(s, d.to), d.filter)
    ensures d in FanOutAll(s.index.wild, s.index.wild.Keys, topic, qos, ToConnections(working))
       <==> && d.to in s.own && working(d.to) && d.filter in Shown(s, d.to).wild && Matches(topic, d.filter)
            && d.qos == Argument(qos, Shown(s, d.to).wild[d.filter])
  {
    hide Matches, HasWildcard;
    if d.to in s.own {
      assert Sorted(s.own[d.to]);
    }
  }

  lemma ScannedOf(own: map<nat, Subs>, topic: CString, qos: int, working: nat -> bool, d: Delivery<nat>)
    ensures d in Scan(own, topic, qos, working)
       <==> d.to in own && working(d.to) && d in ScanOf(d.to, own[d.to], topic, qos)
  {
    hide Matches;
  }

  /** What the context's maps send for a publish. */
  ghost function Sent(x: Index<nat>, topic: CString, qos: int, working: nat -> bool): multiset<Delivery<nat>> {
    multiset(FanOut(topic, Holders(x.exact, topic), Holders(x.exact, topic).Keys, qos, ToConnections(working)))
    + multiset(FanOutAll(x.wild, x.wild.Keys, topic, qos, ToConnections(working)))
  }

  /**
   * In every run of harmless steps publishing delivers what a scan of all working connections and all their filters would:
   * exactly so when no handler is at work, and always for the pairs that none is at work on.
   */
  lemma PublishIsScan(states: seq<State>, actions: seq<Action>, n: nat, topic: CString, qos: int, working: nat -> bool)
    requires HarmlessRun(states, actions) && n < |states|
    ensures var s := states[n];
            var (sent, scanned) := (Sent(s.index, topic, qos, working), Scan(ShownOfAll(s), topic, qos, working));
            && (forall d: Delivery<nat> :: !Busy(s.work, d.to, d.filter) ==> sent[d] == if d in scanned then 1 else 0)
            && (s.work == [] ==> sent == multiset(scanned))
  {
    hide FanOut, FanOutAll, Scan, Matches, Entry, Lookup, Shown, HasWildcard;
    var s := states[n];
    RunsKeepFiling(states, actions, n);
    var scanned := Scan(ShownOfAll(s), topic, qos, working);
    forall d: Delivery<nat> | !Busy(s.work, d.to, d.filter)
      ensures Sent(s.index, topic, qos, working)[d] == if d in scanned then 1 else 0
    {
      if d.to in s.own {
        RunsAgree(states, actions, n, d.to, d.filter);
      }
      ExactIsScanned(s, topic, qos, working, d);
      WildIsScanned(s, topic, qos, working, d);
      ScannedOf(ShownOfAll(s), topic, qos, working, d);
      if d.to in s.own {
        ShownIsSorted(s, d.to);
      }
    }
    if s.work == [] {
      assert Sent(s.index, topic, qos, working) == multiset(scanned);
    }
  }

  lemma ShownIsSorted(s: State, id: nat)
    requires WellFiled(s) && id in s.own
    ensures Sorted(Shown(s, id))
  {
    hide HasWildcard;
    assert Sorted(s.own[id]);
  }

  /* ---------- Runs with one handler at a time ---------- */

  predicate SerialRun(states: seq<State>, actions: seq<Action>) {
    Run(states, actions) && forall k :: 0 <= k < |actions| ==> Serial(states[k], actions[k])
  }

  lemma {:induction false} SerialRunIsHarmlessUpTo(states: seq<State>, actions: seq<Action>, n: nat)
    requires SerialRun(states, actions) && n < |states|
    ensures OneEach(states[n].work)
    ensures forall k :: 0 <= k < n ==> Harmless(states[k], actions[k])
  {
    hide Harmless, Serial, Apply, Enabled;
    if 0 < n {
      SerialRunIsHarmlessUpTo(states, actions, n - 1);
      RunsKeepFiling(states, actions, n - 1);
      SerialIsHarmless(states[n - 1], actions[n - 1]);
    }
  }

  /**
   * In every run in which the handlers of each connection take turns and closing waits for them, every state has the index
   * that the own maps ask for wherever no handler is at work, and publishing is a scan.
   */
  lemma SerialRunsAgree(states: seq<State>, actions: seq<Action>, n: nat, topic: CString, qos: int, working: nat -> bool)
    requires SerialRun(states, actions) && n < |states|
    ensures var s := states[n];
            && OneEach(s.work)
            && (forall id, f :: id in s.own && !Busy(s.work, id, f) ==> Entry(s.index, f, id) == Lookup(Shown(s, id), f))
            && (s.work == [] ==>
                  Sent(s.index, topic, qos, working) == multiset(Scan(ShownOfAll(s), topic, qos, working)))
  {
    hide Harmless, Entry, Lookup, Shown, Sent, Scan, Busy, Serial;
    var s := states[n];
    SerialRunIsHarmlessUpTo(states, actions, |actions|);
    SerialRunIsHarmlessUpTo(states, actions, n);
    assert HarmlessRun(states, actions);
    forall id, f | id in s.own && !Busy(s.work, id, f) ensures Entry(s.index, f, id) == Lookup(Shown(s, id), f) {
      RunsAgree(states, actions, n, id, f);
    }
    PublishIsScan(states, actions, n, topic, qos, working);
  }
}
