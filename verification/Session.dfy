/**
 * A client's session over connections: subscriptions on disk, with the connection, and in the offline index
 * (lib/myqtt-reader.c, lib/myqtt-conn.c).
 */
module Session {
  import opened Bytes
  import opened TopicFilter
  import opened Routing
  import FileNames
  import Requests = Subscribe
  import SubStore

  /* ---------- One holder's share of an index ---------- */

  /** The filters under which an index map lists `k`. */
  function Listed<K>(m: map<CString, map<K, int>>, k: K): map<CString, int> {
    map f | f in m && k in m[f] :: m[f][k]
  }

  function Share<K>(x: Index<K>, k: K): Subs {
    Subs(Listed(x.exact, k), Listed(x.wild, k))
  }

  /** A map of filters, filed by kind. */
  function Filed(m: map<CString, int>): Subs {
    Subs(map f | f in m && !HasWildcard(f) :: m[f], map f | f in m && HasWildcard(f) :: m[f])
  }

  function Merge(s: Subs, added: Subs): Subs {
    Subs(s.exact + added.exact, s.wild + added.wild)
  }

  function Minus(s: Subs, taken: Subs): Subs {
    Subs(s.exact - taken.exact.Keys, s.wild - taken.wild.Keys)
  }

  lemma ShareOfEnter<K>(x: Index<K>, f: CString, k: K, qos: int, j: K)
    ensures Share(Enter(x, f, k, qos), j) == if j == k then Insert(Share(x, k), f, qos) else Share(x, j)
  {
    hide HasWildcard, Listed, Holders;
    ListedAfter(x.exact, f, k, qos, j);
    ListedAfter(x.wild, f, k, qos, j);
  }

  lemma ListedAfter<K>(m: map<CString, map<K, int>>, f: CString, k: K, qos: int, j: K)
    ensures Listed(m[f := Holders(m, f)[k := qos]], j) == if j == k then Listed(m, k)[f := qos] else Listed(m, j)
  {
  }

  /** The entries of `m` outside `left`. */
  function Except(m: map<CString, int>, left: set<CString>): map<CString, int> {
    map f | f in m && f !in left :: m[f]
  }

  lemma OneMore(s: Subs, m: map<CString, int>, left: set<CString>, f: CString)
    requires f in m && f in left
    ensures Merge(s, Filed(Except(m, left - {f}))) == Insert(Merge(s, Filed(Except(m, left))), f, m[f])
  {
    hide HasWildcard, Filed, Merge, Insert;
    assert Except(m, left - {f}) == Except(m, left)[f := m[f]];
    FiledSub(Except(m, left), f, m[f]);
    MergeInsert(s, Filed(Except(m, left)), f, m[f]);
  }

  lemma FiledSub(disk: map<CString, int>, f: CString, qos: int)
    ensures Filed(disk[f := qos]) == Insert(Filed(disk), f, qos)
    ensures f in disk && disk[f] == qos ==> Insert(Filed(disk), f, qos) == Filed(disk)
  {
    hide HasWildcard;
  }

  lemma MergeInsert(s: Subs, added: Subs, f: CString, qos: int)
    ensures Merge(s, Insert(added, f, qos)) == Insert(Merge(s, added), f, qos)
  {
    hide HasWildcard;
    JoinedPut(s.exact, added.exact, f, qos);
    JoinedPut(s.wild, added.wild, f, qos);
  }

  lemma JoinedPut(a: map<CString, int>, b: map<CString, int>, f: CString, qos: int)
    ensures a + b[f := qos] == (a + b)[f := qos]
  {
  }

  lemma NoneAndAll(s: Subs, m: map<CString, int>)
    ensures Merge(s, Filed(Except(m, m.Keys))) == s && Except(m, {}) == m
  {
    hide HasWildcard;
  }

  /* ---------- The code ---------- */

  /** Files every filter of a connection under the client's name in the offline index, in the order of the hash. */
  method MoveToOffline(ctx: Context, client: CString, m: map<CString, int>)
    modifies ctx`offlineSubs, ctx`offlineWildSubs
    ensures forall c :: Share(ctx.Offline(), c)
              == if c == client then Merge(old(Share(ctx.Offline(), client)), Filed(m)) else old(Share(ctx.Offline(), c))
  {
    hide Share, Merge, Filed, Except, Enter;
    var left := m.Keys;
    ghost var before := ctx.Offline();
    NoneAndAll(Share(before, client), m);
    while left != {}
      invariant left <= m.Keys
      invariant forall c :: Share(ctx.Offline(), c)
                  == if c == client then Merge(Share(before, client), Filed(Except(m, left))) else Share(before, c)
      decreases |left|
    {
      var f :| f in left;
      OneMore(Share(before, client), m, left, f);
      left := left - {f};
      ghost var x := ctx.Offline();
      ctx.SubscribeOffline(client, f, m[f]);
      forall c ensures Share(ctx.Offline(), c) == if c == client then Insert(Share(x, client), f, m[f]) else Share(x, c) {
        ShareOfEnter(x, f, client, m[f], c);
      }
    }
  }

  /** Takes a client out of the entries of the given filters; entries may be left empty. */
  method DropClient(m: map<CString, map<CString, int>>, fs: set<CString>, client: CString)
    returns (r: map<CString, map<CString, int>>)
    ensures r == map f | f in m :: if f in fs then m[f] - {client} else m[f]
  {
    r := m;
    var left := fs;
    while left != {}
      invariant left <= fs
      invariant r == map f | f in m :: if f in fs && f !in left then m[f] - {client} else m[f]
      decreases |left|
    {
      var f :| f in left;
      left := left - {f};
      if f in r {
        r := r[f := r[f] - {client}];
      }
    }
  }

  /** Takes a client that is back out of the offline entries of its connection's filters. */
  method MoveToOnline(ctx: Context, conn: Connection, client: CString)
    modifies ctx`offlineSubs, ctx`offlineWildSubs
    ensures forall c :: Share(ctx.Offline(), c)
              == if c == client then Minus(old(Share(ctx.Offline(), client)), conn.Own()) else old(Share(ctx.Offline(), c))
  {
    if conn.subs == map[] && conn.wildSubs == map[] {
      return;
    }
    ghost var before := ctx.Offline();
    ctx.offlineSubs := DropClient(ctx.offlineSubs, conn.subs.Keys, client);
    ctx.offlineWildSubs := DropClient(ctx.offlineWildSubs, conn.wildSubs.Keys, client);
    forall c ensures Share(ctx.Offline(), c)
                  == if c == client then Minus(Share(before, client), conn.Own()) else Share(before, c) {
      DroppedShare(before, ctx.Offline(), conn.Own(), client, c);
    }
  }

  lemma DroppedShare(x: Index<CString>, y: Index<CString>, own: Subs, client: CString, c: CString)
    requires y.exact == map f | f in x.exact :: if f in own.exact.Keys then x.exact[f] - {client} else x.exact[f]
    requires y.wild == map f | f in x.wild :: if f in own.wild.Keys then x.wild[f] - {client} else x.wild[f]
    ensures Share(y, c) == if c == client then Minus(Share(x, client), own) else Share(x, c)
  {
    hide Listed;
    ListedDropped(x.exact, y.exact, own.exact.Keys, client, c);
    ListedDropped(x.wild, y.wild, own.wild.Keys, client, c);
  }

  lemma ListedDropped(m: map<CString, map<CString, int>>, r: map<CString, map<CString, int>>, fs: set<CString>,
                      client: CString, c: CString)
    requires r == map f | f in m :: if f in fs then m[f] - {client} else m[f]
    ensures Listed(r, c) == if c == client then Listed(m, client) - fs else Listed(m, c)
  {
  }

  /** Subscribes a new connection to everything its session has on disk. */
  method RecoverSession(ctx: Context, conn: Connection, store: SubStore.Store)
    requires store.Valid() && conn.Own() == NO_SUBS
    modifies ctx`subs, ctx`wildSubs, conn`subs, conn`wildSubs
    ensures conn.Own() == Filed(store.view)
    ensures forall k: nat :: Share(ctx.Online(), k)
              == if k == conn.id then Merge(old(Share(ctx.Online(), conn.id)), Filed(store.view)) else old(Share(ctx.Online(), k))
  {
    hide Share, Merge, Filed, Except, Enter;
    var m, total := store.Recover();
    var left := m.Keys;
    ghost var before := ctx.Online();
    NoneAndAll(Share(before, conn.id), m);
    NoneAndAll(NO_SUBS, m);
    while left != {}
      invariant left <= m.Keys
      invariant conn.Own() == Merge(NO_SUBS, Filed(Except(m, left)))
      invariant forall k: nat :: Share(ctx.Online(), k)
                  == if k == conn.id then Merge(Share(before, conn.id), Filed(Except(m, left))) else Share(before, k)
      decreases |left|
    {
      var f :| f in left;
      OneMore(Share(before, conn.id), m, left, f);
      OneMore(NO_SUBS, m, left, f);
      left := left - {f};
      ghost var x := ctx.Online();
      ctx.Subscribe(conn, f, m[f]);
      forall k: nat ensures Share(ctx.Online(), k) == if k == conn.id then Insert(Share(x, k), f, m[f]) else Share(x, k) {
        ShareOfEnter(x, f, conn.id, m[f], k);
      }
    }
    MergeOfNothing(Filed(m));
  }

  lemma MergeOfNothing(s: Subs)
    ensures Merge(NO_SUBS, s) == s
  {
  }

  /* ---------- Runs of one client's session ---------- */

  /**
   * The session's subscriptions on disk, those of its connection if there is one, and its share of the offline index.
   */
  datatype State = State(disk: map<CString, int>, conn: Online, offline: Subs)

  datatype Online = Away | Here(subs: Subs)

  /** `granted` is the application's answer, `accepted` its answer to an unsubscribe. */
  datatype Action =
    | Connect
    | Subscribe(f: CString, granted: int)
    | Unsubscribe(f: CString, accepted: bool)
    | Disconnect
    | Break

  predicate Enabled(s: State, a: Action) {
    if a.Connect? then s.conn.Away? else s.conn.Here? && (a.Subscribe? ==> a.f != [])
  }

  /** The steps of a session that is kept (no clean session) with storage that works. */
  function Apply(s: State, a: Action): State
    requires Enabled(s, a)
  {
    match a
    case Connect => State(s.disk, Here(Filed(s.disk)), Minus(s.offline, Filed(s.disk)))
    case Subscribe(f, granted) =>
      s.(disk := if f in s.disk then s.disk else s.disk[f := granted],
         conn := if granted == Requests.DENIED then s.conn else Here(Insert(s.conn.subs, f, granted)))
    case Unsubscribe(f, accepted) =>
      s.(disk := s.disk - {f}, conn := if accepted then Here(Delete(s.conn.subs, f)) else s.conn)
    case Disconnect => s.(conn := Away, offline := Merge(s.offline, s.conn.subs))
    case Break => s.(conn := Away)
  }

  /** The session as the storage, the connection and the context hold it. */
  ghost function Of(store: SubStore.Store, conn: Connection, ctx: Context, client: CString): State
    reads store, conn, ctx
  {
    State(store.view, Here(conn.Own()), Share(ctx.Offline(), client))
  }

  /** One request of a SUBSCRIBE, once the application has answered. */
  method HandleSubscription(ctx: Context, conn: Connection, store: SubStore.Store, client: CString,
                            f: CString, granted: nat, stamp: string)
    requires store.Valid() && f != [] && |f| < FileNames.NAME_LIMIT && granted < FileNames.NAME_LIMIT
    requires store.hash(f) in store.dirs ==> SubStore.NameOf(f, granted, stamp) !in store.dirs[store.hash(f)]
    modifies ctx, conn, store
    ensures store.Valid()
    ensures Of(store, conn, ctx, client) == Apply(old(Of(store, conn, ctx, client)), Subscribe(f, granted))
    ensures ctx.Offline() == old(ctx.Offline())
    ensures forall k: nat :: Share(ctx.Online(), k)
              == if k == conn.id && granted != Requests.DENIED then Insert(old(Share(ctx.Online(), conn.id)), f, granted)
                 else old(Share(ctx.Online(), k))
  {
    hide Share;
    ghost var before := ctx.Online();
    var stored := store.Sub(f, granted, stamp);
    var qos := if stored then granted else Requests.DENIED;
    if qos == Requests.DENIED {
      return;
    }
    ctx.Subscribe(conn, f, qos);
    forall k: nat ensures Share(ctx.Online(), k)
                       == if k == conn.id then Insert(Share(before, k), f, granted) else Share(before, k) {
      ShareOfEnter(before, f, conn.id, qos, k);
    }
  }

  /** One filter of an UNSUBSCRIBE: the file goes before the application is asked. */
  method HandleUnsubscription(ctx: Context, conn: Connection, store: SubStore.Store, client: CString,
                              f: CString, accepted: bool)
    requires store.Valid()
    modifies ctx, conn, store
    ensures store.Valid()
    ensures Of(store, conn, ctx, client) == Apply(old(Of(store, conn, ctx, client)), Unsubscribe(f, accepted))
    ensures ctx.Offline() == old(ctx.Offline())
    ensures forall k: nat :: Share(ctx.Online(), k)
              == if k == conn.id && accepted then Minus(old(Share(ctx.Online(), conn.id)), Both(f))
                 else old(Share(ctx.Online(), k))
  {
    hide Share, Minus, Without;
    ghost var before := ctx.Online();
    var found := store.Unsub(f);
    if !accepted {
      return;
    }
    ctx.Unsubscribe(conn, f);
    forall k: nat ensures Share(ctx.Online(), k)
                       == if k == conn.id then Minus(Share(before, k), Both(f)) else Share(before, k) {
      ShareWithout(before, f, conn.id, k);
    }
  }

  /** A filter, to be taken out of both parts of an index. */
  function Both(f: CString): Subs {
    Subs(map[f := 0], map[f := 0])
  }

  lemma ShareWithout(x: Index<nat>, f: CString, k: nat, j: nat)
    ensures Share(Index(Without(x.exact, {f}, k), Without(x.wild, {f}, k)), j)
         == if j == k then Minus(Share(x, k), Both(f)) else Share(x, j)
  {
    hide Listed, Without;
    ListedWithout(x.exact, f, k, j);
    ListedWithout(x.wild, f, k, j);
  }

  lemma ListedWithout(m: map<CString, map<nat, int>>, f: CString, k: nat, j: nat)
    ensures Listed(Without(m, {f}, k), j) == if j == k then Listed(m, k) - {f} else Listed(m, j)
  {
    forall g | g in m && j in m[g] && j != k ensures g in Without(m, {f}, k) {
      assert j in m[g] - {k};
    }
  }

  /** A DISCONNECT: exact filters first, then those with wildcards. */
  method HandleDisconnect(ctx: Context, conn: Connection, store: SubStore.Store, client: CString)
    requires Sorted(conn.Own())
    modifies ctx
    ensures Of(store, conn, ctx, client).(conn := Away) == Apply(old(Of(store, conn, ctx, client)), Disconnect)
    ensures forall c :: c != client ==> Share(ctx.Offline(), c) == old(Share(ctx.Offline(), c))
    ensures ctx.Online() == old(ctx.Online())
  {
    hide Share;
    if conn.subs == map[] && conn.wildSubs == map[] {
      MergeOfAll(Share(ctx.Offline(), client), conn.Own());
      return;
    }
    MergeOfAll(Share(ctx.Offline(), client), conn.Own());
    MoveToOffline(ctx, client, conn.subs);
    MoveToOffline(ctx, client, conn.wildSubs);
  }

  lemma MergeOfAll(s: Subs, own: Subs)
    requires Sorted(own)
    ensures Merge(Merge(s, Filed(own.exact)), Filed(own.wild)) == Merge(s, own)
    ensures own == NO_SUBS ==> Merge(s, own) == s
  {
    hide HasWildcard;
    assert Filed(own.exact) == Subs(own.exact, map[]) && Filed(own.wild) == Subs(map[], own.wild);
  }

  /** An accepted CONNECT of a session that is kept. */
  method HandleReconnect(ctx: Context, conn: Connection, store: SubStore.Store, client: CString)
    requires store.Valid() && conn.Own() == NO_SUBS
    modifies ctx, conn
    ensures Of(store, conn, ctx, client) == Apply(old(Of(store, conn, ctx, client).(conn := Away)), Connect)
    ensures forall c :: c != client ==> Share(ctx.Offline(), c) == old(Share(ctx.Offline(), c))
    ensures forall k: nat :: Share(ctx.Online(), k)
              == if k == conn.id then Merge(old(Share(ctx.Online(), conn.id)), Filed(store.view)) else old(Share(ctx.Online(), k))
  {
    hide Share;
    RecoverSession(ctx, conn, store);
    MoveToOnline(ctx, conn, client);
  }

  /** The disk says what the connection subscribed to. */
  predicate Agrees(s: State) {
    s.conn.Here? ==> s.conn.subs == Filed(s.disk)
  }

  /**
   * What keeps the disk in step: a new filter is granted, a known one is granted at the QoS it has on disk or denied, and an
   * unsubscribe of a known filter is accepted.
   */
  predicate Faithful(s: State, a: Action) {
    match a
    case Subscribe(f, granted) =>
      if f in s.disk then granted == Requests.DENIED || granted == s.disk[f] else granted != Requests.DENIED
    case Unsubscribe(f, accepted) => accepted || f !in s.disk
    case _ => true
  }

  lemma FiledUnsub(disk: map<CString, int>, f: CString)
    ensures Filed(disk - {f}) == Delete(Filed(disk), f)
    ensures f !in disk ==> disk - {f} == disk
  {
    hide HasWildcard;
  }

  /** Filing loses nothing. */
  lemma FiledIsInjective(m: map<CString, int>, m': map<CString, int>)
    requires Filed(m) == Filed(m')
    ensures m == m'
  {
    hide HasWildcard;
    forall f ensures f in m <==> f in m' {
      assert f in m <==> f in Filed(m).exact || f in Filed(m).wild;
      assert f in m' <==> f in Filed(m').exact || f in Filed(m').wild;
    }
    forall f | f in m ensures m[f] == m'[f] {
      assert m[f] == if HasWildcard(f) then Filed(m).wild[f] else Filed(m).exact[f];
    }
  }

  lemma SubscribeAgrees(s: State, f: CString, granted: int)
    requires s.conn.Here? && Agrees(s) && f != []
    ensures Agrees(Apply(s, Subscribe(f, granted))) <==> Faithful(s, Subscribe(f, granted))
  {
    hide Filed, Insert, HasWildcard;
    var s' := Apply(s, Subscribe(f, granted));
    FiledSub(s.disk, f, granted);
    if f in s.disk {
      if granted != Requests.DENIED && Agrees(s') {
        FiledIsInjective(s.disk, s.disk[f := granted]);
        assert s.disk[f] == s.disk[f := granted][f];
      }
    } else if granted == Requests.DENIED && Agrees(s') {
      FiledIsInjective(s.disk, s'.disk);
    }
  }

  lemma UnsubscribeAgrees(s: State, f: CString, accepted: bool)
    requires s.conn.Here? && Agrees(s)
    ensures Agrees(Apply(s, Unsubscribe(f, accepted))) <==> Faithful(s, Unsubscribe(f, accepted))
  {
    hide Filed, Delete, HasWildcard;
    var s' := Apply(s, Unsubscribe(f, accepted));
    FiledUnsub(s.disk, f);
    if !accepted && Agrees(s') {
      FiledIsInjective(s.disk, s.disk - {f});
    }
  }

  /** Every step keeps the disk and the connection in agreement exactly when it is faithful. */
  lemma StepAgreesExactly(s: State, a: Action)
    requires Enabled(s, a) && Agrees(s)
    ensures Agrees(Apply(s, a)) <==> Faithful(s, a)
  {
    match a {
      case Subscribe(f, granted) => SubscribeAgrees(s, f, granted);
      case Unsubscribe(f, accepted) => UnsubscribeAgrees(s, f, accepted);
      case _ =>
    }
  }

  /** The offline index lists the client only while it is away, and under no filter that is not on disk. */
  predicate Inv(s: State) {
    && Agrees(s)
    && if s.conn.Here? then s.offline == NO_SUBS
       else s.offline.exact.Keys <= Filed(s.disk).exact.Keys && s.offline.wild.Keys <= Filed(s.disk).wild.Keys
  }

  lemma StepKeepsInv(s: State, a: Action)
    requires Inv(s) && Enabled(s, a) && Faithful(s, a)
    ensures Inv(Apply(s, a))
  {
    hide Filed, Insert, Delete;
    StepAgreesExactly(s, a);
  }

  /** However a connection ends, the client can come back, and gets what the connection had. */
  lemma ComesBack(s: State, a: Action)
    requires Inv(s) && s.conn.Here? && (a == Disconnect || a == Break)
    ensures Enabled(s, a) && Enabled(Apply(s, a), Connect)
    ensures Apply(s, a).disk == s.disk && Apply(Apply(s, a), Connect) == s
  {
    hide Filed;
    MergeOfNothing(s.conn.subs);
  }

  predicate Run(states: seq<State>, actions: seq<Action>) {
    && |states| == |actions| + 1 && states[0] == State(map[], Away, NO_SUBS)
    && forall k :: 0 <= k < |actions| ==>
         Enabled(states[k], actions[k]) && Faithful(states[k], actions[k]) && states[k + 1] == Apply(states[k], actions[k])
  }

  lemma {:induction false} RunsKeepInv(states: seq<State>, actions: seq<Action>, n: nat)
    requires Run(states, actions) && n < |states|
    ensures Inv(states[n])
  {
    if n == 0 {
      assert states[0] == State(map[], Away, NO_SUBS);
    } else {
      RunsKeepInv(states, actions, n - 1);
      StepKeepsInv(states[n - 1], actions[n - 1]);
    }
  }

  /**
   * In every faithful run, however the connection ends, the next one gets exactly the subscriptions back that the last one
   * had, after a DISCONNECT the offline index held exactly those, and after the reconnect it does not list the client.
   */
  lemma ReconnectRestores(states: seq<State>, actions: seq<Action>, n: nat)
    requires Run(states, actions) && n + 1 < |actions|
    requires (actions[n] == Disconnect || actions[n] == Break) && actions[n + 1] == Connect
    ensures states[n].conn.Here? && states[n + 2].conn == states[n].conn
    ensures states[n + 2].offline == NO_SUBS
    ensures states[n + 1].offline == if actions[n] == Disconnect then states[n].conn.subs else NO_SUBS
  {
    RunsKeepInv(states, actions, n);
    RunsKeepInv(states, actions, n + 1);
    RunsKeepInv(states, actions, n + 2);
    assert Enabled(states[n], actions[n]) && Enabled(states[n + 1], actions[n + 1]);
    assert states[n + 1] == Apply(states[n], actions[n]) && states[n + 2] == Apply(states[n + 1], actions[n + 1]);
    MergeOfNothing(states[n].conn.subs);
  }
}
