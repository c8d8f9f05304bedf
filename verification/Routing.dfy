/**
 * Subscriptions and message routing on the server: each connection's own maps and the context's index
 * (lib/myqtt-reader.c).
 */
module Routing {
  import opened Bytes
  import opened TopicFilter
  import Qos

  /** Filters of one client and the QoS granted for each; wildcard filters apart. */
  datatype Subs = Subs(exact: map<CString, int>, wild: map<CString, int>)

  /** Who subscribed to each filter, and with which QoS. Keys are connections, or client ids for the offline index. */
  datatype Index<K(==)> = Index(exact: map<CString, map<K, int>>, wild: map<CString, map<K, int>>)

  const NO_SUBS: Subs := Subs(map[], map[])

  /** Every filter is filed by its kind. */
  predicate Sorted(s: Subs) {
    (forall f :: f in s.exact ==> !HasWildcard(f)) && (forall f :: f in s.wild ==> HasWildcard(f))
  }

  /* ---------- Updates ---------- */

  function Insert(s: Subs, f: CString, qos: int): Subs {
    if HasWildcard(f) then s.(wild := s.wild[f := qos]) else s.(exact := s.exact[f := qos])
  }

  function Delete(s: Subs, f: CString): Subs {
    if HasWildcard(f) then s.(wild := s.wild - {f}) else s.(exact := s.exact - {f})
  }

  function Holders<K>(m: map<CString, map<K, int>>, f: CString): map<K, int> {
    if f in m then m[f] else map[]
  }

  function Enter<K>(x: Index<K>, f: CString, k: K, qos: int): Index<K> {
    if HasWildcard(f) then x.(wild := x.wild[f := Holders(x.wild, f)[k := qos]])
    else x.(exact := x.exact[f := Holders(x.exact, f)[k := qos]])
  }

  /** `k` taken out of the entries of `fs`, and the entries that this leaves empty dropped. */
  function Without<K>(m: map<CString, map<K, int>>, fs: set<CString>, k: K): map<CString, map<K, int>> {
    map f | f in m && (f in fs ==> m[f] - {k} != map[]) :: if f in fs then m[f] - {k} else m[f]
  }

  lemma WithoutNothing<K>(m: map<CString, map<K, int>>, k: K)
    ensures Without(m, {}, k) == m
  {
  }

  lemma WithoutOneMore<K>(m: map<CString, map<K, int>>, fs: set<CString>, f: CString, k: K)
    requires f !in fs
    ensures Without(Without(m, fs, k), {f}, k) == Without(m, fs + {f}, k)
  {
  }

  /* ---------- Publishing ---------- */

  /** One message to one subscriber, with the filter that asked for it. */
  datatype Delivery<K> = Delivery(filter: CString, to: K, qos: int)

  /** Who can be reached, and the QoS argument that a message of a given QoS is handed on with. */
  datatype Route<!K> = Route(reach: K -> bool, ask: int -> int)

  /** To the connections that are working; a QoS 1 message is handed on with all the bits of `SKIP_STORAGE`. */
  function ToConnections(working: nat -> bool): Route<nat> {
    Route(working, ForwardQos)
  }

  function ForwardQos(qos: int): int {
    if qos == 1 then Qos.SKIP_STORAGE else qos
  }

  /** Into the queues of the clients that are away. */
  function ToQueues(): Route<CString> {
    Route((client: CString) => true, (qos: int) => qos)
  }

  function Min(a: int, b: int): int {
    if a > b then b else a
  }

  /** The messages for the holders of one filter that can be reached. */
  function FanOut<K>(f: CString, holders: map<K, int>, among: set<K>, qos: int, route: Route<K>): set<Delivery<K>> {
    set k | k in among && k in holders && route.reach(k) :: Delivery(f, k, route.ask(Min(qos, holders[k])))
  }

  /** The messages for the holders of the given filters that match. */
  ghost function FanOutAll<K>(m: map<CString, map<K, int>>, fs: set<CString>, topic: CString, qos: int, route: Route<K>)
    : set<Delivery<K>>
  {
    set f, k | f in fs && f in m && Matches(topic, f) && k in m[f].Keys && route.reach(k) ::
      Delivery(f, k, route.ask(Min(qos, m[f][k])))
  }

  /* ---------- Which QoS, and who is served ---------- */

  /** The lower of the QoS of a message and of a subscription. */
  ghost predicate IsLower(wire: int, qos: int, granted: int) {
    wire <= qos && wire <= granted && (wire == qos || wire == granted)
  }

  /**
   * Exactly the working holders of a filter are sent a message, with a QoS argument that puts the lower of the two QoS on the
   * wire and, for a QoS 1 message alone, asks to skip the storage.
   */
  lemma SentToConnections(f: CString, holders: map<nat, int>, qos: nat, working: nat -> bool, d: Delivery<nat>)
    requires qos <= 2 && forall k :: k in holders ==> 0 <= holders[k] <= 2
    ensures d in FanOut(f, holders, holders.Keys, qos, ToConnections(working)) <==>
              && d.filter == f && d.to in holders && working(d.to)
              && 0 <= d.qos && d.qos in {0, 2, 127} && IsLower(Qos.WireQos(d.qos), qos, holders[d.to])
  {
  }

  /** Exactly the holders of a filter, each of them, get the message into their queue, with the lower of the two QoS. */
  lemma SentToQueues(f: CString, holders: map<CString, int>, qos: int, d: Delivery<CString>)
    ensures d in FanOut(f, holders, holders.Keys, qos, ToQueues()) <==>
              d.filter == f && d.to in holders && IsLower(d.qos, qos, holders[d.to])
  {
  }

  /** Fanning out over the wildcard filters is fanning out for each filter that accepts the topic. */
  lemma SentForFilters<K>(m: map<CString, map<K, int>>, topic: CString, qos: int, route: Route<K>, d: Delivery<K>)
    ensures d in FanOutAll(m, m.Keys, topic, qos, route) <==>
              && d.filter in m && Matches(topic, d.filter)
              && d in FanOut(d.filter, m[d.filter], m[d.filter].Keys, qos, route)
  {
    hide Matches;
  }

  /* ---------- The code ---------- */

  class Connection {
    const id: nat
    var subs: map<CString, int>
    var wildSubs: map<CString, int>

    constructor (id: nat)
      ensures this.id == id && Own() == NO_SUBS
    {
      this.id := id;
      subs, wildSubs := map[], map[];
    }

    function Own(): Subs
      reads this
    {
      Subs(subs, wildSubs)
    }
  }

  /** Sends to every reachable holder of a filter, in the order of the hash. */
  method SendToHolders<K(!new)>(f: CString, holders: map<K, int>, qos: int, route: Route<K>)
    returns (sent: seq<Delivery<K>>)
    ensures multiset(sent) == multiset(FanOut(f, holders, holders.Keys, qos, route))
  {
    hide FanOut;
    sent := [];
    var left := holders.Keys;
    ghost var visited: set<K> := {};
    NoHolders(f, holders, qos, route);
    while left != {}
      invariant left + visited == holders.Keys && left !! visited
      invariant multiset(sent) == multiset(FanOut(f, holders, visited, qos, route))
      decreases |left|
    {
      var k :| k in left;
      left := left - {k};
      OneHolderMore(f, holders, visited, k, qos, route);
      visited := visited + {k};
      if route.reach(k) {
        sent := sent + [Delivery(f, k, route.ask(Min(qos, holders[k])))];
      }
    }
    assert visited == holders.Keys;
  }

  lemma NoHolders<K>(f: CString, holders: map<K, int>, qos: int, route: Route<K>)
    ensures FanOut(f, holders, {}, qos, route) == {}
  {
  }

  lemma OneHolderMore<K>(f: CString, holders: map<K, int>, among: set<K>, k: K, qos: int, route: Route<K>)
    requires k in holders && k !in among
    ensures multiset(FanOut(f, holders, among + {k}, qos, route))
         == multiset(FanOut(f, holders, among, qos, route))
            + if route.reach(k) then multiset{Delivery(f, k, route.ask(Min(qos, holders[k])))} else multiset{}
  {
    var (before, d) := (FanOut(f, holders, among, qos, route), Delivery(f, k, route.ask(Min(qos, holders[k]))));
    if route.reach(k) {
      assert FanOut(f, holders, among + {k}, qos, route) == before + {d} && d !in before;
    } else {
      assert FanOut(f, holders, among + {k}, qos, route) == before;
    }
  }

  /** Matches every wildcard filter of an index and sends to the holders of those that accept the topic. */
  method PublishWild<K(!new)>(m: map<CString, map<K, int>>, topic: CString, qos: int, route: Route<K>)
    returns (sent: seq<Delivery<K>>)
    ensures multiset(sent) == multiset(FanOutAll(m, m.Keys, topic, qos, route))
  {
    hide FanOut, FanOutAll, Matches;
    sent := [];
    var left := m.Keys;
    ghost var visited: set<CString> := {};
    NoFilters(m, topic, qos, route);
    while left != {}
      invariant left + visited == m.Keys && left !! visited
      invariant multiset(sent) == multiset(FanOutAll(m, visited, topic, qos, route))
      decreases |left|
    {
      var f :| f in left;
      left := left - {f};
      var matches := FilterMatch(topic, f);
      OneFilterMore(m, visited, f, topic, qos, route);
      if matches {
        var more := SendToHolders(f, m[f], qos, route);
        sent := sent + more;
      }
      visited := visited + {f};
    }
    assert visited == m.Keys;
  }

  /** Publishes through one index. */
  method Publish<K(!new)>(x: Index<K>, topic: CString, qos: int, route: Route<K>) returns (sent: seq<Delivery<K>>)
    ensures multiset(sent) == multiset(FanOut(topic, Holders(x.exact, topic), Holders(x.exact, topic).Keys, qos, route))
                            + multiset(FanOutAll(x.wild, x.wild.Keys, topic, qos, route))
  {
    sent := [];
    if topic in x.exact {
      sent := SendToHolders(topic, x.exact[topic], qos, route);
    } else {
      NoHolders(topic, map[], qos, route);
    }
    var more := PublishWild(x.wild, topic, qos, route);
    sent := sent + more;
  }

  lemma NoFilters<K>(m: map<CString, map<K, int>>, topic: CString, qos: int, route: Route<K>)
    ensures FanOutAll(m, {}, topic, qos, route) == {}
  {
  }

  lemma OneFilterMore<K>(m: map<CString, map<K, int>>, fs: set<CString>, f: CString, topic: CString, qos: int, route: Route<K>)
    requires f in m && f !in fs
    ensures multiset(FanOutAll(m, fs + {f}, topic, qos, route))
         == multiset(FanOutAll(m, fs, topic, qos, route))
            + if Matches(topic, f) then multiset(FanOut(f, m[f], m[f].Keys, qos, route)) else multiset{}
  {
    var (before, added) := (FanOutAll(m, fs, topic, qos, route), FanOut(f, m[f], m[f].Keys, qos, route));
    if Matches(topic, f) {
      assert FanOutAll(m, fs + {f}, topic, qos, route) == before + added;
      assert before !! added;
    } else {
      assert FanOutAll(m, fs + {f}, topic, qos, route) == before;
    }
  }

  class Context {
    var subs: map<CString, map<nat, int>>
    var wildSubs: map<CString, map<nat, int>>
    var offlineSubs: map<CString, map<CString, int>>
    var offlineWildSubs: map<CString, map<CString, int>>

    constructor ()
      ensures Online() == Index(map[], map[]) && Offline() == Index(map[], map[])
    {
      subs, wildSubs, offlineSubs, offlineWildSubs := map[], map[], map[], map[];
    }

    function Online(): Index<nat>
      reads this
    {
      Index(subs, wildSubs)
    }

    function Offline(): Index<CString>
      reads this
    {
      Index(offlineSubs, offlineWildSubs)
    }

    /** Records a subscription with the connection and in the index. */
    method Subscribe(conn: Connection, f: CString, qos: int)
      modifies this`subs, this`wildSubs, conn`subs, conn`wildSubs
      ensures conn.Own() == Insert(old(conn.Own()), f, qos)
      ensures Online() == Enter(old(Online()), f, conn.id, qos)
    {
      if HasWildcard(f) {
        conn.wildSubs := conn.wildSubs[f := qos];
      } else {
        conn.subs := conn.subs[f := qos];
      }
      var hash := if HasWildcard(f) then wildSubs else subs;
      if f !in hash {
        hash := hash[f := map[]];
      }
      hash := hash[f := hash[f][conn.id := qos]];
      if HasWildcard(f) {
        wildSubs := hash;
      } else {
        subs := hash;
      }
    }

    /** Records the subscription of a client that is away. */
    method SubscribeOffline(client: CString, f: CString, qos: int)
      modifies this`offlineSubs, this`offlineWildSubs
      ensures Offline() == Enter(old(Offline()), f, client, qos)
    {
      var hash := if HasWildcard(f) then offlineWildSubs else offlineSubs;
      if f !in hash {
        hash := hash[f := map[]];
      }
      hash := hash[f := hash[f][client := qos]];
      if HasWildcard(f) {
        offlineWildSubs := hash;
      } else {
        offlineSubs := hash;
      }
    }

    /** Takes a connection out of one entry of an index map, and the entry out of the map when that leaves it empty. */
    static method Drop(m: map<CString, map<nat, int>>, f: CString, id: nat) returns (r: map<CString, map<nat, int>>)
      ensures r == Without(m, {f}, id)
    {
      r := m;
      if f in r {
        var holders := r[f] - {id};
        r := if holders == map[] then r - {f} else r[f := holders];
      }
    }

    method Unsubscribe(conn: Connection, f: CString)
      modifies this`subs, this`wildSubs, conn`subs, conn`wildSubs
      ensures conn.Own() == Delete(old(conn.Own()), f)
      ensures Online() == Index(Without(old(subs), {f}, conn.id), Without(old(wildSubs), {f}, conn.id))
    {
      if HasWildcard(f) {
        conn.wildSubs := conn.wildSubs - {f};
      } else {
        conn.subs := conn.subs - {f};
      }
      subs := Drop(subs, f, conn.id);
      wildSubs := Drop(wildSubs, f, conn.id);
    }

    /** Takes a connection out of the entries of all the given filters, in the order of the hash. */
    static method DropAll(m: map<CString, map<nat, int>>, fs: set<CString>, id: nat) returns (r: map<CString, map<nat, int>>)
      ensures r == Without(m, fs, id)
    {
      hide Without;
      r := m;
      var left := fs;
      ghost var visited: set<CString> := {};
      WithoutNothing(m, id);
      while left != {}
        invariant left + visited == fs && left !! visited
        invariant r == Without(m, visited, id)
        decreases |left|
      {
        var f :| f in left;
        left := left - {f};
        r := Drop(r, f, id);
        WithoutOneMore(m, visited, f, id);
        visited := visited + {f};
      }
      assert visited == fs;
    }

    method RemoveConnRefs(conn: Connection)
      modifies this`subs, this`wildSubs
      ensures Online() == Index(Without(old(subs), conn.subs.Keys, conn.id), Without(old(wildSubs), conn.wildSubs.Keys, conn.id))
    {
      subs := DropAll(subs, conn.subs.Keys, conn.id);
      wildSubs := DropAll(wildSubs, conn.wildSubs.Keys, conn.id);
    }

    /** Publishes a message to the working connections and into the queues of the clients that are away. */
    method DoPublish(topic: CString, qos: int, working: nat -> bool)
      returns (sent: seq<Delivery<nat>>, queued: seq<Delivery<CString>>)
      ensures var (holders, route) := (Holders(subs, topic), ToConnections(working));
              multiset(sent) == multiset(FanOut(topic, holders, holders.Keys, qos, route))
                              + multiset(FanOutAll(wildSubs, wildSubs.Keys, topic, qos, route))
      ensures var (holders, route) := (Holders(offlineSubs, topic), ToQueues());
              multiset(queued) == multiset(FanOut(topic, holders, holders.Keys, qos, route))
                                + multiset(FanOutAll(offlineWildSubs, offlineWildSubs.Keys, topic, qos, route))
    {
      sent := Publish(Online(), topic, qos, ToConnections(working));
      queued := Publish(Offline(), topic, qos, ToQueues());
    }
  }
}
