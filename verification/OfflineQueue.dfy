/**
 * Messages queued for a client that is away: packet id locks, stored files, redelivery
 * (lib/myqtt-conn.c, lib/myqtt-storage.c).
 */
module OfflineQueue {
  import opened Bytes
  import opened Message
  import opened Wrappers
  import opened FileNames
  import opened PkgIdLocks
  import Payload
  import Publish
  import RemainingLength
  import TopicFilter

  /* Ids of messages without a packet id of their own, and the bound that the search for the others stops at. */
  const QOS0_FROM: nat := 100000
  const QOS0_LIMIT: nat := 200000
  const ID_LIMIT: nat := 65356

  /** A stored message: the id and the QoS that its file's name carries, and the packet to send. */
  datatype Queued = Queued(id: int, qos: int, packet: seq<byte>)

  function NameOf(id: nat, size: nat, qos: nat, stamp: string): string {
    Dec(id) + "-" + (Dec(size) + "-" + (Dec(qos) + "-" + stamp))
  }

  /** The three numbers at the front of a name, -1 for one that cannot be read. */
  function Values(name: string): (v: (int, int, int)) {
    var id := Leading(name);
    var behind := Behind(name, if id.Some? then id.value.1 else 0);
    var size := Leading(behind);
    var rest := Behind(behind, if size.Some? then size.value.1 else 0);
    var qos := Leading(rest);
    (Value(id), Value(size), Value(qos))
  }

  function Value(number: Option<(nat, nat)>): int {
    if number.Some? then number.value.0 else -1
  }

  /** Reading a file's name gives back what was printed into it. */
  lemma NameRoundTrip(id: nat, size: nat, qos: nat, stamp: string)
    requires id < NAME_LIMIT && size < NAME_LIMIT && qos < NAME_LIMIT
    ensures Values(NameOf(id, size, qos, stamp)) == (id, size, qos)
  {
    hide Leading, Behind, Dec;
    var rest := Dec(qos) + "-" + stamp;
    var behind := Dec(size) + "-" + rest;
    ReadBack(id, behind);
    BehindNumber(id, behind);
    ReadBack(size, rest);
    BehindNumber(size, rest);
    ReadBack(qos, stamp);
  }

  /** The id of a stored message is the one that it was stored under. */
  lemma IdOfName(id: nat, size: nat, qos: nat, stamp: string)
    requires id < NAME_LIMIT && size < NAME_LIMIT && qos < NAME_LIMIT
    ensures IdOf(NameOf(id, size, qos, stamp)) == id
  {
    NameRoundTrip(id, size, qos, stamp);
  }

  /** A name that does not start with a number has none: -1 for its id, and all three if no number is found. */
  lemma NamelessId(name: string)
    requires Leading(name) == None && Leading(Behind(name, 0)) == None
    ensures Values(name).0 == -1 && Values(name).1 == -1
  {
  }

  lemma PacketSize(qos: nat, retain: bool, body: seq<byte>)
    requires qos <= 2 && |body| <= RemainingLength.MAX_LENGTH
    ensures |Packet(PUBLISH, Flags(false, qos, retain), body)| < NAME_LIMIT
  {
    RemainingLength.EncodingSize(|body|);
  }

  /* ---------- Which id a message gets ---------- */

  /** The id that a message of a QoS gets. */
  function IdFor(locks: set<int>, qos: nat): int {
    if qos == 0 then FirstFree(locks, QOS0_FROM, QOS0_LIMIT) else FirstFree(locks, 1, ID_LIMIT)
  }

  predicate Searches(locks: set<int>, topic: CString, qos: nat) {
    |topic| <= 65535 && qos <= 2 && (qos == 0 ==> IdFor(locks, qos) < QOS0_LIMIT)
  }

  /** QoS 1 or 2, and no id below 65356 is free. */
  predicate Overflows(locks: set<int>, qos: nat) {
    (qos == 1 || qos == 2) && IdFor(locks, qos) == ID_LIMIT
  }

  /**
   * Which messages get an id: QoS 1 and 2 always, QoS 0 exactly while one from 100000 to 199999 is free. It is the smallest
   * free one of its range, or, without one for QoS 1 and 2, 65356.
   */
  lemma GivenIdExactly(locks: set<int>, topic: CString, qos: nat)
    ensures Searches(locks, topic, qos) <==>
              |topic| <= 65535 && (qos == 1 || qos == 2 || (qos == 0 && exists x :: 100000 <= x < 200000 && x !in locks))
    ensures Overflows(locks, qos) <==> (qos == 1 || qos == 2) && forall x :: 1 <= x < 65356 ==> x in locks
    ensures Searches(locks, topic, qos) ==>
              var (id, from) := (IdFor(locks, qos), if qos == 0 then 100000 else 1);
              && from <= id && (forall x :: from <= x < id ==> x in locks)
              && if Overflows(locks, qos) then id == 65356
                 else id !in locks && id < if qos == 0 then 200000 else 65356
  {
    FreshIdExactly(locks, QOS0_FROM, QOS0_LIMIT);
    FreshIdExactly(locks, 1, ID_LIMIT);
  }

  predicate Fits(topic: CString, qos: nat, message: seq<byte>) {
    Publish.BodySize(topic, qos, message) <= RemainingLength.MAX_LENGTH
  }

  /** A message fits exactly if the builder produces its packet. */
  lemma FitsExactly(topic: CString, qos: nat, retain: bool, id: nat, message: seq<byte>)
    requires |topic| <= 65535 && qos <= 2 && id <= 65535
    ensures Fits(topic, qos, message) <==> Buildable(Flags(false, qos, retain), Publish.Params(topic, qos, id, message))
  {
    Publish.BodyLength(topic, qos, id, message);
    Publish.ParamsAccepted(topic, qos, id, message);
  }

  /** The PUBLISH packet that is stored. */
  function Packed(topic: CString, qos: nat, retain: bool, id: nat, message: seq<byte>): seq<byte>
    requires qos <= 2
  {
    Packet(PUBLISH, Flags(false, qos, retain), Body(Publish.Params(topic, qos, id, message)))
  }

  /** A queued packet parses to the message that was published, from QoS 1 on under the id that its file name carries. */
  lemma RedeliveryIsOriginal(topic: CString, qos: nat, retain: bool, id: nat, message: seq<byte>, utf8: CString -> bool)
    requires qos <= 2 && |topic| <= 65535 && (qos != 0 ==> id <= ID_LIMIT) && Fits(topic, qos, message)
    requires !TopicFilter.HasWildcard(topic) && utf8(topic)
    ensures var packet := Packed(topic, qos, retain, id, message);
            var header := ReadHeader(packet);
            && header.Some? && header.value.flags == Flags(false, qos, retain)
            && header.value.size + header.value.remaining == |packet|
            && Publish.Parse(header.value.flags, packet[header.value.size..], utf8)
            == Payload.Got(Publish.Publication(topic, if qos == 0 then None else Some(id), |message|, message))
  {
    hide Packet, Body, ReadHeader, Publish.Parse;
    var packet := Packed(topic, qos, retain, id, message);
    var inside := if qos == 0 then 0 else id;
    assert Publish.Params(topic, qos, id, message) == Publish.Params(topic, qos, inside, message);
    Publish.RoundTrip(Flags(false, qos, retain), topic, inside, message, utf8, []);
    assert packet + [] == packet;
    var behind := packet[ReadHeader(packet).value.size..];
    assert behind[..ReadHeader(packet).value.remaining] == behind;
  }

  /* ---------- The files of a queue ---------- */

  type Files = map<string, seq<byte>>

  function IdOf(name: string): int {
    Values(name).0
  }

  function MessageOf(files: Files, name: string): Queued
    requires name in files
  {
    Queued(IdOf(name), Values(name).2, files[name])
  }

  /** No two messages have the same id. */
  predicate Distinct(files: Files) {
    forall n, m :: n in files && m in files && IdOf(n) == IdOf(m) ==> n == m
  }

  /** Sizes are in the names; ids but 65356 are distinct and locked. */
  predicate Stands(files: Files, locks: set<int>) {
    && (forall n :: n in files ==> Values(n).1 == |files[n]|)
    && (forall n, m :: n in files && m in files && IdOf(n) == IdOf(m) != ID_LIMIT ==> n == m)
    && (forall n :: n in files && IdOf(n) != ID_LIMIT ==> IdOf(n) in locks)
  }

  /** What `Stands` says about ids: they are distinct exactly if at most one message has id 65356. */
  lemma DistinctExactly(files: Files, locks: set<int>)
    requires Stands(files, locks)
    ensures Distinct(files) <==> forall n, m :: n in files && m in files && IdOf(n) == IdOf(m) == ID_LIMIT ==> n == m
  {
    hide IdOf;
  }

  lemma AddedStands(files: Files, locks: set<int>, name: string, packet: seq<byte>, locks': set<int>)
    requires Stands(files, locks) && name !in files && Values(name).1 == |packet| && locks <= locks'
    requires IdOf(name) != ID_LIMIT ==> IdOf(name) !in locks && IdOf(name) in locks'
    ensures Stands(files[name := packet], locks')
  {
    hide Values;
    var files' := files[name := packet];
    forall n, m | n in files' && m in files' && IdOf(n) == IdOf(m) != ID_LIMIT ensures n == m {
      assert n in files && n != name ==> IdOf(n) in locks;
      assert m in files && m != name ==> IdOf(m) in locks;
    }
  }

  /** One file more repeats an id exactly if its id is in use. */
  lemma AddedDistinct(files: Files, name: string, packet: seq<byte>)
    requires Distinct(files) && name !in files
    ensures Distinct(files[name := packet]) <==> forall n :: n in files ==> IdOf(n) != IdOf(name)
  {
    hide IdOf;
    var files' := files[name := packet];
    forall n | n in files && IdOf(n) == IdOf(name) ensures !Distinct(files') {
      assert n in files' && name in files' && n != name;
    }
  }

  /** What a new file does to the queue, and exactly when it repeats an id. */
  lemma Added(files: Files, locks: set<int>, name: string, packet: seq<byte>, locks': set<int>)
    requires Stands(files, locks) && name !in files && Values(name).1 == |packet| && locks <= locks'
    requires IdOf(name) != ID_LIMIT ==> IdOf(name) !in locks && IdOf(name) in locks'
    ensures Stands(files[name := packet], locks')
    ensures Distinct(files) ==>
              (Distinct(files[name := packet]) <==>
                 IdOf(name) != ID_LIMIT || forall n :: n in files ==> IdOf(n) != ID_LIMIT)
  {
    hide Values, Distinct;
    AddedStands(files, locks, name, packet, locks');
    if Distinct(files) {
      AddedDistinct(files, name, packet);
    }
  }

  lemma Removed(files: Files, locks: set<int>, name: string)
    requires Stands(files, locks) && name in files
    ensures Stands(files - {name}, locks) && Stands(files - {name}, locks - {IdOf(name)})
  {
  }

  method ReadValues(name: string) returns (id: int, size: int, qos: int)
    ensures (id, size, qos) == Values(name)
  {
    hide Leading, Behind;
    var position, more, last := 0, 0, 0;
    id, position := GetSizeFromFileName(name);
    var behind := Behind(name, if id == -1 then 0 else position);
    size, more := GetSizeFromFileName(behind);
    qos, last := GetSizeFromFileName(Behind(behind, if size == -1 then 0 else more));
  }

  class Queue {
    var locks: set<int>
    var files: Files

    /** Sizes are in the names; ids but 65356 are distinct and locked. */
    predicate Valid()
      reads this
    {
      Stands(files, locks)
    }

    /** The queued messages, under the names of their files. */
    function Messages(): map<string, Queued>
      reads this
    {
      map n | n in files :: MessageOf(files, n)
    }

    constructor ()
      ensures Valid() && Messages() == map[] && locks == {}
    {
      locks, files := {}, map[];
    }

    /** Tries the ids of a range one by one. */
    method Lock(from: int, limit: int) returns (id: int)
      requires from <= limit
      modifies this`locks
      ensures id == FirstFree(old(locks), from, limit)
      ensures locks == if id < limit then old(locks) + {id} else old(locks)
    {
      id := from;
      while id < limit
        invariant from <= id <= limit && FirstFree(locks, id, limit) == FirstFree(locks, from, limit)
      {
        if id !in locks {
          locks := locks + {id};
          return;
        }
        id := id + 1;
      }
    }

    /**
     * Queues a message. QoS 0 messages are refused when their range is used up. For QoS 1 and 2 the search ends at
     * 65356 while the refusal tests for 65536, so that without a free id the message gets 65356, unlocked: that repeats
     * an id exactly if a message is stored under 65356 already. A packet that cannot be built leaves its id locked.
     */
    method OfflinePub(topic: CString, message: seq<byte>, qos: nat, retain: bool, saved: bool, stamp: string)
      returns (ok: bool)
      requires Valid()
      requires qos <= 2 ==>
                 var id := IdFor(locks, qos); NameOf(id, |Packed(topic, qos, retain, id, message)|, qos, stamp) !in files
      modifies this
      ensures Valid()
      ensures ok <==> Searches(old(locks), topic, qos) && Fits(topic, qos, message) && saved
      ensures ok ==>
                var id := IdFor(old(locks), qos);
                var packet := Packed(topic, qos, retain, id, message);
                && Messages() == old(Messages())[NameOf(id, |packet|, qos, stamp) := Queued(id, qos, packet)]
                && locks == if Overflows(old(locks), qos) then old(locks) else old(locks) + {id}
      ensures ok && old(Distinct(files)) ==>
                (Distinct(files) <==> !Overflows(old(locks), qos) || forall n :: n in old(files) ==> IdOf(n) != ID_LIMIT)
      ensures !ok ==>
                && files == old(files)
                && locks == if Searches(old(locks), topic, qos) && !Fits(topic, qos, message) && !Overflows(old(locks), qos)
                            then old(locks) + {IdFor(old(locks), qos)}
                            else if Searches(old(locks), topic, qos) && Fits(topic, qos, message)
                            then old(locks) - {IdFor(old(locks), qos)} else old(locks)
    {
      hide Stands, Body, NameOf, Packet, Values, Distinct;
      if |topic| > 65535 || qos > 2 {
        return false;
      }
      FreshIdExactly(locks, QOS0_FROM, QOS0_LIMIT);
      FreshIdExactly(locks, 1, ID_LIMIT);
      var id;
      if qos == 0 {
        id := Lock(100000, 200000);
        if id == 200000 {
          return false;
        }
      } else {
        id := Lock(1, 65356);
        if id == 65536 {
          return false;
        }
      }
      MoreLocks(files, old(locks), locks);
      Publish.BodyLength(topic, qos, id, message);
      Publish.ParamsAccepted(topic, qos, id, message);
      var packet, size := Build(PUBLISH, Flags(false, qos, retain), Publish.Params(topic, qos, id, message));
      if packet.None? {
        return false;
      }
      if !saved {
        UnusedLock(files, old(locks), id);
        locks := locks - {id};
        assert locks == old(locks) - {id};
        return false;
      }
      PacketSize(qos, retain, Body(Publish.Params(topic, qos, id, message)));
      StoreMsg(id, qos, packet.value[..size], stamp, old(locks));
      return true;
    }

    /** Writes the file of a message under a name with its id, size and QoS. */
    method StoreMsg(id: int, qos: nat, packet: seq<byte>, stamp: string, ghost before: set<int>)
      requires Stands(files, before) && before <= locks && 0 <= id < NAME_LIMIT && qos <= 2 && |packet| < NAME_LIMIT
      requires NameOf(id, |packet|, qos, stamp) !in files && (id != ID_LIMIT ==> id !in before && id in locks)
      modifies this`files
      ensures Valid() && Messages() == old(Messages())[NameOf(id, |packet|, qos, stamp) := Queued(id, qos, packet)]
      ensures old(Distinct(files)) ==>
                (Distinct(files) <==> id != ID_LIMIT || forall n :: n in old(files) ==> IdOf(n) != ID_LIMIT)
    {
      hide Stands, NameOf, Values, Distinct;
      var name := NameOf(id, |packet|, qos, stamp);
      NameRoundTrip(id, |packet|, qos, stamp);
      Added(files, before, name, packet, locks);
      files := files[name := packet];
    }

    /**
     * The end of an exchange with the client: the message's file goes in any case, its id is free again only if the
     * exchange succeeded.
     */
    method Finish(name: string, succeeded: bool)
      requires Valid() && name in files
      modifies this
      ensures Valid() && Messages() == old(Messages()) - {name}
      ensures locks == if succeeded then old(locks) - {IdOf(name)} else old(locks)
    {
      hide Stands, Values;
      var id, size, qos := ReadValues(name);
      Removed(files, locks, name);
      if succeeded {
        locks := locks - {id};
      }
      files := files - {name};
    }

    /** Reads every stored message for redelivery: its id and QoS from the name, its bytes from the file. */
    method Flush() returns (resent: map<string, Queued>)
      requires Valid()
      ensures resent == Messages()
    {
      hide Values, Stands;
      resent := map[];
      var names := files.Keys;
      while names != {}
        invariant names <= files.Keys
        invariant resent == map n | n in files && n !in names :: MessageOf(files, n)
        decreases |names|
      {
        var n :| n in names;
        names := names - {n};
        var message := ReadMessage(n);
        resent := resent[n := message];
      }
    }

    method ReadMessage(name: string) returns (message: Queued)
      requires Valid() && name in files
      ensures message == MessageOf(files, name)
    {
      hide Values;
      var id, size, qos := ReadValues(name);
      message := Queued(id, qos, files[name][..size]);
    }
  }

  lemma MoreLocks(files: Files, locks: set<int>, locks': set<int>)
    requires Stands(files, locks) && locks <= locks'
    ensures Stands(files, locks')
  {
  }

  /** An id that no message has, or 65356, can be freed. */
  lemma UnusedLock(files: Files, locks: set<int>, id: int)
    requires Stands(files, locks) && (id !in locks || id == ID_LIMIT)
    ensures Stands(files, locks - {id})
  {
  }
}
