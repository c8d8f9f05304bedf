/** The PUBLISH packet, as the sender builds it (lib/myqtt-conn.c) and the receiver parses it (lib/myqtt-reader.c). */
module Publish {
  import opened Bytes
  import opened Message
  import opened Wrappers
  import opened Payload
  import opened Qos
  import RemainingLength
  import TopicFilter

  /** What the receiver takes from a PUBLISH: the announced size may leave a negative number of message bytes. */
  datatype Publication = Publication(topic: CString, packetId: Option<nat>, messageSize: int, message: seq<byte>)

  /** The parse, in the order of the code; `utf8` is the encoding check. */
  function Parse(flags: Flags, payload: seq<byte>, utf8: CString -> bool): Read<Publication> {
    var mem := Memory(payload);
    var topic :- GetUtf8(mem, 0, |payload|);
    if TopicFilter.HasWildcard(topic) || !utf8(topic) then Closed
    else
      var desp := |topic| + 2;
      if flags.qos == 0 then Got(Finish(topic, None, payload, desp))
      else
        var packetId :- GetShort(mem, desp);
        Got(Finish(topic, Some(packetId), payload, desp + 2))
  }

  function Finish(topic: CString, packetId: Option<nat>, payload: seq<byte>, desp: nat): Publication {
    Publication(topic, packetId, |payload| - desp, if desp <= |payload| then payload[desp..] else [])
  }

  /** The arguments given to the builder; a packet id only from QoS 1 on. */
  function Params(topic: CString, qos: nat, packetId: nat, message: seq<byte>): seq<Param> {
    [Utf8(topic)] + (if qos == 0 then [] else [Int16(packetId)]) + [Binary(message)]
  }

  function BodySize(topic: CString, qos: nat, message: seq<byte>): nat {
    2 + |topic| + (if qos == 0 then 0 else 2) + |message|
  }

  lemma BodyLength(topic: CString, qos: nat, packetId: nat, message: seq<byte>)
    ensures |Body(Params(topic, qos, packetId, message))| == BodySize(topic, qos, message)
  {
    var ps := Params(topic, qos, packetId, message);
    ParamAt(ps, 0);
    ParamAt(ps, 1);
    ParamAt(ps, |ps| - 1);
  }

  /** Where the fields lie in the built body. */
  lemma Layout(topic: CString, qos: nat, packetId: nat, message: seq<byte>)
    requires |topic| <= 65535 && packetId <= 65535
    ensures var payload := Body(Params(topic, qos, packetId, message));
            var desp := |topic| + 2 + if qos == 0 then 0 else 2;
            && TextAt(Memory(payload), 0, topic)
            && (qos != 0 ==> ShortAt(Memory(payload), |topic| + 2, packetId))
            && |payload| == desp + |message| && payload[desp..] == message
  {
    var ps := Params(topic, qos, packetId, message);
    assert Offset(ps, 0) == 0;
    TextParam(ps, 0, topic);
    if qos != 0 {
      ShortParam(ps, 1, packetId);
    }
    DataParam(ps, |ps| - 1, message);
  }

  lemma ParamsAccepted(topic: CString, qos: nat, packetId: nat, message: seq<byte>)
    ensures var ps := Params(topic, qos, packetId, message);
            (forall k :: 0 <= k < |ps| ==> Accepted(ps[k])) <==> qos == 0 || packetId <= 65535
  {
    var ps := Params(topic, qos, packetId, message);
    assert qos != 0 ==> ps[1] == Int16(packetId);
  }

  /** Builds the packet of one publish call. */
  method BuildPublish(topic: CString, qos: nat, packetId: nat, retain: bool, message: seq<byte>)
    returns (result: Option<array<byte>>, size: nat)
    ensures result.Some? <==>
              && |topic| <= 65535 && (qos == 0 || AsksAck(qos) || AsksRec(qos)) && (qos == 0 || packetId <= 65535)
              && BodySize(topic, WireQos(qos), message) <= RemainingLength.MAX_LENGTH
    ensures result.Some? ==>
              var flags := Flags(false, WireQos(qos), retain);
              && result.value.Length == size + 1
              && result.value[..size] == Packet(PUBLISH, flags, Body(Params(topic, flags.qos, packetId, message)))
  {
    hide Body, BodyTo, Packet;
    if |topic| > 65535 {
      return None, 0;
    }
    if qos == 0 {
      BodyLength(topic, 0, packetId, message);
      ParamsAccepted(topic, 0, packetId, message);
      result, size := Build(PUBLISH, Flags(false, 0, retain), Params(topic, 0, packetId, message));
    } else if AsksAck(qos) || AsksRec(qos) {
      var wire := if AsksAck(qos) then 1 else 2;
      BodyLength(topic, wire, packetId, message);
      ParamsAccepted(topic, wire, packetId, message);
      result, size := Build(PUBLISH, Flags(false, wire, retain), Params(topic, wire, packetId, message));
    } else {
      return None, 0;
    }
  }

  /** Parsing the built body gives every field back, exactly when the receiver accepts the topic at all. */
  lemma BodyRoundTrip(flags: Flags, topic: CString, packetId: nat, message: seq<byte>, utf8: CString -> bool)
    requires flags.qos <= 2 && |topic| <= 65535 && packetId < 0x1_0000
    ensures Parse(flags, Body(Params(topic, flags.qos, packetId, message)), utf8)
         == if !TopicFilter.HasWildcard(topic) && utf8(topic)
            then Got(Publication(topic, if flags.qos == 0 then None else Some(packetId), |message|, message))
            else Closed
  {
    var payload := Body(Params(topic, flags.qos, packetId, message));
    Layout(topic, flags.qos, packetId, message);
    TextRead(Memory(payload), 0, topic, |payload|);
  }

  /** End to end: the fixed header of the built packet leads to its body, and the body to the fields. */
  lemma RoundTrip(flags: Flags, topic: CString, packetId: nat, message: seq<byte>, utf8: CString -> bool, rest: seq<byte>)
    requires flags.qos <= 2 && |topic| <= 65535 && packetId < 0x1_0000
    requires BodySize(topic, flags.qos, message) <= RemainingLength.MAX_LENGTH
    ensures var wire := Packet(PUBLISH, flags, Body(Params(topic, flags.qos, packetId, message))) + rest;
            var header := ReadHeader(wire);
            && header.Some? && header.value.kind == PUBLISH && header.value.flags == flags
            && header.value.size + header.value.remaining + |rest| == |wire|
            && Parse(flags, wire[header.value.size..][..header.value.remaining], utf8)
            == if !TopicFilter.HasWildcard(topic) && utf8(topic)
               then Got(Publication(topic, if flags.qos == 0 then None else Some(packetId), |message|, message))
               else Closed
  {
    var body := Body(Params(topic, flags.qos, packetId, message));
    BodyLength(topic, flags.qos, packetId, message);
    HeaderRoundTrip(PUBLISH, flags, body, rest);
    assert (body + rest)[..|body|] == body;
    BodyRoundTrip(flags, topic, packetId, message, utf8);
  }

  /**
   * The way back: a parsed packet with room for its message is the packet that its fields would be built into, exactly when
   * the announced length of the topic is the length of the topic, that is, when no NUL cuts it short.
   */
  lemma BuiltAgain(flags: Flags, payload: seq<byte>, utf8: CString -> bool)
    requires flags.qos <= 2 && Parse(flags, payload, utf8).Got? && 0 <= Parse(flags, payload, utf8).value.messageSize
    ensures var p := Parse(flags, payload, utf8).value;
            var id := if p.packetId.Some? then p.packetId.value else 0;
            && 2 <= |payload| && (p.packetId.Some? <==> flags.qos != 0)
            && (Body(Params(p.topic, flags.qos, id, p.message)) == payload <==> Get16(payload, 0) == |p.topic|)
  {
    var p := Parse(flags, payload, utf8).value;
    var id := if p.packetId.Some? then p.packetId.value else 0;
    var desp := |p.topic| + 2 + if flags.qos == 0 then 0 else 2;
    ParsedParts(flags, payload, utf8);
    hide Parse, Body, Params;
    BuiltParts(p.topic, flags.qos, id, p.message);
    var built := Body(Params(p.topic, flags.qos, id, p.message));
    if Get16(payload, 0) == |p.topic| {
      SameByParts(built, payload, p.topic, flags.qos, desp);
    }
  }

  /** The fields of a built body, without the memory around it. */
  lemma BuiltParts(topic: CString, qos: nat, packetId: nat, message: seq<byte>)
    requires |topic| <= 65535 && packetId <= 65535
    ensures var built := Body(Params(topic, qos, packetId, message));
            var desp := |topic| + 2 + if qos == 0 then 0 else 2;
            && |built| == desp + |message| && built[desp..] == message && Get16(built, 0) == |topic|
            && (forall k :: 0 <= k < |topic| ==> built[2 + k] == topic[k])
            && (qos != 0 ==> Get16(built, |topic| + 2) == packetId)
  {
    hide Body, Params;
    Layout(topic, qos, packetId, message);
  }

  lemma SameByParts(a: seq<byte>, b: seq<byte>, topic: CString, qos: nat, desp: nat)
    requires desp == |topic| + 2 + (if qos == 0 then 0 else 2) && desp <= |a| == |b| && a[desp..] == b[desp..]
    requires Get16(a, 0) == Get16(b, 0) && (qos != 0 ==> Get16(a, |topic| + 2) == Get16(b, |topic| + 2))
    requires forall k :: 0 <= k < |topic| ==> a[2 + k] == topic[k] && b[2 + k] == topic[k]
    ensures a == b
  {
    SameShort(a, b, 0);
    if qos != 0 {
      SameShort(a, b, |topic| + 2);
    }
    forall k | 0 <= k < |a| ensures a[k] == b[k] {
      if 2 <= k < |topic| + 2 {
        assert a[2 + (k - 2)] == topic[k - 2] == b[2 + (k - 2)];
      } else if desp <= k {
        assert a[desp..][k - desp] == b[desp..][k - desp];
      }
    }
  }

  lemma SameShort(a: seq<byte>, b: seq<byte>, at: nat)
    requires at + 2 <= |a| && at + 2 <= |b| && Get16(a, at) == Get16(b, at)
    ensures a[at] == b[at] && a[at + 1] == b[at + 1]
  {
  }

  /** Every field of a parsed packet is the part of the payload where it belongs. */
  lemma ParsedParts(flags: Flags, payload: seq<byte>, utf8: CString -> bool)
    requires Parse(flags, payload, utf8).Got? && 0 <= Parse(flags, payload, utf8).value.messageSize
    ensures var p := Parse(flags, payload, utf8).value;
            var desp := |p.topic| + 2 + if flags.qos == 0 then 0 else 2;
            && desp <= |payload| && p.messageSize == |payload| - desp && payload[desp..] == p.message
            && |p.topic| <= Get16(payload, 0)
            && (forall k :: 0 <= k < |p.topic| ==> payload[2 + k] == p.topic[k])
            && (p.packetId.Some? <==> flags.qos != 0)
            && (flags.qos != 0 ==> p.packetId.value == Get16(payload, |p.topic| + 2))
  {
    assert payload != [];
  }
}
