/** Which publish calls of the exchange machine can return true at all (lib/myqtt-conn.c). */
module ExchangeOutcomes {
  import opened Exchange
  import opened Qos
  import Routing

  ghost predicate Reachable(s: State) {
    exists states, actions :: Execution(states, actions) && states[|actions|] == s
  }

  lemma Step(s: State, a: Action) returns (t: State)
    requires Reachable(s) && Enabled(s, a)
    ensures Reachable(t) && t == Apply(s, a)
  {
    hide Enabled, Apply;
    var states, actions :| Execution(states, actions) && states[|actions|] == s;
    t := Apply(s, a);
    assert Execution(states + [t], actions + [a]);
    assert (states + [t])[|actions + [a]|] == t;
  }

  /** A call with this QoS value returns true in some run. */
  ghost predicate CanSucceed(qos: nat) {
    exists s: State, e: nat ::
      Reachable(s) && HasCall(s, e) && s.exchanges[e].call.qos == qos && StepOf(s, e) == Succeeded
  }

  /* The runs below are those of the client's only call. */

  const KEY: Key := (Client, 1)

  function Alone(qos: nat, step: CallStep, handlers: seq<Handler>, packets: seq<Transit>, deliveries: nat, owners: seq<Owner>,
                 waits: Table, peerWaits: Table): State {
    State([Exchange(Call(Client, qos, 1, true, step), handlers, packets, deliveries)], owners, waits, peerWaits, {KEY})
  }

  function PublishPacket(qos: nat): Packet {
    Packet(PUBLISH, Server, WireQos(qos), 1)
  }

  function ReceivedAt(step: HandlerStep, qos: nat): seq<Handler> {
    [Handler(Server, WireQos(qos), 1, step)]
  }

  lemma InitialIsReachable()
    ensures Reachable(Initial)
  {
    var none: seq<Action> := [];
    assert Execution([Initial], none) && [Initial][|none|] == Initial;
  }

  lemma CallArmed(qos: nat) returns (s: State)
    requires AsksAck(qos) || AsksRec(qos)
    ensures s == Alone(qos, Armed(FirstReply(qos)), [], [], 0, [CallWait(0, FirstReply(qos))], map[KEY := 0], map[])
    ensures Reachable(s)
  {
    hide AsksAck, AsksRec, HandlerApply, ReplyApply;
    InitialIsReachable();
    s := Step(Initial, NewCall(Client, qos, 1));
    assert s == Alone(qos, Allocated, [], [], 0, [], map[], map[]);
    s := Step(s, Caller(0, Arm));
  }

  lemma PublishSent(qos: nat) returns (s: State)
    requires AsksAck(qos) || AsksRec(qos)
    ensures s == Alone(qos, Waiting(FirstReply(qos), 0), [], [Transit(PublishPacket(qos), OnWire)], 0,
                       [CallWait(0, FirstReply(qos))], map[KEY := 0], map[])
    ensures Reachable(s)
  {
    s := CallArmed(qos);
    hide AsksAck, AsksRec, FirstReply, HandlerApply, ReplyApply, Reachable;
    assert FirstReply(qos) != PUBCOMP;
    s := Step(s, Caller(0, Send));
    assert s.exchanges[0].packets == [Transit(PublishPacket(qos), OnWire)];
    s := Step(s, Caller(0, LookUp));
    assert s.exchanges == [s.exchanges[0]];
  }

  /** The server has the PUBLISH and the client waits for the first reply. */
  lemma PublishReceived(qos: nat) returns (s: State)
    requires AsksAck(qos) || AsksRec(qos)
    ensures s == Alone(qos, Waiting(FirstReply(qos), 0), ReceivedAt(Started, qos), [Transit(PublishPacket(qos), Taken)], 0,
                       [CallWait(0, FirstReply(qos))], map[KEY := 0], map[])
    ensures Reachable(s)
  {
    s := PublishSent(qos);
    hide AsksAck, AsksRec, FirstReply, CallApply, ReplyApply, Reachable;
    s := Step(s, Receiver(0, Start(0)));
    assert s.exchanges[0].packets == [Transit(PublishPacket(qos), Taken)];
    assert s.exchanges[0].handlers == ReceivedAt(Started, qos);
    assert s.exchanges == [s.exchanges[0]];
  }

  const ACK: Packet := Packet(PUBACK, Client, 0, 1)

  /** The server has delivered the message and sent its PUBACK. */
  lemma AckSent(qos: nat) returns (s: State)
    requires AsksAck(qos) && !AsksRec(qos)
    ensures s == Alone(qos, Waiting(PUBACK, 0), ReceivedAt(Finished, qos),
                       [Transit(PublishPacket(qos), Taken), Transit(ACK, OnWire)], 1,
                       [CallWait(0, PUBACK)], map[KEY := 0], map[])
    ensures Reachable(s)
  {
    s := PublishReceived(qos);
    hide CallApply, ReplyApply, Reachable, PublishPacket;
    s := Step(s, Receiver(0, Deliver(0)));
    s := Step(s, Receiver(0, Complete(0)));
    assert s.exchanges[0].packets == [Transit(PublishPacket(qos), Taken), Transit(ACK, OnWire)];
    assert s.exchanges[0].handlers == ReceivedAt(Finished, qos);
    assert s.exchanges == [s.exchanges[0]];
  }

  lemma AckedCallSucceeds(qos: nat)
    requires AsksAck(qos) && !AsksRec(qos)
    ensures CanSucceed(qos)
  {
    var s := AckSent(qos);
    hide HandlerApply, Reachable, PublishPacket, ReceivedAt;
    s := Step(s, Replier(0, Route(1)));
    s := Step(s, Replier(0, Push(1)));
    s := Step(s, Caller(0, Take(0, 1)));
    s := Step(s, Caller(0, Clear));
    assert StepOf(s, 0) == Succeeded;
  }

  /* QoS 2 */

  const REC: Packet := Packet(PUBREC, Client, 0, 1)
  const COMP: Packet := Packet(PUBCOMP, Client, 0, 1)

  function RelPacket(qos: nat): Packet {
    Packet(PUBREL, Server, WireQos(qos), 1)
  }

  const RECWAIT: seq<Owner> := [CallWait(0, PUBREC), HandlerWait(0, 0)]
  const COMPWAIT: seq<Owner> := RECWAIT + [CallWait(0, PUBCOMP)]
  const RELWAIT: Table := map[(Server, 1) := 1]

  /** The server has sent its PUBREC, delivered the message and waits for the PUBREL. */
  lemma RecSent(qos: nat) returns (s: State)
    requires !AsksAck(qos) && AsksRec(qos)
    ensures s == Alone(qos, Waiting(PUBREC, 0), ReceivedAt(AwaitingRel(1), qos),
                       [Transit(PublishPacket(qos), Taken), Transit(REC, OnWire)], 1, RECWAIT, map[KEY := 0], RELWAIT)
    ensures Reachable(s)
  {
    s := PublishReceived(qos);
    hide CallApply, ReplyApply, Reachable, PublishPacket;
    s := Step(s, Receiver(0, Prepare(0)));
    s := Step(s, Receiver(0, SendRec(0)));
    assert s.exchanges[0].packets == [Transit(PublishPacket(qos), Taken), Transit(REC, OnWire)];
    s := Step(s, Receiver(0, Deliver(0)));
    s := Step(s, Receiver(0, LookUpRel(0)));
    assert s.exchanges[0].handlers == ReceivedAt(AwaitingRel(1), qos);
    assert s.exchanges == [s.exchanges[0]];
  }

  lemma RecQueued(qos: nat) returns (s: State)
    requires !AsksAck(qos) && AsksRec(qos)
    ensures s == Alone(qos, Waiting(PUBREC, 0), ReceivedAt(AwaitingRel(1), qos),
                       [Transit(PublishPacket(qos), Taken), Transit(REC, Queued(0))], 1, RECWAIT, map[KEY := 0], RELWAIT)
    ensures Reachable(s)
  {
    s := RecSent(qos);
    hide CallApply, HandlerApply, Reachable, PublishPacket, ReceivedAt;
    s := Step(s, Replier(0, Route(1)));
    s := Step(s, Replier(0, Push(1)));
    assert s.exchanges[0].packets == [Transit(PublishPacket(qos), Taken), Transit(REC, Queued(0))];
    assert s.exchanges == [s.exchanges[0]];
  }

  /** The client has got the PUBREC. */
  lemma RecReceived(qos: nat) returns (s: State)
    requires !AsksAck(qos) && AsksRec(qos)
    ensures s == Alone(qos, Answered, ReceivedAt(AwaitingRel(1), qos),
                       [Transit(PublishPacket(qos), Taken), Transit(REC, Taken)], 1, RECWAIT, map[], RELWAIT)
    ensures Reachable(s)
  {
    s := RecQueued(qos);
    hide HandlerApply, ReplyApply, Reachable, PublishPacket, ReceivedAt;
    s := Step(s, Caller(0, Take(0, 1)));
    s := Step(s, Caller(0, Clear));
    assert s.exchanges[0].packets == [Transit(PublishPacket(qos), Taken), Transit(REC, Taken)];
    assert s.exchanges == [s.exchanges[0]];
  }

  lemma RelArmed(qos: nat) returns (s: State)
    requires !AsksAck(qos) && AsksRec(qos)
    ensures s == Alone(qos, Armed(PUBCOMP), ReceivedAt(AwaitingRel(1), qos),
                       [Transit(PublishPacket(qos), Taken), Transit(REC, Taken)], 1, COMPWAIT, map[KEY := 2], RELWAIT)
    ensures Reachable(s)
  {
    s := RecReceived(qos);
    hide HandlerApply, ReplyApply, Reachable, PublishPacket, ReceivedAt;
    s := Step(s, Caller(0, Arm));
    assert s.exchanges == [s.exchanges[0]];
  }

  /** The client has sent its PUBREL and waits for the PUBCOMP. */
  lemma RelSent(qos: nat) returns (s: State)
    requires !AsksAck(qos) && AsksRec(qos)
    ensures s == Alone(qos, Waiting(PUBCOMP, 2), ReceivedAt(AwaitingRel(1), qos),
                       [Transit(PublishPacket(qos), Taken), Transit(REC, Taken), Transit(RelPacket(qos), OnWire)], 1,
                       COMPWAIT, map[KEY := 2], RELWAIT)
    ensures Reachable(s)
  {
    s := RelArmed(qos);
    hide HandlerApply, ReplyApply, Reachable, PublishPacket, ReceivedAt;
    s := Step(s, Caller(0, Send));
    assert s.exchanges[0].packets
        == [Transit(PublishPacket(qos), Taken), Transit(REC, Taken), Transit(RelPacket(qos), OnWire)];
    s := Step(s, Caller(0, LookUp));
    assert s.exchanges == [s.exchanges[0]];
  }

  lemma RelQueued(qos: nat) returns (s: State)
    requires !AsksAck(qos) && AsksRec(qos)
    ensures s == Alone(qos, Waiting(PUBCOMP, 2), ReceivedAt(AwaitingRel(1), qos),
                       [Transit(PublishPacket(qos), Taken), Transit(REC, Taken), Transit(RelPacket(qos), Queued(1))], 1,
                       COMPWAIT, map[KEY := 2], RELWAIT)
    ensures Reachable(s)
  {
    s := RelSent(qos);
    hide CallApply, HandlerApply, Reachable, PublishPacket, ReceivedAt;
    s := Step(s, Replier(0, Route(2)));
    s := Step(s, Replier(0, Push(2)));
    assert s.exchanges[0].packets
        == [Transit(PublishPacket(qos), Taken), Transit(REC, Taken), Transit(RelPacket(qos), Queued(1))];
    assert s.exchanges == [s.exchanges[0]];
  }

  /** The server has got the PUBREL and sent its PUBCOMP. */
  lemma CompSent(qos: nat) returns (s: State)
    requires !AsksAck(qos) && AsksRec(qos)
    ensures s == Alone(qos, Waiting(PUBCOMP, 2), ReceivedAt(Finished, qos),
                       [Transit(PublishPacket(qos), Taken), Transit(REC, Taken), Transit(RelPacket(qos), Taken),
                        Transit(COMP, OnWire)], 1, COMPWAIT, map[KEY := 2], map[])
    ensures Reachable(s)
  {
    s := RelQueued(qos);
    hide CallApply, ReplyApply, Reachable, PublishPacket;
    s := Step(s, Receiver(0, TakeRel(0, 0, 2)));
    s := Step(s, Receiver(0, ClearRel(0)));
    s := Step(s, Receiver(0, Complete(0)));
    assert s.exchanges[0].packets == [Transit(PublishPacket(qos), Taken), Transit(REC, Taken),
                                      Transit(RelPacket(qos), Taken), Transit(COMP, OnWire)];
    assert s.exchanges[0].handlers == ReceivedAt(Finished, qos);
    assert s.exchanges == [s.exchanges[0]];
  }

  lemma RecordedCallSucceeds(qos: nat)
    requires !AsksAck(qos) && AsksRec(qos)
    ensures CanSucceed(qos)
  {
    var s := CompSent(qos);
    hide HandlerApply, Reachable, PublishPacket, ReceivedAt, RelPacket;
    s := Step(s, Replier(0, Route(3)));
    s := Step(s, Replier(0, Push(3)));
    s := Step(s, Caller(0, Take(0, 3)));
    s := Step(s, Caller(0, Clear));
    assert StepOf(s, 0) == Succeeded;
  }

  /** Of the calls that wait for replies, exactly those whose QoS value does not have both bits set can return true. */
  lemma SucceedsExactly(qos: nat)
    requires AsksAck(qos) || AsksRec(qos)
    ensures CanSucceed(qos) <==> !(AsksAck(qos) && AsksRec(qos))
  {
    hide AsksAck, AsksRec;
    if AsksAck(qos) && AsksRec(qos) {
      forall s: State, e: nat | Reachable(s) && HasCall(s, e) && s.exchanges[e].call.qos == qos
        ensures StepOf(s, e) != Succeeded
      {
        var states, actions :| Execution(states, actions) && states[|actions|] == s;
        BothBitsNeverSucceed(states, actions, |actions|, e);
      }
    } else if AsksAck(qos) {
      AckedCallSucceeds(qos);
    } else {
      RecordedCallSucceeds(qos);
    }
  }

  /**
   * A message that the broker hands on with QoS 1 or 2 goes out with that QoS, but the call can return true only if it is 2.
   */
  lemma ForwardedExactly(qos: nat)
    requires qos == 1 || qos == 2
    ensures var asked := Routing.ForwardQos(qos);
            0 <= asked && (AsksAck(asked) || AsksRec(asked)) && WireQos(asked) == qos && (CanSucceed(asked) <==> qos == 2)
  {
    hide CanSucceed;
    SucceedsExactly(Routing.ForwardQos(qos));
  }
}
