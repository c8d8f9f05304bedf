/** The QoS 1 and QoS 2 exchanges of two peers that publish to each other at the same time
    (lib/myqtt-conn.c and lib/myqtt-reader.c), as a state machine over the steps of their threads.

    Packets in flight may be handled in any order, which covers FIFO channels whose packets
    are handed to a pool of threads. Replies find their waiter only through the packet id and the
    two wait tables. For the proofs, threads and packets are filed under the publish call they go
    back to; that filing, the owners of queues and the fields marked "history" never decide a step. */
module Exchange {
  import opened Qos
  import opened Wrappers

  datatype Peer = Client | Server {
    function Other(): Peer {
      if this == Client then Server else Client
    }
  }

  datatype Kind = PUBLISH | PUBACK | PUBREC | PUBREL | PUBCOMP

  /** The first reply a call waits for. */
  function FirstReply(qos: nat): Kind {
    if AsksAck(qos) then PUBACK else PUBREC
  }

  /** Where a publish call is; `want` is the reply it is about to wait for or waiting for. */
  datatype CallStep =
    | Allocated
    | Armed(want: Kind)                              // wait entry installed
    | Sent(want: Kind)                               // packet queued for delivery
    | Waiting(want: Kind, queue: nat)                // blocked on a queue found in the table
    | Left(want: Kind, reply: Option<Packet>)        // stopped waiting, entry still installed
    | Answered                                       // good PUBREC seen, PUBREL not prepared
    | Succeeded
    | Failed
    | Broken(want: Kind)                             // could not queue its packet, entry left behind

  datatype Call = Call(sender: Peer, qos: nat, id: nat, ok: bool, step: CallStep)

  /** Where the thread that handles a received PUBLISH is. */
  datatype HandlerStep =
    | Started
    | Prepared                                       // wait entry for PUBREL installed
    | Recorded                                       // PUBREC sent
    | Delivered                                      // onward delivery initiated
    | AwaitingRel(queue: nat)
    | LeftRel(reply: Option<Packet>)
    | Completing                                     // PUBREL seen
    | Finished                                       // PUBACK or PUBCOMP sent
    | Aborted

  datatype Handler = Handler(peer: Peer, qos: nat, id: nat, step: HandlerStep)

  datatype Packet = Packet(kind: Kind, dest: Peer, qos: nat, id: nat)

  datatype Place = OnWire | Pushing(queue: nat) | Queued(queue: nat) | Taken | Dropped

  datatype Transit = Transit(packet: Packet, place: Place)

  /** A publish call with the threads and packets that go back to it. */
  datatype Exchange = Exchange(call: Call, handlers: seq<Handler>, packets: seq<Transit>, deliveries: nat)

  /** Who installed a queue in a wait table (history). */
  datatype Owner = CallWait(exchange: nat, want: Kind) | HandlerWait(exchange: nat, handler: nat)

  type Key = (Peer, nat)

  type Table = map<Key, nat>

  datatype State = State(
    exchanges: seq<Exchange>,
    owners: seq<Owner>,
    waitReplies: Table,
    peerWaitReplies: Table,
    outstanding: set<Key>)

  const Initial := State([], [], map[], map[], {})

  /** A step of the thread that runs a publish call. */
  datatype CallAction = Arm | Send | SendFails | LookUp | Take(from: nat, n: nat) | GiveUp | Clear

  /** A step of the thread that handles a received PUBLISH. */
  datatype HandlerAction =
    | Start(n: nat)
    | Prepare(h: nat)
    | SendRec(h: nat)
    | Deliver(h: nat)
    | LookUpRel(h: nat)
    | TakeRel(h: nat, from: nat, n: nat)
    | GiveUpRel(h: nat)
    | ClearRel(h: nat)
    | Complete(h: nat)
    | Abort(h: nat)

  /** A step of the thread that handles any other received packet. */
  datatype ReplyAction = Route(n: nat) | Push(n: nat)

  datatype Action =
    | NewCall(sender: Peer, qos: nat, id: nat)
    | Caller(e: nat, call: CallAction)
    | Receiver(e: nat, handler: HandlerAction)
    | Replier(e: nat, reply: ReplyAction)

  function CallKey(call: Call): Key {
    (call.sender, call.id)
  }

  function HandlerKey(handler: Handler): Key {
    (handler.peer, handler.id)
  }

  predicate HasCall(s: State, e: nat) {
    e < |s.exchanges|
  }

  predicate HasHandler(s: State, e: nat, h: nat) {
    e < |s.exchanges| && h < |s.exchanges[e].handlers|
  }

  predicate HasPacket(s: State, e: nat, n: nat) {
    e < |s.exchanges| && n < |s.exchanges[e].packets|
  }

  function StepOf(s: State, e: nat): CallStep
    requires HasCall(s, e)
  {
    s.exchanges[e].call.step
  }

  function HandlerAt(s: State, e: nat, h: nat): Handler
    requires HasHandler(s, e, h)
  {
    s.exchanges[e].handlers[h]
  }

  function PacketAt(s: State, e: nat, n: nat): Transit
    requires HasPacket(s, e, n)
  {
    s.exchanges[e].packets[n]
  }

  /** Nothing waits in a queue. */
  predicate QueueEmpty(s: State, q: nat) {
    forall e, n :: 0 <= e < |s.exchanges| && 0 <= n < |s.exchanges[e].packets| ==>
      s.exchanges[e].packets[n].place != Queued(q)
  }

  predicate CallEnabled(s: State, e: nat, a: CallAction) {
    && HasCall(s, e)
    && match a
       case Arm => StepOf(s, e) == Allocated || StepOf(s, e) == Answered
       case Send => StepOf(s, e).Armed?
       case SendFails => StepOf(s, e).Armed?
       case LookUp => StepOf(s, e).Sent?
       case Take(from, n) =>
         && StepOf(s, e).Waiting?
         && HasPacket(s, from, n) && PacketAt(s, from, n).place == Queued(StepOf(s, e).queue)
       case GiveUp => StepOf(s, e).Waiting? && QueueEmpty(s, StepOf(s, e).queue)
       case Clear => StepOf(s, e).Left?
  }

  predicate HandlerEnabled(s: State, e: nat, a: HandlerAction) {
    match a
    case Start(n) =>
      HasPacket(s, e, n) && PacketAt(s, e, n).packet.kind == PUBLISH && PacketAt(s, e, n).place == OnWire
    case Prepare(h) => HasHandler(s, e, h) && HandlerAt(s, e, h).step == Started && HandlerAt(s, e, h).qos == 2
    case SendRec(h) => HasHandler(s, e, h) && HandlerAt(s, e, h).step == Prepared
    case Deliver(h) =>
      HasHandler(s, e, h) && HandlerAt(s, e, h).step == if HandlerAt(s, e, h).qos == 2 then Recorded else Started
    case LookUpRel(h) => HasHandler(s, e, h) && HandlerAt(s, e, h).step == Delivered && HandlerAt(s, e, h).qos == 2
    case TakeRel(h, from, n) =>
      && HasHandler(s, e, h) && HandlerAt(s, e, h).step.AwaitingRel?
      && HasPacket(s, from, n) && PacketAt(s, from, n).place == Queued(HandlerAt(s, e, h).step.queue)
    case GiveUpRel(h) =>
      HasHandler(s, e, h) && HandlerAt(s, e, h).step.AwaitingRel? && QueueEmpty(s, HandlerAt(s, e, h).step.queue)
    case ClearRel(h) => HasHandler(s, e, h) && HandlerAt(s, e, h).step.LeftRel?
    case Complete(h) =>
      HasHandler(s, e, h) && HandlerAt(s, e, h).step == if HandlerAt(s, e, h).qos == 2 then Completing else Delivered
    case Abort(h) =>
      && HasHandler(s, e, h)
      && var step := HandlerAt(s, e, h).step;
         step == Started || step == Prepared || step == Recorded || step == Completing ||
         (step == Delivered && HandlerAt(s, e, h).qos != 2)
  }

  predicate ReplyEnabled(s: State, e: nat, a: ReplyAction) {
    match a
    case Route(n) =>
      HasPacket(s, e, n) && PacketAt(s, e, n).packet.kind != PUBLISH && PacketAt(s, e, n).place == OnWire
    case Push(n) => HasPacket(s, e, n) && PacketAt(s, e, n).place.Pushing?
  }

  predicate Enabled(s: State, a: Action) {
    match a
    case NewCall(sender, qos, id) => (AsksAck(qos) || AsksRec(qos)) && (sender, id) !in s.outstanding
    case Caller(e, call) => CallEnabled(s, e, call)
    case Receiver(e, handler) => HandlerEnabled(s, e, handler)
    case Replier(e, reply) => ReplyEnabled(s, e, reply)
  }

  function SetExchange(s: State, e: nat, x: Exchange): State
    requires HasCall(s, e)
  {
    s.(exchanges := s.exchanges[e := x])
  }

  function SetStep(s: State, e: nat, step: CallStep): State
    requires HasCall(s, e)
  {
    var x := s.exchanges[e];
    SetExchange(s, e, x.(call := x.call.(step := step)))
  }

  function SetHandler(s: State, e: nat, h: nat, step: HandlerStep): State
    requires HasHandler(s, e, h)
  {
    var x := s.exchanges[e];
    SetExchange(s, e, x.(handlers := x.handlers[h := x.handlers[h].(step := step)]))
  }

  function Move(s: State, e: nat, n: nat, place: Place): State
    requires HasPacket(s, e, n)
  {
    var x := s.exchanges[e];
    SetExchange(s, e, x.(packets := x.packets[n := x.packets[n].(place := place)]))
  }

  function Emit(s: State, e: nat, packet: Packet): State
    requires HasCall(s, e)
  {
    var x := s.exchanges[e];
    SetExchange(s, e, x.(packets := x.packets + [Transit(packet, OnWire)]))
  }

  /** The reply has the expected type and packet id. */
  predicate GoodReply(call: Call, want: Kind, reply: Option<Packet>) {
    reply.Some? && reply.value.kind == want && reply.value.id == call.id
  }

  /** How a call goes on once the wait for `want` is over. */
  function AfterReply(call: Call, want: Kind, reply: Option<Packet>): Call {
    var good := GoodReply(call, want, reply);
    if want == PUBACK && AsksRec(call.qos) then call.(ok := good, step := Sent(PUBREC))
    else if want == PUBREC then call.(step := if good && call.ok then Answered else Failed)
    else call.(step := if good then Succeeded else Failed)
  }

  /** Continues a call; its packet id is released only when it succeeds. */
  function Continue(s: State, e: nat, reply: Option<Packet>): State
    requires HasCall(s, e) && (StepOf(s, e).Sent? || StepOf(s, e).Left?)
  {
    var x := s.exchanges[e];
    var call := AfterReply(x.call, x.call.step.want, reply);
    SetExchange(s, e, x.(call := call)).(
      outstanding := if call.step == Succeeded then s.outstanding - {CallKey(call)} else s.outstanding)
  }

  function CallApply(s: State, e: nat, a: CallAction): State
    requires CallEnabled(s, e, a)
  {
    var call := s.exchanges[e].call;
    match a
    case Arm =>
      var want := if call.step == Allocated then FirstReply(call.qos) else PUBCOMP;
      SetStep(s, e, Armed(want)).(owners := s.owners + [CallWait(e, want)],
                                  waitReplies := s.waitReplies[CallKey(call) := |s.owners|])
    case Send =>
      var kind := if call.step.want == PUBCOMP then PUBREL else PUBLISH;
      Emit(SetStep(s, e, Sent(call.step.want)), e, Packet(kind, call.sender.Other(), WireQos(call.qos), call.id))
    case SendFails => SetStep(s, e, Broken(call.step.want))
    case LookUp =>
      if CallKey(call) in s.waitReplies
      then SetStep(s, e, Waiting(call.step.want, s.waitReplies[CallKey(call)]))
      else Continue(s, e, None)
    case Take(from, n) =>
      Move(SetStep(s, e, Left(call.step.want, Some(PacketAt(s, from, n).packet))), from, n, Taken)
    case GiveUp => SetStep(s, e, Left(call.step.want, None))
    case Clear => Continue(s.(waitReplies := s.waitReplies - {CallKey(call)}), e, call.step.reply)
  }

  function HandlerApply(s: State, e: nat, a: HandlerAction): State
    requires HandlerEnabled(s, e, a)
  {
    match a
    case Start(n) =>
      var p := PacketAt(s, e, n).packet;
      var s' := Move(s, e, n, Taken);
      var x := s'.exchanges[e];
      SetExchange(s', e, x.(handlers := x.handlers + [Handler(p.dest, p.qos, p.id, Started)]))
    case Prepare(h) =>
      SetHandler(s, e, h, Prepared).(owners := s.owners + [HandlerWait(e, h)],
                                     peerWaitReplies := s.peerWaitReplies[HandlerKey(HandlerAt(s, e, h)) := |s.owners|])
    case SendRec(h) => Emit(SetHandler(s, e, h, Recorded), e, Reply(HandlerAt(s, e, h), PUBREC))
    case Deliver(h) =>
      var s' := SetHandler(s, e, h, Delivered);
      SetExchange(s', e, s'.exchanges[e].(deliveries := s.exchanges[e].deliveries + 1))
    case LookUpRel(h) =>
      var key := HandlerKey(HandlerAt(s, e, h));
      SetHandler(s, e, h, if key in s.peerWaitReplies then AwaitingRel(s.peerWaitReplies[key]) else Aborted)
    case TakeRel(h, from, n) =>
      Move(SetHandler(s, e, h, LeftRel(Some(PacketAt(s, from, n).packet))), from, n, Taken)
    case GiveUpRel(h) => SetHandler(s, e, h, LeftRel(None))
    case ClearRel(h) =>
      var handler := HandlerAt(s, e, h);
      var reply := handler.step.reply;
      SetHandler(s, e, h, if reply.Some? && reply.value.kind == PUBREL then Completing else Aborted).(
        peerWaitReplies := s.peerWaitReplies - {HandlerKey(handler)})
    case Complete(h) =>
      var handler := HandlerAt(s, e, h);
      Emit(SetHandler(s, e, h, Finished), e, Reply(handler, if handler.qos == 2 then PUBCOMP else PUBACK))
    case Abort(h) => SetHandler(s, e, h, Aborted)
  }

  function ReplyApply(s: State, e: nat, a: ReplyAction): State
    requires ReplyEnabled(s, e, a)
  {
    match a
    case Route(n) =>
      var p := PacketAt(s, e, n).packet;
      var table := if p.kind == PUBREL then s.peerWaitReplies else s.waitReplies;
      Move(s, e, n, if (p.dest, p.id) in table then Pushing(table[(p.dest, p.id)]) else Dropped)
    case Push(n) => Move(s, e, n, Queued(PacketAt(s, e, n).place.queue))
  }

  function Apply(s: State, a: Action): State
    requires Enabled(s, a)
  {
    match a
    case NewCall(sender, qos, id) =>
      s.(exchanges := s.exchanges + [Exchange(Call(sender, qos, id, true, Allocated), [], [], 0)],
         outstanding := s.outstanding + {(sender, id)})
    case Caller(e, call) => CallApply(s, e, call)
    case Receiver(e, handler) => HandlerApply(s, e, handler)
    case Replier(e, reply) => ReplyApply(s, e, reply)
  }

  function Reply(handler: Handler, kind: Kind): Packet {
    Packet(kind, handler.peer.Other(), 0, handler.id)
  }

  /* ---------- The invariant ---------- */

  /** The packets of an exchange, in the order they are sent. */
  function Script(qos: nat): seq<Kind> {
    if AsksAck(qos) then [PUBLISH, PUBACK] else [PUBLISH, PUBREC, PUBREL, PUBCOMP]
  }

  /** Who receives a packet of a call made by `sender`. */
  function Recipient(sender: Peer, kind: Kind): Peer {
    if kind == PUBLISH || kind == PUBREL then sender.Other() else sender
  }

  predicate PacketsOk(x: Exchange) {
    && |x.packets| <= |Script(x.call.qos)|
    && forall n :: 0 <= n < |x.packets| ==>
         && var p := x.packets[n].packet;
            && p.kind == Script(x.call.qos)[n] && p.id == x.call.id && p.dest == Recipient(x.call.sender, p.kind)
            && (p.kind == PUBLISH ==> p.qos == WireQos(x.call.qos))
  }

  predicate TakenAt(x: Exchange, n: nat) {
    n < |x.packets| && x.packets[n].place == Taken
  }

  predicate Got(x: Exchange, reply: Option<Packet>, n: nat) {
    reply == None || (TakenAt(x, n) && reply == Some(x.packets[n].packet))
  }

  /** How far the call can be once a number of the exchange's packets has been sent. */
  predicate CallInStep(x: Exchange) {
    var call, sent := x.call, |x.packets|;
    var first, ack := FirstReply(call.qos), AsksAck(call.qos);
    match call.step
    case Allocated => sent == 0
    case Armed(want) => (want == first && sent == 0) || (want == PUBCOMP && !ack && sent == 2 && TakenAt(x, 1))
    case Broken(want) => (want == first && sent == 0) || (want == PUBCOMP && !ack && sent == 2 && TakenAt(x, 1))
    case Sent(want) =>
      || (want == first && 1 <= sent <= 2)
      || (want == PUBREC && ack && 1 <= sent <= 2)
      || (want == PUBCOMP && !ack && 3 <= sent && TakenAt(x, 1))
    case Waiting(want, _) =>
      || (want == first && 1 <= sent <= 2)
      || (want == PUBCOMP && !ack && 3 <= sent && TakenAt(x, 1))
    case Left(want, reply) =>
      || (want == first && 1 <= sent <= 2 && Got(x, reply, 1))
      || (want == PUBCOMP && !ack && 3 <= sent && TakenAt(x, 1) && Got(x, reply, 3))
    case Answered => !ack && sent == 2 && TakenAt(x, 1)
    case Succeeded =>
      if ack then TakenAt(x, 1) && !AsksRec(call.qos)
      else TakenAt(x, 1) && TakenAt(x, 2) && TakenAt(x, 3)
    case Failed => 1 <= sent && (3 <= sent ==> TakenAt(x, 1))
  }

  /** How far the receiving thread can be once a number of the exchange's packets has been sent. */
  predicate HandlerInStep(x: Exchange) {
    var sent := |x.packets|;
    if sent == 0 || x.packets[0].place != Taken then
      x.handlers == [] && x.deliveries == 0 && sent <= 1 && (sent == 1 ==> x.packets[0].place == OnWire)
    else
      && |x.handlers| == 1
      && var handler := x.handlers[0];
         && handler.peer == x.call.sender.Other() && handler.id == x.call.id && handler.qos == WireQos(x.call.qos)
         && match handler.step
            case Started => sent == 1 && x.deliveries == 0
            case Prepared => sent == 1 && x.deliveries == 0 && handler.qos == 2
            case Recorded => 2 <= sent <= 3 && x.deliveries == 0 && handler.qos == 2
            case Delivered => (if handler.qos == 2 then 2 <= sent <= 3 else sent == 1) && x.deliveries == 1
            case AwaitingRel(_) => 2 <= sent <= 3 && x.deliveries == 1 && handler.qos == 2
            case LeftRel(reply) => 2 <= sent <= 3 && x.deliveries == 1 && handler.qos == 2 && Got(x, reply, 2)
            case Completing => sent == 3 && TakenAt(x, 2) && x.deliveries == 1 && handler.qos == 2
            case Finished =>
              && sent == |Script(x.call.qos)| && x.deliveries == 1
              && (handler.qos == 2 ==> TakenAt(x, 2))
            case Aborted => 1 <= sent <= (if handler.qos == 2 then 3 else 1) && x.deliveries <= 1
  }

  /** The two ends of one exchange and its packets are in step with each other. */
  predicate Lockstep(x: Exchange) {
    && (AsksAck(x.call.qos) || AsksRec(x.call.qos))
    && PacketsOk(x) && CallInStep(x) && HandlerInStep(x)
  }

  /** The call's wait entry is installed. */
  predicate InTable(call: Call) {
    match call.step
    case Armed(_) => true
    case Sent(want) => want != PUBREC || !AsksAck(call.qos)
    case Waiting(_, _) => true
    case Left(_, _) => true
    case _ => false
  }

  function Want(step: CallStep): Kind {
    match step
    case Armed(want) => want
    case Sent(want) => want
    case Waiting(want, _) => want
    case Left(want, _) => want
    case Broken(want) => want
    case _ => PUBLISH
  }

  /** The handler's wait entry is installed. */
  predicate PeerInTable(handler: Handler) {
    && handler.qos == 2
    && (handler.step == Prepared || handler.step == Recorded || handler.step == Delivered ||
        handler.step.AwaitingRel? || handler.step.LeftRel?)
  }

  predicate Entry(table: Table, owners: seq<Owner>, key: Key, owner: Owner) {
    key in table && table[key] < |owners| && owners[table[key]] == owner
  }

  /** The owner a packet of exchange `e` must find in the table. */
  function Addressee(e: nat, kind: Kind): Owner {
    if kind == PUBREL then HandlerWait(e, 0) else CallWait(e, kind)
  }

  /** The wait entries and queues of exchange `e` are its own. */
  predicate Linked(s: State, e: nat)
    requires HasCall(s, e)
  {
    CallLinked(s, s.exchanges[e].call, e) && HandlersLinked(s, s.exchanges[e].handlers, e) &&
    PacketsLinked(s.owners, s.exchanges[e].packets, e)
  }

  predicate CallLinked(s: State, call: Call, e: nat) {
    var key := CallKey(call);
    && (call.step != Succeeded ==> key in s.outstanding)
    && (InTable(call) ==> Entry(s.waitReplies, s.owners, key, CallWait(e, Want(call.step))))
    && (call.step.Waiting? ==> key in s.waitReplies && s.waitReplies[key] == call.step.queue)
  }

  predicate HandlersLinked(s: State, handlers: seq<Handler>, e: nat) {
    forall h :: 0 <= h < |handlers| ==>
      var key := HandlerKey(handlers[h]);
      && (PeerInTable(handlers[h]) ==> Entry(s.peerWaitReplies, s.owners, key, HandlerWait(e, h)))
      && (handlers[h].step.AwaitingRel? ==>
            key in s.peerWaitReplies && s.peerWaitReplies[key] == handlers[h].step.queue)
  }

  predicate PacketsLinked(owners: seq<Owner>, packets: seq<Transit>, e: nat) {
    forall n :: 0 <= n < |packets| && (packets[n].place.Pushing? || packets[n].place.Queued?) ==>
      packets[n].place.queue < |owners| && owners[packets[n].place.queue] == Addressee(e, packets[n].packet.kind)
  }

  predicate WaitEntryOk(s: State, key: Key)
    requires key in s.waitReplies
  {
    && s.waitReplies[key] < |s.owners|
    && match s.owners[s.waitReplies[key]]
       case CallWait(e, want) =>
         && HasCall(s, e)
         && var call := s.exchanges[e].call;
            CallKey(call) == key && (InTable(call) || call.step.Broken?) && Want(call.step) == want
       case HandlerWait(_, _) => false
  }

  predicate PeerEntryOk(s: State, key: Key)
    requires key in s.peerWaitReplies
  {
    && s.peerWaitReplies[key] < |s.owners|
    && match s.owners[s.peerWaitReplies[key]]
       case HandlerWait(e, h) =>
         && HasHandler(s, e, h)
         && var handler := HandlerAt(s, e, h);
            HandlerKey(handler) == key && (PeerInTable(handler) || handler.step == Aborted)
       case CallWait(_, _) => false
  }

  /** Two calls of one peer share a packet id only if one of them has succeeded. */
  predicate DistinctIds(s: State) {
    forall e, e' :: 0 <= e < |s.exchanges| && 0 <= e' < |s.exchanges| && e != e' &&
                    CallKey(s.exchanges[e].call) == CallKey(s.exchanges[e'].call) ==>
      StepOf(s, e) == Succeeded || StepOf(s, e') == Succeeded
  }

  ghost predicate Inv(s: State) {
    && (forall e :: 0 <= e < |s.exchanges| ==> Lockstep(s.exchanges[e]) && Linked(s, e))
    && (forall key :: key in s.waitReplies ==> WaitEntryOk(s, key))
    && (forall key :: key in s.peerWaitReplies ==> PeerEntryOk(s, key))
    && DistinctIds(s)
  }

  /* ---------- Every step keeps the invariant ---------- */

  /* Lockstep: one exchange at a time, without looking at the tables. */

  predicate SameCall(c: Call, c': Call) {
    c'.sender == c.sender && c'.qos == c.qos && c'.id == c.id
  }

  /** Moving only the call along leaves the packets and the receiver in step. */
  lemma OnlyCallMoves(x: Exchange, call: Call)
    requires Lockstep(x) && SameCall(x.call, call)
    ensures PacketsOk(x.(call := call)) && HandlerInStep(x.(call := call))
  {
  }

  /** Moving only the receiver along leaves the packets and the call in step. */
  lemma OnlyHandlerMoves(x: Exchange, handlers: seq<Handler>, deliveries: nat)
    requires Lockstep(x)
    ensures PacketsOk(x.(handlers := handlers, deliveries := deliveries))
    ensures CallInStep(x.(handlers := handlers, deliveries := deliveries))
  {
  }

  /** The position of the reply a call awaits among the packets of its exchange. */
  function ReplyIndex(want: Kind): nat {
    if want == PUBCOMP then 3 else 1
  }

  lemma WaitKeepsLockstep(s: State, e: nat, a: CallAction)
    requires CallEnabled(s, e, a) && !a.Send? && !a.Take? && Lockstep(s.exchanges[e])
    requires a.LookUp? && CallKey(s.exchanges[e].call) in s.waitReplies ==> InTable(s.exchanges[e].call)
    ensures Lockstep(CallApply(s, e, a).exchanges[e])
  {
    var x := s.exchanges[e];
    var x' := CallApply(s, e, a).exchanges[e];
    assert x' == x.(call := x'.call) && SameCall(x.call, x'.call);
    OnlyCallMoves(x, x'.call);
  }

  lemma SendKeepsLockstep(s: State, e: nat)
    requires CallEnabled(s, e, Send) && Lockstep(s.exchanges[e])
    ensures Lockstep(CallApply(s, e, Send).exchanges[e])
  {
    var x, x' := s.exchanges[e], CallApply(s, e, Send).exchanges[e];
    assert forall k {:trigger x'.packets[k]} :: 0 <= k < |x.packets| ==> x'.packets[k] == x.packets[k];
  }

  lemma TakeKeepsLockstep(s: State, e: nat, n: nat)
    requires CallEnabled(s, e, Take(e, n)) && Lockstep(s.exchanges[e])
    requires PacketAt(s, e, n).packet.kind == StepOf(s, e).want && n == ReplyIndex(StepOf(s, e).want)
    ensures Lockstep(CallApply(s, e, Take(e, n)).exchanges[e])
  {
    var x := s.exchanges[e];
    var x' := CallApply(s, e, Take(e, n)).exchanges[e];
    assert forall k {:trigger x'.packets[k]} :: 0 <= k < |x.packets| ==>
      x'.packets[k] == if k == n then x.packets[k].(place := Taken) else x.packets[k];
  }

  lemma StartKeepsLockstep(s: State, e: nat, n: nat)
    requires HandlerEnabled(s, e, Start(n)) && Lockstep(s.exchanges[e])
    ensures Lockstep(HandlerApply(s, e, Start(n)).exchanges[e])
  {
    assert n == 0;
    assert HandlerApply(s, e, Start(n)).exchanges[e].packets == [s.exchanges[e].packets[0].(place := Taken)];
  }

  lemma HandlerKeepsLockstep(s: State, e: nat, a: HandlerAction)
    requires HandlerEnabled(s, e, a) && Lockstep(s.exchanges[e])
    requires !a.Start? && !a.SendRec? && !a.Complete? && !a.TakeRel?
    ensures Lockstep(HandlerApply(s, e, a).exchanges[e])
  {
    var x := s.exchanges[e];
    var x' := HandlerApply(s, e, a).exchanges[e];
    assert x' == x.(handlers := x'.handlers, deliveries := x'.deliveries);
    OnlyHandlerMoves(x, x'.handlers, x'.deliveries);
  }

  function Replied(x: Exchange, step: HandlerStep, kind: Kind): Exchange
    requires |x.handlers| == 1
  {
    x.(handlers := [x.handlers[0].(step := step)], packets := x.packets + [Transit(Reply(x.handlers[0], kind), OnWire)])
  }

  lemma RecKeepsLockstep(x: Exchange)
    requires Lockstep(x) && |x.handlers| == 1 && x.handlers[0].step == Prepared
    ensures Lockstep(Replied(x, Recorded, PUBREC))
  {
    var x' := Replied(x, Recorded, PUBREC);
    assert x'.packets[..|x.packets|] == x.packets;
    assert CallInStep(x') && PacketsOk(x');
  }

  lemma CompleteKeepsLockstep(x: Exchange)
    requires Lockstep(x) && |x.handlers| == 1
    requires x.handlers[0].step == if x.handlers[0].qos == 2 then Completing else Delivered
    ensures Lockstep(Replied(x, Finished, if x.handlers[0].qos == 2 then PUBCOMP else PUBACK))
  {
    var x' := Replied(x, Finished, if x.handlers[0].qos == 2 then PUBCOMP else PUBACK);
    assert x'.packets[..|x.packets|] == x.packets;
    assert CallInStep(x') && PacketsOk(x');
  }

  lemma AnswerKeepsLockstep(s: State, e: nat, a: HandlerAction)
    requires HandlerEnabled(s, e, a) && (a.SendRec? || a.Complete?) && Lockstep(s.exchanges[e])
    ensures Lockstep(HandlerApply(s, e, a).exchanges[e])
  {
    hide PacketsOk, CallInStep, Reply;
    var x := s.exchanges[e];
    assert |x.handlers| == 1;
    hide HandlerInStep;
    var handlers := HandlerApply(s, e, a).exchanges[e].handlers;
    assert handlers == [handlers[0]];
    if a.SendRec? {
      RecKeepsLockstep(x);
    } else {
      CompleteKeepsLockstep(x);
    }
  }

  lemma TakeRelKeepsLockstep(s: State, e: nat, h: nat)
    requires HandlerEnabled(s, e, TakeRel(h, e, 2)) && Lockstep(s.exchanges[e])
    ensures Lockstep(HandlerApply(s, e, TakeRel(h, e, 2)).exchanges[e])
  {
    var x := s.exchanges[e];
    var x' := HandlerApply(s, e, TakeRel(h, e, 2)).exchanges[e];
    assert forall k {:trigger x'.packets[k]} :: 0 <= k < |x.packets| ==>
      x'.packets[k] == if k == 2 then x.packets[k].(place := Taken) else x.packets[k];
  }

  lemma ReplyKeepsLockstep(s: State, e: nat, a: ReplyAction)
    requires ReplyEnabled(s, e, a) && Lockstep(s.exchanges[e])
    ensures Lockstep(ReplyApply(s, e, a).exchanges[e])
  {
    var x := s.exchanges[e];
    var x' := ReplyApply(s, e, a).exchanges[e];
    assert forall k {:trigger x'.packets[k]} :: 0 <= k < |x.packets| ==>
      x'.packets[k].packet == x.packets[k].packet && (x.packets[k].place == Taken ==> x'.packets[k] == x.packets[k]);
  }

  /* Locality: a step touches one exchange, its packet id and its two table entries. */

  /** Where the receiving peer files its wait for the PUBREL of a call. */
  function PeerKey(call: Call): Key {
    (call.sender.Other(), call.id)
  }

  ghost predicate SameAwayFrom(t: Table, t': Table, key: Key) {
    forall k :: k != key ==> (k in t <==> k in t') && (k in t ==> t[k] == t'[k])
  }

  ghost predicate Local(s: State, s': State, e: nat) {
    && e <= |s.exchanges| <= |s'.exchanges| && e < |s'.exchanges| <= |s.exchanges| + 1
    && (|s'.exchanges| == |s.exchanges| || e == |s.exchanges|)
    && (forall e' :: 0 <= e' < |s.exchanges| && e' != e ==> s'.exchanges[e'] == s.exchanges[e'])
    && s.owners <= s'.owners
    && var call := s'.exchanges[e].call;
       && (e < |s.exchanges| ==> SameCall(s.exchanges[e].call, call))
       && SameAwayFrom(s.waitReplies, s'.waitReplies, CallKey(call))
       && SameAwayFrom(s.peerWaitReplies, s'.peerWaitReplies, PeerKey(call))
       && forall k :: k != CallKey(call) ==> (k in s.outstanding <==> k in s'.outstanding)
  }

  lemma CallIsLocal(s: State, e: nat, a: CallAction)
    requires CallEnabled(s, e, a) && (a.Take? ==> a.from == e)
    ensures Local(s, CallApply(s, e, a), e)
  {
  }

  lemma HandlerIsLocal(s: State, e: nat, a: HandlerAction)
    requires HandlerEnabled(s, e, a) && HandlerInStep(s.exchanges[e]) && (a.TakeRel? ==> a.from == e)
    ensures Local(s, HandlerApply(s, e, a), e)
  {
    var x := s.exchanges[e];
    assert forall h :: 0 <= h < |x.handlers| ==> HandlerKey(x.handlers[h]) == PeerKey(x.call);
    hide HandlerInStep;
  }

  lemma ReplyIsLocal(s: State, e: nat, a: ReplyAction)
    requires ReplyEnabled(s, e, a)
    ensures Local(s, ReplyApply(s, e, a), e)
  {
  }

  /* Entries found under an exchange's packet id are its own. */

  /** A packet id in use belongs to at most one call that has not succeeded. */
  lemma KeyBelongsTo(s: State, e: nat, e': nat)
    requires DistinctIds(s) && HasCall(s, e) && HasCall(s, e')
    requires StepOf(s, e) != Succeeded && StepOf(s, e') != Succeeded
    requires CallKey(s.exchanges[e].call) == CallKey(s.exchanges[e'].call)
    ensures e == e'
  {
  }

  /** Whatever the tables hold under the keys of exchange `e` was installed by its own two ends. */
  predicate OwnEntries(s: State, e: nat)
    requires HasCall(s, e)
  {
    var x := s.exchanges[e];
    && (CallKey(x.call) in s.waitReplies ==>
          && Entry(s.waitReplies, s.owners, CallKey(x.call), CallWait(e, Want(x.call.step)))
          && (InTable(x.call) || x.call.step.Broken?))
    && (PeerKey(x.call) in s.peerWaitReplies ==>
          && Entry(s.peerWaitReplies, s.owners, PeerKey(x.call), HandlerWait(e, 0))
          && x.handlers != [] && (PeerInTable(x.handlers[0]) || x.handlers[0].step == Aborted))
  }

  lemma HandlerOfLiveCall(x: Exchange, h: nat)
    requires Lockstep(x) && h < |x.handlers| && (PeerInTable(x.handlers[h]) || x.handlers[h].step == Aborted)
    ensures h == 0 && x.call.step != Succeeded && HandlerKey(x.handlers[h]) == PeerKey(x.call)
  {
  }

  lemma EntriesAreOwn(s: State, e: nat)
    requires Inv(s) && HasCall(s, e) && StepOf(s, e) != Succeeded
    ensures OwnEntries(s, e)
  {
    var call := s.exchanges[e].call;
    if CallKey(call) in s.waitReplies {
      assert WaitEntryOk(s, CallKey(call));
      KeyBelongsTo(s, e, s.owners[s.waitReplies[CallKey(call)]].exchange);
    }
    if PeerKey(call) in s.peerWaitReplies {
      PeerEntryIsOwn(s, e);
    }
  }

  lemma PeerEntryIsOwn(s: State, e: nat)
    requires Inv(s) && HasCall(s, e) && StepOf(s, e) != Succeeded
    requires PeerKey(s.exchanges[e].call) in s.peerWaitReplies
    ensures var x := s.exchanges[e];
            && Entry(s.peerWaitReplies, s.owners, PeerKey(x.call), HandlerWait(e, 0))
            && x.handlers != [] && (PeerInTable(x.handlers[0]) || x.handlers[0].step == Aborted)
  {
    var key := PeerKey(s.exchanges[e].call);
    assert PeerEntryOk(s, key);
    var owner := s.owners[s.peerWaitReplies[key]];
    assert Lockstep(s.exchanges[owner.exchange]);
    HandlerOfLiveCall(s.exchanges[owner.exchange], owner.handler);
    KeyBelongsTo(s, e, owner.exchange);
  }

  /** The table leads a packet on the wire to the end of its own exchange that awaits it. */
  lemma RouteFindsAddressee(s: State, e: nat, n: nat)
    requires ReplyEnabled(s, e, Route(n)) && Lockstep(s.exchanges[e]) && OwnEntries(s, e)
    ensures var p := PacketAt(s, e, n).packet;
            var table := if p.kind == PUBREL then s.peerWaitReplies else s.waitReplies;
            (p.dest, p.id) in table ==> Entry(table, s.owners, (p.dest, p.id), Addressee(e, p.kind))
  {
  }

  /* Links: the entries and queues of the exchange that moves stay its own. */

  /** Packets keep their queues unless they are routed or pushed. */
  lemma PacketsStayLinked(owners: seq<Owner>, owners': seq<Owner>, ts: seq<Transit>, ts': seq<Transit>, e: nat)
    requires PacketsLinked(owners, ts, e) && owners <= owners'
    requires forall n :: 0 <= n < |ts'| ==> (n < |ts| && ts'[n] == ts[n]) || ts'[n].place == Taken || ts'[n].place == OnWire
    ensures PacketsLinked(owners', ts', e)
  {
  }

  lemma CallKeepsLinks(s: State, e: nat, a: CallAction)
    requires CallEnabled(s, e, a) && Linked(s, e) && CallInStep(s.exchanges[e]) && (a.Take? ==> a.from == e)
    requires a.LookUp? && CallKey(s.exchanges[e].call) in s.waitReplies ==> InTable(s.exchanges[e].call)
    ensures Linked(CallApply(s, e, a), e)
  {
    hide PacketsLinked;
    var s' := CallApply(s, e, a);
    PacketsStayLinked(s.owners, s'.owners, s.exchanges[e].packets, s'.exchanges[e].packets, e);
  }

  lemma HandlersStayLinked(s: State, e: nat, a: HandlerAction)
    requires HandlerEnabled(s, e, a) && Linked(s, e) && HandlerInStep(s.exchanges[e]) && (a.TakeRel? ==> a.from == e)
    ensures var s' := HandlerApply(s, e, a); HandlersLinked(s', s'.exchanges[e].handlers, e)
  {
    hide PacketsLinked, CallLinked;
  }

  lemma HandlerKeepsLinks(s: State, e: nat, a: HandlerAction)
    requires HandlerEnabled(s, e, a) && Linked(s, e) && HandlerInStep(s.exchanges[e]) && (a.TakeRel? ==> a.from == e)
    ensures Linked(HandlerApply(s, e, a), e)
  {
    hide PacketsLinked, HandlersLinked;
    var s' := HandlerApply(s, e, a);
    HandlersStayLinked(s, e, a);
    PacketsStayLinked(s.owners, s'.owners, s.exchanges[e].packets, s'.exchanges[e].packets, e);
  }

  lemma ReplyKeepsLinks(s: State, e: nat, a: ReplyAction)
    requires ReplyEnabled(s, e, a) && Linked(s, e) && Lockstep(s.exchanges[e]) && OwnEntries(s, e)
    ensures Linked(ReplyApply(s, e, a), e)
  {
    if a.Route? {
      RouteFindsAddressee(s, e, a.n);
    }
  }

  lemma CallKeepsEntries(s: State, e: nat, a: CallAction)
    requires CallEnabled(s, e, a) && CallInStep(s.exchanges[e]) && OwnEntries(s, e) && (a.Take? ==> a.from == e)
    ensures OwnEntries(CallApply(s, e, a), e)
  {
  }

  lemma HandlerKeepsEntries(s: State, e: nat, a: HandlerAction)
    requires HandlerEnabled(s, e, a) && HandlerInStep(s.exchanges[e]) && OwnEntries(s, e) && (a.TakeRel? ==> a.from == e)
    ensures OwnEntries(HandlerApply(s, e, a), e)
  {
  }

  lemma ReplyKeepsEntries(s: State, e: nat, a: ReplyAction)
    requires ReplyEnabled(s, e, a) && OwnEntries(s, e)
    ensures OwnEntries(ReplyApply(s, e, a), e)
  {
  }

  /* ---------- Runs ---------- */

  /** States reached by performing the actions one after the other. */
  ghost predicate Execution(states: seq<State>, actions: seq<Action>) {
    && |states| == |actions| + 1
    && states[0] == Initial
    && forall k :: 0 <= k < |actions| ==> Enabled(states[k], actions[k]) && states[k + 1] == Apply(states[k], actions[k])
  }

  /* Putting the parts together. */

  /** A waiting call only ever takes the reply to its own last packet. */
  lemma TakesOwnReply(s: State, e: nat, from: nat, n: nat)
    requires Inv(s) && CallEnabled(s, e, Take(from, n))
    ensures from == e && PacketAt(s, from, n).packet.kind == StepOf(s, e).want && n == ReplyIndex(StepOf(s, e).want)
  {
    assert Linked(s, e) && Linked(s, from);
    WantedReply(s.exchanges[e]);
    KindTellsIndex(s.exchanges[from], n);
  }

  lemma WantedReply(x: Exchange)
    requires CallInStep(x) && x.call.step.Waiting?
    ensures InTable(x.call) && IsReply(x.call.step.want)
  {
  }

  /** A handler waiting for a PUBREL only ever takes the one of its own exchange. */
  lemma TakesOwnRel(s: State, e: nat, h: nat, from: nat, n: nat)
    requires Inv(s) && HandlerEnabled(s, e, TakeRel(h, from, n))
    ensures from == e && n == 2
  {
    assert Linked(s, e) && Linked(s, from);
    AwaitsInQoS2(s.exchanges[e], h);
    KindTellsIndex(s.exchanges[from], n);
  }

  lemma AwaitsInQoS2(x: Exchange, h: nat)
    requires HandlerInStep(x) && h < |x.handlers| && x.handlers[h].step.AwaitingRel?
    ensures PeerInTable(x.handlers[h])
  {
  }

  /** A packet's kind tells its position in its exchange. */
  lemma KindTellsIndex(x: Exchange, n: nat)
    requires PacketsOk(x) && n < |x.packets|
    ensures var kind := x.packets[n].packet.kind;
            n == if kind == PUBLISH then 0 else if kind == PUBREL then 2 else ReplyIndex(kind)
  {
  }

  /** Once a call has succeeded all its packets are taken and its handler has finished. */
  lemma NothingLeft(x: Exchange)
    requires Lockstep(x) && x.call.step == Succeeded
    ensures forall n :: 0 <= n < |x.packets| ==> x.packets[n].place == Taken
    ensures |x.handlers| == 1 && x.handlers[0].step == Finished && x.deliveries == 1
  {
  }

  /** What a step must leave behind for the exchange it moves. */
  ghost predicate Settled(s: State, s': State, e: nat) {
    && Local(s, s', e)
    && Lockstep(s'.exchanges[e]) && Linked(s', e) && OwnEntries(s', e)
    && (e < |s.exchanges| ==> StepOf(s, e) != Succeeded)
    && (e == |s.exchanges| ==> CallKey(s'.exchanges[e].call) !in s.outstanding)
  }

  lemma CallSettles(s: State, e: nat, a: CallAction)
    requires Inv(s) && CallEnabled(s, e, a)
    ensures Settled(s, CallApply(s, e, a), e)
  {
    assert Lockstep(s.exchanges[e]) && Linked(s, e);
    EntriesAreOwn(s, e);
    if a.Take? {
      TakesOwnReply(s, e, a.from, a.n);
      TakeKeepsLockstep(s, e, a.n);
    } else if a.Send? {
      SendKeepsLockstep(s, e);
    } else {
      WaitKeepsLockstep(s, e, a);
    }
    CallIsLocal(s, e, a);
    CallKeepsLinks(s, e, a);
    CallKeepsEntries(s, e, a);
  }

  lemma HandlerSettles(s: State, e: nat, a: HandlerAction)
    requires Inv(s) && HandlerEnabled(s, e, a)
    ensures Settled(s, HandlerApply(s, e, a), e)
  {
    hide HandlerApply, HandlerInStep, PacketsLinked, HandlersLinked, CallLinked, OwnEntries, Local;
    assert Lockstep(s.exchanges[e]) && Linked(s, e);
    if StepOf(s, e) == Succeeded {
      NothingLeft(s.exchanges[e]);
    }
    EntriesAreOwn(s, e);
    if a.Start? {
      StartKeepsLockstep(s, e, a.n);
    } else if a.SendRec? || a.Complete? {
      AnswerKeepsLockstep(s, e, a);
    } else if a.TakeRel? {
      TakesOwnRel(s, e, a.h, a.from, a.n);
      TakeRelKeepsLockstep(s, e, a.h);
    } else {
      HandlerKeepsLockstep(s, e, a);
    }
    HandlerIsLocal(s, e, a);
    HandlerKeepsLinks(s, e, a);
    HandlerKeepsEntries(s, e, a);
  }

  lemma ReplySettles(s: State, e: nat, a: ReplyAction)
    requires Inv(s) && ReplyEnabled(s, e, a)
    ensures Settled(s, ReplyApply(s, e, a), e)
  {
    assert Lockstep(s.exchanges[e]) && Linked(s, e);
    if StepOf(s, e) == Succeeded {
      NothingLeft(s.exchanges[e]);
    }
    EntriesAreOwn(s, e);
    ReplyKeepsLockstep(s, e, a);
    ReplyIsLocal(s, e, a);
    ReplyKeepsLinks(s, e, a);
    ReplyKeepsEntries(s, e, a);
  }

  /** Every wait entry stands for a packet id that has not been released. */
  lemma EntriesAreOutstanding(s: State, key: Key)
    requires Inv(s)
    ensures key in s.waitReplies ==> key in s.outstanding
    ensures key in s.peerWaitReplies ==> (key.0.Other(), key.1) in s.outstanding
  {
    hide PacketsLinked, HandlersLinked, PacketsOk;
    if key in s.waitReplies {
      assert WaitEntryOk(s, key);
      assert Linked(s, s.owners[s.waitReplies[key]].exchange);
    }
    if key in s.peerWaitReplies {
      assert PeerEntryOk(s, key);
      var owner := s.owners[s.peerWaitReplies[key]];
      assert Lockstep(s.exchanges[owner.exchange]) && Linked(s, owner.exchange);
      HandlerOfLiveCall(s.exchanges[owner.exchange], owner.handler);
    }
  }

  lemma NewCallSettles(s: State, sender: Peer, qos: nat, id: nat)
    requires Inv(s) && Enabled(s, NewCall(sender, qos, id))
    ensures Settled(s, Apply(s, NewCall(sender, qos, id)), |s.exchanges|)
  {
    EntriesAreOutstanding(s, (sender, id));
    EntriesAreOutstanding(s, (sender.Other(), id));
  }

  /** Any other call that has not succeeded uses another packet id. */
  lemma OtherKeys(s: State, s': State, e: nat, e': nat)
    requires Inv(s) && Settled(s, s', e) && HasCall(s, e') && e' != e && StepOf(s, e') != Succeeded
    ensures CallKey(s'.exchanges[e].call) != CallKey(s.exchanges[e'].call)
  {
    assert Linked(s, e');
  }

  lemma LinkedElsewhere(s: State, s': State, e: nat, e': nat)
    requires Local(s, s', e) && HasCall(s, e') && e' != e && Linked(s, e') && Lockstep(s.exchanges[e'])
    requires StepOf(s, e') != Succeeded ==> CallKey(s'.exchanges[e].call) != CallKey(s.exchanges[e'].call)
    ensures Linked(s', e')
  {
    var x := s.exchanges[e'];
    assert s'.exchanges[e'] == x;
    forall h | 0 <= h < |x.handlers|
      ensures HandlerKey(x.handlers[h]) == PeerKey(x.call)
      ensures StepOf(s, e') == Succeeded ==> !PeerInTable(x.handlers[h]) && !x.handlers[h].step.AwaitingRel?
    {
    }
  }

  lemma WaitEntriesKept(s: State, s': State, e: nat, key: Key)
    requires Inv(s) && Settled(s, s', e) && key in s'.waitReplies
    ensures WaitEntryOk(s', key)
  {
    if key != CallKey(s'.exchanges[e].call) {
      assert WaitEntryOk(s, key);
    }
  }

  lemma PeerEntriesKept(s: State, s': State, e: nat, key: Key)
    requires Inv(s) && Settled(s, s', e) && key in s'.peerWaitReplies
    ensures PeerEntryOk(s', key)
  {
    if key == PeerKey(s'.exchanges[e].call) {
      HandlerOfLiveCall(s'.exchanges[e], 0);
    } else {
      assert PeerEntryOk(s, key);
      assert Lockstep(s.exchanges[s.owners[s.peerWaitReplies[key]].exchange]);
      PeerEntryElsewhere(s, s', e, key);
    }
  }

  lemma PeerEntryElsewhere(s: State, s': State, e: nat, key: Key)
    requires Local(s, s', e) && key in s.peerWaitReplies && PeerEntryOk(s, key)
    requires key != PeerKey(s'.exchanges[e].call)
    requires Lockstep(s.exchanges[s.owners[s.peerWaitReplies[key]].exchange])
    ensures key in s'.peerWaitReplies && PeerEntryOk(s', key)
  {
    var owner := s.owners[s.peerWaitReplies[key]];
    HandlerOfLiveCall(s.exchanges[owner.exchange], owner.handler);
  }

  lemma DistinctIdsKept(s: State, s': State, e: nat)
    requires DistinctIds(s) && Local(s, s', e)
    requires forall e' :: 0 <= e' < |s.exchanges| && e' != e && StepOf(s, e') != Succeeded ==>
               CallKey(s'.exchanges[e].call) != CallKey(s.exchanges[e'].call)
    ensures DistinctIds(s')
  {
  }

  lemma OthersKept(s: State, s': State, e: nat, e': nat)
    requires Inv(s) && Settled(s, s', e) && e' < |s'.exchanges|
    ensures Lockstep(s'.exchanges[e']) && Linked(s', e')
  {
    if e' != e {
      assert Lockstep(s.exchanges[e']) && Linked(s, e');
      if StepOf(s, e') != Succeeded {
        OtherKeys(s, s', e, e');
      }
      LinkedElsewhere(s, s', e, e');
    }
  }

  lemma InvFromParts(s: State, s': State, e: nat)
    requires Inv(s) && Settled(s, s', e)
    ensures Inv(s')
  {
    forall e' | 0 <= e' < |s'.exchanges|
      ensures Lockstep(s'.exchanges[e']) && Linked(s', e')
    {
      OthersKept(s, s', e, e');
    }
    forall key | key in s'.waitReplies
      ensures WaitEntryOk(s', key)
    {
      WaitEntriesKept(s, s', e, key);
    }
    forall key | key in s'.peerWaitReplies
      ensures PeerEntryOk(s', key)
    {
      PeerEntriesKept(s, s', e, key);
    }
    forall e' | 0 <= e' < |s.exchanges| && e' != e && StepOf(s, e') != Succeeded
      ensures CallKey(s'.exchanges[e].call) != CallKey(s.exchanges[e'].call)
    {
      OtherKeys(s, s', e, e');
    }
    DistinctIdsKept(s, s', e);
  }

  lemma StepKeepsInv(s: State, a: Action)
    requires Inv(s) && Enabled(s, a)
    ensures Inv(Apply(s, a))
  {
    match a {
      case NewCall(sender, qos, id) =>
        NewCallSettles(s, sender, qos, id);
        InvFromParts(s, Apply(s, a), |s.exchanges|);
      case Caller(e, call) =>
        CallSettles(s, e, call);
        InvFromParts(s, Apply(s, a), e);
      case Receiver(e, handler) =>
        HandlerSettles(s, e, handler);
        InvFromParts(s, Apply(s, a), e);
      case Replier(e, reply) =>
        ReplySettles(s, e, reply);
        InvFromParts(s, Apply(s, a), e);
    }
  }

  /* ---------- Whole runs ---------- */

  lemma {:induction false} RunsKeepInv(states: seq<State>, actions: seq<Action>, k: nat)
    requires Execution(states, actions) && k < |states|
    ensures Inv(states[k])
  {
    if 0 < k {
      RunsKeepInv(states, actions, k - 1);
      StepKeepsInv(states[k - 1], actions[k - 1]);
    }
  }

  /** In every run, whatever a waiter takes from its queue is the packet its own exchange owes it. */
  lemma RepliesReachTheirExchange(states: seq<State>, actions: seq<Action>, k: nat)
    requires Execution(states, actions) && k < |actions|
    ensures var s, a := states[k], actions[k];
            && (a.Caller? && a.call.Take? ==>
                  a.call.from == a.e && PacketAt(s, a.call.from, a.call.n).packet.kind == StepOf(s, a.e).want)
            && (a.Receiver? && a.handler.TakeRel? ==>
                  a.handler.from == a.e && PacketAt(s, a.handler.from, a.handler.n).packet.kind == PUBREL)
            && (a.Replier? && a.reply.Push? ==>
                  var t := PacketAt(s, a.e, a.reply.n);
                  t.place.queue < |s.owners| && s.owners[t.place.queue] == Addressee(a.e, t.packet.kind))
  {
    var s, a := states[k], actions[k];
    RunsKeepInv(states, actions, k);
    if a.Caller? && a.call.Take? {
      TakesOwnReply(s, a.e, a.call.from, a.call.n);
    } else if a.Receiver? && a.handler.TakeRel? {
      TakesOwnRel(s, a.e, a.handler.h, a.handler.from, a.handler.n);
      KindTellsIndex(s.exchanges[a.e], a.handler.n);
    } else if a.Replier? {
      assert Linked(s, a.e);
    }
  }

  /** In every run a publish call is delivered at most once, and exactly once if it returned true. */
  lemma DeliveredOnce(states: seq<State>, actions: seq<Action>, k: nat, e: nat)
    requires Execution(states, actions) && k < |states| && e < |states[k].exchanges|
    ensures states[k].exchanges[e].deliveries <= 1
    ensures StepOf(states[k], e) == Succeeded ==> states[k].exchanges[e].deliveries == 1
  {
    RunsKeepInv(states, actions, k);
    assert Lockstep(states[k].exchanges[e]);
    if StepOf(states[k], e) == Succeeded {
      NothingLeft(states[k].exchanges[e]);
    }
  }

  /** The handler has neither got its PUBREL nor given it up. */
  predicate ExpectsRel(handler: Handler) {
    handler.step == Recorded || (handler.step == Delivered && handler.qos == 2) || handler.step.AwaitingRel?
  }

  /** In every run a reply in flight finds its wait entry unless the waiter has stopped waiting. */
  lemma RepliesAreAwaited(states: seq<State>, actions: seq<Action>, k: nat, e: nat, n: nat)
    requires Execution(states, actions) && k < |states| && HasPacket(states[k], e, n)
    requires PacketAt(states[k], e, n).place == OnWire
    ensures var s := states[k];
            var x, p := s.exchanges[e], PacketAt(s, e, n).packet;
            && ((x.call.step.Sent? || x.call.step.Waiting?) && x.call.step.want == p.kind ==>
                  Entry(s.waitReplies, s.owners, (p.dest, p.id), CallWait(e, p.kind)))
            && (p.kind == PUBREL && x.handlers != [] && ExpectsRel(x.handlers[0]) ==>
                  Entry(s.peerWaitReplies, s.owners, (p.dest, p.id), HandlerWait(e, 0)))
  {
    RunsKeepInv(states, actions, k);
    assert Lockstep(states[k].exchanges[e]) && Linked(states[k], e);
  }

  /** In every run a reply is dropped only after its waiter has given up on it. */
  lemma OnlyLateRepliesAreDropped(states: seq<State>, actions: seq<Action>, k: nat)
    requires Execution(states, actions) && k < |actions| && actions[k].Replier? && actions[k].reply.Route?
    ensures var s, a := states[k], actions[k];
            var x := s.exchanges[a.e];
            PacketAt(states[k + 1], a.e, a.reply.n).place == Dropped ==>
              if PacketAt(s, a.e, a.reply.n).packet.kind == PUBREL
              then x.handlers != [] && x.handlers[0].step == Aborted
              else x.call.step == Failed || (x.call.step == Sent(PUBREC) && AsksAck(x.call.qos))
  {
    var s, a := states[k], actions[k];
    RunsKeepInv(states, actions, k);
    var x := s.exchanges[a.e];
    assert Lockstep(x) && Linked(s, a.e);
    if x.call.step == Succeeded {
      NothingLeft(x);
    }
    WaitingOrOver(x, a.reply.n);
  }

  lemma WaitingOrOver(x: Exchange, n: nat)
    requires Lockstep(x) && n < |x.packets| && x.packets[n].place == OnWire && x.call.step != Succeeded
    ensures IsReply(x.packets[n].packet.kind) ==>
              InTable(x.call) || x.call.step == Failed || (x.call.step == Sent(PUBREC) && AsksAck(x.call.qos))
    ensures x.packets[n].packet.kind == PUBREL ==>
              |x.handlers| == 1 && (PeerInTable(x.handlers[0]) || x.handlers[0].step == Aborted)
  {
  }

  predicate IsReply(kind: Kind) {
    kind == PUBACK || kind == PUBREC || kind == PUBCOMP
  }

  /** In every run, two calls of one peer that have not succeeded never share a packet id. */
  lemma LiveIdsDiffer(states: seq<State>, actions: seq<Action>, k: nat, e: nat, e': nat)
    requires Execution(states, actions) && k < |states| && e < |states[k].exchanges| && e' < |states[k].exchanges|
    requires e != e' && CallKey(states[k].exchanges[e].call) == CallKey(states[k].exchanges[e'].call)
    ensures StepOf(states[k], e) == Succeeded || StepOf(states[k], e') == Succeeded
  {
    RunsKeepInv(states, actions, k);
  }

  /** A call whose QoS value has both bits set, such as a QoS 1 message that skips storage,
      never returns true and keeps its packet id for ever. */
  lemma BothBitsNeverSucceed(states: seq<State>, actions: seq<Action>, k: nat, e: nat)
    requires Execution(states, actions) && k < |states| && e < |states[k].exchanges|
    requires var qos := states[k].exchanges[e].call.qos; AsksAck(qos) && AsksRec(qos)
    ensures StepOf(states[k], e) != Succeeded && CallKey(states[k].exchanges[e].call) in states[k].outstanding
  {
    RunsKeepInv(states, actions, k);
    assert Lockstep(states[k].exchanges[e]) && Linked(states[k], e);
  }
}
