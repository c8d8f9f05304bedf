/** When a waiting call or handler of the exchange machine may give up (lib/myqtt-reader.c). */
module ExchangeWaits {
  import opened Exchange
  import opened Qos

  /* Every queue has an owner of its own. */

  /** The call is past the point where it installs a wait for `want`. */
  predicate Past(call: Call, want: Kind) {
    if want == FirstReply(call.qos) then call.step != Allocated
    else want == PUBCOMP && (call.step == Succeeded || call.step == Failed || Want(call.step) == PUBCOMP)
  }

  predicate Installed(s: State, owner: Owner) {
    match owner
    case CallWait(e, want) => HasCall(s, e) && Past(s.exchanges[e].call, want)
    case HandlerWait(e, h) => HasHandler(s, e, h) && HandlerAt(s, e, h).step != Started
  }

  ghost predicate OwnersDiffer(s: State) {
    && (forall i :: 0 <= i < |s.owners| ==> Installed(s, s.owners[i]))
    && (forall i, j :: 0 <= i < j < |s.owners| ==> s.owners[i] != s.owners[j])
  }

  lemma CallKeepsInstalled(s: State, e: nat, a: CallAction, owner: Owner)
    requires CallEnabled(s, e, a) && Installed(s, owner)
    ensures Installed(CallApply(s, e, a), owner)
  {
  }

  lemma HandlerKeepsInstalled(s: State, e: nat, a: HandlerAction, owner: Owner)
    requires HandlerEnabled(s, e, a) && Installed(s, owner)
    ensures Installed(HandlerApply(s, e, a), owner)
  {
  }

  lemma ReplyKeepsInstalled(s: State, e: nat, a: ReplyAction, owner: Owner)
    requires ReplyEnabled(s, e, a) && Installed(s, owner)
    ensures Installed(ReplyApply(s, e, a), owner)
  {
  }

  lemma NewIsInstalled(s: State, a: Action)
    requires Enabled(s, a)
    ensures var s' := Apply(s, a);
            && s.owners <= s'.owners <= s.owners + [if s'.owners == s.owners then CallWait(0, PUBACK) else s'.owners[|s.owners|]]
            && (s'.owners != s.owners ==> !Installed(s, s'.owners[|s.owners|]) && Installed(s', s'.owners[|s.owners|]))
  {
  }

  lemma StepKeepsInstalled(s: State, a: Action, owner: Owner)
    requires Enabled(s, a) && Installed(s, owner)
    ensures Installed(Apply(s, a), owner)
  {
    hide CallApply, HandlerApply, ReplyApply;
    match a {
      case NewCall(_, _, _) =>
      case Caller(e, call) => CallKeepsInstalled(s, e, call, owner);
      case Receiver(e, handler) => HandlerKeepsInstalled(s, e, handler, owner);
      case Replier(e, reply) => ReplyKeepsInstalled(s, e, reply, owner);
    }
  }

  lemma StepKeepsOwnersDifferent(s: State, a: Action)
    requires OwnersDiffer(s) && Enabled(s, a)
    ensures OwnersDiffer(Apply(s, a))
  {
    hide Apply, Enabled, Installed;
    var s' := Apply(s, a);
    NewIsInstalled(s, a);
    forall i | 0 <= i < |s.owners| ensures Installed(s', s.owners[i]) {
      StepKeepsInstalled(s, a, s.owners[i]);
    }
  }

  lemma {:induction false} RunsKeepOwnersDifferent(states: seq<State>, actions: seq<Action>, k: nat)
    requires Execution(states, actions) && k < |states|
    ensures OwnersDiffer(states[k])
  {
    hide Apply, Enabled, Installed;
    if 0 < k {
      RunsKeepOwnersDifferent(states, actions, k - 1);
      StepKeepsOwnersDifferent(states[k - 1], actions[k - 1]);
    }
  }

  /* Giving up. */

  /** The reply that a call waits for is in some queue. */
  predicate ReplyQueued(s: State, e: nat, n: nat, kind: Kind) {
    HasPacket(s, e, n) && PacketAt(s, e, n).packet.kind == kind && PacketAt(s, e, n).place.Queued?
  }

  /**
   * In every run a call that waits gives up only while the reply to it is not in its queue; once it is, the call takes
   * it.
   */
  lemma CallGivesUpExactly(states: seq<State>, actions: seq<Action>, k: nat, e: nat)
    requires Execution(states, actions) && k < |states| && HasCall(states[k], e) && StepOf(states[k], e).Waiting?
    ensures var s := states[k];
            var want := StepOf(s, e).want;
            && (CallEnabled(s, e, GiveUp) <==> forall n: nat :: !ReplyQueued(s, e, n, want))
            && forall n: nat :: ReplyQueued(s, e, n, want) ==> CallEnabled(s, e, Take(e, n))
  {
    hide Inv, OwnersDiffer, Enabled, Apply, CallEnabled, Initial;
    RunsKeepInv(states, actions, k);
    RunsKeepOwnersDifferent(states, actions, k);
    CallGivesUp(states[k], e);
  }

  lemma CallGivesUp(s: State, e: nat)
    requires Inv(s) && OwnersDiffer(s) && HasCall(s, e) && StepOf(s, e).Waiting?
    ensures CallEnabled(s, e, GiveUp) <==> forall n: nat :: !ReplyQueued(s, e, n, StepOf(s, e).want)
    ensures forall n: nat :: ReplyQueued(s, e, n, StepOf(s, e).want) ==> CallEnabled(s, e, Take(e, n))
  {
    hide Inv, OwnersDiffer;
    var (want, queue) := (StepOf(s, e).want, StepOf(s, e).queue);
    forall f: nat, n: nat | HasPacket(s, f, n) && PacketAt(s, f, n).place.Queued?
      ensures PacketAt(s, f, n).place == Queued(queue) <==> f == e && PacketAt(s, f, n).packet.kind == want
    {
      QueueOfCall(s, e, f, n);
    }
    if QueueEmpty(s, queue) {
      forall n: nat ensures !ReplyQueued(s, e, n, want) {
        assert HasPacket(s, e, n) ==> s.exchanges[e].packets[n].place != Queued(queue);
      }
    }
    if forall n: nat :: !ReplyQueued(s, e, n, want) {
      forall f, n | 0 <= f < |s.exchanges| && 0 <= n < |s.exchanges[f].packets|
        ensures s.exchanges[f].packets[n].place != Queued(queue)
      {
        assert HasPacket(s, f, n) && !ReplyQueued(s, e, n, want);
      }
    }
  }

  lemma QueueOfCall(s: State, e: nat, f: nat, n: nat)
    requires Inv(s) && OwnersDiffer(s) && HasCall(s, e) && StepOf(s, e).Waiting?
    requires HasPacket(s, f, n) && PacketAt(s, f, n).place.Queued?
    ensures PacketAt(s, f, n).place.queue == StepOf(s, e).queue <==>
              f == e && PacketAt(s, f, n).packet.kind == StepOf(s, e).want
  {
    assert Lockstep(s.exchanges[e]) && Linked(s, e) && Linked(s, f);
  }

  /** In every run a handler that waits gives up only while the PUBREL is not in its queue; once it is, it takes it. */
  lemma HandlerGivesUpExactly(states: seq<State>, actions: seq<Action>, k: nat, e: nat, h: nat)
    requires Execution(states, actions) && k < |states|
    requires HasHandler(states[k], e, h) && HandlerAt(states[k], e, h).step.AwaitingRel?
    ensures var s := states[k];
            && (HandlerEnabled(s, e, GiveUpRel(h)) <==> forall n: nat :: !ReplyQueued(s, e, n, PUBREL))
            && forall n: nat :: ReplyQueued(s, e, n, PUBREL) ==> HandlerEnabled(s, e, TakeRel(h, e, n))
  {
    hide Inv, OwnersDiffer, Enabled, Apply, HandlerEnabled, Initial;
    RunsKeepInv(states, actions, k);
    RunsKeepOwnersDifferent(states, actions, k);
    HandlerGivesUp(states[k], e, h);
  }

  lemma HandlerGivesUp(s: State, e: nat, h: nat)
    requires Inv(s) && OwnersDiffer(s) && HasHandler(s, e, h) && HandlerAt(s, e, h).step.AwaitingRel?
    ensures HandlerEnabled(s, e, GiveUpRel(h)) <==> forall n: nat :: !ReplyQueued(s, e, n, PUBREL)
    ensures forall n: nat :: ReplyQueued(s, e, n, PUBREL) ==> HandlerEnabled(s, e, TakeRel(h, e, n))
  {
    hide Inv, OwnersDiffer;
    var queue := HandlerAt(s, e, h).step.queue;
    forall f: nat, n: nat | HasPacket(s, f, n) && PacketAt(s, f, n).place.Queued?
      ensures PacketAt(s, f, n).place == Queued(queue) <==> f == e && PacketAt(s, f, n).packet.kind == PUBREL
    {
      QueueOfHandler(s, e, h, f, n);
    }
    if QueueEmpty(s, queue) {
      forall n: nat ensures !ReplyQueued(s, e, n, PUBREL) {
        assert HasPacket(s, e, n) ==> s.exchanges[e].packets[n].place != Queued(queue);
      }
    }
    if forall n: nat :: !ReplyQueued(s, e, n, PUBREL) {
      forall f, n | 0 <= f < |s.exchanges| && 0 <= n < |s.exchanges[f].packets|
        ensures s.exchanges[f].packets[n].place != Queued(queue)
      {
        assert HasPacket(s, f, n) && !ReplyQueued(s, e, n, PUBREL);
      }
    }
  }

  lemma QueueOfHandler(s: State, e: nat, h: nat, f: nat, n: nat)
    requires Inv(s) && OwnersDiffer(s) && HasHandler(s, e, h) && HandlerAt(s, e, h).step.AwaitingRel?
    requires HasPacket(s, f, n) && PacketAt(s, f, n).place.Queued?
    ensures PacketAt(s, f, n).place.queue == HandlerAt(s, e, h).step.queue <==>
              f == e && PacketAt(s, f, n).packet.kind == PUBREL
  {
    assert Lockstep(s.exchanges[e]) && Linked(s, e) && Linked(s, f);
    AwaitsInQoS2(s.exchanges[e], h);
  }

  /* What giving up leaves behind. */

  /** The state after a call's wait has timed out. */
  function TimedOut(s: State, e: nat): State
    requires CallEnabled(s, e, GiveUp)
  {
    CallApply(CallApply(s, e, GiveUp), e, Clear)
  }

  /** A call whose wait times out leaves no entry and has failed, and its id is not given back. */
  lemma CallTimesOut(s: State, e: nat)
    requires CallEnabled(s, e, GiveUp)
    ensures var (s', call) := (TimedOut(s, e), s.exchanges[e].call);
            && s'.waitReplies == s.waitReplies - {CallKey(call)} && s'.outstanding == s.outstanding
            && HasCall(s', e) && s'.exchanges[e].packets == s.exchanges[e].packets
            && StepOf(s', e) == if call.step.want == PUBACK && AsksRec(call.qos) then Sent(PUBREC) else Failed
  {
  }

  /** A handler whose wait times out leaves no entry and is over; what it has delivered stays delivered. */
  lemma HandlerTimesOut(s: State, e: nat, h: nat)
    requires HandlerEnabled(s, e, GiveUpRel(h))
    ensures var s1 := HandlerApply(s, e, GiveUpRel(h));
            && HandlerEnabled(s1, e, ClearRel(h))
            && var s2 := HandlerApply(s1, e, ClearRel(h));
               && HandlerKey(HandlerAt(s, e, h)) !in s2.peerWaitReplies && HandlerAt(s2, e, h).step == Aborted
               && s2.exchanges[e].deliveries == s.exchanges[e].deliveries && s2.exchanges[e].packets == s.exchanges[e].packets
  {
  }
}
