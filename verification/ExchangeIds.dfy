/** Which packet ids the exchange machine holds, and when one can be taken again (lib/myqtt-conn.c). */
module ExchangeIds {
  import opened Exchange
  import opened Qos

  /** A call with this peer and id has not returned true. */
  predicate HasOwner(s: State, key: Key) {
    exists e :: 0 <= e < |s.exchanges| && Owns(s, e, key)
  }

  predicate Owns(s: State, e: nat, key: Key)
    requires HasCall(s, e)
  {
    CallKey(s.exchanges[e].call) == key && StepOf(s, e) != Succeeded
  }

  predicate AllOwned(s: State) {
    forall key :: key in s.outstanding ==> HasOwner(s, key)
  }

  /** The id of a call that returns true is released in the same step. */
  lemma SuccessReleases(s: State, e: nat, a: CallAction)
    requires CallEnabled(s, e, a) && (a.Take? ==> a.from == e) && StepOf(s, e) != Succeeded
    ensures var s' := CallApply(s, e, a);
            HasCall(s', e) && (StepOf(s', e) == Succeeded ==> CallKey(s.exchanges[e].call) !in s'.outstanding)
  {
  }

  lemma OwnersKept(s: State, s': State, e: nat)
    requires AllOwned(s) && Local(s, s', e) && HasCall(s, e)
    requires StepOf(s', e) == Succeeded ==> CallKey(s'.exchanges[e].call) !in s'.outstanding
    ensures AllOwned(s')
  {
    forall key | key in s'.outstanding ensures HasOwner(s', key) {
      if key == CallKey(s'.exchanges[e].call) {
        assert Owns(s', e, key);
      } else {
        var f :| 0 <= f < |s.exchanges| && Owns(s, f, key);
        assert Owns(s', f, key);
      }
    }
  }

  lemma OtherStepsKeepSuccess(s: State, e: nat, a: Action)
    requires Inv(s) && Enabled(s, a) && HasCall(s, e)
    requires (a.Receiver? && a.e == e) || (a.Replier? && a.e == e)
    ensures var s' := Apply(s, a);
            HasCall(s', e) && StepOf(s', e) == StepOf(s, e) && s'.outstanding == s.outstanding
  {
    hide Inv;
    if a.Receiver? && a.handler.TakeRel? {
      assert Inv(s);
      TakesOwnRel(s, e, a.handler.h, a.handler.from, a.handler.n);
    }
  }

  lemma StepKeepsOwners(s: State, a: Action)
    requires Inv(s) && AllOwned(s) && Enabled(s, a)
    ensures AllOwned(Apply(s, a))
  {
    hide Inv, Enabled, Apply, AllOwned, Local;
    match a {
      case NewCall(sender, qos, id) => NewCallOwns(s, sender, qos, id);
      case Caller(e, call) => CallKeepsOwners(s, e, call);
      case Receiver(e, handler) =>
        assert HasCall(s, e) && HandlerEnabled(s, e, handler) && Apply(s, a) == HandlerApply(s, e, handler) by {
          ReceiverStep(s, e, handler);
        }
        HandlerSettles(s, e, handler);
        OtherStepsKeepOwners(s, e, a);
      case Replier(e, reply) =>
        assert HasCall(s, e) && ReplyEnabled(s, e, reply) && Apply(s, a) == ReplyApply(s, e, reply) by {
          ReplierStep(s, e, reply);
        }
        ReplySettles(s, e, reply);
        OtherStepsKeepOwners(s, e, a);
    }
  }

  lemma ReceiverStep(s: State, e: nat, a: HandlerAction)
    requires Enabled(s, Receiver(e, a))
    ensures HasCall(s, e) && HandlerEnabled(s, e, a) && Apply(s, Receiver(e, a)) == HandlerApply(s, e, a)
  {
  }

  lemma ReplierStep(s: State, e: nat, a: ReplyAction)
    requires Enabled(s, Replier(e, a))
    ensures HasCall(s, e) && ReplyEnabled(s, e, a) && Apply(s, Replier(e, a)) == ReplyApply(s, e, a)
  {
  }

  lemma NewCallOwns(s: State, sender: Peer, qos: nat, id: nat)
    requires AllOwned(s) && Enabled(s, NewCall(sender, qos, id))
    ensures AllOwned(Apply(s, NewCall(sender, qos, id)))
  {
    var s' := Apply(s, NewCall(sender, qos, id));
    forall key | key in s'.outstanding ensures HasOwner(s', key) {
      if key == (sender, id) {
        assert Owns(s', |s.exchanges|, key);
      } else {
        var f :| 0 <= f < |s.exchanges| && Owns(s, f, key);
        assert Owns(s', f, key);
      }
    }
  }

  lemma CallKeepsOwners(s: State, e: nat, a: CallAction)
    requires Inv(s) && AllOwned(s) && Enabled(s, Caller(e, a))
    ensures AllOwned(Apply(s, Caller(e, a)))
  {
    hide Inv, AllOwned, CallApply, Local, Lockstep, Linked, OwnEntries;
    CallSettles(s, e, a);
    if a.Take? {
      TakesOwnReply(s, e, a.from, a.n);
    }
    SuccessReleases(s, e, a);
    SameKey(s, CallApply(s, e, a), e);
    OwnersKept(s, CallApply(s, e, a), e);
  }

  lemma SameKey(s: State, s': State, e: nat)
    requires Local(s, s', e) && HasCall(s, e)
    ensures CallKey(s'.exchanges[e].call) == CallKey(s.exchanges[e].call)
  {
  }

  lemma OtherStepsKeepOwners(s: State, e: nat, a: Action)
    requires Inv(s) && AllOwned(s) && Enabled(s, a) && HasCall(s, e)
    requires (a.Receiver? && a.e == e) || (a.Replier? && a.e == e)
    requires Settled(s, Apply(s, a), e)
    ensures AllOwned(Apply(s, a))
  {
    hide Inv, AllOwned, Enabled, Apply, Local, Lockstep, Linked, OwnEntries;
    OtherStepsKeepSuccess(s, e, a);
    OwnersKept(s, Apply(s, a), e);
  }

  lemma {:induction false} RunsKeepOwners(states: seq<State>, actions: seq<Action>, k: nat)
    requires Execution(states, actions) && k < |states|
    ensures AllOwned(states[k])
  {
    hide Apply, Enabled, HasOwner;
    if 0 < k {
      RunsKeepInv(states, actions, k - 1);
      RunsKeepOwners(states, actions, k - 1);
      StepKeepsOwners(states[k - 1], actions[k - 1]);
    }
  }

  /** In every run a peer holds an id exactly as long as a call of its with that id has not returned true. */
  lemma OutstandingExactly(states: seq<State>, actions: seq<Action>, k: nat, key: Key)
    requires Execution(states, actions) && k < |states|
    ensures key in states[k].outstanding <==> HasOwner(states[k], key)
  {
    var s := states[k];
    RunsKeepInv(states, actions, k);
    RunsKeepOwners(states, actions, k);
    if HasOwner(s, key) {
      var e :| 0 <= e < |s.exchanges| && Owns(s, e, key);
      assert Linked(s, e);
    }
  }

  /** In every run a call can be made with an id exactly if all calls of that peer with it have returned true. */
  lemma TakenAgainExactly(states: seq<State>, actions: seq<Action>, k: nat, sender: Peer, qos: nat, id: nat)
    requires Execution(states, actions) && k < |states| && (AsksAck(qos) || AsksRec(qos))
    ensures var s := states[k];
            Enabled(s, NewCall(sender, qos, id)) <==>
              forall e :: 0 <= e < |s.exchanges| && CallKey(s.exchanges[e].call) == (sender, id) ==>
                StepOf(s, e) == Succeeded
  {
    var s := states[k];
    OutstandingExactly(states, actions, k, (sender, id));
    if e :| 0 <= e < |s.exchanges| && CallKey(s.exchanges[e].call) == (sender, id) && StepOf(s, e) != Succeeded {
      assert Owns(s, e, (sender, id));
    }
  }
}
