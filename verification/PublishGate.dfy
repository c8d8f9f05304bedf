/** The reader/writer discipline around the subscription maps (lib/myqtt-reader.c): publishers
    iterate the maps without a lock, announced only by the counter `publish_ops`; writers take the
    mutex `subs_m`, wait until the counter is zero, and change the maps. */
module PublishGate {
  import opened Wrappers

  datatype Thread =
    | Idle
    | PublishEnters            // wants the mutex to announce itself
    | PublishEntering          // holds the mutex, not counted yet
    | PublishEntered           // holds the mutex, counted
    | Iterating                // no mutex, reads the maps
    | PublishLeaves            // iteration over, wants the mutex
    | PublishLeaving           // holds the mutex, still counted
    | PublishLeft              // holds the mutex, no longer counted
    | WriteEnters              // wants the mutex
    | Checking                 // holds the mutex, tests the counter
    | Sleeping                 // in the timed wait, mutex released
    | Modifying                // holds the mutex, changes the maps
  {
    predicate HoldsMutex() {
      PublishEntering? || PublishEntered? || PublishLeaving? || PublishLeft? || Checking? || Modifying?
    }

    /** Between its increment and its decrement of the counter. */
    predicate Counted() {
      PublishEntered? || Iterating? || PublishLeaves? || PublishLeaving?
    }
  }

  /** Any number of threads around maps of any type. */
  datatype State<M> = State(mutex: Option<nat>, publishOps: int, maps: M, threads: seq<Thread>)

  datatype Action<M> =
    | StartPublish
    | StartWrite
    | Lock
    | Increment
    | Unlock
    | FinishIteration
    | Decrement
    | Check
    | Wake
    | Modify(maps: M)

  predicate Enabled<M>(s: State<M>, t: nat, a: Action<M>) {
    && t < |s.threads|
    && match a
       case StartPublish => s.threads[t] == Idle
       case StartWrite => s.threads[t] == Idle
       case Lock =>
         s.mutex == None && (s.threads[t] == PublishEnters || s.threads[t] == PublishLeaves || s.threads[t] == WriteEnters)
       case Increment => s.threads[t] == PublishEntering
       case Unlock => s.threads[t] == PublishEntered || s.threads[t] == PublishLeft || s.threads[t] == Modifying
       case FinishIteration => s.threads[t] == Iterating
       case Decrement => s.threads[t] == PublishLeaving
       case Check => s.threads[t] == Checking
       case Wake => s.mutex == None && s.threads[t] == Sleeping
       case Modify(_) => s.threads[t] == Modifying
  }

  function Apply<M>(s: State<M>, t: nat, a: Action<M>): State<M>
    requires Enabled(s, t, a)
  {
    match a
    case StartPublish => s.(threads := s.threads[t := PublishEnters])
    case StartWrite => s.(threads := s.threads[t := WriteEnters])
    case Lock =>
      var next := match s.threads[t] case PublishEnters => PublishEntering case PublishLeaves => PublishLeaving case _ => Checking;
      s.(mutex := Some(t), threads := s.threads[t := next])
    case Increment => s.(publishOps := s.publishOps + 1, threads := s.threads[t := PublishEntered])
    case Unlock => s.(mutex := None, threads := s.threads[t := if s.threads[t] == PublishEntered then Iterating else Idle])
    case FinishIteration => s.(threads := s.threads[t := PublishLeaves])
    case Decrement => s.(publishOps := s.publishOps - 1, threads := s.threads[t := PublishLeft])
    case Check =>
      if 0 < s.publishOps then s.(mutex := None, threads := s.threads[t := Sleeping])
      else s.(threads := s.threads[t := Modifying])
    case Wake => s.(mutex := Some(t), threads := s.threads[t := Checking])
    case Modify(maps) => s.(maps := maps)
  }

  predicate Initial<M>(s: State<M>) {
    s.mutex == None && s.publishOps == 0 && forall t :: 0 <= t < |s.threads| ==> s.threads[t] == Idle
  }

  function CountedThreads(threads: seq<Thread>): nat {
    if threads == [] then 0
    else (if threads[0].Counted() then 1 else 0) + CountedThreads(threads[1..])
  }

  lemma {:induction false} CountUpdate(threads: seq<Thread>, t: nat, next: Thread)
    requires t < |threads|
    ensures CountedThreads(threads[t := next]) ==
              CountedThreads(threads) - (if threads[t].Counted() then 1 else 0) + (if next.Counted() then 1 else 0)
  {
    if t == 0 {
      assert threads[t := next][1..] == threads[1..];
    } else {
      assert threads[t := next][1..] == threads[1..][t - 1 := next];
      CountUpdate(threads[1..], t - 1, next);
    }
  }

  lemma {:induction false} CountZero(threads: seq<Thread>)
    ensures CountedThreads(threads) == 0 <==> forall t :: 0 <= t < |threads| ==> !threads[t].Counted()
  {
    if threads != [] {
      CountZero(threads[1..]);
      assert forall t :: 0 < t < |threads| ==> threads[t] == threads[1..][t - 1];
      assert forall t :: 0 <= t < |threads| - 1 ==> threads[1..][t] == threads[t + 1];
    }
  }

  predicate Inv<M>(s: State<M>) {
    && s.publishOps == CountedThreads(s.threads) && (s.mutex.Some? ==> s.mutex.value < |s.threads|)
    && (forall t :: 0 <= t < |s.threads| ==> (s.threads[t].HoldsMutex() <==> s.mutex == Some(t)))
    && (forall t :: 0 <= t < |s.threads| && s.threads[t] == Modifying ==> s.publishOps == 0)
  }

  lemma StepKeepsInv<M>(s: State<M>, t: nat, a: Action<M>)
    requires Inv(s) && Enabled(s, t, a)
    ensures Inv(Apply(s, t, a))
  {
    var s' := Apply(s, t, a);
    if !a.Modify? {
      CountUpdate(s.threads, t, s'.threads[t]);
      assert s'.threads == s.threads[t := s'.threads[t]];
    }
  }

  /** A run of all threads: each step is one thread's. */
  ghost predicate Execution<M>(states: seq<State<M>>, steps: seq<(nat, Action<M>)>) {
    && |states| == |steps| + 1
    && Initial(states[0])
    && forall k :: 0 <= k < |steps| ==>
         Enabled(states[k], steps[k].0, steps[k].1) && states[k + 1] == Apply(states[k], steps[k].0, steps[k].1)
  }

  lemma {:induction false} RunsKeepInv<M>(states: seq<State<M>>, steps: seq<(nat, Action<M>)>, k: nat)
    requires Execution(states, steps) && k < |states|
    ensures Inv(states[k]) && |states[k].threads| == |states[0].threads|
  {
    if k == 0 {
      CountZero(states[0].threads);
    } else {
      RunsKeepInv(states, steps, k - 1);
      StepKeepsInv(states[k - 1], steps[k - 1].0, steps[k - 1].1);
    }
  }

  /** In every run the counter is the number of publishers between increment and decrement, and
      nobody changes the maps while one of them is there. */
  lemma CounterIsExact<M>(states: seq<State<M>>, steps: seq<(nat, Action<M>)>, k: nat)
    requires Execution(states, steps) && k < |states|
    ensures var s := states[k];
            && s.publishOps == CountedThreads(s.threads)
            && forall t, u :: 0 <= t < |s.threads| && 0 <= u < |s.threads| && s.threads[t].Counted() ==> s.threads[u] != Modifying
  {
    RunsKeepInv(states, steps, k);
    CountZero(states[k].threads);
  }

  /** In every run, a publisher sees the same maps from its increment to its decrement. */
  lemma {:induction false} PublishersSeeConstantMaps<M>(states: seq<State<M>>, steps: seq<(nat, Action<M>)>, t: nat, i: nat, j: nat)
    requires Execution(states, steps) && i <= j < |states| && t < |states[0].threads|
    requires forall k :: i <= k <= j ==> t < |states[k].threads| && states[k].threads[t].Counted()
    ensures states[j].maps == states[i].maps
  {
    if i < j {
      hide Apply, Enabled, CountedThreads, Initial;
      PublishersSeeConstantMaps(states, steps, t, i, j - 1);
      CounterIsExact(states, steps, j - 1);
      assert states[j - 1].threads[t].Counted();
      StepKeepsMaps(states[j - 1], steps[j - 1].0, steps[j - 1].1);
    }
  }

  lemma StepKeepsMaps<M>(s: State<M>, t: nat, a: Action<M>)
    requires Enabled(s, t, a) && forall u :: 0 <= u < |s.threads| ==> s.threads[u] != Modifying
    ensures Apply(s, t, a).maps == s.maps
  {
  }

  /** A writer that has the mutex and looks at the counter gets to modify exactly if no publisher is at the maps. */
  lemma WritersGetInExactly<M>(states: seq<State<M>>, steps: seq<(nat, Action<M>)>, k: nat)
    requires Execution(states, steps) && k < |steps| && steps[k].1 == Check
    ensures var (s, s', t) := (states[k], states[k + 1], steps[k].0);
            if forall u :: 0 <= u < |s.threads| ==> !s.threads[u].Counted()
            then s'.threads == s.threads[t := Modifying] && s'.mutex == Some(t)
            else s'.threads == s.threads[t := Sleeping] && s'.mutex == None
  {
    RunsKeepInv(states, steps, k);
    CountZero(states[k].threads);
  }

  /** The maps that the steps before the `k`th wrote last. */
  function LastWritten<M>(initial: M, steps: seq<(nat, Action<M>)>, k: nat): M
    requires k <= |steps|
  {
    if k == 0 then initial
    else if steps[k - 1].1.Modify? then steps[k - 1].1.maps
    else LastWritten(initial, steps, k - 1)
  }

  /** In every run the maps are those that a writer wrote last. */
  lemma {:induction false} MapsAreLastWritten<M>(states: seq<State<M>>, steps: seq<(nat, Action<M>)>, k: nat)
    requires Execution(states, steps) && k < |states|
    ensures states[k].maps == LastWritten(states[0].maps, steps, k)
  {
    if 0 < k {
      MapsAreLastWritten(states, steps, k - 1);
    }
  }

  function Next<M>(s: State<M>, t: nat, a: Action<M>): Option<State<M>> {
    if Enabled(s, t, a) then Some(Apply(s, t, a)) else None
  }

  /** The state after a thread has done a number of steps on its own, if it can. */
  function Does<M>(s: State<M>, t: nat, actions: seq<Action<M>>): Option<State<M>>
    decreases |actions|
  {
    if actions == [] then Some(s)
    else
      var next := Next(s, t, actions[0]);
      if next.None? then None else Does(next.value, t, actions[1..])
  }

  lemma DoesFirst<M>(s: State<M>, t: nat, a: Action<M>, rest: seq<Action<M>>)
    requires Enabled(s, t, a)
    ensures Does(s, t, [a] + rest) == Does(Apply(s, t, a), t, rest)
  {
    assert ([a] + rest)[1..] == rest;
  }

  lemma DoesInTurn<M>(s: State<M>, t: nat, first: seq<Action<M>>, second: seq<Action<M>>)
    requires Does(s, t, first).Some?
    ensures Does(s, t, first + second) == Does(Does(s, t, first).value, t, second)
    decreases |first|
  {
    hide Enabled, Apply;
    if first == [] {
      assert first + second == second;
    } else {
      assert (first + second)[1..] == first[1..] + second;
      DoesInTurn(Next(s, t, first[0]).value, t, first[1..], second);
    }
  }

  lemma DoesTwo<M>(s: State<M>, t: nat, a: Action<M>, b: Action<M>)
    requires Enabled(s, t, a) && Enabled(Apply(s, t, a), t, b)
    ensures Does(s, t, [a, b]) == Some(Apply(Apply(s, t, a), t, b))
  {
    hide Enabled, Apply;
    assert [a, b][1..] == [b] && [b][1..] == [];
    assert Does(s, t, [a, b]) == Does(Apply(s, t, a), t, [b]);
  }

  lemma Overwritten(threads: seq<Thread>, t: nat, x: Thread, y: Thread)
    requires t < |threads|
    ensures threads[t := x][t := y] == threads[t := y]
  {
  }

  /** With the mutex free and no publisher at the maps, a thread that starts to write, or sleeps, can write and be done. */
  lemma WriterGetsThrough<M>(s: State<M>, t: nat, maps: M)
    requires Inv(s) && s.mutex == None && t < |s.threads| && (s.threads[t] == Idle || s.threads[t] == Sleeping)
    requires forall u :: 0 <= u < |s.threads| ==> !s.threads[u].Counted()
    ensures Does(s, t, (if s.threads[t] == Sleeping then [Wake] else [StartWrite, Lock]) + [Check, Modify(maps)] + [Unlock])
         == Some(s.(maps := maps, threads := s.threads[t := Idle]))
  {
    CountZero(s.threads);
    var checking := s.(mutex := Some(t), threads := s.threads[t := Checking]);
    var written := checking.(maps := maps, threads := s.threads[t := Modifying]);
    if s.threads[t] == Sleeping {
      DoesFirst(s, t, Wake, []);
      assert Does(s, t, [Wake]) == Some(checking);
    } else {
      DoesTwo(s, t, StartWrite, Lock);
      Overwritten(s.threads, t, WriteEnters, Checking);
      assert Does(s, t, [StartWrite, Lock]) == Some(checking);
    }
    DoesTwo(checking, t, Check, Modify(maps));
    Overwritten(s.threads, t, Checking, Modifying);
    assert Does(checking, t, [Check, Modify(maps)]) == Some(written);
    DoesFirst(written, t, Unlock, []);
    Overwritten(s.threads, t, Modifying, Idle);
    var first := if s.threads[t] == Sleeping then [Wake] else [StartWrite, Lock];
    DoesInTurn(s, t, first, [Check, Modify(maps)]);
    DoesInTurn(s, t, first + [Check, Modify(maps)], [Unlock]);
  }

  /** With the mutex free, a thread can publish: it is counted while it iterates and leaves the counter as it was. */
  lemma PublisherGetsThrough<M>(s: State<M>, t: nat)
    requires s.mutex == None && t < |s.threads| && s.threads[t] == Idle
    ensures var inside := s.(publishOps := s.publishOps + 1, threads := s.threads[t := Iterating]);
            && Does(s, t, [StartPublish, Lock] + [Increment, Unlock]) == Some(inside)
            && Does(inside, t, [FinishIteration, Lock] + [Decrement, Unlock]) == Some(s)
  {
    var entering := s.(mutex := Some(t), threads := s.threads[t := PublishEntering]);
    var inside := s.(publishOps := s.publishOps + 1, threads := s.threads[t := Iterating]);
    var leaving := inside.(mutex := Some(t), threads := s.threads[t := PublishLeaving]);
    DoesTwo(s, t, StartPublish, Lock);
    Overwritten(s.threads, t, PublishEnters, PublishEntering);
    assert Does(s, t, [StartPublish, Lock]) == Some(entering);
    DoesTwo(entering, t, Increment, Unlock);
    Overwritten(s.threads, t, PublishEntering, PublishEntered);
    Overwritten(s.threads, t, PublishEntered, Iterating);
    assert Does(entering, t, [Increment, Unlock]) == Some(inside);
    DoesInTurn(s, t, [StartPublish, Lock], [Increment, Unlock]);
    DoesTwo(inside, t, FinishIteration, Lock);
    Overwritten(s.threads, t, Iterating, PublishLeaves);
    Overwritten(s.threads, t, PublishLeaves, PublishLeaving);
    assert Does(inside, t, [FinishIteration, Lock]) == Some(leaving);
    DoesTwo(leaving, t, Decrement, Unlock);
    Overwritten(s.threads, t, PublishLeaving, PublishLeft);
    Overwritten(s.threads, t, PublishLeft, Idle);
    assert s.threads[t := Idle] == s.threads;
    assert Does(leaving, t, [Decrement, Unlock]) == Some(s);
    DoesInTurn(inside, t, [FinishIteration, Lock], [Decrement, Unlock]);
  }

  /** In every run, as long as a thread is not idle, some thread that is not can go on, and not only by writing again. */
  lemma NoDeadlock<M>(states: seq<State<M>>, steps: seq<(nat, Action<M>)>, k: nat, t: nat)
    requires Execution(states, steps) && k < |states| && t < |states[k].threads| && states[k].threads[t] != Idle
    ensures exists u: nat, a :: Enabled(states[k], u, a) && states[k].threads[u] != Idle && !a.Modify?
  {
    RunsKeepInv(states, steps, k);
    var s := states[k];
    var u := if s.mutex.Some? && s.mutex.value < |s.threads| then s.mutex.value else t;
    var thread := s.threads[u];
    var a: Action<M> :=
      match thread
      case PublishEntering => Increment
      case PublishEntered => Unlock
      case Iterating => FinishIteration
      case PublishLeaving => Decrement
      case PublishLeft => Unlock
      case Checking => Check
      case Sleeping => Wake
      case Modifying => Unlock
      case _ => Lock;
    assert Enabled(s, u, a);
  }
}
