/** What holds of the dispatcher throughout every interleaving of its steps, and what does not outlive
    its first shutdown. */
module DispatcherSafety {
  import opened Option
  import opened Dispatcher

  /** The state after `actions`, if each of them can be taken when it is its turn. */
  function Execute(s: State, actions: seq<Action>): Option<State> {
    if actions == [] then Some(s)
    else
      var before := Execute(s, actions[..|actions| - 1]);
      var a := actions[|actions| - 1];
      if before.Some? && Enabled(before.value, a) then Some(Do(before.value, a)) else None
  }

  ghost predicate Reachable(s: State) {
    exists maximum, actions :: Execute(Initial(maximum), actions) == Some(s)
  }

  lemma InitialInvariant(maximum: nat)
    ensures Invariant(Initial(maximum))
  {
  }

  lemma {:induction false} RunKeepsInvariant(s: State, actions: seq<Action>)
    requires Invariant(s) && Execute(s, actions).Some?
    ensures Invariant(Execute(s, actions).value)
  {
    hide Invariant;
    if actions != [] {
      var earlier := actions[..|actions| - 1];
      RunKeepsInvariant(s, earlier);
      StepKeepsInvariant(Execute(s, earlier).value, actions[|actions| - 1]);
    }
  }

  lemma ReachableInvariant(s: State)
    requires Reachable(s)
    ensures Invariant(s)
  {
    var maximum, actions :| Execute(Initial(maximum), actions) == Some(s);
    hide Execute, Initial;
    InitialInvariant(maximum);
    hide Invariant;
    RunKeepsInvariant(Initial(maximum), actions);
  }

  // ----- Events -----------------------------------------------------------------------------------

  /** Every event is in exactly one place: once in the queue, with one thread, finished, or dropped.  So
      no event is handled by two workers at once. */
  lemma EventsAreInOnePlace(s: State)
    requires Reachable(s)
    ensures forall t, u :: HandOf(PcOf(s, t)).Some? && HandOf(PcOf(s, t)) == HandOf(PcOf(s, u)) ==> t == u
    ensures forall t :: HandOf(PcOf(s, t)).Some? ==> HandOf(PcOf(s, t)).value !in s.queue
    ensures forall i, j :: 0 <= i < j < |s.queue| ==> s.queue[i] != s.queue[j]
    ensures forall e :: e in s.queue <==> e in s.place && s.place[e].Queued?
    ensures forall t, e :: HandOf(PcOf(s, t)) == Some(e) <==> e in s.place && s.place[e] == InHand(t)
  {
    ReachableInvariant(s);
    forall t | HandOf(PcOf(s, t)).Some?
      ensures var e := HandOf(PcOf(s, t)).value; e in s.place && s.place[e] == InHand(t) && e !in s.queue
    {
      AtHand(s, t);
    }
  }

  /** No event disappears; what is finished or dropped remains so; an event is finished only by the
      worker that runs it, and is dropped only while one of the shutdown flags is set. */
  lemma NothingDisappears(s: State, a: Action, e: Event)
    requires Reachable(s) && Enabled(s, a) && e in s.place
    ensures e in Do(s, a).place
    ensures s.place[e].Finished? || s.place[e].Dropped? ==> Do(s, a).place[e] == s.place[e]
    ensures Do(s, a).place[e].Finished? && !s.place[e].Finished? ==>
      a.End? && !a.ending.Retrigger? && PcOf(s, a.t) == Running(e)
    ensures Do(s, a).place[e].Dropped? && !s.place[e].Dropped? ==> s.shutdown || s.queueShutdown
  {
    ReachableInvariant(s);
    hide Reachable, Execute;
    if IsControl(a) {
      hide Do, Invariant;
      AfterControlStep(s, a);
    } else {
      hide WorkersRight, ControlRight, QueueRight, PlacesRight;
      if a.TestShutdown? || a.TestQueue? || a.Push? || a.End? { AtHand(s, a.t); }
      assert a.Pop? && s.queue != [] ==> s.place[s.queue[0]].Queued? by { assert QueueRight(s); }
    }
  }

  /** The flag of the queue is set exactly by the stops that there have been: it is never reset. */
  lemma {:induction false} QueueRemembersStop(maximum: nat, actions: seq<Action>)
    requires Execute(Initial(maximum), actions).Some?
    ensures Execute(Initial(maximum), actions).value.queueShutdown <==> StopQueue in actions
  {
    if actions != [] {
      var earlier, a := actions[..|actions| - 1], actions[|actions| - 1];
      QueueRemembersStop(maximum, earlier);
      assert actions == earlier + [a];
      FlagIsSetByStop(Execute(Initial(maximum), earlier).value, a);
      hide Do, Enabled;
    }
  }

  lemma FlagIsSetByStop(s: State, a: Action)
    requires Enabled(s, a)
    ensures Do(s, a).queueShutdown <==> s.queueShutdown || a == StopQueue
  {
  }

  /** As long as no stop has shut the queue down, an event is dropped only while the dispatcher is being
      shut down. */
  lemma NoDropBeforeFirstStop(maximum: nat, actions: seq<Action>, a: Action, e: Event)
    requires Execute(Initial(maximum), actions).Some? && StopQueue !in actions
    requires var s := Execute(Initial(maximum), actions).value;
      Enabled(s, a) && e in s.place && e in Do(s, a).place && !s.place[e].Dropped? && Do(s, a).place[e].Dropped?
    ensures Execute(Initial(maximum), actions).value.shutdown
  {
    var s := Execute(Initial(maximum), actions).value;
    QueueRemembersStop(maximum, actions);
    IsReachable(maximum, actions, s);
    hide Do, Enabled, Execute, Reachable;
    NothingDisappears(s, a, e);
  }

  /** An event is dropped at exactly two places: where a thread that has it finds one of the two flags
      set.  So clearing the queue never drops anything. */
  lemma DroppedExactlyAtAFlag(s: State, a: Action, e: Event)
    requires Reachable(s) && Enabled(s, a) && e in s.place && !s.place[e].Dropped?
    ensures e in Do(s, a).place
    ensures Do(s, a).place[e].Dropped? <==>
      || (a.TestShutdown? && s.shutdown && HandOf(PcOf(s, a.t)) == Some(e))
      || (a.TestQueue? && s.queueShutdown && HandOf(PcOf(s, a.t)) == Some(e))
  {
    ReachableInvariant(s);
    hide Reachable, Execute;
    if IsControl(a) {
      hide Do, Invariant;
      AfterControlStep(s, a);
    } else if a.TestShutdown? || a.TestQueue? {
      AtHand(s, a.t);
      hide Invariant, EventsRight;
    } else {
      DroppedAtNothingElse(s, a, e);
      hide Do, Enabled, Invariant, EventsRight;
    }
  }

  lemma DroppedAtNothingElse(s: State, a: Action, e: Event)
    requires Invariant(s) && Enabled(s, a) && e in s.place && !s.place[e].Dropped?
    requires !IsControl(a) && !a.TestShutdown? && !a.TestQueue?
    ensures e in Do(s, a).place && !Do(s, a).place[e].Dropped?
  {
    hide Invariant, EventsRight;
  }

  /** In any run: the thread that looks at the queue's flag has its event dropped exactly when some stop
      has shut the queue down before, and goes on to put it into the queue otherwise. */
  lemma DroppedAtTheQueueExactlyAfterStop(maximum: nat, actions: seq<Action>, t: Thread)
    requires Execute(Initial(maximum), actions).Some?
    requires Enabled(Execute(Initial(maximum), actions).value, TestQueue(t))
    ensures var s := Execute(Initial(maximum), actions).value;
      var e, n := PcOf(s, t).e, Do(s, TestQueue(t));
      && e in n.place
      && (n.place[e].Dropped? <==> StopQueue in actions)
      && (StopQueue !in actions ==> Enabled(n, Push(t)) && e in Do(n, Push(t)).queue)
  {
    var s := Execute(Initial(maximum), actions).value;
    QueueRemembersStop(maximum, actions);
    IsReachable(maximum, actions, s);
    ReachableInvariant(s);
    hide Execute, Reachable;
    AtHand(s, t);
    hide Invariant, EventsRight;
  }

  /** An event that is triggered while the dispatcher is not being shut down gets into the queue exactly
      when no stop has ever shut the queue down; otherwise it is dropped. */
  lemma TriggerQueuesUnlessStoppedBefore(s: State, t: Thread, e: Event)
    requires Enabled(s, Trigger(t, e)) && !s.shutdown
    ensures Execute(s, [Trigger(t, e), TestShutdown(t), TestQueue(t)]).Some?
    ensures s.queueShutdown ==>
      var n := Execute(s, [Trigger(t, e), TestShutdown(t), TestQueue(t)]).value; e in n.place && n.place[e].Dropped?
    ensures !s.queueShutdown ==>
      && Execute(s, [Trigger(t, e), TestShutdown(t), TestQueue(t), Push(t)]).Some?
      && Execute(s, [Trigger(t, e), TestShutdown(t), TestQueue(t), Push(t)]).value.queue == s.queue + [e]
  {
    var a, b, c, d := Trigger(t, e), TestShutdown(t), TestQueue(t), Push(t);
    assert [] + [a] == [a] && [a] + [b] == [a, b] && [a, b] + [c] == [a, b, c] && [a, b, c] + [d] == [a, b, c, d];
    assert Execute(s, []) == Some(s);
    hide Execute;
    var s1, s2, s3 := TriggerSteps(s, t, e);
    hide Do, Enabled;
    OneMore(s, [], s, a);
    OneMore(s, [a], s1, b);
    OneMore(s, [a, b], s2, c);
    if !s.queueShutdown { OneMore(s, [a, b, c], s3, d); }
  }

  lemma TriggerSteps(s: State, t: Thread, e: Event) returns (s1: State, s2: State, s3: State)
    requires Enabled(s, Trigger(t, e)) && !s.shutdown
    ensures s1 == Do(s, Trigger(t, e)) && Enabled(s1, TestShutdown(t)) && s2 == Do(s1, TestShutdown(t))
    ensures Enabled(s2, TestQueue(t)) && s3 == Do(s2, TestQueue(t))
    ensures if s.queueShutdown then e in s3.place && s3.place[e].Dropped?
            else Enabled(s3, Push(t)) && Do(s3, Push(t)).queue == s.queue + [e]
  {
    s1 := Do(s, Trigger(t, e));
    s2 := Do(s1, TestShutdown(t));
    s3 := Do(s2, TestQueue(t));
  }

  lemma StepIsReachable(s: State, a: Action)
    requires Reachable(s) && Enabled(s, a)
    ensures Reachable(Do(s, a))
  {
    var maximum, actions :| Execute(Initial(maximum), actions) == Some(s);
    hide Execute, Initial, Do, Enabled;
    OneMore(Initial(maximum), actions, s, a);
    IsReachable(maximum, actions + [a], Do(s, a));
  }

  /** An event that is finished stays so throughout any run. */
  lemma {:induction false} FinishedForGood(s: State, actions: seq<Action>, e: Event)
    requires Reachable(s) && e in s.place && s.place[e].Finished? && Execute(s, actions).Some?
    ensures Reachable(Execute(s, actions).value)
    ensures var n := Execute(s, actions).value; e in n.place && n.place[e].Finished?
  {
    hide Reachable;
    if actions != [] {
      var earlier, a := actions[..|actions| - 1], actions[|actions| - 1];
      FinishedForGood(s, earlier, e);
      var before := Execute(s, earlier).value;
      hide Do, Enabled;
      StepIsReachable(before, a);
      NothingDisappears(before, a, e);
    }
  }

  /** An operation that has thrown is not tried again, whether or not its event has caught the error. */
  lemma ThrownIsNeverRetried(s: State, t: Thread, caught: bool, actions: seq<Action>)
    requires Reachable(s) && Enabled(s, End(t, Threw(caught)))
    requires Execute(Do(s, End(t, Threw(caught))), actions).Some?
    ensures Do(s, End(t, Threw(caught))) == Do(s, End(t, Threw(!caught)))
    ensures var e, n := PcOf(s, t).e, Execute(Do(s, End(t, Threw(caught))), actions).value;
      && e in n.place && n.place[e].Finished? && e !in n.queue
      && forall u :: HandOf(PcOf(n, u)) != Some(e)
  {
    hide Execute, Reachable;
    var e, after := ThrownIsFinished(s, t, caught);
    hide *;
    FinishedForGood(after, actions, e);
    NowhereElse(Execute(after, actions).value, e);
  }

  lemma ThrownIsFinished(s: State, t: Thread, caught: bool) returns (e: Event, after: State)
    requires Reachable(s) && Enabled(s, End(t, Threw(caught)))
    ensures PcOf(s, t).Running? && e == PcOf(s, t).e
    ensures after == Do(s, End(t, Threw(caught))) == Do(s, End(t, Threw(!caught)))
    ensures Reachable(after) && e in after.place && after.place[e].Finished?
  {
    e := PcOf(s, t).e;
    after := Do(s, End(t, Threw(caught)));
    hide Reachable;
    StepIsReachable(s, End(t, Threw(caught)));
  }

  lemma NowhereElse(s: State, e: Event)
    requires Reachable(s) && e in s.place && s.place[e].Finished?
    ensures e !in s.queue && forall t :: HandOf(PcOf(s, t)) != Some(e)
  {
    EventsAreInOnePlace(s);
    hide *;
  }

  // ----- Workers ------------------------------------------------------------------------------------

  /** When the stop that has set the flag returns, no worker is left in the loop; and there are never
      more than the maximum. */
  lemma StopLeavesNoWorker(s: State)
    requires Reachable(s)
    ensures |s.live| <= s.maximum && forall t :: t in s.live <==> IsWorker(PcOf(s, t))
    ensures Enabled(s, StopReturns) ==> s.running == 0 && forall t :: !IsWorker(PcOf(s, t))
  {
    ReachableInvariant(s);
  }

  /** A stop does nothing exactly when it finds another one under way, and then it leaves no worker in the
      loop exactly when the counter happens to be zero already. */
  lemma StopReturnsAtOnceExactlyDuringAnother(s: State)
    requires Reachable(s) && Enabled(s, Stop)
    ensures Do(s, Stop) == s <==> s.shutdown
    ensures s.shutdown ==> ((forall t :: !IsWorker(PcOf(s, t))) <==> s.running == 0)
  {
    ReachableInvariant(s);
    hide Reachable;
    hide PlacesRight, HandsRight, QueueRight;
    if s.shutdown && s.running == 0 { assert |s.live| == 0; }
    if s.shutdown && forall t :: !IsWorker(PcOf(s, t)) { assert s.live == {}; }
  }

  /** A run in which a second stop returns while there are still workers. */
  lemma SecondStopDoesNotWait()
    ensures exists s :: Reachable(s) && Enabled(s, Stop) && Do(s, Stop) == s && s.shutdown && s.live != {}
  {
    var s0 := Initial(2);
    assert Execute(s0, []) == Some(s0);
    hide Execute, Reachable;
    var s1, s2, s3, s4, s5 := WorkerAndStop();
    hide Do, Enabled, Initial;
    OneMore(s0, [], s0, Start(1));
    OneMore(s0, [] + [Start(1)], s1, Spawn(7));
    OneMore(s0, [] + [Start(1)] + [Spawn(7)], s2, Count);
    OneMore(s0, [] + [Start(1)] + [Spawn(7)] + [Count], s3, StartReturns);
    OneMore(s0, [] + [Start(1)] + [Spawn(7)] + [Count] + [StartReturns], s4, Stop);
    IsReachable(2, [] + [Start(1)] + [Spawn(7)] + [Count] + [StartReturns] + [Stop], s5);
  }

  lemma IsReachable(maximum: nat, actions: seq<Action>, s: State)
    requires Execute(Initial(maximum), actions) == Some(s)
    ensures Reachable(s)
  {
  }

  /** A worker is started, and a stop begins. */
  lemma WorkerAndStop() returns (s1: State, s2: State, s3: State, s4: State, s5: State)
    ensures Enabled(Initial(2), Start(1)) && s1 == Do(Initial(2), Start(1))
    ensures Enabled(s1, Spawn(7)) && s2 == Do(s1, Spawn(7))
    ensures Enabled(s2, Count) && s3 == Do(s2, Count)
    ensures Enabled(s3, StartReturns) && s4 == Do(s3, StartReturns)
    ensures Enabled(s4, Stop) && s5 == Do(s4, Stop)
    ensures Enabled(s5, Stop) && Do(s5, Stop) == s5 && s5.shutdown && s5.live != {}
  {
    s1, s2, s3 := WorkerStarted();
    s4 := Do(s3, StartReturns);
    s5 := Do(s4, Stop);
  }

  lemma WorkerStarted() returns (s1: State, s2: State, s3: State)
    ensures Enabled(Initial(2), Start(1)) && s1 == Do(Initial(2), Start(1))
    ensures Enabled(s1, Spawn(7)) && s2 == Do(s1, Spawn(7))
    ensures Enabled(s2, Count) && s3 == Do(s2, Count)
    ensures s3.control == Starting(0, false) && 7 in s3.live && !s3.shutdown
    ensures !s3.queueShutdown && s3.queue == [] && s3.place == map[] && s3.pcs == map[7 := AtPop]
  {
    s1 := Do(Initial(2), Start(1));
    s2 := Do(s1, Spawn(7));
    s3 := Do(s2, Count);
  }

  lemma OneMore(s: State, actions: seq<Action>, n: State, a: Action)
    requires Execute(s, actions) == Some(n) && Enabled(n, a)
    ensures Execute(s, actions + [a]) == Some(Do(n, a))
  {
    assert (actions + [a])[..|actions|] == actions;
  }

  /** A stop of a dispatcher without workers, from its first step to its return. */
  lemma WholeStop(s0: State) returns (s1: State, s2: State, s3: State, s4: State, s5: State)
    requires s0.control.Quiet? && !s0.shutdown && s0.running == 0
    ensures Enabled(s0, Stop) && s1 == Do(s0, Stop)
    ensures Enabled(s1, StopQueue) && s2 == Do(s1, StopQueue)
    ensures Enabled(s2, StopSeesNone) && s3 == Do(s2, StopSeesNone)
    ensures Enabled(s3, StopClears) && s4 == Do(s3, StopClears)
    ensures Enabled(s4, StopReturns) && s5 == Do(s4, StopReturns)
    ensures s5.control.Quiet? && !s5.shutdown && s5.queueShutdown && s5.pcs == s0.pcs && s5.place == s0.place
  {
    s1 := s0.(shutdown := true, control := Stopping(Exchanged));
    s2 := s1.(queueShutdown := true, control := Stopping(Waiting));
    s3 := s2.(control := Stopping(Clearing));
    s4 := s3.(consumers := 0, control := Stopping(Resetting));
    s5 := s4.(shutdown := false, control := Quiet);
    assert s1 == Do(s0, Stop) && s2 == Do(s1, StopQueue);
    assert s3 == Do(s2, StopSeesNone) && s4 == Do(s3, StopClears) && s5 == Do(s4, StopReturns);
  }

  /** A run after which no stop is under way and yet every event that is triggered will be dropped. */
  lemma RestartLosesEvents() returns (s: State)
    ensures Reachable(s) && s.control.Quiet? && !s.shutdown && s.queueShutdown
    ensures forall t, e :: Enabled(s, Trigger(t, e))
  {
    var s0 := Initial(2);
    assert Execute(s0, []) == Some(s0);
    var s1, s2, s3, s4, s5 := WholeStop(s0);
    s := s5;
    IsReachable(2, [], s0);
    hide Execute, Reachable;
    StepIsReachable(s0, Stop);
    StepIsReachable(s1, StopQueue);
    StepIsReachable(s2, StopSeesNone);
    StepIsReachable(s3, StopClears);
    StepIsReachable(s4, StopReturns);
  }

  /** A run that comes to an operation that can throw: thread 3 triggers an event, and worker 7 takes it. */
  lemma OperationCanThrow() returns (s: State)
    ensures Reachable(s) && PcOf(s, 7).Running? && forall caught :: Enabled(s, End(7, Threw(caught)))
  {
    hide *;
    InitialIsReachable(2);
    var s1, s2, s3 := WorkerStarted();
    StepIsReachable(Initial(2), Start(1));
    StepIsReachable(s1, Spawn(7));
    StepIsReachable(s2, Count);
    s := EventComesToWorker(s3);
    RunningCanThrow(s);
  }

  lemma InitialIsReachable(maximum: nat)
    ensures Reachable(Initial(maximum))
  {
    assert Execute(Initial(maximum), []) == Some(Initial(maximum));
  }

  lemma RunningCanThrow(s: State)
    requires PcOf(s, 7) == Running(5)
    ensures PcOf(s, 7).Running? && forall caught :: Enabled(s, End(7, Threw(caught)))
  {
  }

  lemma EventComesToWorker(s: State) returns (n: State)
    requires Reachable(s)
    requires !s.shutdown && !s.queueShutdown && s.queue == [] && s.place == map[] && s.pcs == map[7 := AtPop]
    ensures Reachable(n) && PcOf(n, 7) == Running(5)
  {
    hide *;
    var t1, t2, t3, t4 := EventTriggered(s);
    var w1, w2, w3 := EventTaken(t4);
    n := w3;
    StepIsReachable(s, Trigger(3, 5));
    StepIsReachable(t1, TestShutdown(3));
    StepIsReachable(t2, TestQueue(3));
    StepIsReachable(t3, Push(3));
    StepIsReachable(t4, PopTest(7));
    StepIsReachable(w1, Pop(7));
    StepIsReachable(w2, TestBlocked(7, false));
  }

  lemma EventTriggered(s: State) returns (t1: State, t2: State, t3: State, t4: State)
    requires !s.shutdown && !s.queueShutdown && s.queue == [] && s.place == map[] && s.pcs == map[7 := AtPop]
    ensures Enabled(s, Trigger(3, 5)) && t1 == Do(s, Trigger(3, 5))
    ensures Enabled(t1, TestShutdown(3)) && t2 == Do(t1, TestShutdown(3))
    ensures Enabled(t2, TestQueue(3)) && t3 == Do(t2, TestQueue(3))
    ensures Enabled(t3, Push(3)) && t4 == Do(t3, Push(3))
    ensures t4.queue == [5] && PcOf(t4, 7) == AtPop && !t4.queueShutdown
  {
    t1 := Do(s, Trigger(3, 5));
    t2 := Do(t1, TestShutdown(3));
    t3 := Do(t2, TestQueue(3));
    t4 := Do(t3, Push(3));
  }

  lemma EventTaken(s: State) returns (w1: State, w2: State, w3: State)
    requires s.queue == [5] && PcOf(s, 7) == AtPop && !s.queueShutdown
    ensures Enabled(s, PopTest(7)) && w1 == Do(s, PopTest(7))
    ensures Enabled(w1, Pop(7)) && w2 == Do(w1, Pop(7))
    ensures Enabled(w2, TestBlocked(7, false)) && w3 == Do(w2, TestBlocked(7, false))
    ensures PcOf(w3, 7) == Running(5)
  {
    w1 := Do(s, PopTest(7));
    w2 := Do(w1, Pop(7));
    w3 := Do(w2, TestBlocked(7, false));
  }

  // ----- Restarts -------------------------------------------------------------------------------------

  /** The queue has been shut down, and no worker has got past its flag. */
  ghost predicate Dead(s: State) {
    s.queueShutdown && forall t :: DoesNothing(PcOf(s, t))
  }

  predicate DoesNothing(pc: Pc) {
    !pc.PopReady? && !pc.Popped? && !pc.Running?
  }

  lemma StopLeavesDead(s: State)
    requires Reachable(s) && Enabled(s, StopReturns)
    ensures Dead(Do(s, StopReturns))
  {
    ReachableInvariant(s);
    var n := Do(s, StopReturns);
    forall t ensures DoesNothing(PcOf(n, t)) {
      assert PcOf(n, t) == PcOf(s, t) && !IsWorker(PcOf(s, t));
    }
  }

  lemma StepLeavesDead(s: State, a: Action)
    requires Dead(s) && Enabled(s, a)
    ensures Dead(Do(s, a))
    ensures forall e :: e in Do(s, a).place && Do(s, a).place[e].Finished? ==> e in s.place && s.place[e].Finished?
  {
    var n := Do(s, a);
    forall t ensures DoesNothing(PcOf(n, t)) {
      assert DoesNothing(PcOf(s, t));
    }
  }

  /** After a stop has returned no event is ever finished any more, however often consumers are
      started again. */
  lemma {:induction false} NothingIsFinishedAfterStop(s: State, actions: seq<Action>)
    requires Dead(s) && Execute(s, actions).Some?
    ensures var n := Execute(s, actions).value;
      Dead(n) && forall e :: e in n.place && n.place[e].Finished? ==> e in s.place && s.place[e].Finished?
  {
    if actions != [] {
      var earlier, a := actions[..|actions| - 1], actions[|actions| - 1];
      hide Dead;
      NothingIsFinishedAfterStop(s, earlier);
      StepLeavesDead(Execute(s, earlier).value, a);
    }
  }
}
