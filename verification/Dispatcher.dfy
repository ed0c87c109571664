/** The event dispatcher as a state machine: any number of worker threads and of threads that trigger
    events, and one atomic access to shared memory in a step. */
module Dispatcher {
  import opened Option

  type Event = nat
  type Thread = nat

  /** Where a thread is.  A worker is in the dispatcher's loop; any other thread is `Outside` unless it
      triggers an event.  `worker` says who triggers: the thread goes on accordingly. */
  datatype Pc =
    | Outside
    | AtPop
    | PopReady
    | Popped(e: Event)
    | Running(e: Event)
    | TriggerTest(e: Event, worker: bool)
    | PushTest(e: Event, worker: bool)
    | PushReady(e: Event, worker: bool)
    | AtTest
    | AtLeave

  /** The call of `start_consumers` or `stop_consumers` that is under way. */
  datatype Control =
    | Quiet
    | Starting(left: nat, uncounted: bool)
    | Stopping(phase: Phase)

  datatype Phase = Exchanged | Waiting | Clearing | Resetting

  /** What has become of an event. */
  datatype Place = Queued | InHand(t: Thread) | Finished | Dropped

  /** `queueShutdown` and `shutdown` are the flags of the queue and of the dispatcher; `consumers` is
      the length of the list of threads that have been started, and `live` are those that are in the
      loop.  `place` follows the steps and does not influence them. */
  datatype State = State(
    queue: seq<Event>,
    queueShutdown: bool,
    shutdown: bool,
    running: int,
    consumers: nat,
    maximum: nat,
    control: Control,
    pcs: map<Thread, Pc>,
    live: set<Thread>,
    place: map<Event, Place>)

  /** How the operation of an event ends.  When it has thrown, or was not authorized, the event is asked
      to catch the error, and says whether it has. */
  datatype Ending = Done | Retrigger | Threw(caught: bool)

  datatype Action =
    | Trigger(t: Thread, e: Event)
    | TestShutdown(t: Thread)
    | TestQueue(t: Thread)
    | Push(t: Thread)
    | PopTest(t: Thread)
    | Pop(t: Thread)
    | TestBlocked(t: Thread, blocked: bool)
    | End(t: Thread, ending: Ending)
    | LoopTest(t: Thread)
    | Leave(t: Thread)
    | Start(n: nat)
    | Spawn(t: Thread)
    | Count
    | StartReturns
    | Stop
    | StopQueue
    | StopSeesNone
    | StopClears
    | StopReturns

  function PcOf(s: State, t: Thread): Pc {
    if t in s.pcs then s.pcs[t] else Outside
  }

  /** The event that a thread has. */
  function HandOf(pc: Pc): Option<Event> {
    match pc
    case Popped(e) => Some(e)
    case Running(e) => Some(e)
    case TriggerTest(e, _) => Some(e)
    case PushTest(e, _) => Some(e)
    case PushReady(e, _) => Some(e)
    case _ => None
  }

  predicate IsWorker(pc: Pc) {
    match pc
    case Outside => false
    case TriggerTest(_, worker) => worker
    case PushTest(_, worker) => worker
    case PushReady(_, worker) => worker
    case _ => true
  }

  /** Consumers are started, and stopping begins, only while none are being started. */
  predicate Enabled(s: State, a: Action) {
    match a
    case Trigger(t, e) => PcOf(s, t).Outside? && e !in s.place
    case TestShutdown(t) => PcOf(s, t).TriggerTest?
    case TestQueue(t) => PcOf(s, t).PushTest?
    case Push(t) => PcOf(s, t).PushReady?
    case PopTest(t) => PcOf(s, t).AtPop?
    case Pop(t) => PcOf(s, t).PopReady?
    case TestBlocked(t, _) => PcOf(s, t).Popped?
    case End(t, _) => PcOf(s, t).Running?
    case LoopTest(t) => PcOf(s, t).AtTest?
    case Leave(t) => PcOf(s, t).AtLeave?
    case Start(_) => s.control.Quiet?
    case Spawn(t) => s.control.Starting? && s.control.left > 0 && !s.control.uncounted && PcOf(s, t).Outside?
    case Count => s.control.Starting? && s.control.uncounted
    case StartReturns => s.control.Starting? && s.control.left == 0 && !s.control.uncounted
    case Stop => !s.control.Starting?
    case StopQueue => s.control == Stopping(Exchanged)
    case StopSeesNone => s.control == Stopping(Waiting) && s.running == 0
    case StopClears => s.control == Stopping(Clearing)
    case StopReturns => s.control == Stopping(Resetting)
  }

  /** Where a thread goes once it has dealt with its event. */
  function After(worker: bool): Pc {
    if worker then AtTest else Outside
  }

  function Go(s: State, t: Thread, pc: Pc): State {
    s.(pcs := s.pcs[t := pc])
  }

  function Put(s: State, e: Event, place: Place): State {
    s.(place := s.place[e := place])
  }

  /** The next state. */
  function Do(s: State, a: Action): State
    requires Enabled(s, a)
  {
    match a
    case Trigger(t, e) => Put(Go(s, t, TriggerTest(e, false)), e, InHand(t))
    case TestShutdown(t) =>
      var pc := PcOf(s, t);
      if s.shutdown then Put(Go(s, t, After(pc.worker)), pc.e, Dropped) else Go(s, t, PushTest(pc.e, pc.worker))
    case TestQueue(t) =>
      var pc := PcOf(s, t);
      if s.queueShutdown then Put(Go(s, t, After(pc.worker)), pc.e, Dropped) else Go(s, t, PushReady(pc.e, pc.worker))
    case Push(t) =>
      var pc := PcOf(s, t);
      Put(Go(s, t, After(pc.worker)), pc.e, Queued).(queue := s.queue + [pc.e])
    case PopTest(t) => Go(s, t, if s.queueShutdown then AtTest else PopReady)
    case Pop(t) =>
      if s.queue == [] then Go(s, t, AtTest)
      else Put(Go(s, t, Popped(s.queue[0])), s.queue[0], InHand(t)).(queue := s.queue[1..])
    case TestBlocked(t, blocked) =>
      var e := PcOf(s, t).e;
      Go(s, t, if blocked then TriggerTest(e, true) else Running(e))
    case End(t, ending) =>
      var e := PcOf(s, t).e;
      // Whether an error has been caught decides only whether there is a message.
      if ending.Retrigger? then Go(s, t, TriggerTest(e, true)) else Put(Go(s, t, AtTest), e, Finished)
    case LoopTest(t) => Go(s, t, if s.shutdown then AtLeave else AtPop)
    case Leave(t) => Go(s, t, Outside).(running := s.running - 1, live := s.live - {t})
    case Start(n) =>
      var room := if s.consumers < s.maximum then s.maximum - s.consumers else 0;
      s.(control := Starting(if n == 0 || n + s.consumers >= s.maximum then room else n, false))
    case Spawn(t) =>
      Go(s, t, AtPop).(live := s.live + {t}, consumers := s.consumers + 1, control := Starting(s.control.left, true))
    case Count =>
      s.(running := s.running + 1, control := Starting(if s.control.left > 0 then s.control.left - 1 else 0, false))
    case StartReturns => s.(control := Quiet)
    case Stop => if s.shutdown then s else s.(shutdown := true, control := Stopping(Exchanged))
    case StopQueue => s.(queueShutdown := true, control := Stopping(Waiting))
    case StopSeesNone => s.(control := Stopping(Clearing))
    case StopClears =>
      // Popping until there is nothing to pop: a queue that has been shut down never gives anything.
      if s.queueShutdown then s.(consumers := 0, control := Stopping(Resetting))
      else s.(consumers := 0, control := Stopping(Resetting), queue := [],
              place := map e | e in s.place :: if s.place[e].Queued? then Dropped else s.place[e])
    case StopReturns => s.(shutdown := false, control := Quiet)
  }

  function Initial(maximum: nat): State {
    State([], false, false, 0, 0, maximum, Quiet, map[], {}, map[])
  }

  // ----- The invariant ---------------------------------------------------------------------------

  /** An event is where its place says. */
  ghost predicate PlacesRight(s: State) {
    && (forall e :: e in s.place && s.place[e].InHand? ==> HandOf(PcOf(s, s.place[e].t)) == Some(e))
    && (forall e :: e in s.place && s.place[e].Queued? ==> e in s.queue)
  }

  /** And it is nowhere else. */
  ghost predicate HandsRight(s: State) {
    forall t :: t in s.pcs && HandOf(s.pcs[t]).Some? ==>
      HandOf(s.pcs[t]).value in s.place && s.place[HandOf(s.pcs[t]).value] == InHand(t)
  }

  ghost predicate QueueRight(s: State) {
    && (forall i :: 0 <= i < |s.queue| ==> s.queue[i] in s.place && s.place[s.queue[i]].Queued?)
    && (forall i, j :: 0 <= i < j < |s.queue| ==> s.queue[i] != s.queue[j])
  }

  predicate Uncounted(c: Control) {
    c.Starting? && c.uncounted
  }

  /** The counter of running workers counts those that are in the loop, but for one that has just been
      started. */
  ghost predicate WorkersRight(s: State) {
    && (forall t :: t in s.live <==> IsWorker(PcOf(s, t)))
    && s.running == |s.live| - (if Uncounted(s.control) then 1 else 0)
    && |s.live| <= s.consumers <= s.maximum
    && (s.control.Starting? ==> s.consumers + s.control.left - (if s.control.uncounted then 1 else 0) <= s.maximum)
    && (Uncounted(s.control) ==> s.control.left > 0)
  }

  ghost predicate ControlRight(s: State) {
    && (s.shutdown <==> s.control.Stopping?)
    && (s.control.Stopping? && !s.control.phase.Exchanged? ==> s.queueShutdown)
    && (s.control.Stopping? && (s.control.phase.Clearing? || s.control.phase.Resetting?) ==> s.live == {})
  }

  ghost predicate Invariant(s: State) {
    PlacesRight(s) && HandsRight(s) && QueueRight(s) && WorkersRight(s) && ControlRight(s)
  }

  // ----- Steps keep the invariant ------------------------------------------------------------------

  ghost predicate EventsRight(s: State) {
    PlacesRight(s) && HandsRight(s) && QueueRight(s)
  }

  /** Only thread `t` has gone on, and only event `e` may have moved. */
  ghost predicate OnlyMoved(s: State, n: State, t: Thread, e: Event) {
    && (forall u :: u != t ==> PcOf(n, u) == PcOf(s, u))
    && (forall x :: x != e ==> (x in n.place <==> x in s.place))
    && (forall x :: x != e && x in s.place ==> n.place[x] == s.place[x])
    && (forall x :: x != e ==> (x in n.queue <==> x in s.queue))
  }

  lemma Moved(s: State, n: State, t: Thread, e: Event)
    requires EventsRight(s) && OnlyMoved(s, n, t, e) && QueueRight(n)
    requires HandOf(PcOf(s, t)).None? || HandOf(PcOf(s, t)).value == e
    requires HandOf(PcOf(n, t)).None? || HandOf(PcOf(n, t)).value == e
    requires e in s.place && s.place[e].InHand? ==> s.place[e].t == t
    requires if HandOf(PcOf(n, t)).Some? then e in n.place && n.place[e] == InHand(t)
             else e in n.place ==> !n.place[e].InHand?
    requires e in n.place && n.place[e].Queued? ==> e in n.queue
    ensures EventsRight(n)
  {
    forall u | u in n.pcs && HandOf(n.pcs[u]).Some?
      ensures HandOf(n.pcs[u]).value in n.place && n.place[HandOf(n.pcs[u]).value] == InHand(u)
    {
      if u != t { assert PcOf(n, u) == PcOf(s, u) && u in s.pcs; }
    }
    forall x | x in n.place && n.place[x].InHand? ensures HandOf(PcOf(n, n.place[x].t)) == Some(x) {
      if x != e && n.place[x].t != t { assert PcOf(n, n.place[x].t) == PcOf(s, n.place[x].t); }
    }
  }

  /** A thread has gone on with the same event in hand, or with none. */
  lemma WentOn(s: State, n: State, t: Thread)
    requires EventsRight(s) && n.place == s.place && n.queue == s.queue
    requires forall u :: u != t ==> PcOf(n, u) == PcOf(s, u)
    requires HandOf(PcOf(n, t)) == HandOf(PcOf(s, t))
    ensures EventsRight(n)
  {
    forall u | u in n.pcs && HandOf(n.pcs[u]).Some?
      ensures HandOf(n.pcs[u]).value in n.place && n.place[HandOf(n.pcs[u]).value] == InHand(u)
    {
      assert HandOf(PcOf(n, u)) == HandOf(PcOf(s, u)) && u in s.pcs;
    }
    forall x | x in n.place && n.place[x].InHand? ensures HandOf(PcOf(n, n.place[x].t)) == Some(x) {
      assert HandOf(PcOf(n, n.place[x].t)) == HandOf(PcOf(s, n.place[x].t));
    }
  }

  /** What a thread has in hand is there and nowhere else. */
  lemma AtHand(s: State, t: Thread)
    requires EventsRight(s) && HandOf(PcOf(s, t)).Some?
    ensures var e := HandOf(PcOf(s, t)).value; e in s.place && s.place[e] == InHand(t) && e !in s.queue
  {
    assert t in s.pcs;
  }

  lemma StepKeepsEvents(s: State, a: Action)
    requires Invariant(s) && Enabled(s, a)
    ensures EventsRight(Do(s, a))
  {
    hide Do, Invariant, EventsRight;
    match a
    case Trigger(t, e) => AfterTrigger(s, t, e);
    case TestShutdown(t) => AfterTest(s, a, t);
    case TestQueue(t) => AfterTest(s, a, t);
    case Push(t) => AfterPush(s, t);
    case Pop(t) => AfterPop(s, t);
    case End(t, ending) => AfterEnd(s, t, ending);
    case PopTest(t) => AfterGoingOn(s, a, t);
    case TestBlocked(t, blocked) => AfterGoingOn(s, a, t);
    case LoopTest(t) => AfterGoingOn(s, a, t);
    case Leave(t) => AfterGoingOn(s, a, t);
    case Spawn(t) => AfterGoingOn(s, a, t);
    case _ => AfterControlStep(s, a);
  }

  /** The steps of starting and stopping, but for the spawning itself. */
  predicate IsControl(a: Action) {
    || a.Start? || a.Count? || a.StartReturns?
    || a.Stop? || a.StopQueue? || a.StopSeesNone? || a.StopClears? || a.StopReturns?
  }

  lemma AfterControlStep(s: State, a: Action)
    requires Invariant(s) && Enabled(s, a) && IsControl(a)
    ensures EventsRight(Do(s, a)) && Do(s, a).pcs == s.pcs && Do(s, a).live == s.live && Do(s, a).place == s.place
  {
    assert Do(s, a).pcs == s.pcs && Do(s, a).place == s.place && Do(s, a).queue == s.queue;
  }

  lemma AfterGoingOn(s: State, a: Action, t: Thread)
    requires Invariant(s) && Enabled(s, a)
    requires (a.PopTest? || a.TestBlocked? || a.LoopTest? || a.Leave? || a.Spawn?) && a.t == t
    ensures EventsRight(Do(s, a))
  {
    WentOn(s, Do(s, a), t);
  }

  lemma AfterTrigger(s: State, t: Thread, e: Event)
    requires Invariant(s) && Enabled(s, Trigger(t, e))
    ensures EventsRight(Do(s, Trigger(t, e)))
  {
    Moved(s, Do(s, Trigger(t, e)), t, e);
  }

  lemma AfterTest(s: State, a: Action, t: Thread)
    requires Invariant(s) && Enabled(s, a) && (a == TestShutdown(t) || a == TestQueue(t))
    ensures EventsRight(Do(s, a))
  {
    AtHand(s, t);
    if (if a.TestShutdown? then s.shutdown else s.queueShutdown) {
      Moved(s, Do(s, a), t, PcOf(s, t).e);
    } else {
      WentOn(s, Do(s, a), t);
    }
  }

  lemma AfterPush(s: State, t: Thread)
    requires Invariant(s) && Enabled(s, Push(t))
    ensures EventsRight(Do(s, Push(t)))
  {
    AtHand(s, t);
    var n, e := Do(s, Push(t)), PcOf(s, t).e;
    assert n.queue[|s.queue|] == e;
    Moved(s, n, t, e);
  }

  lemma AfterPop(s: State, t: Thread)
    requires Invariant(s) && Enabled(s, Pop(t))
    ensures EventsRight(Do(s, Pop(t)))
  {
    var n := Do(s, Pop(t));
    if s.queue == [] {
      WentOn(s, n, t);
    } else {
      AfterTaking(s, n, t);
    }
  }

  lemma AfterTaking(s: State, n: State, t: Thread)
    requires EventsRight(s) && s.queue != [] && HandOf(PcOf(s, t)).None?
    requires n == Put(Go(s, t, Popped(s.queue[0])), s.queue[0], InHand(t)).(queue := s.queue[1..])
    ensures EventsRight(n)
  {
    var e := s.queue[0];
    assert s.place[e].Queued? && e !in n.queue;
    FrontTaken(s.queue);
    assert QueueRight(n) by {
      forall i | 0 <= i < |n.queue| ensures n.queue[i] in n.place && n.place[n.queue[i]].Queued? {
        assert n.queue[i] == s.queue[i + 1];
      }
    }
    Moved(s, n, t, e);
  }

  lemma FrontTaken<X>(queue: seq<X>)
    requires queue != []
    ensures forall x :: x in queue <==> x == queue[0] || x in queue[1..]
  {
    assert queue == [queue[0]] + queue[1..];
  }

  lemma AfterEnd(s: State, t: Thread, ending: Ending)
    requires Invariant(s) && Enabled(s, End(t, ending))
    ensures EventsRight(Do(s, End(t, ending)))
  {
    AtHand(s, t);
    if ending.Retrigger? {
      WentOn(s, Do(s, End(t, ending)), t);
    } else {
      Moved(s, Do(s, End(t, ending)), t, PcOf(s, t).e);
    }
  }

  /** Threads stay on their side of the loop, unless they are spawned or leave. */
  lemma SameSide(s: State, n: State, t: Thread)
    requires WorkersRight(s) && n.live == s.live && n.running == s.running && n.consumers == s.consumers
    requires n.maximum == s.maximum && n.control == s.control
    requires forall u :: u != t ==> PcOf(n, u) == PcOf(s, u)
    requires IsWorker(PcOf(n, t)) == IsWorker(PcOf(s, t))
    ensures WorkersRight(n)
  {
    forall u ensures u in n.live <==> IsWorker(PcOf(n, u)) {
      assert IsWorker(PcOf(n, u)) == IsWorker(PcOf(s, u));
    }
  }

  lemma AfterSpawn(s: State, t: Thread)
    requires Invariant(s) && Enabled(s, Spawn(t))
    ensures WorkersRight(Do(s, Spawn(t)))
  {
    assert t !in s.live;
  }

  lemma AfterLeave(s: State, t: Thread)
    requires Invariant(s) && Enabled(s, Leave(t))
    ensures WorkersRight(Do(s, Leave(t)))
  {
    assert t in s.live;
  }

  lemma StepKeepsWorkers(s: State, a: Action)
    requires Invariant(s) && Enabled(s, a)
    ensures WorkersRight(Do(s, a))
  {
    hide Do, Invariant, WorkersRight;
    match a
    case Leave(t) => AfterLeave(s, t);
    case Spawn(t) => AfterSpawn(s, t);
    case Trigger(t, _) => AfterTriggering(s, a, t);
    case TestShutdown(t) => AfterTriggering(s, a, t);
    case TestQueue(t) => AfterTriggering(s, a, t);
    case Push(t) => AfterTriggering(s, a, t);
    case PopTest(t) => AfterTrapping(s, a, t);
    case Pop(t) => AfterTrapping(s, a, t);
    case TestBlocked(t, _) => AfterTrapping(s, a, t);
    case End(t, _) => AfterTrapping(s, a, t);
    case LoopTest(t) => AfterTrapping(s, a, t);
    case _ => AfterControl(s, a);
  }

  lemma AfterTriggering(s: State, a: Action, t: Thread)
    requires Invariant(s) && Enabled(s, a)
    requires (a.Trigger? || a.TestShutdown? || a.TestQueue? || a.Push?) && a.t == t
    ensures WorkersRight(Do(s, a))
  {
    SameSide(s, Do(s, a), t);
  }

  lemma AfterTrapping(s: State, a: Action, t: Thread)
    requires Invariant(s) && Enabled(s, a)
    requires (a.PopTest? || a.Pop? || a.TestBlocked? || a.End? || a.LoopTest?) && a.t == t
    ensures WorkersRight(Do(s, a))
  {
    TrapStaysInside(s, a, t);
    assert WorkersRight(s);
    hide Do, Enabled, Invariant, WorkersRight;
    SameSide(s, Do(s, a), t);
  }

  lemma TrapStaysInside(s: State, a: Action, t: Thread)
    requires Enabled(s, a)
    requires (a.PopTest? || a.Pop? || a.TestBlocked? || a.End? || a.LoopTest?) && a.t == t
    ensures var n := Do(s, a);
      && n.live == s.live && n.running == s.running && n.consumers == s.consumers
      && n.maximum == s.maximum && n.control == s.control
      && IsWorker(PcOf(n, t)) == IsWorker(PcOf(s, t))
      && forall u :: u != t ==> PcOf(n, u) == PcOf(s, u)
  {
  }

  lemma AfterControl(s: State, a: Action)
    requires Invariant(s) && Enabled(s, a) && IsControl(a)
    ensures WorkersRight(Do(s, a))
  {
    var n := Do(s, a);
    assert n.pcs == s.pcs && n.live == s.live;
    forall t ensures t in n.live <==> IsWorker(PcOf(n, t)) {
      assert PcOf(n, t) == PcOf(s, t);
    }
    if a.StopClears? { assert s.live == {}; }
  }

  lemma StepKeepsControl(s: State, a: Action)
    requires Invariant(s) && Enabled(s, a)
    ensures ControlRight(Do(s, a))
  {
    if a.StopSeesNone? { assert |s.live| == 0; }
  }

  lemma StepKeepsInvariant(s: State, a: Action)
    requires Invariant(s) && Enabled(s, a)
    ensures Invariant(Do(s, a))
  {
    StepKeepsEvents(s, a);
    StepKeepsWorkers(s, a);
    StepKeepsControl(s, a);
  }
}
