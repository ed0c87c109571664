/** What holds of the slot table throughout every interleaving of its steps. */
module StreamSafety {
  import opened Option
  import opened StreamSlots

  // ----- Runs ---------------------------------------------------------------------------------

  /** The state after `actions`, if each of them can be taken when it is its turn. */
  function Execute(s: State, actions: seq<Action>): Option<State> {
    if actions == [] then Some(s)
    else
      var before := Execute(s, actions[..|actions| - 1]);
      var a := actions[|actions| - 1];
      if before.Some? && WellFormed(before.value) && Enabled(before.value, a) then Some(Do(before.value, a)) else None
  }

  /** Some interleaving of some threads' operations on a set of `capacity` slots leads to `s`. */
  ghost predicate Reachable(s: State, capacity: nat) {
    exists uri, actions :: Execute(Initial(capacity, uri), actions) == Some(s)
  }

  lemma {:induction false} RunKeepsInvariant(capacity: nat, uri: map<Uuid, string>, actions: seq<Action>)
    requires Execute(Initial(capacity, uri), actions).Some?
    ensures var s := Execute(Initial(capacity, uri), actions).value; Invariant(s) && |s.uses| == capacity
  {
    hide Invariant, Do, Enabled, WellFormed;
    InitialInvariant(capacity, uri);
    if actions != [] {
      var earlier, a := actions[..|actions| - 1], actions[|actions| - 1];
      RunKeepsInvariant(capacity, uri, earlier);
      var before := Execute(Initial(capacity, uri), earlier).value;
      hide Initial;
      StepKeepsInvariant(before, a);
      StepKeepsCapacity(before, a);
    }
  }

  lemma StepKeepsCapacity(s: State, a: Action)
    requires WellFormed(s) && Enabled(s, a)
    ensures |Do(s, a).uses| == |s.uses|
  {
  }

  lemma ReachableInvariant(s: State, capacity: nat)
    requires Reachable(s, capacity)
    ensures Invariant(s) && |s.uses| == |s.memory.ids| == |s.memory.byFd| == capacity
  {
    var uri, actions :| Execute(Initial(capacity, uri), actions) == Some(s);
    hide Execute, Initial, SlotsAgree, ThreadsAgree, HoldersAgree, QueueAgrees, UuidsAgree;
    RunKeepsInvariant(capacity, uri, actions);
  }

  // ----- Ownership ------------------------------------------------------------------------------

  /** At most one thread holds a stream; while it does, the stream's slot has no claim token and
      contains the stream, and no other held stream has that slot. */
  lemma MutualExclusion(s: State, capacity: nat)
    requires Reachable(s, capacity)
    ensures forall t, t', u :: (t, u) in s.holds && (t', u) in s.holds ==> t == t'
    ensures forall t, u :: (t, u) in s.holds ==>
      && u in s.memory.index && s.memory.index[u] < |s.memory.ids| == |s.memory.byFd|
      && s.memory.ids[s.memory.index[u]] == NONE && s.memory.byFd[s.memory.index[u]] == u
    ensures forall t, t', u, v :: (t, u) in s.holds && (t', v) in s.holds && u != v ==>
      u in s.memory.index && v in s.memory.index && s.memory.index[u] != s.memory.index[v]
  {
    ReachableInvariant(s, capacity);
    forall t, u | (t, u) in s.holds
      ensures InSlot(s, u) && s.uses[s.memory.index[u]] == Held(u, t)
      ensures s.memory.ids[s.memory.index[u]] == NONE && s.memory.byFd[s.memory.index[u]] == u
    {
      AtHold(s, t, u);
    }
  }

  /** Only the holder's own steps end its hold, and only its own acquisition, or a hand-over to it,
      begins one. */
  lemma HoldIsStable(s: State, capacity: nat, a: Action, t: Thread, u: Uuid)
    requires Reachable(s, capacity) && WellFormed(s) && Enabled(s, a) && a.t != t
    ensures (t, u) in s.holds ==> (t, u) in Do(s, a).holds
    ensures (t, u) in Do(s, a).holds && (t, u) !in s.holds ==>
      a.HandOver? && a.u == u && a.to == t && (a.t, u) in s.holds
  {
    ReachableInvariant(s, capacity);
  }

  /** A claim succeeds exactly when the slot's stream is the one that the handle names, it is done
      with insertion, and no thread has claimed it; in particular a handle of a stream that is gone is
      refused, whatever is in its slot now, and a refusal changes nothing. */
  lemma OnlyTheNamedStreamIsClaimed(s: State, capacity: nat, t: Thread, u: Uuid, i: nat)
    requires Reachable(s, capacity) && WellFormed(s) && Enabled(s, AcquireCas(t, u, i))
    ensures var n := Do(s, AcquireCas(t, u, i));
      if u != NONE && InSlot(s, u) && s.memory.index[u] == i && s.uses[i].Armed?
      then
        && PcOf(n, t) == AcquireClaimed(u, i) && s.memory.byFd[i] == u && u in s.memory.byUuid
        && forall h :: h in s.holds ==> h.1 != u
      else n == s && Returns(s, AcquireCas(t, u, i)) == Some(false)
  {
    ReachableInvariant(s, capacity);
    assert SlotAgrees(s, i);
    if u != NONE && s.memory.ids[i] == u { TokenMeansArmed(s, u, i); }
  }

  /** The check that follows a successful claim passes, whatever other threads do in between. */
  lemma CheckPasses(s: State, capacity: nat, t: Thread)
    requires Reachable(s, capacity) && WellFormed(s) && Enabled(s, AcquireCheck(t))
    ensures Returns(s, AcquireCheck(t)) == Some(true)
    ensures (t, PcOf(s, t).u) in Do(s, AcquireCheck(t)).holds
  {
    ReachableInvariant(s, capacity);
    AtWork(s, t);
  }

  /** A holder's release succeeds, and so does its erasure. */
  lemma HolderSucceeds(s: State, capacity: nat, t: Thread, u: Uuid)
    requires Reachable(s, capacity) && WellFormed(s) && PcOf(s, t).Idle? && (t, u) in s.holds
    ensures Returns(s, Release(t, u)) == Some(true)
    ensures PcOf(Do(s, EraseCheck(t, u)), t) == EraseChecked(u, if u in s.memory.index then s.memory.index[u] else 0)
  {
    ReachableInvariant(s, capacity);
    AtHold(s, t, u);
    hide Invariant, Reachable, Execute;
  }

  // ----- Capacity -----------------------------------------------------------------------------------

  /** An insertion claims its slot without fail, and it returns false exactly when there was no free
      index for it to pop. */
  lemma InsertFailsOnlyWhenFull(s: State, capacity: nat, a: Action)
    requires Reachable(s, capacity) && WellFormed(s) && Enabled(s, a)
    requires a.InsertPop? || a.InsertCas? || a.InsertStore? || a.InsertMaps? || a.InsertGiveUp?
    ensures !a.InsertGiveUp?
    ensures a.InsertCas? ==> PcOf(Do(s, a), a.t).InsertArmed?
    ensures Returns(s, a) == Some(false) <==> a.InsertPop? && s.memory.available == []
  {
    ReachableInvariant(s, capacity);
    NeverRefused(s, a.t);
    if a.InsertCas? { AtWork(s, a.t); }
  }

  predicate Moves(pc: Pc) {
    Inserts(pc) || Erases(pc)
  }

  /** A thread inserts or erases a stream at this slot. */
  ghost predicate InFlight(s: State, i: nat) {
    exists t :: t in s.pcs && Moves(s.pcs[t]) && s.pcs[t].i == i
  }

  /** The slot is that of a stream that lookups find, and no thread inserts or erases it. */
  ghost predicate IsRegistered(s: State, i: nat)
    requires i < |s.memory.byFd|
  {
    var u := s.memory.byFd[i];
    && u != NONE && u in s.memory.byUuid && u in s.memory.index && s.memory.index[u] == i
    && forall t :: t in s.pcs && Moves(s.pcs[t]) ==> s.pcs[t].u != u
  }

  /** Each index is in the queue, in flight, or that of a registered stream, and in one place only. */
  lemma IndexesArePartitioned(s: State, capacity: nat, i: nat)
    requires Reachable(s, capacity) && i < capacity
    ensures |s.memory.byFd| == capacity
    ensures i in s.memory.available ==> !InFlight(s, i) && !IsRegistered(s, i)
    ensures InFlight(s, i) ==> !IsRegistered(s, i)
    ensures i in s.memory.available || InFlight(s, i) || IsRegistered(s, i)
    ensures forall j, k :: 0 <= j < k < |s.memory.available| ==> s.memory.available[j] != s.memory.available[k]
    ensures forall t, t' :: t in s.pcs && t' in s.pcs && t != t' && Moves(s.pcs[t]) && Moves(s.pcs[t']) ==>
      s.pcs[t].i != s.pcs[t'].i
  {
    ReachableInvariant(s, capacity);
    assert SlotAgrees(s, i);
    forall t | t in s.pcs && Moves(s.pcs[t])
      ensures s.uses[s.pcs[t].i] == Busy(s.pcs[t].u, t) && SlotAgrees(s, s.pcs[t].i)
    {
      AtWork(s, t);
    }
    if s.uses[i].Busy? { assert PcOf(s, s.uses[i].owner).i == i; }
  }

  /** As many streams are registered as there are slots, at most. */
  lemma RegisteredWithinCapacity(s: State, capacity: nat)
    requires Reachable(s, capacity)
    ensures |s.memory.byUuid| <= capacity
    ensures |s.memory.available| <= capacity
  {
    ReachableInvariant(s, capacity);
    var slots := Range(capacity);
    forall u | u in s.memory.byUuid ensures u in s.memory.index && s.memory.index[u] in slots {
      assert Registered(s, u);
    }
    forall u, v | u in s.memory.byUuid && v in s.memory.byUuid && u != v
      ensures s.memory.index[u] != s.memory.index[v]
    {
      assert Registered(s, u) && Registered(s, v);
    }
    InjectionBound(s.memory.byUuid.Keys, s.memory.index, slots);
    QueueBound(s.memory.available, slots);
  }

  function Range(n: nat): (range: set<nat>)
    ensures |range| == n
    ensures forall i :: i in range <==> 0 <= i < n
  {
    if n == 0 then {} else Range(n - 1) + {n - 1}
  }

  lemma {:induction false} InjectionBound<K>(keys: set<K>, f: map<K, nat>, range: set<nat>)
    requires forall k :: k in keys ==> k in f && f[k] in range
    requires forall k, l :: k in keys && l in keys && k != l ==> f[k] != f[l]
    ensures |keys| <= |range|
  {
    if keys != {} {
      var k :| k in keys;
      InjectionBound(keys - {k}, f, range - {f[k]});
    }
  }

  lemma {:induction false} QueueBound(queue: seq<nat>, range: set<nat>)
    requires forall i :: 0 <= i < |queue| ==> queue[i] in range
    requires forall i, j :: 0 <= i < j < |queue| ==> queue[i] != queue[j]
    ensures |queue| <= |range|
  {
    if queue != [] {
      QueueBound(queue[1..], range - {queue[0]});
    }
  }

  // ----- Lookups ------------------------------------------------------------------------------------

  /** Looking a uuid up finds the stream that has it if that is registered, and nothing otherwise. */
  lemma LookupByUuidIsExact(s: State, capacity: nat, u: Uuid)
    requires Reachable(s, capacity)
    ensures u in s.memory.byUuid <==> Registered(s, u)
    ensures u in s.memory.byUuid ==> s.memory.byUuid[u] == u
  {
    ReachableInvariant(s, capacity);
  }

  /** The same for uris: the entries are those of the registered streams under their current uris. */
  ghost predicate UrisAgree(s: State) {
    && (forall u :: u in s.memory.byUuid ==>
          u in s.memory.uri && s.memory.uri[u] in s.memory.byUri && s.memory.byUri[s.memory.uri[u]] == u)
    && (forall k :: k in s.memory.byUri ==>
          && s.memory.byUri[k] in s.memory.byUuid && s.memory.byUri[k] in s.memory.uri
          && s.memory.uri[s.memory.byUri[k]] == k)
  }

  /** What the caller has to see to: the uri of a stream that is inserted is not taken; an upgraded
      stream is registered, its uri has a scheme, and its new uri is not taken by another stream. */
  predicate UriSafe(s: State, a: Action)
    requires WellFormed(s) && Enabled(s, a)
  {
    match a
    case InsertMaps(t) => s.memory.uri[PcOf(s, t).u] !in s.memory.byUri
    case Upgrade(t, u, transport) =>
      s.memory.uri[u] !in s.memory.byUri || (
        && u in s.memory.byUuid
        && AfterScheme(s.memory.uri[u]).Some?
        && var uri := transport + AfterScheme(s.memory.uri[u]).value;
        && (uri in s.memory.byUri ==> uri == s.memory.uri[u]))
    case _ => true
  }

  /** A step keeps the uris' entries right exactly when it is safe. */
  lemma UrisAgreeExactlyWhenSafe(s: State, a: Action)
    requires Invariant(s) && Enabled(s, a) && UrisAgree(s)
    ensures UrisAgree(Do(s, a)) <==> UriSafe(s, a)
  {
    match a
    case InsertMaps(t) => InsertedUri(s, t);
    case InsertGiveUp(t) => NeverRefused(s, t);
    case EraseMaps(t) => ErasedUri(s, t);
    case Upgrade(t, u, transport) => UpgradedUri(s, t, u, transport);
    case _ =>
  }

  lemma InsertedUri(s: State, t: Thread)
    requires Invariant(s) && Enabled(s, InsertMaps(t)) && UrisAgree(s)
    ensures UrisAgree(Do(s, InsertMaps(t))) <==> UriSafe(s, InsertMaps(t))
  {
    AtWork(s, t);
    var n, u := Do(s, InsertMaps(t)), PcOf(s, t).u;
    assert u !in s.memory.byUuid && u in n.memory.byUuid;
    assert s.memory.uri[u] in s.memory.byUri ==> n.memory.byUri[s.memory.uri[u]] in s.memory.byUuid;
  }

  lemma ErasedUri(s: State, t: Thread)
    requires Invariant(s) && Enabled(s, EraseMaps(t)) && UrisAgree(s)
    ensures UrisAgree(Do(s, EraseMaps(t)))
  {
    AtWork(s, t);
    assert PcOf(s, t).u in s.memory.byUuid;
  }

  lemma UpgradedUri(s: State, t: Thread, u: Uuid, transport: string)
    requires Invariant(s) && Enabled(s, Upgrade(t, u, transport)) && UrisAgree(s)
    ensures UrisAgree(Do(s, Upgrade(t, u, transport))) <==> UriSafe(s, Upgrade(t, u, transport))
  {
    assert WellFormed(s);
    hide Invariant, WellFormed;
    if s.memory.uri[u] in s.memory.byUri {
      if AfterScheme(s.memory.uri[u]).Some? {
        MovedUri(s, t, u, transport);
      } else {
        LostUri(s, t, u, transport);
      }
    } else {
      assert Do(s, Upgrade(t, u, transport)) == s;
    }
  }

  lemma LostUri(s: State, t: Thread, u: Uuid, transport: string)
    requires WellFormed(s) && Enabled(s, Upgrade(t, u, transport)) && UrisAgree(s)
    requires s.memory.uri[u] in s.memory.byUri && AfterScheme(s.memory.uri[u]).None?
    ensures !UrisAgree(Do(s, Upgrade(t, u, transport)))
  {
    var m, n := s.memory, Do(s, Upgrade(t, u, transport)).memory;
    var v := m.byUri[m.uri[u]];
    assert v in n.byUuid && n.uri[v] == m.uri[u] && n.uri[v] !in n.byUri;
  }

  lemma MovedUri(s: State, t: Thread, u: Uuid, transport: string)
    requires WellFormed(s) && Enabled(s, Upgrade(t, u, transport)) && UrisAgree(s)
    requires s.memory.uri[u] in s.memory.byUri && AfterScheme(s.memory.uri[u]).Some?
    ensures UrisAgree(Do(s, Upgrade(t, u, transport))) <==> UriSafe(s, Upgrade(t, u, transport))
  {
    hide AfterScheme;
    var m, n := s.memory, Do(s, Upgrade(t, u, transport)).memory;
    var v := m.byUri[m.uri[u]];
    assert v in m.byUuid && v in n.byUuid && m.uri[v] == m.uri[u];
  }

  /** A run that breaks them: two streams with the same uri are inserted one after the other. */
  lemma TakenUriBreaksLookups() returns (s: State)
    ensures Reachable(s, 2) && !UrisAgree(s)
  {
    var uri: map<Uuid, string> := map[1 := "x://a", 2 := "x://a"];
    var s0 := Initial(2, uri);
    assert Execute(s0, []) == Some(s0);
    assert Reachable(s0, 2);
    hide Reachable, Execute, UrisAgree;
    var s4 := InsertedAlone(s0, 1, 2);
    hide Initial;
    s := InsertedAlone(s4, 2, 2);
    assert !UrisAgree(s) by { NotTheFirst(s, 2, 1); }
  }

  /** Another one: a registered stream whose uri has no scheme is upgraded. */
  lemma UpgradeWithoutSchemeBreaksLookups() returns (s: State)
    ensures Reachable(s, 1) && !UrisAgree(s)
  {
    var uri: map<Uuid, string> := map[1 := "a"];
    var s0 := Initial(1, uri);
    assert Execute(s0, []) == Some(s0);
    assert Reachable(s0, 1);
    hide Reachable, Execute;
    var s4 := InsertedAlone(s0, 1, 1);
    hide Initial;
    StepIsReachable(s4, 1, Upgrade(0, 1, "ws"));
    s := Do(s4, Upgrade(0, 1, "ws"));
    assert 1 in s.memory.byUuid && s.memory.uri[1] !in s.memory.byUri;
  }

  /** A stream whose uri has the entry of another one. */
  lemma NotTheFirst(s: State, u: Uuid, v: Uuid)
    requires u in s.memory.byUuid && u in s.memory.uri && u != v
    requires s.memory.uri[u] in s.memory.byUri && s.memory.byUri[s.memory.uri[u]] == v
    ensures !UrisAgree(s)
  {
  }

  predicate AllIdle(s: State) {
    forall t :: t in s.pcs ==> s.pcs[t].Idle?
  }

  predicate OthersIdle(s: State) {
    forall t :: t in s.pcs && t != 0 ==> s.pcs[t].Idle?
  }

  /** Thread 0 inserts a stream while every thread is idle. */
  lemma InsertedAlone(s: State, u: Uuid, capacity: nat) returns (n: State)
    requires Reachable(s, capacity) && WellFormed(s) && u != NONE && u in s.memory.uri && u !in s.memory.index
    requires s.memory.available != [] && s.memory.ids[s.memory.available[0]] == NONE
    requires AllIdle(s)
    ensures Reachable(n, capacity) && WellFormed(n) && AllIdle(n)
    ensures var i := s.memory.available[0];
      n.memory == Mapped(s.memory.(available := s.memory.available[1..], index := s.memory.index[u := i],
                                   ids := s.memory.ids[i := u], byFd := s.memory.byFd[i := u]), u)
  {
    hide Reachable, Execute;
    var s1, s2 := Claimed(s, u);
    var s3, s4 := Entered(s2, u, s.memory.available[0]);
    n := s4;
    hide Do, Enabled, WellFormed, Mapped;
    StepIsReachable(s, capacity, InsertPop(0, u));
    StepIsReachable(s1, capacity, InsertCas(0));
    StepIsReachable(s2, capacity, InsertStore(0));
    StepIsReachable(s3, capacity, InsertMaps(0));
  }

  lemma Claimed(s: State, u: Uuid) returns (s1: State, s2: State)
    requires WellFormed(s) && u != NONE && u in s.memory.uri && u !in s.memory.index
    requires s.memory.available != [] && s.memory.ids[s.memory.available[0]] == NONE
    requires AllIdle(s)
    ensures Enabled(s, InsertPop(0, u)) && s1 == Do(s, InsertPop(0, u))
    ensures WellFormed(s1) && Enabled(s1, InsertCas(0)) && s2 == Do(s1, InsertCas(0)) && WellFormed(s2)
    ensures PcOf(s2, 0) == InsertArmed(u, s.memory.available[0]) && OthersIdle(s2)
    ensures var i := s.memory.available[0];
      s2.memory ==
        s.memory.(available := s.memory.available[1..], index := s.memory.index[u := i], ids := s.memory.ids[i := u])
  {
    s1 := Do(s, InsertPop(0, u));
    s2 := Do(s1, InsertCas(0));
  }

  lemma Entered(s2: State, u: Uuid, i: nat) returns (s3: State, s4: State)
    requires WellFormed(s2) && PcOf(s2, 0) == InsertArmed(u, i) && OthersIdle(s2)
    ensures Enabled(s2, InsertStore(0)) && s3 == Do(s2, InsertStore(0))
    ensures WellFormed(s3) && Enabled(s3, InsertMaps(0)) && s4 == Do(s3, InsertMaps(0)) && WellFormed(s4)
    ensures AllIdle(s4)
    ensures s4.memory == Mapped(s2.memory.(byFd := s2.memory.byFd[i := u]), u)
  {
    s3 := Do(s2, InsertStore(0));
    s4 := Do(s3, InsertMaps(0));
  }

  lemma StepIsReachable(s: State, capacity: nat, a: Action)
    requires Reachable(s, capacity) && WellFormed(s) && Enabled(s, a)
    ensures Reachable(Do(s, a), capacity)
  {
    var uri, actions :| Execute(Initial(capacity, uri), actions) == Some(s);
    hide Initial, Do, Enabled, WellFormed;
    assert (actions + [a])[..|actions|] == actions;
    assert Execute(Initial(capacity, uri), actions + [a]) == Some(Do(s, a));
  }

  /** Lookups by uri are right at every moment of a run exactly when each of its steps is safe. */
  lemma {:induction false} UrisAgreeThroughout(capacity: nat, uri: map<Uuid, string>, actions: seq<Action>)
    requires Execute(Initial(capacity, uri), actions).Some?
    ensures RightAlong(Initial(capacity, uri), actions) <==> SafeAlong(Initial(capacity, uri), actions)
  {
    hide UrisAgree, UriSafe, Invariant, Do, Enabled;
    var s := Initial(capacity, uri);
    assert UrisAgree(s) by { InitialUris(capacity, uri); }
    if actions != [] {
      var earlier := actions[..|actions| - 1];
      UrisAgreeThroughout(capacity, uri, earlier);
      RunKeepsInvariant(capacity, uri, earlier);
      if RightAlong(s, earlier) {
        RightAtEnd(s, earlier);
        UrisAgreeExactlyWhenSafe(Execute(s, earlier).value, actions[|actions| - 1]);
      }
    }
  }

  lemma InitialUris(capacity: nat, uri: map<Uuid, string>)
    ensures UrisAgree(Initial(capacity, uri))
  {
  }

  ghost predicate RightAlong(s: State, actions: seq<Action>)
    requires Execute(s, actions).Some?
  {
    UrisAgree(Execute(s, actions).value) && (actions != [] ==> RightAlong(s, actions[..|actions| - 1]))
  }

  ghost predicate SafeAlong(s: State, actions: seq<Action>)
    requires Execute(s, actions).Some?
  {
    actions != [] ==>
      && SafeAlong(s, actions[..|actions| - 1])
      && UriSafe(Execute(s, actions[..|actions| - 1]).value, actions[|actions| - 1])
  }

  lemma RightAtEnd(s: State, actions: seq<Action>)
    requires Execute(s, actions).Some? && RightAlong(s, actions)
    ensures UrisAgree(Execute(s, actions).value)
  {
  }
}
