/** The slot table of a stream set as a state machine: any number of threads, and one atomic access to
    shared memory in a step. */
module StreamSlots {
  import opened Option

  type Uuid = nat
  type Thread = nat

  /** The null pointer among streams, and the claim token of a slot that is free or held. */
  const NONE: Uuid := 0

  /** The memory that threads share; a stream is named by its uuid.

      `ids` and `byFd` are the claim tokens and the streams of the slots, `available` is the queue of
      free slot indexes, and `index` and `uri` are fields of the streams (a stream without an index is
      not in `index`). */
  datatype Memory = Memory(
    ids: seq<Uuid>,
    byFd: seq<Uuid>,
    available: seq<nat>,
    byUuid: map<Uuid, Uuid>,
    byUri: map<string, Uuid>,
    index: map<Uuid, nat>,
    uri: map<Uuid, string>)

  /** Where a thread is in an operation on stream `u` at slot `i`. */
  datatype Pc =
    | Idle
    | InsertPopped(u: Uuid, i: nat)
    | InsertArmed(u: Uuid, i: nat)
    | InsertStored(u: Uuid, i: nat)
    | InsertRefused(u: Uuid, i: nat)
    | AcquireClaimed(u: Uuid, i: nat)
    | EraseChecked(u: Uuid, i: nat)
    | EraseReset(u: Uuid, i: nat)
    | EraseUnmapped(u: Uuid, i: nat)
    | ErasePushed(u: Uuid, i: nat)

  /** What a slot is being used for, and by whom; it follows the steps and does not influence them. */
  datatype Use =
    | Free
    | Armed(u: Uuid)
    | Held(u: Uuid, owner: Thread)
    | Busy(u: Uuid, owner: Thread)

  datatype State = State(memory: Memory, pcs: map<Thread, Pc>, holds: set<(Thread, Uuid)>, uses: seq<Use>)

  /** The steps; the thread `t` that takes one comes first. */
  datatype Action =
    | InsertPop(t: Thread, u: Uuid)
    | InsertCas(t: Thread)
    | InsertStore(t: Thread)
    | InsertMaps(t: Thread)
    | InsertGiveUp(t: Thread)
    | AcquireCas(t: Thread, u: Uuid, i: nat)
    | AcquireCheck(t: Thread)
    | Release(t: Thread, u: Uuid)
    | EraseCheck(t: Thread, u: Uuid)
    | EraseStore(t: Thread)
    | EraseMaps(t: Thread)
    | ErasePush(t: Thread)
    | EraseIndex(t: Thread)
    | HandOver(t: Thread, u: Uuid, to: Thread)
    | Upgrade(t: Thread, u: Uuid, transport: string)

  function PcOf(s: State, t: Thread): Pc {
    if t in s.pcs then s.pcs[t] else Idle
  }

  /** The slot whose use is by stream `u`, if there is one. */
  predicate InSlot(s: State, u: Uuid) {
    u in s.memory.index && s.memory.index[u] < |s.uses| && UsedBy(s.uses[s.memory.index[u]], u)
  }

  predicate UsedBy(use: Use, u: Uuid) {
    !use.Free? && use.u == u
  }

  /** `u` is being inserted, and no other thread knows of it yet. */
  predicate Private(s: State, u: Uuid) {
    && InSlot(s, u)
    && var use := s.uses[s.memory.index[u]];
    && use.Busy?
    && Inserts(PcOf(s, use.owner))
  }

  predicate Inserts(pc: Pc) {
    pc.InsertPopped? || pc.InsertArmed? || pc.InsertStored? || pc.InsertRefused?
  }

  predicate Erases(pc: Pc) {
    pc.EraseChecked? || pc.EraseReset? || pc.EraseUnmapped?
  }

  /** The last steps of an erasure still write the stream's index. */
  predicate Settled(s: State, u: Uuid) {
    forall t :: t in s.pcs && s.pcs[t].ErasePushed? ==> s.pcs[t].u != u
  }

  /** When a step can be taken.  Its operation has to have come to it; only the holder of a stream
      releases, erases or hands it over; a stream is inserted only while it is not in the set, and
      nobody else has its handle before that is done. */
  predicate Enabled(s: State, a: Action) {
    match a
    case InsertPop(t, u) => PcOf(s, t).Idle? && u != NONE && u in s.memory.uri && !InSlot(s, u) && Settled(s, u)
    case InsertCas(t) => PcOf(s, t).InsertPopped?
    case InsertStore(t) => PcOf(s, t).InsertArmed?
    case InsertMaps(t) => PcOf(s, t).InsertStored?
    case InsertGiveUp(t) => PcOf(s, t).InsertRefused?
    case AcquireCas(t, u, i) => PcOf(s, t).Idle? && i < |s.memory.ids| && !Private(s, u)
    case AcquireCheck(t) => PcOf(s, t).AcquireClaimed?
    case Release(t, u) => PcOf(s, t).Idle? && (t, u) in s.holds
    case EraseCheck(t, u) => PcOf(s, t).Idle? && (t, u) in s.holds
    case EraseStore(t) => PcOf(s, t).EraseChecked?
    case EraseMaps(t) => PcOf(s, t).EraseReset?
    case ErasePush(t) => PcOf(s, t).EraseUnmapped?
    case EraseIndex(t) => PcOf(s, t).ErasePushed?
    case HandOver(t, u, to) => PcOf(s, t).Idle? && (t, u) in s.holds
    case Upgrade(t, u, transport) => PcOf(s, t).Idle? && u in s.memory.uri
  }

  // ----- What the steps do to the shared memory ----------------------------------------------

  /** Replaces the token of slot `i` if it is the expected one. */
  function CompareExchange(m: Memory, i: nat, expected: Uuid, desired: Uuid): Memory
    requires i < |m.ids|
  {
    if m.ids[i] == expected then m.(ids := m.ids[i := desired]) else m
  }

  function Popped(m: Memory, u: Uuid): Memory
    requires m.available != []
  {
    m.(available := m.available[1..], index := m.index[u := m.available[0]])
  }

  function Pushed(m: Memory, i: nat): Memory {
    m.(available := m.available + [i])
  }

  function Stored(m: Memory, i: nat, u: Uuid): Memory
    requires i < |m.byFd|
  {
    m.(byFd := m.byFd[i := u])
  }

  /** Like the containers' own insertion, this leaves a key alone that is already there. */
  function Added<K, V>(m: map<K, V>, k: K, v: V): map<K, V> {
    if k in m then m else m[k := v]
  }

  function Mapped(m: Memory, u: Uuid): Memory
    requires u in m.uri
  {
    m.(byUuid := Added(m.byUuid, u, u), byUri := Added(m.byUri, m.uri[u], u))
  }

  function Unmapped(m: Memory, u: Uuid): Memory
    requires u in m.uri
  {
    m.(byUuid := m.byUuid - {u}, byUri := m.byUri - {m.uri[u]})
  }

  function Forgotten(m: Memory, u: Uuid): Memory {
    m.(index := m.index - {u})
  }

  /** The part of a uri from the first "://" on. */
  function AfterScheme(uri: string): Option<string> {
    if |uri| < 3 then None
    else if uri[..3] == "://" then Some(uri)
    else AfterScheme(uri[1..])
  }

  /** A uri that has no "://" makes the upgrade throw, after its entry has been erased. */
  function Upgraded(m: Memory, u: Uuid, transport: string): Memory
    requires u in m.uri
  {
    if m.uri[u] !in m.byUri then m
    else
      var erased := m.(byUri := m.byUri - {m.uri[u]});
      var tail := AfterScheme(m.uri[u]);
      if tail.None? then erased
      else
        var uri := transport + tail.value;
        erased.(uri := m.uri[u := uri], byUri := Added(erased.byUri, uri, u))
  }

  /** The next state. */
  function Do(s: State, a: Action): State
    requires WellFormed(s) && Enabled(s, a)
  {
    var m := s.memory;
    var pc := PcOf(s, a.t);
    match a
    case InsertPop(t, u) =>
      if m.available == [] then s
      else
        var i := m.available[0];
        s.(memory := Popped(m, u), pcs := s.pcs[t := InsertPopped(u, i)], uses := s.uses[i := Busy(u, t)])
    case InsertCas(t) =>
      s.(memory := CompareExchange(m, pc.i, NONE, pc.u),
         pcs := s.pcs[t := if m.ids[pc.i] == NONE then InsertArmed(pc.u, pc.i) else InsertRefused(pc.u, pc.i)])
    case InsertStore(t) =>
      s.(memory := Stored(m, pc.i, pc.u), pcs := s.pcs[t := InsertStored(pc.u, pc.i)])
    case InsertMaps(t) =>
      s.(memory := Mapped(m, pc.u), pcs := s.pcs[t := Idle], uses := s.uses[pc.i := Armed(pc.u)])
    case InsertGiveUp(t) =>
      s.(memory := Pushed(Forgotten(m, pc.u), pc.i), pcs := s.pcs[t := Idle], uses := s.uses[pc.i := Free])
    case AcquireCas(t, u, i) =>
      if u != NONE && m.ids[i] == u then
        s.(memory := CompareExchange(m, i, u, NONE), pcs := s.pcs[t := AcquireClaimed(u, i)],
           uses := s.uses[i := Busy(u, t)])
      else s
    case AcquireCheck(t) =>
      if m.byFd[pc.i] == pc.u then
        s.(pcs := s.pcs[t := Idle], holds := s.holds + {(t, pc.u)}, uses := s.uses[pc.i := Held(pc.u, t)])
      else s.(pcs := s.pcs[t := Idle])
    case Release(t, u) =>
      if u in m.index && m.index[u] < |m.ids| && m.ids[m.index[u]] == NONE then
        s.(memory := CompareExchange(m, m.index[u], NONE, u), holds := s.holds - {(t, u)},
           uses := s.uses[m.index[u] := Armed(u)])
      else s
    case EraseCheck(t, u) =>
      if u in m.index && m.index[u] < |m.ids| && m.ids[m.index[u]] == NONE then
        s.(pcs := s.pcs[t := EraseChecked(u, m.index[u])], holds := s.holds - {(t, u)},
           uses := s.uses[m.index[u] := Busy(u, t)])
      else s
    case EraseStore(t) =>
      s.(memory := Stored(m, pc.i, NONE), pcs := s.pcs[t := EraseReset(pc.u, pc.i)])
    case EraseMaps(t) =>
      s.(memory := Unmapped(m, pc.u), pcs := s.pcs[t := EraseUnmapped(pc.u, pc.i)])
    case ErasePush(t) =>
      s.(memory := Pushed(m, pc.i), pcs := s.pcs[t := ErasePushed(pc.u, pc.i)], uses := s.uses[pc.i := Free])
    case EraseIndex(t) =>
      s.(memory := Forgotten(m, pc.u), pcs := s.pcs[t := Idle])
    case HandOver(t, u, to) =>
      s.(holds := s.holds - {(t, u)} + {(to, u)},
         uses := if InSlot(s, u) then s.uses[m.index[u] := Held(u, to)] else s.uses)
    case Upgrade(t, u, transport) => s.(memory := Upgraded(m, u, transport))
  }

  /** Indexes are indexes, and streams have uris. */
  predicate WellFormed(s: State) {
    && |s.memory.ids| == |s.memory.byFd| == |s.uses|
    && (forall i :: 0 <= i < |s.memory.available| ==> s.memory.available[i] < |s.uses|)
    && (forall t :: t in s.pcs ==> s.pcs[t].Idle? || (s.pcs[t].i < |s.uses| && s.pcs[t].u in s.memory.uri))
  }

  /** What an operation returns with its last step; `None` if it is not done. */
  function Returns(s: State, a: Action): Option<bool>
    requires WellFormed(s) && Enabled(s, a)
  {
    match a
    case InsertPop(t, u) => if s.memory.available == [] then Some(false) else None
    case InsertMaps(t) => Some(true)
    case InsertGiveUp(t) => Some(false)
    case AcquireCas(t, u, i) => if u != NONE && s.memory.ids[i] == u then None else Some(false)
    case AcquireCheck(t) => Some(s.memory.byFd[PcOf(s, t).i] == PcOf(s, t).u)
    case Release(t, u) =>
      Some(u in s.memory.index && s.memory.index[u] < |s.uses| && s.memory.ids[s.memory.index[u]] == NONE)
    case EraseCheck(t, u) =>
      if u in s.memory.index && s.memory.index[u] < |s.uses| && s.memory.ids[s.memory.index[u]] == NONE then None
      else Some(false)
    case EraseIndex(t) => Some(true)
    case _ => None
  }

  /** An empty set, of which all indexes are available; the streams that will be used have uris. */
  function Initial(capacity: nat, uri: map<Uuid, string>): State {
    State(Memory(seq(capacity, _ => NONE), seq(capacity, _ => NONE), seq(capacity, i => i), map[], map[], map[], uri),
          map[], {}, seq(capacity, _ => Free))
  }

  // ----- The invariant ---------------------------------------------------------------------------

  /** What a slot contains, given its use. */
  predicate SlotAgrees(s: State, i: nat)
    requires WellFormed(s) && i < |s.uses|
  {
    var id, stream, use := s.memory.ids[i], s.memory.byFd[i], s.uses[i];
    match use
    case Free => id == NONE && stream == NONE
    case Armed(u) => Located(s, u, i) && id == u && stream == u
    case Held(u, t) => Located(s, u, i) && id == NONE && stream == u && (t, u) in s.holds
    case Busy(u, t) =>
      && Located(s, u, i)
      && match PcOf(s, t)
         case InsertPopped(v, j) => v == u && j == i && id == NONE && stream == NONE
         case InsertArmed(v, j) => v == u && j == i && id == u && stream == NONE
         case InsertStored(v, j) => v == u && j == i && id == u && stream == u
         case AcquireClaimed(v, j) => v == u && j == i && id == NONE && stream == u
         case EraseChecked(v, j) => v == u && j == i && id == NONE && stream == u
         case EraseReset(v, j) => v == u && j == i && id == NONE && stream == NONE
         case EraseUnmapped(v, j) => v == u && j == i && id == NONE && stream == NONE
         case _ => false
  }

  predicate Located(s: State, u: Uuid, i: nat) {
    u != NONE && u in s.memory.index && s.memory.index[u] == i && u in s.memory.uri
  }

  predicate SlotsAgree(s: State)
    requires WellFormed(s)
  {
    forall i :: 0 <= i < |s.uses| ==> SlotAgrees(s, i)
  }

  /** A thread in an operation owns the slot it works on, except at the end of an erasure. */
  predicate ThreadAgrees(s: State, t: Thread)
    requires WellFormed(s)
  {
    match PcOf(s, t)
    case Idle => true
    case InsertRefused(_, _) => false
    case ErasePushed(u, _) => !InSlot(s, u)
    case _ => s.uses[PcOf(s, t).i] == Busy(PcOf(s, t).u, t)
  }

  predicate ThreadsAgree(s: State)
    requires WellFormed(s)
  {
    forall t :: t in s.pcs ==> ThreadAgrees(s, t)
  }

  predicate HoldersAgree(s: State) {
    forall h :: h in s.holds ==>
      h.1 in s.memory.index && s.memory.index[h.1] < |s.uses| && s.uses[s.memory.index[h.1]] == Held(h.1, h.0)
  }

  /** The free slots are queued, once each. */
  predicate QueueAgrees(s: State)
    requires WellFormed(s)
  {
    && (forall i, j :: 0 <= i < j < |s.memory.available| ==> s.memory.available[i] != s.memory.available[j])
    && (forall i :: 0 <= i < |s.uses| ==> (s.uses[i].Free? <==> i in s.memory.available))
  }

  /** `u` is in the set: its insertion is done, and no erasure of it has come to the maps. */
  predicate Registered(s: State, u: Uuid) {
    && InSlot(s, u)
    && var use := s.uses[s.memory.index[u]];
    && (use.Busy? ==> !Inserts(PcOf(s, use.owner)) && !PcOf(s, use.owner).EraseUnmapped?)
  }

  ghost predicate UuidsAgree(s: State) {
    forall u :: (u in s.memory.byUuid <==> Registered(s, u)) && (u in s.memory.byUuid ==> s.memory.byUuid[u] == u)
  }

  ghost predicate Invariant(s: State) {
    && WellFormed(s)
    && SlotsAgree(s)
    && ThreadsAgree(s)
    && HoldersAgree(s)
    && QueueAgrees(s)
    && UuidsAgree(s)
  }

  lemma InitialInvariant(capacity: nat, uri: map<Uuid, string>)
    ensures Invariant(Initial(capacity, uri))
  {
    var s := Initial(capacity, uri);
    forall i | 0 <= i < capacity ensures i in s.memory.available {
      assert s.memory.available[i] == i;
    }
  }

  // ----- Steps keep the invariant ------------------------------------------------------------------

  /** Nothing has changed but slot `i`, what thread `t` is doing, and what is said about stream `u`. */
  ghost predicate OnlyAt(s: State, n: State, t: Thread, u: Uuid, i: nat) {
    && WellFormed(s) && WellFormed(n)
    && i < |n.uses| == |s.uses|
    && (forall j {:trigger n.uses[j]} :: 0 <= j < |s.uses| && j != i ==>
          n.uses[j] == s.uses[j] && n.memory.ids[j] == s.memory.ids[j] && n.memory.byFd[j] == s.memory.byFd[j])
    && (forall t' :: t' != t ==> PcOf(n, t') == PcOf(s, t'))
    && (forall v :: v != u ==> (v in n.memory.index <==> v in s.memory.index))
    && (forall v :: v != u && v in s.memory.index ==> n.memory.index[v] == s.memory.index[v])
    && (forall h: (Thread, Uuid) :: h.1 != u ==> (h in n.holds <==> h in s.holds))
    && n.memory.uri == s.memory.uri
  }

  /** The slot is free or `t`'s own for `u`, and `t` works on nothing else. */
  ghost predicate Owns(s: State, t: Thread, u: Uuid, i: nat)
    requires WellFormed(s) && i < |s.uses|
  {
    && (s.uses[i].Free? || s.uses[i].u == u)
    && (s.uses[i].Busy? ==> s.uses[i].owner == t)
    && (InSlot(s, u) ==> s.memory.index[u] == i)
    && (PcOf(s, t).Idle? || (PcOf(s, t).u == u && PcOf(s, t).i == i))
  }

  lemma OtherSlots(s: State, n: State, t: Thread, u: Uuid, i: nat)
    requires Invariant(s) && OnlyAt(s, n, t, u, i) && Owns(s, t, u, i)
    requires SlotAgrees(n, i)
    ensures SlotsAgree(n)
  {
    forall j | 0 <= j < |n.uses| ensures SlotAgrees(n, j) {
      if j != i {
        assert SlotAgrees(s, j);
        assert s.uses[j].Busy? ==> ThreadAgrees(s, t);
      }
    }
  }

  lemma OtherThreads(s: State, n: State, t: Thread, u: Uuid, i: nat)
    requires Invariant(s) && OnlyAt(s, n, t, u, i) && Owns(s, t, u, i)
    requires ThreadAgrees(n, t)
    requires n.uses[i].Free? || n.uses[i].u == u
    requires InSlot(n, u) ==> InSlot(s, u) || Settled(s, u)
    ensures ThreadsAgree(n)
  {
    forall t' | t' in n.pcs ensures ThreadAgrees(n, t') {
      if t' != t {
        assert PcOf(n, t') == PcOf(s, t');
        if !PcOf(s, t').Idle? { assert ThreadAgrees(s, t'); }
      }
    }
  }

  lemma OtherHolders(s: State, n: State, t: Thread, u: Uuid, i: nat)
    requires Invariant(s) && OnlyAt(s, n, t, u, i) && Owns(s, t, u, i)
    requires forall h :: h in n.holds && h.1 == u ==>
      u in n.memory.index && n.memory.index[u] == i && n.uses[i] == Held(u, h.0)
    ensures HoldersAgree(n)
  {
    forall h | h in n.holds && h.1 != u
      ensures h.1 in n.memory.index && n.memory.index[h.1] < |n.uses| && n.uses[n.memory.index[h.1]] == Held(h.1, h.0)
    {
      assert h in s.holds;
    }
  }

  lemma OtherUuids(s: State, n: State, t: Thread, u: Uuid, i: nat)
    requires Invariant(s) && OnlyAt(s, n, t, u, i) && Owns(s, t, u, i)
    requires n.uses[i].Free? || n.uses[i].u == u
    requires forall v :: v != u ==> (v in n.memory.byUuid <==> v in s.memory.byUuid)
    requires forall v :: v != u && v in s.memory.byUuid ==> n.memory.byUuid[v] == s.memory.byUuid[v]
    requires (u in n.memory.byUuid <==> Registered(n, u)) && (u in n.memory.byUuid ==> n.memory.byUuid[u] == u)
    ensures UuidsAgree(n)
  {
    forall v | v != u ensures v in n.memory.byUuid <==> Registered(n, v) {
      assert InSlot(n, v) <==> InSlot(s, v);
      if InSlot(s, v) {
        var j := s.memory.index[v];
        assert SlotAgrees(s, j) && n.uses[j] == s.uses[j];
      }
    }
  }

  /** What a step has to establish where it works. */
  ghost predicate Settles(s: State, n: State, t: Thread, u: Uuid, i: nat)
    requires OnlyAt(s, n, t, u, i)
  {
    && Owns(s, t, u, i)
    && SlotAgrees(n, i) && ThreadAgrees(n, t)
    && (n.uses[i].Free? || n.uses[i].u == u)
    && (InSlot(n, u) ==> InSlot(s, u) || Settled(s, u))
    && (forall h :: h in n.holds && h.1 == u ==>
          u in n.memory.index && n.memory.index[u] == i && n.uses[i] == Held(u, h.0))
    && (forall v :: v != u ==> (v in n.memory.byUuid <==> v in s.memory.byUuid))
    && (forall v :: v != u && v in s.memory.byUuid ==> n.memory.byUuid[v] == s.memory.byUuid[v])
    && (u in n.memory.byUuid <==> Registered(n, u)) && (u in n.memory.byUuid ==> n.memory.byUuid[u] == u)
    && QueueAgrees(n)
  }

  lemma Focus(s: State, n: State, t: Thread, u: Uuid, i: nat)
    requires Invariant(s) && OnlyAt(s, n, t, u, i) && Settles(s, n, t, u, i)
    ensures Invariant(n)
  {
    hide SlotAgrees, ThreadAgrees, QueueAgrees, Registered, SlotsAgree, ThreadsAgree, HoldersAgree, UuidsAgree;
    OtherSlots(s, n, t, u, i);
    OtherThreads(s, n, t, u, i);
    OtherHolders(s, n, t, u, i);
    OtherUuids(s, n, t, u, i);
  }

  /** What is known about a thread inside an operation, and its slot. */
  lemma AtWork(s: State, t: Thread)
    requires Invariant(s) && !PcOf(s, t).Idle? && !PcOf(s, t).ErasePushed?
    ensures var pc := PcOf(s, t);
      && s.uses[pc.i] == Busy(pc.u, t) && SlotAgrees(s, pc.i) && pc.i !in s.memory.available
      && (forall h :: h in s.holds ==> h.1 != pc.u)
      && (pc.u in s.memory.byUuid <==> Registered(s, pc.u))
      && (pc.u in s.memory.byUuid ==> s.memory.byUuid[pc.u] == pc.u)
  {
    assert ThreadAgrees(s, t);
    assert SlotAgrees(s, PcOf(s, t).i);
  }

  lemma QueueUnchanged(s: State, n: State)
    requires Invariant(s) && WellFormed(n) && n.memory.available == s.memory.available && |n.uses| == |s.uses|
    requires forall i :: 0 <= i < |s.uses| ==> (n.uses[i].Free? <==> s.uses[i].Free?)
    ensures QueueAgrees(n)
  {
  }

  lemma AfterInsertPop(s: State, t: Thread, u: Uuid)
    requires Invariant(s) && Enabled(s, InsertPop(t, u))
    ensures Invariant(Do(s, InsertPop(t, u)))
  {
    if s.memory.available != [] {
      var n := Do(s, InsertPop(t, u));
      var i := s.memory.available[0];
      assert SlotAgrees(s, i);
      Focus(s, n, t, u, i);
    }
  }

  lemma AfterInsertCas(s: State, t: Thread)
    requires Invariant(s) && Enabled(s, InsertCas(t))
    ensures Invariant(Do(s, InsertCas(t)))
  {
    AtWork(s, t);
    var n := Do(s, InsertCas(t));
    QueueUnchanged(s, n);
    Focus(s, n, t, PcOf(s, t).u, PcOf(s, t).i);
  }

  lemma AfterInsertStore(s: State, t: Thread)
    requires Invariant(s) && Enabled(s, InsertStore(t))
    ensures Invariant(Do(s, InsertStore(t)))
  {
    AtWork(s, t);
    var n := Do(s, InsertStore(t));
    QueueUnchanged(s, n);
    Focus(s, n, t, PcOf(s, t).u, PcOf(s, t).i);
  }

  lemma AfterInsertMaps(s: State, t: Thread)
    requires Invariant(s) && Enabled(s, InsertMaps(t))
    ensures Invariant(Do(s, InsertMaps(t)))
  {
    AtWork(s, t);
    var n := Do(s, InsertMaps(t));
    QueueUnchanged(s, n);
    Focus(s, n, t, PcOf(s, t).u, PcOf(s, t).i);
  }

  /** The claim token of a slot is only ever that of the stream that is there to be acquired, unless
      that stream is still private to the thread that inserts it. */
  lemma TokenMeansArmed(s: State, u: Uuid, i: nat)
    requires Invariant(s) && i < |s.uses| && u != NONE && s.memory.ids[i] == u
    ensures s.uses[i] == Armed(u) || Private(s, u)
    ensures InSlot(s, u) && s.memory.index[u] == i
  {
    assert SlotAgrees(s, i);
  }

  lemma AfterAcquireCas(s: State, t: Thread, u: Uuid, i: nat)
    requires Invariant(s) && Enabled(s, AcquireCas(t, u, i))
    ensures Invariant(Do(s, AcquireCas(t, u, i)))
  {
    if u != NONE && s.memory.ids[i] == u {
      TokenMeansArmed(s, u, i);
      assert SlotAgrees(s, i);
      assert Registered(s, u) && u in s.memory.byUuid && forall h :: h in s.holds ==> h.1 != u;
      assert i !in s.memory.available;
      var n := Do(s, AcquireCas(t, u, i));
      QueueUnchanged(s, n);
      Focus(s, n, t, u, i);
    }
  }

  lemma AfterAcquireCheck(s: State, t: Thread)
    requires Invariant(s) && Enabled(s, AcquireCheck(t))
    ensures Invariant(Do(s, AcquireCheck(t)))
  {
    AtWork(s, t);
    assert s.memory.byFd[PcOf(s, t).i] == PcOf(s, t).u;
    var n := Do(s, AcquireCheck(t));
    QueueUnchanged(s, n);
    Focus(s, n, t, PcOf(s, t).u, PcOf(s, t).i);
  }

  /** A held stream is where its index says, with an empty claim token. */
  lemma AtHold(s: State, t: Thread, u: Uuid)
    requires Invariant(s) && (t, u) in s.holds
    ensures InSlot(s, u) && s.uses[s.memory.index[u]] == Held(u, t)
    ensures u != NONE && s.memory.ids[s.memory.index[u]] == NONE && s.memory.byFd[s.memory.index[u]] == u
    ensures s.memory.index[u] !in s.memory.available && u in s.memory.byUuid && s.memory.byUuid[u] == u
    ensures u in s.memory.uri && forall h :: h in s.holds && h.1 == u ==> h == (t, u)
  {
    assert SlotAgrees(s, s.memory.index[(t, u).1]);
    forall h | h in s.holds && h.1 == u ensures h == (t, u) {
      assert s.uses[s.memory.index[h.1]] == Held(h.1, h.0);
    }
  }

  lemma AfterRelease(s: State, t: Thread, u: Uuid)
    requires Invariant(s) && Enabled(s, Release(t, u))
    ensures Invariant(Do(s, Release(t, u)))
  {
    AtHold(s, t, u);
    var n := Do(s, Release(t, u));
    QueueUnchanged(s, n);
    Focus(s, n, t, u, s.memory.index[u]);
  }

  lemma AfterEraseCheck(s: State, t: Thread, u: Uuid)
    requires Invariant(s) && Enabled(s, EraseCheck(t, u))
    ensures Invariant(Do(s, EraseCheck(t, u)))
  {
    AtHold(s, t, u);
    var n := Do(s, EraseCheck(t, u));
    QueueUnchanged(s, n);
    Focus(s, n, t, u, s.memory.index[u]);
  }

  lemma AfterEraseStore(s: State, t: Thread)
    requires Invariant(s) && Enabled(s, EraseStore(t))
    ensures Invariant(Do(s, EraseStore(t)))
  {
    AtWork(s, t);
    var n := Do(s, EraseStore(t));
    QueueUnchanged(s, n);
    Focus(s, n, t, PcOf(s, t).u, PcOf(s, t).i);
  }

  lemma AfterEraseMaps(s: State, t: Thread)
    requires Invariant(s) && Enabled(s, EraseMaps(t))
    ensures Invariant(Do(s, EraseMaps(t)))
  {
    AtWork(s, t);
    var n := Do(s, EraseMaps(t));
    QueueUnchanged(s, n);
    Focus(s, n, t, PcOf(s, t).u, PcOf(s, t).i);
  }

  lemma QueuePushed(s: State, n: State, i: nat)
    requires Invariant(s) && WellFormed(n) && i < |s.uses| && i !in s.memory.available
    requires n.memory.available == s.memory.available + [i] && n.uses == s.uses[i := Free]
    ensures QueueAgrees(n)
  {
    assert n.memory.available[|s.memory.available|] == i;
  }

  lemma AfterErasePush(s: State, t: Thread)
    requires Invariant(s) && Enabled(s, ErasePush(t))
    ensures Invariant(Do(s, ErasePush(t)))
  {
    AtWork(s, t);
    var n := Do(s, ErasePush(t));
    QueuePushed(s, n, PcOf(s, t).i);
    Focus(s, n, t, PcOf(s, t).u, PcOf(s, t).i);
  }

  /** Neither a slot nor a stream that is in one is touched. */
  ghost predicate SlotsUntouched(s: State, n: State) {
    && WellFormed(s) && WellFormed(n)
    && n.uses == s.uses && n.holds == s.holds
    && n.memory.ids == s.memory.ids && n.memory.byFd == s.memory.byFd
    && n.memory.available == s.memory.available && n.memory.byUuid == s.memory.byUuid
    && n.memory.uri.Keys == s.memory.uri.Keys
    && (forall v :: (InSlot(n, v) <==> InSlot(s, v)) && (InSlot(s, v) ==> n.memory.index[v] == s.memory.index[v]))
    && (forall t :: PcOf(n, t) == PcOf(s, t) || (PcOf(s, t).ErasePushed? && PcOf(n, t).Idle?))
  }

  lemma UntouchedSlots(s: State, n: State)
    requires Invariant(s) && SlotsUntouched(s, n)
    ensures SlotsAgree(n) && HoldersAgree(n)
  {
    forall i | 0 <= i < |n.uses| ensures SlotAgrees(n, i) {
      assert SlotAgrees(s, i);
      if !s.uses[i].Free? { assert InSlot(s, s.uses[i].u); }
    }
    forall h | h in n.holds
      ensures h.1 in n.memory.index && n.memory.index[h.1] < |n.uses| && n.uses[n.memory.index[h.1]] == Held(h.1, h.0)
    {
      assert InSlot(s, h.1);
    }
  }

  lemma UntouchedThreads(s: State, n: State)
    requires Invariant(s) && SlotsUntouched(s, n)
    ensures ThreadsAgree(n)
  {
    forall t | t in n.pcs ensures ThreadAgrees(n, t) {
      if t in s.pcs { assert ThreadAgrees(s, t); }
    }
  }

  lemma UntouchedUuids(s: State, n: State)
    requires Invariant(s) && SlotsUntouched(s, n)
    ensures UuidsAgree(n)
  {
    forall v ensures Registered(n, v) <==> Registered(s, v) {
      if InSlot(s, v) { assert SlotAgrees(s, s.memory.index[v]); }
    }
  }

  lemma Untouched(s: State, n: State)
    requires Invariant(s) && SlotsUntouched(s, n)
    ensures Invariant(n)
  {
    UntouchedSlots(s, n);
    UntouchedThreads(s, n);
    UntouchedUuids(s, n);
  }

  /** The last step of an erasure does not touch a slot; the one it has been working on may be in use
      for another stream already. */
  lemma AfterEraseIndex(s: State, t: Thread)
    requires Invariant(s) && Enabled(s, EraseIndex(t))
    ensures Invariant(Do(s, EraseIndex(t)))
  {
    assert ThreadAgrees(s, t);
    Untouched(s, Do(s, EraseIndex(t)));
  }

  lemma AfterHandOver(s: State, t: Thread, u: Uuid, to: Thread)
    requires Invariant(s) && Enabled(s, HandOver(t, u, to))
    ensures Invariant(Do(s, HandOver(t, u, to)))
  {
    AtHold(s, t, u);
    var n := Do(s, HandOver(t, u, to));
    QueueUnchanged(s, n);
    Focus(s, n, t, u, s.memory.index[u]);
  }

  lemma AfterUpgrade(s: State, t: Thread, u: Uuid, transport: string)
    requires Invariant(s) && Enabled(s, Upgrade(t, u, transport))
    ensures Invariant(Do(s, Upgrade(t, u, transport)))
  {
    Untouched(s, Do(s, Upgrade(t, u, transport)));
  }

  lemma StepKeepsInvariant(s: State, a: Action)
    requires Invariant(s) && Enabled(s, a)
    ensures Invariant(Do(s, a))
  {
    hide Invariant, Do;
    match a
    case InsertPop(t, u) => AfterInsertPop(s, t, u);
    case InsertCas(t) => AfterInsertCas(s, t);
    case InsertStore(t) => AfterInsertStore(s, t);
    case InsertMaps(t) => AfterInsertMaps(s, t);
    case InsertGiveUp(t) => NeverRefused(s, t);
    case AcquireCas(t, u, i) => AfterAcquireCas(s, t, u, i);
    case AcquireCheck(t) => AfterAcquireCheck(s, t);
    case Release(t, u) => AfterRelease(s, t, u);
    case EraseCheck(t, u) => AfterEraseCheck(s, t, u);
    case EraseStore(t) => AfterEraseStore(s, t);
    case EraseMaps(t) => AfterEraseMaps(s, t);
    case ErasePush(t) => AfterErasePush(s, t);
    case EraseIndex(t) => AfterEraseIndex(s, t);
    case HandOver(t, u, to) => AfterHandOver(s, t, u, to);
    case Upgrade(t, u, transport) => AfterUpgrade(s, t, u, transport);
  }

  /** The slot that an insertion has taken is free: its claim never fails. */
  lemma NeverRefused(s: State, t: Thread)
    requires Invariant(s)
    ensures !PcOf(s, t).InsertRefused?
  {
    if t in s.pcs { assert ThreadAgrees(s, t); }
  }
}
