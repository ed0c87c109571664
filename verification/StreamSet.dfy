/** The operations of a stream set as the program text of one thread.  Each is specified by the steps
    of the slot machine that it takes, in the order in which it takes them. */
module StreamSet {
  import opened Option
  import opened StreamSlots
  import opened StreamSafety

  class StreamSet {
    const byFd: array<Uuid>
    const ids: array<Uuid>
    var available: seq<nat>
    var byUuid: map<Uuid, Uuid>
    var byUri: map<string, Uuid>

    /** Fields of the streams. */
    var index: map<Uuid, nat>
    var uri: map<Uuid, string>

    ghost predicate Valid()
      reads this
    {
      && byFd != ids
      && byFd.Length == ids.Length
      && (forall i :: 0 <= i < |available| ==> available[i] < ids.Length)
      && (forall u :: u in index ==> index[u] < ids.Length)
    }

    ghost function Contents(): Memory
      reads this, byFd, ids
    {
      Memory(ids[..], byFd[..], available, byUuid, byUri, index, uri)
    }

    constructor (capacity: nat, uri: map<Uuid, string>)
      ensures Valid() && fresh(byFd) && fresh(ids)
      ensures Contents() == Initial(capacity, uri).memory
    {
      var streams := new Uuid[capacity](_ => NONE);
      var tokens := new Uuid[capacity](_ => NONE);
      byFd, ids := streams, tokens;
      available, byUuid, byUri, index := [], map[], map[], map[];
      this.uri := uri;
      new;
      for i := 0 to capacity
        invariant available == seq(i, k => k)
        invariant forall k :: 0 <= k < capacity ==> streams[k] == NONE && tokens[k] == NONE
        invariant byFd == streams && ids == tokens
        invariant byUuid == map[] && byUri == map[] && index == map[] && this.uri == uri
      {
        available := available + [i];
      }
      assert ids[..] == seq(capacity, _ => NONE) && byFd[..] == seq(capacity, _ => NONE);
    }

    /** Replaces the token of slot `i` if it is the expected one. */
    method CompareExchangeId(i: nat, expected: Uuid, desired: Uuid) returns (ok: bool)
      requires Valid() && i < ids.Length
      modifies ids
      ensures Contents() == CompareExchange(old(Contents()), i, expected, desired)
      ensures ok == (old(ids[i]) == expected)
    {
      ok := ids[i] == expected;
      if ok { ids[i] := desired; }
    }

    /** Pop, claim, store, and enter into the maps; gives the index back if the claim fails. */
    method Insert(u: Uuid) returns (ok: bool)
      requires Valid() && u in uri
      modifies this`available, this`index, this`byUuid, this`byUri, byFd, ids
      ensures Valid()
      ensures var m := old(Contents());
        if m.available == [] then !ok && Contents() == m
        else
          var i := m.available[0];
          && ok == (m.ids[i] == NONE)
          && Contents() ==
             if ok then Mapped(Stored(CompareExchange(Popped(m, u), i, NONE, u), i, u), u)
             else Pushed(Forgotten(Popped(m, u), u), i)
    {
      if available == [] { return false; }
      var i := available[0];
      available, index := available[1..], index[u := i];
      var released := Release(u);
      if released {
        byFd[index[u]] := u;
        byUuid := Added(byUuid, u, u);
        byUri := Added(byUri, uri[u], u);
        return true;
      }
      var unavailable := index[u];
      index := index - {u};
      available := available + [unavailable];
      return false;
    }

    /** Puts the stream's uuid back as the claim token of its slot, if that is empty. */
    method Release(u: Uuid) returns (ok: bool)
      requires Valid()
      modifies ids
      ensures ok == (u in index && old(ids[..])[index[u]] == NONE)
      ensures Contents() == if u in index then CompareExchange(old(Contents()), index[u], NONE, u) else old(Contents())
    {
      if u !in index { return false; }
      ok := CompareExchangeId(index[u], NONE, u);
    }

    /** Claims the stream that a handle names, and returns it, or null.  A slot with a claim token has
        a stream in it once its insertion is done. */
    method Acquire(i: nat, u: Uuid) returns (stream: Uuid)
      requires Valid() && i < ids.Length
      requires u != NONE && ids[i] == u ==> byFd[i] != NONE
      modifies ids
      ensures stream == if u != NONE && old(ids[i]) == u && byFd[i] == u then u else NONE
      ensures Contents() == if u == NONE then old(Contents()) else CompareExchange(old(Contents()), i, u, NONE)
    {
      if u == NONE { return NONE; }
      var claimed := CompareExchangeId(i, u, NONE);
      if claimed {
        if byFd[i] == u { return byFd[i]; }
        return NONE;
      }
      return NONE;
    }

    /** Clears the slot, leaves the maps, and gives the index back, if the slot is claimed.  The caller
        has acquired the stream, so it has an index. */
    method Erase(u: Uuid) returns (ok: bool)
      requires Valid() && u in index && u in uri
      modifies this`available, this`index, this`byUuid, this`byUri, byFd
      ensures Valid()
      ensures var m := old(Contents()); var i := m.index[u];
        && ok == (m.ids[i] == NONE)
        && Contents() == if ok then Forgotten(Pushed(Unmapped(Stored(m, i, NONE), u), i), u) else m
    {
      if ids[index[u]] == NONE {
        byFd[index[u]] := NONE;
        byUuid := byUuid - {u};
        byUri := byUri - {uri[u]};
        available := available + [index[u]];
        index := index - {u};
        return true;
      }
      return false;
    }

    /** Moves a stream's entry to the uri it has under another transport; throws if the uri that it
        has is not one. */
    method Upgrade(u: Uuid, transport: string) returns (thrown: bool)
      requires Valid() && u in uri
      modifies this`byUri, this`uri
      ensures Valid()
      ensures Contents() == Upgraded(old(Contents()), u, transport)
      ensures thrown <==> old(uri[u]) in old(byUri) && AfterScheme(old(uri[u])).None?
    {
      if uri[u] in byUri {
        byUri := byUri - {uri[u]};
        var tail := AfterScheme(uri[u]);
        if tail.None? { return true; }
        uri := uri[u := transport + tail.value];
        byUri := Added(byUri, uri[u], u);
      }
      return false;
    }

    method Get(u: Uuid) returns (stream: Uuid)
      ensures stream == if u in byUuid then byUuid[u] else NONE
    {
      if u in byUuid { return byUuid[u]; }
      return NONE;
    }

    method GetByUri(key: string) returns (stream: Uuid)
      ensures stream == if key in byUri then byUri[key] else NONE
    {
      if key in byUri { return byUri[key]; }
      return NONE;
    }
  }

  // ----- Undisturbed, the steps of the machine do what the program text does -------------------------

  lemma TwoSteps(s: State, a: Action, b: Action)
    requires Invariant(s) && Enabled(s, a) && Invariant(Do(s, a)) && Enabled(Do(s, a), b)
    ensures Execute(s, [a, b]) == Some(Do(Do(s, a), b))
  {
    assert [a, b][..1] == [a] && [a][..0] == [];
    assert Execute(s, []) == Some(s);
    assert Execute(s, [a]) == Some(Do(s, a));
  }

  lemma ThenStep(s: State, actions: seq<Action>, n: State, a: Action)
    requires Execute(s, actions) == Some(n) && Invariant(n) && Enabled(n, a)
    ensures Execute(s, actions + [a]) == Some(Do(n, a)) && Invariant(Do(n, a))
  {
    assert (actions + [a])[..|actions|] == actions;
    StepKeepsInvariant(n, a);
  }

  /** One step of an operation that has begun: the memory it leaves, and where the thread is then. */
  lemma StepEffect(s: State, t: Thread)
    requires Invariant(s)
    ensures var m, pc := s.memory, PcOf(s, t);
      match pc
      case InsertPopped(u, i) => i < |m.ids| && Enabled(s, InsertCas(t)) &&
        var n := Do(s, InsertCas(t)); n.memory == CompareExchange(m, i, NONE, u) && PcOf(n, t) == InsertArmed(u, i)
      case InsertArmed(u, i) => i < |m.byFd| && Enabled(s, InsertStore(t)) &&
        var n := Do(s, InsertStore(t)); n.memory == Stored(m, i, u) && PcOf(n, t) == InsertStored(u, i)
      case InsertStored(u, i) => u in m.uri && Enabled(s, InsertMaps(t)) &&
        Do(s, InsertMaps(t)).memory == Mapped(m, u)
      case EraseChecked(u, i) => i < |m.byFd| && Enabled(s, EraseStore(t)) &&
        var n := Do(s, EraseStore(t)); n.memory == Stored(m, i, NONE) && PcOf(n, t) == EraseReset(u, i)
      case EraseReset(u, i) => u in m.uri && Enabled(s, EraseMaps(t)) &&
        var n := Do(s, EraseMaps(t)); n.memory == Unmapped(m, u) && PcOf(n, t) == EraseUnmapped(u, i)
      case EraseUnmapped(u, i) => Enabled(s, ErasePush(t)) &&
        var n := Do(s, ErasePush(t)); n.memory == Pushed(m, i) && PcOf(n, t) == ErasePushed(u, i)
      case ErasePushed(u, i) => Enabled(s, EraseIndex(t)) &&
        Do(s, EraseIndex(t)).memory == Forgotten(m, u)
      case _ => true
  {
    if PcOf(s, t).InsertPopped? { AtWork(s, t); }
  }

  lemma InsertUndisturbed(s: State, t: Thread, u: Uuid)
    requires Invariant(s) && Enabled(s, InsertPop(t, u)) && s.memory.available != []
    ensures var i := s.memory.available[0];
      var r := Execute(s, [InsertPop(t, u), InsertCas(t), InsertStore(t), InsertMaps(t)]);
      r.Some? && i < |s.memory.ids| == |s.memory.byFd| && u in s.memory.uri
      && r.value.memory == Mapped(Stored(CompareExchange(Popped(s.memory, u), i, NONE, u), i, u), u)
  {
    var a, b, c, d := InsertPop(t, u), InsertCas(t), InsertStore(t), InsertMaps(t);
    assert [a, b] + [c] == [a, b, c] && [a, b, c] + [d] == [a, b, c, d];
    StepKeepsInvariant(s, a);
    var s1 := Do(s, a);
    assert |s.memory.ids| == |s.memory.byFd|;
    assert PcOf(s1, t) == InsertPopped(u, s.memory.available[0]) && s1.memory == Popped(s.memory, u);
    hide SlotsAgree, ThreadsAgree, HoldersAgree, QueueAgrees, UuidsAgree, WellFormed, Do, Execute, Enabled, PcOf;
    StepEffect(s1, t);
    TwoSteps(s, a, b);
    StepKeepsInvariant(s1, b);
    var s2 := Do(s1, b);
    StepEffect(s2, t);
    ThenStep(s, [a, b], s2, c);
    var s3 := Do(s2, c);
    StepEffect(s3, t);
    ThenStep(s, [a, b, c], s3, d);
  }

  lemma AcquireUndisturbed(s: State, t: Thread, u: Uuid, i: nat)
    requires Invariant(s) && Enabled(s, AcquireCas(t, u, i)) && u != NONE && s.memory.ids[i] == u
    ensures var r := Execute(s, [AcquireCas(t, u, i), AcquireCheck(t)]);
      r.Some? && (t, u) in r.value.holds && r.value.memory == CompareExchange(s.memory, i, u, NONE)
  {
    var a, b := AcquireCas(t, u, i), AcquireCheck(t);
    StepKeepsInvariant(s, a);
    TwoSteps(s, a, b);
    AtWork(Do(s, a), t);
  }

  lemma EraseUndisturbed(s: State, t: Thread, u: Uuid)
    requires Invariant(s) && Enabled(s, EraseCheck(t, u))
    ensures u in s.memory.index && u in s.memory.uri
    ensures var i := s.memory.index[u];
      var r := Execute(s, [EraseCheck(t, u), EraseStore(t), EraseMaps(t), ErasePush(t), EraseIndex(t)]);
      r.Some? && i < |s.memory.byFd|
      && r.value.memory == Forgotten(Pushed(Unmapped(Stored(s.memory, i, NONE), u), i), u)
  {
    AtHold(s, t, u);
    var a, b, c, d, e := EraseCheck(t, u), EraseStore(t), EraseMaps(t), ErasePush(t), EraseIndex(t);
    assert [a, b] + [c] == [a, b, c] && [a, b, c] + [d] == [a, b, c, d] && [a, b, c, d] + [e] == [a, b, c, d, e];
    StepKeepsInvariant(s, a);
    var s1 := Do(s, a);
    assert PcOf(s1, t) == EraseChecked(u, s.memory.index[u]) && s1.memory == s.memory;
    hide SlotsAgree, ThreadsAgree, HoldersAgree, QueueAgrees, UuidsAgree, WellFormed, Do, Execute, Enabled, PcOf;
    StepEffect(s1, t);
    TwoSteps(s, a, b);
    StepKeepsInvariant(s1, b);
    var s2 := Do(s1, b);
    StepEffect(s2, t);
    ThenStep(s, [a, b], s2, c);
    var s3 := Do(s2, c);
    StepEffect(s3, t);
    ThenStep(s, [a, b, c], s3, d);
    var s4 := Do(s3, d);
    StepEffect(s4, t);
    ThenStep(s, [a, b, c, d], s4, e);
  }
}
