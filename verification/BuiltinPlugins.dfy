/** The builtin plugins, as they are declared, and why a boot with them alone cannot fail. */
module BuiltinPlugins {
  import opened Startup

  const NETWORK: seq<string> := ["builtin:transport", "builtin:self"]
  const SERVED: seq<string> := ["builtin:rest", "builtin:identity"]

  const BUILTINS: Builtins := map[
    "builtin:testing" := Builtin(["builtin:lua", "builtin:rest", "builtin:transport"], []),
    "builtin:lua" := Builtin(["builtin:rest", "builtin:transport"], []),
    "builtin:prolog" := Builtin(["builtin:rest", "builtin:transport"], []),
    "builtin:rest" := Builtin(["builtin:transport", "builtin:self", "builtin:identity"], []),
    "builtin:transport" := Builtin([], []),
    "builtin:amqp" := Builtin(NETWORK, SERVED),
    "builtin:http" := Builtin(NETWORK, SERVED),
    "builtin:local" := Builtin(NETWORK, SERVED),
    "builtin:mqtt" := Builtin(NETWORK, SERVED),
    "builtin:pipe" := Builtin(NETWORK, SERVED),
    "builtin:self" := Builtin(["builtin:transport"], SERVED),
    "builtin:tcp" := Builtin(NETWORK, SERVED),
    "builtin:upnp" := Builtin(NETWORK, SERVED),
    "builtin:ws" := Builtin(NETWORK, SERVED),
    "builtin:oauth2" := Builtin(["builtin:rest"], []),
    "builtin:keystore" := Builtin(["builtin:rest"], []),
    "builtin:mongodb" := Builtin([], []),
    "builtin:mysqlx" := Builtin([], []),
    "builtin:pgsql" := Builtin([], []),
    "builtin:sqlite" := Builtin([], ["builtin:rest"]),
    "builtin:identity" := Builtin(["builtin:transport"], [])
  ]

  /** A layering of the builtins. */
  function Layer(name: string): nat {
    match name
    case "builtin:transport" => 0
    case "builtin:mongodb" => 0
    case "builtin:mysqlx" => 0
    case "builtin:pgsql" => 0
    case "builtin:sqlite" => 0
    case "builtin:self" => 1
    case "builtin:identity" => 3
    case "builtin:rest" => 4
    case "builtin:lua" => 5
    case "builtin:prolog" => 5
    case "builtin:oauth2" => 5
    case "builtin:keystore" => 5
    case "builtin:testing" => 6
    case _ => 2
  }

  /** What a builtin requires, or is needed by, is a builtin too, of a lower or of a higher layer. */
  lemma BuiltinsAreLayered(m: string)
    requires m in BUILTINS
    ensures forall r :: r in BUILTINS[m].required ==> r in BUILTINS && Layer(r) < Layer(m)
    ensures forall n :: n in BUILTINS[m].neededFor ==> n in BUILTINS && Layer(m) < Layer(n)
  {
    RequiredAreLower(m);
    ServedAreHigher(m);
    hide BUILTINS, Layer;
  }

  lemma RequiredAreLower(m: string)
    requires m in BUILTINS
    ensures forall r :: r in BUILTINS[m].required ==> r in BUILTINS && Layer(r) < Layer(m)
  {
  }

  lemma ServedAreHigher(m: string)
    requires m in BUILTINS
    ensures forall n :: n in BUILTINS[m].neededFor ==> n in BUILTINS && Layer(m) < Layer(n)
  {
  }

  lemma BuiltinsAreValid()
    ensures ValidBuiltins(BUILTINS)
  {
    forall n, m | n in BUILTINS && m in BUILTINS[n].neededFor ensures m in BUILTINS {
      BuiltinsAreLayered(n);
    }
  }

  /** So is what it requires after resolution. */
  lemma NeedsGoDown(configured: seq<Lib>, builtins: Builtins, load: seq<Lib>, m: string, r: string)
    requires Extends(BUILTINS, configured, load, |load|) && Registered(BUILTINS, builtins, Names(load))
    requires m in BUILTINS && r in Needs(builtins, load, m)
    ensures r in BUILTINS && Layer(r) < Layer(m)
  {
    hide BUILTINS, Layer;
    var lib :| lib in load && lib.name == m && r in RequiredBy(builtins, lib);
    var k :| 0 <= k < |load| && load[k] == lib;
    assert load[k].shared;
    assert RequirementsOf(BUILTINS, builtins, Names(load), m);
    BuiltinsAreLayered(m);
    if r in BUILTINS { BuiltinsAreLayered(r); }
  }

  lemma {:induction false} PathGoesDown(configured: seq<Lib>, builtins: Builtins, load: seq<Lib>, p: seq<string>,
          i: nat, j: nat)
    requires Extends(BUILTINS, configured, load, |load|) && Registered(BUILTINS, builtins, Names(load))
    requires IsPath(Wanted(builtins, load), p) && i <= j < |p| && p[i] in BUILTINS
    ensures p[j] in BUILTINS && (i < j ==> Layer(p[j]) < Layer(p[i]))
  {
    hide BUILTINS, Layer;
    if i < j {
      PathGoesDown(configured, builtins, load, p, i, j - 1);
      assert Follows(Wanted(builtins, load), p, j);
      NeedsGoDown(configured, builtins, load, p[j - 1], p[j]);
    }
  }

  /** No builtin is ever on a cycle: only plugins that are not builtins can make a boot fail. */
  lemma BuiltinsAreNotOnCycles(configured: seq<Lib>, builtins: Builtins, load: seq<Lib>, p: seq<string>)
    requires Extends(BUILTINS, configured, load, |load|) && Registered(BUILTINS, builtins, Names(load))
    requires IsCycle(Wanted(builtins, load), p)
    ensures forall i :: 0 <= i < |p| ==> p[i] !in BUILTINS
  {
    hide BUILTINS, Layer;
    forall i | 0 <= i < |p| ensures p[i] !in BUILTINS {
      if p[i] in BUILTINS {
        PathGoesDown(configured, builtins, load, p, i, |p| - 1);
        PathGoesDown(configured, builtins, load, p, 0, |p| - 1);
      }
    }
  }

  /** A boot with builtins only succeeds, whichever of them are configured, and however often. */
  method StartBuiltins(configured: seq<string>) returns (boot: Boot)
    requires forall i :: 0 <= i < |configured| ==> configured[i] in BUILTINS
    ensures fresh(boot) && boot.Valid()
    ensures forall i :: 0 <= i < |configured| ==> configured[i] in boot.plugins
    ensures "builtin:self" in boot.plugins
  {
    hide BUILTINS, Layer, Names, Registered, LeastClosed, Outcome, Startup.Extends;
    boot := Configure(configured);
    ghost var entries := boot.load;
    BuiltinsAreValid();
    EntriesAreListed(entries);
    var ok;
    ghost var unmet;
    ok, unmet := boot.Start();
    CannotFail(entries, boot.builtins, boot.load, boot.plugins, boot.loadOrder, ok, unmet);
    forall i | 0 <= i < |configured| ensures configured[i] in boot.plugins {
      assert entries[i].name == configured[i];
    }
    assert entries[|configured|].name == "builtin:self";
  }

  method Configure(configured: seq<string>) returns (boot: Boot)
    requires forall i :: 0 <= i < |configured| ==> configured[i] in BUILTINS
    ensures fresh(boot) && boot.builtins == BUILTINS && boot.plugins == {} && boot.loadOrder == []
    ensures |boot.load| == |configured| + 1 && boot.load[|configured|].name == "builtin:self"
    ensures forall i :: 0 <= i < |configured| ==> boot.load[i].name == configured[i]
    ensures forall i :: 0 <= i < |boot.load| ==> !boot.load[i].shared && boot.load[i].name in BUILTINS
  {
    assert "builtin:self" in BUILTINS;
    hide BUILTINS;
    var libs := seq(|configured|, i requires 0 <= i < |configured| => Lib(configured[i], [], false));
    boot := new Boot(BUILTINS, libs, "builtin:self");
  }

  lemma EntriesAreListed(entries: seq<Lib>)
    ensures forall i :: 0 <= i < |entries| ==> entries[i].name in Names(entries)
  {
    forall i | 0 <= i < |entries| ensures entries[i].name in Names(entries) {
      EntryIsListed(entries, i);
    }
  }

  /** Loading a resolved list of builtins loads all of it. */
  lemma CannotFail(entries: seq<Lib>, builtins: Builtins, load: seq<Lib>, plugins: set<string>, order: seq<string>,
          ok: bool, unmet: set<string>)
    requires Extends(BUILTINS, entries, load, |load|) && Registered(BUILTINS, builtins, Names(load))
    requires LeastClosed(builtins, entries, load) && Outcome(builtins, load, {}, [], plugins, order, ok, unmet)
    requires forall i :: 0 <= i < |entries| ==> entries[i].name in BUILTINS
    ensures ok && Names(entries) <= plugins
  {
    hide BUILTINS, Layer, Registered, Extends, Needs;
    OnlyBuiltinsListed(entries, builtins, load);
    if p :| IsCycle(Wanted(builtins, load), p) {
      BuiltinsAreNotOnCycles(entries, builtins, load, p);
      assert p[0] in Names(load);
    }
  }

  /** Builtins bring in builtins only. */
  lemma OnlyBuiltinsListed(configured: seq<Lib>, builtins: Builtins, load: seq<Lib>)
    requires Extends(BUILTINS, configured, load, |load|) && Registered(BUILTINS, builtins, Names(load))
    requires LeastClosed(builtins, configured, load)
    requires forall i :: 0 <= i < |configured| ==> configured[i].name in BUILTINS
    ensures Names(load) <= BUILTINS.Keys
  {
    hide BUILTINS, Layer;
    forall n, r | n in BUILTINS.Keys && r in Needs(builtins, load, n) ensures r in BUILTINS {
      NeedsGoDown(configured, builtins, load, n, r);
    }
    forall n | n in Names(configured) ensures n in BUILTINS {
      var k := EntryOf(configured, n);
    }
  }

  // ----- Later entries that add something --------------------------------------------------------

  /** The entries of plugins "a" and "b" that require each other, and of "c", which requires nothing. */
  const A_FIRST: Lib := Lib("a", [], false)
  const A_AFTER_B: Lib := Lib("a", ["b"], false)
  const A_AFTER_C: Lib := Lib("a", ["c"], false)
  const B_AFTER_A: Lib := Lib("b", ["a"], false)
  const C_FIRST: Lib := Lib("c", [], false)

  /** A boot that is configured with these entries and, as always, with "builtin:self". */
  method ConfigureWith(libs: seq<Lib>) returns (boot: Boot)
    requires forall i :: 0 <= i < |libs| ==> !libs[i].shared
    ensures fresh(boot) && boot.builtins == BUILTINS && boot.plugins == {} && boot.loadOrder == []
    ensures |boot.load| == |libs| + 1 && boot.load[..|libs|] == libs && boot.load[|libs|].name == "builtin:self"
    ensures forall i :: 0 <= i < |boot.load| ==> !boot.load[i].shared
  {
    assert "builtin:self" in BUILTINS;
    hide BUILTINS;
    boot := new Boot(BUILTINS, libs, "builtin:self");
  }

  /** "a" is listed again with a requirement that "b" has of it: the boot succeeds although there is a cycle,
      because it loads "a" for its first entry, before it comes to the second one. */
  method LaterEntryComesTooLate() returns (boot: Boot, ok: bool)
    ensures fresh(boot) && boot.Valid() && ok && boot.plugins == Names(boot.load)
    ensures HasCycle(Wanted(boot.builtins, boot.load)) && !Ordered(Wanted(boot.builtins, boot.load), boot.loadOrder)
  {
    hide *;
    var libs := [A_FIRST, A_AFTER_B, B_AFTER_A];
    NotShared();
    boot := ConfigureWith(libs);
    BuiltinsAreValid();
    ghost var configured, unmet := boot.load, {};
    ok, unmet := boot.Start();
    TwiceIsConfigured(configured);
    TwiceIsLoaded(configured, boot.builtins, boot.load, boot.plugins, boot.loadOrder, ok, unmet);
    LiveAreOrdered(boot);
    if Ordered(Wanted(boot.builtins, boot.load), boot.loadOrder) {
      CompleteOrderIsAcyclic(Wanted(boot.builtins, boot.load), boot.loadOrder);
    }
  }

  lemma NotShared()
    ensures !A_FIRST.shared && !A_AFTER_B.shared && !A_AFTER_C.shared && !B_AFTER_A.shared && !C_FIRST.shared
  {
  }

  lemma LiveAreOrdered(boot: Boot)
    requires boot.Valid()
    ensures boot.plugins == SetOf(boot.loadOrder)
  {
  }

  predicate IsTwice(configured: seq<Lib>) {
    && |configured| == 4 && configured[3].name == "builtin:self"
    && configured[0] == A_FIRST && configured[1] == A_AFTER_B && configured[2] == B_AFTER_A
  }

  lemma TwiceIsConfigured(configured: seq<Lib>)
    requires |configured| == 4 && configured[..3] == [A_FIRST, A_AFTER_B, B_AFTER_A]
    requires configured[3].name == "builtin:self"
    ensures IsTwice(configured)
  {
    assert configured[0] == configured[..3][0] && configured[1] == configured[..3][1];
    assert configured[2] == configured[..3][2];
  }

  lemma TwiceIsLoaded(configured: seq<Lib>, builtins: Builtins, load: seq<Lib>, plugins: set<string>,
          order: seq<string>, ok: bool, unmet: set<string>)
    requires IsTwice(configured) && LeastClosed(builtins, configured, load)
    requires Extends(BUILTINS, configured, load, |load|) && Registered(BUILTINS, builtins, Names(load))
    requires Outcome(builtins, load, {}, [], plugins, order, ok, unmet)
    ensures ok && plugins == Names(load) && HasCycle(Wanted(builtins, load))
  {
    OutcomeIsDecided(builtins, load, plugins, order, ok, unmet);
    hide *;
    TwiceIsListed(configured, builtins, load);
    EarlyTwice(builtins, load);
    NoLateCycle(configured, builtins, load, {"a", "b"}, FirstPass(builtins, load, {}, []).plugins);
  }

  lemma TwiceIsListed(configured: seq<Lib>, builtins: Builtins, load: seq<Lib>)
    requires IsTwice(configured) && LeastClosed(builtins, configured, load)
    requires Extends(BUILTINS, configured, load, |load|) && Registered(BUILTINS, builtins, Names(load))
    ensures |load| >= 3 && load[0] == A_FIRST && load[1] == A_AFTER_B && load[2] == B_AFTER_A
    ensures Names(load) <= {"a", "b"} + BUILTINS.Keys && HasCycle(Wanted(builtins, load))
  {
    BuiltinsAreOthers();
    hide BUILTINS, Layer, Registered, LeastClosed, Names, IsCycle;
    FirstEntries(configured, load, 3);
    assert load[0] == load[..3][0] && load[1] == load[..3][1] && load[2] == load[..3][2];
    OnlyTheseAndBuiltins(configured, builtins, load, {"a", "b"});
    EachOther(builtins, load, 1, 2);
  }

  /** If only builtins are left to later passes, they find no cycle. */
  lemma NoLateCycle(configured: seq<Lib>, builtins: Builtins, load: seq<Lib>, names: set<string>, early: set<string>)
    requires Extends(BUILTINS, configured, load, |load|) && Registered(BUILTINS, builtins, Names(load))
    requires Names(load) <= names + BUILTINS.Keys && names <= early
    ensures !HasCycle(Without(Wanted(builtins, load), early))
  {
    hide BUILTINS, Layer, Registered, Extends, Needs;
    if p :| IsCycle(Without(Wanted(builtins, load), early), p) {
      CycleWithout(Wanted(builtins, load), early, p);
      assert p[0] in Names(load) && p[0] !in early;
      BuiltinsAreNotOnCycles(configured, builtins, load, p);
    }
  }

  lemma BuiltinsAreOthers()
    ensures "a" !in BUILTINS && "b" !in BUILTINS && "c" !in BUILTINS && "builtin:self" in BUILTINS
  {
  }

  /** The configured entries that are not of builtins are listed as they are. */
  lemma FirstEntries(configured: seq<Lib>, load: seq<Lib>, n: nat)
    requires n <= |configured| && Extends(BUILTINS, configured, load, |load|)
    requires forall k :: 0 <= k < n ==> configured[k].name !in BUILTINS && !configured[k].shared
    ensures |load| >= |configured| && load[..n] == configured[..n]
  {
    hide BUILTINS;
    forall k | 0 <= k < n ensures load[k] == configured[k] {
      assert load[k].name == configured[k].name && load[k].required == configured[k].required && !load[k].shared;
    }
  }

  lemma EarlyTwice(builtins: Builtins, load: seq<Lib>)
    requires |load| >= 3 && load[0] == A_FIRST && load[1] == A_AFTER_B && load[2] == B_AFTER_A
    ensures {"a", "b"} <= FirstPass(builtins, load, {}, []).plugins
  {
    var s := AtStart(load, {}, []);
    EntryIsListed(load, 0);
    EntryIsListed(load, 2);
    assert SetOf(RequiredBy(builtins, load[2])) == {"a"};
    var s1, s2, s3 := AfterEntries(builtins, load, s, 1), AfterEntries(builtins, load, s, 2),
                      AfterEntries(builtins, load, s, 3);
    assert AfterEntries(builtins, load, s, 0) == s;
    assert s1 == AfterEntry(builtins, load[0], s) && s2 == AfterEntry(builtins, load[1], s1);
    assert s3 == AfterEntry(builtins, load[2], s2);
    PassGoesOn(builtins, load, s, 3, |load|);
  }

  /** Nothing is listed but these names and builtins, if what the configured entries require is among them. */
  lemma OnlyTheseAndBuiltins(configured: seq<Lib>, builtins: Builtins, load: seq<Lib>, names: set<string>)
    requires Extends(BUILTINS, configured, load, |load|) && Registered(BUILTINS, builtins, Names(load))
    requires LeastClosed(builtins, configured, load)
    requires forall k :: 0 <= k < |configured| ==> configured[k].name in names || configured[k].name in BUILTINS
    requires forall k, r :: 0 <= k < |configured| && configured[k].name in names && r in configured[k].required ==>
      r in names
    ensures Names(load) <= names + BUILTINS.Keys
  {
    hide BUILTINS, Layer;
    var all := names + BUILTINS.Keys;
    forall n, r | n in all && r in Needs(builtins, load, n) ensures r in all {
      if n in BUILTINS {
        NeedsGoDown(configured, builtins, load, n, r);
      } else {
        var k := EntryThatNeeds(builtins, load, n, r);
        assert !load[k].shared && k < |configured| && configured[k].name == n;
      }
    }
    forall n | n in Names(configured) ensures n in all {
      var k := EntryOf(configured, n);
    }
  }

  /** Two entries that require each other are a cycle. */
  lemma EachOther(builtins: Builtins, load: seq<Lib>, i: nat, j: nat)
    requires i < |load| && j < |load|
    requires load[j].name in RequiredBy(builtins, load[i]) && load[i].name in RequiredBy(builtins, load[j])
    ensures IsCycle(Wanted(builtins, load), [load[i].name, load[j].name, load[i].name])
  {
    var g, p := Wanted(builtins, load), [load[i].name, load[j].name, load[i].name];
    assert load[i] in load && load[j] in load;
    hide RequiredBy;
    assert Follows(g, p, 1) && Follows(g, p, 2);
  }

  /** The same cycle makes the boot fail if the first entry of "a" makes it wait for the second one, although the
      requirements of first entries have no cycle. */
  method LaterEntryClosesCycle() returns (boot: Boot, ok: bool)
    ensures fresh(boot) && boot.Valid() && !ok
    ensures HasCycle(Wanted(boot.builtins, boot.load)) && !HasCycle(WantedFirst(boot.builtins, boot.load))
  {
    hide *;
    var libs := [A_AFTER_C, A_AFTER_B, B_AFTER_A, C_FIRST];
    NotShared();
    boot := ConfigureWith(libs);
    BuiltinsAreValid();
    ghost var configured, unmet := boot.load, {};
    ok, unmet := boot.Start();
    WaitingIsConfigured(configured);
    WaitingIsListed(configured, boot.builtins, boot.load);
    OutcomeIsDecided(boot.builtins, boot.load, boot.plugins, boot.loadOrder, ok, unmet);
    WaitingIsStuck(boot.builtins, boot.load);
    FirstEntriesAreAcyclic(configured, boot.builtins, boot.load);
  }

  predicate IsWaiting(configured: seq<Lib>) {
    && |configured| == 5 && configured[4].name == "builtin:self"
    && configured[0] == A_AFTER_C && configured[1] == A_AFTER_B
    && configured[2] == B_AFTER_A && configured[3] == C_FIRST
  }

  lemma WaitingIsConfigured(configured: seq<Lib>)
    requires |configured| == 5 && configured[..4] == [A_AFTER_C, A_AFTER_B, B_AFTER_A, C_FIRST]
    requires configured[4].name == "builtin:self"
    ensures IsWaiting(configured)
  {
    assert configured[0] == configured[..4][0] && configured[1] == configured[..4][1];
    assert configured[2] == configured[..4][2] && configured[3] == configured[..4][3];
  }

  predicate ListsWaiting(load: seq<Lib>) {
    && |load| >= 4
    && load[0] == A_AFTER_C && load[1] == A_AFTER_B && load[2] == B_AFTER_A && load[3] == C_FIRST
  }

  lemma WaitingIsListed(configured: seq<Lib>, builtins: Builtins, load: seq<Lib>)
    requires IsWaiting(configured) && LeastClosed(builtins, configured, load)
    requires Extends(BUILTINS, configured, load, |load|) && Registered(BUILTINS, builtins, Names(load))
    ensures ListsWaiting(load) && Names(load) <= {"a", "b", "c"} + BUILTINS.Keys
  {
    BuiltinsAreOthers();
    hide BUILTINS, Layer, Registered, LeastClosed, Names;
    FirstEntries(configured, load, 4);
    assert load[0] == load[..4][0] && load[1] == load[..4][1] && load[2] == load[..4][2] && load[3] == load[..4][3];
    OnlyTheseAndBuiltins(configured, builtins, load, {"a", "b", "c"});
  }

  /** "a" and "b" are pending for each other. */
  predicate WaitForEachOther(s: Progress) {
    && "a" !in s.plugins && "b" !in s.plugins && "a" in s.toLoad && "b" in s.toLoad
    && "b" in s.toLoad["a"] && "a" in s.toLoad["b"]
  }

  lemma {:induction false} WaitingGoesOn(builtins: Builtins, load: seq<Lib>, s: Progress, j: nat, k: nat)
    requires j <= k <= |load| && WaitForEachOther(AfterEntries(builtins, load, s, j))
    ensures WaitForEachOther(AfterEntries(builtins, load, s, k))
  {
    if j < k {
      WaitingGoesOn(builtins, load, s, j, k - 1);
      hide RequiredBy;
    }
  }

  lemma WaitingIsStuck(builtins: Builtins, load: seq<Lib>)
    requires ListsWaiting(load)
    ensures HasCycle(Wanted(builtins, load))
    ensures HasCycle(Without(Wanted(builtins, load), FirstPass(builtins, load, {}, []).plugins))
  {
    WaitingStarts(builtins, load);
    WaitingGoesOn(builtins, load, AtStart(load, {}, []), 3, |load|);
    EachOther(builtins, load, 1, 2);
    hide RequiredBy, Needs, Names, AfterEntries, Without, IsCycle;
    var early := FirstPass(builtins, load, {}, []).plugins;
    assert "a" !in early && "b" !in early;
    CycleWithout(Wanted(builtins, load), early, ["a", "b", "a"]);
  }

  lemma WaitingStarts(builtins: Builtins, load: seq<Lib>)
    requires ListsWaiting(load)
    ensures WaitForEachOther(AfterEntries(builtins, load, AtStart(load, {}, []), 3))
  {
    var s := AtStart(load, {}, []);
    EntryIsListed(load, 0);
    EntryIsListed(load, 2);
    var s1, s2 := AfterEntries(builtins, load, s, 1), AfterEntries(builtins, load, s, 2);
    assert s1 == AfterEntry(builtins, load[0], s) by { assert AfterEntries(builtins, load, s, 0) == s; }
    assert s2 == AfterEntry(builtins, load[1], s1);
    assert AfterEntries(builtins, load, s, 3) == AfterEntry(builtins, load[2], s2);
    hide AfterEntries, Names;
    StaysPending(builtins, load[0], s, "c");
    StaysPending(builtins, load[1], s1, "b");
    StaysPending(builtins, load[2], s2, "a");
    hide RequiredBy, SetOf, AfterEntry;
  }

  /** An entry with a requirement that is not live makes its name wait. */
  lemma StaysPending(builtins: Builtins, lib: Lib, s: Progress, r: string)
    requires r in RequiredBy(builtins, lib) && r !in s.plugins && lib.name !in s.plugins && lib.name in s.toLoad
    ensures var n := AfterEntry(builtins, lib, s);
      && n.plugins == s.plugins && n.toLoad.Keys == s.toLoad.Keys && r in n.toLoad[lib.name]
      && forall m :: m in s.toLoad && m != lib.name ==> n.toLoad[m] == s.toLoad[m]
  {
    hide RequiredBy;
    assert r in PendingAfter(SetOf(RequiredBy(builtins, lib)), s.plugins, s.toLoad[lib.name]);
  }

  /** First entries: "b" requires "a", which requires "c", which requires nothing. */
  function Rank(name: string): nat {
    if name == "b" then 2 else if name == "a" then 1 else 0
  }

  lemma FirstEntriesAreAcyclic(configured: seq<Lib>, builtins: Builtins, load: seq<Lib>)
    requires Extends(BUILTINS, configured, load, |load|) && Registered(BUILTINS, builtins, Names(load))
    requires ListsWaiting(load) && Names(load) <= {"a", "b", "c"} + BUILTINS.Keys
    ensures !HasCycle(WantedFirst(builtins, load))
  {
    var g := WantedFirst(builtins, load);
    hide BUILTINS, Layer, Registered, Extends, Needs, NeedsFirst, ListsWaiting, Rank;
    if p :| IsCycle(g, p) {
      CycleOfFirst(builtins, load, p);
      BuiltinsAreNotOnCycles(configured, builtins, load, p);
      assert forall i :: 0 <= i < |p| ==> p[i] in {"a", "b", "c"};
      RanksFall(builtins, load, p, |p| - 1);
    }
  }

  lemma {:induction false} RanksFall(builtins: Builtins, load: seq<Lib>, p: seq<string>, k: nat)
    requires ListsWaiting(load) && IsPath(WantedFirst(builtins, load), p) && k < |p|
    requires forall i :: 0 <= i < |p| ==> p[i] in {"a", "b", "c"}
    ensures Rank(p[k]) + k <= Rank(p[0])
  {
    if k > 0 {
      RanksFall(builtins, load, p, k - 1);
      assert Follows(WantedFirst(builtins, load), p, k);
      RankFalls(builtins, load, p[k - 1], p[k]);
    }
  }

  lemma RankFalls(builtins: Builtins, load: seq<Lib>, n: string, r: string)
    requires ListsWaiting(load) && n in {"a", "b", "c"} && r in NeedsFirst(builtins, load, n)
    ensures Rank(r) < Rank(n)
  {
    var k := FirstThatNeeds(builtins, load, n, r);
    hide NeedsFirst;
    assert k == if n == "a" then 0 else if n == "b" then 2 else 3;
  }
}
