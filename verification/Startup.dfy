/** Plugin boot: the closure of the load list under dependencies, the loader's repeated passes, and
    unloading. */
module Startup {
  /** What is known of a builtin plugin: the names that it requires, and those that are to require it
      if it is listed. */
  datatype Builtin = Builtin(required: seq<string>, neededFor: seq<string>)

  /** An entry of the load list.  A builtin's entry, once resolved, has no array of required names of
      its own but shares that of the builtin. */
  datatype Lib = Lib(name: string, required: seq<string>, shared: bool)

  type Builtins = map<string, Builtin>

  function RequiredBy(builtins: Builtins, lib: Lib): seq<string> {
    if lib.shared && lib.name in builtins then builtins[lib.name].required else lib.required
  }

  function Names(load: seq<Lib>): set<string> {
    set lib | lib in load :: lib.name
  }

  /** All that entries of this name require. */
  function Needs(builtins: Builtins, load: seq<Lib>, name: string): set<string> {
    set lib, r | lib in load && lib.name == name && r in RequiredBy(builtins, lib) :: r
  }

  /** Every required name is listed. */
  ghost predicate Closed(builtins: Builtins, load: seq<Lib>) {
    forall n :: n in Names(load) ==> Needs(builtins, load, n) <= Names(load)
  }

  /** A name that is listed again requires nothing new: there is one set of requirements for a name. */
  ghost predicate LaterAddNothing(builtins: Builtins, load: seq<Lib>) {
    forall j, k :: 0 <= j < k < |load| && load[j].name == load[k].name ==>
      forall r :: r in RequiredBy(builtins, load[k]) ==> r in RequiredBy(builtins, load[j])
  }

  // ----- Cycles --------------------------------------------------------------------------------

  /** Names, and what each of them requires. */
  type Graph = map<string, set<string>>

  /** The listed names with all that their entries require. */
  ghost function Wanted(builtins: Builtins, load: seq<Lib>): (g: Graph)
    ensures g.Keys == Names(load) && forall n :: n in g ==> g[n] == Needs(builtins, load, n)
  {
    map n | n in Names(load) :: Needs(builtins, load, n)
  }

  /** No earlier entry has the name of this one. */
  predicate IsFirst(load: seq<Lib>, k: nat)
    requires k < |load|
  {
    forall j :: 0 <= j < k ==> load[j].name != load[k].name
  }

  /** What the first entry of this name requires. */
  ghost function NeedsFirst(builtins: Builtins, load: seq<Lib>, name: string): set<string> {
    set k, r | 0 <= k < |load| && load[k].name == name && IsFirst(load, k) && r in RequiredBy(builtins, load[k]) :: r
  }

  /** The listed names with what their first entries require. */
  ghost function WantedFirst(builtins: Builtins, load: seq<Lib>): (g: Graph)
    ensures g.Keys == Names(load) && forall n :: n in g ==> g[n] == NeedsFirst(builtins, load, n)
  {
    map n | n in Names(load) :: NeedsFirst(builtins, load, n)
  }

  /** If later entries add nothing, the two are the same. */
  lemma OneGraph(builtins: Builtins, load: seq<Lib>)
    requires LaterAddNothing(builtins, load)
    ensures WantedFirst(builtins, load) == Wanted(builtins, load)
  {
    forall n | n in Names(load) ensures NeedsFirst(builtins, load, n) == Needs(builtins, load, n) {
      NeedsAreFirst(builtins, load, n);
    }
    hide Needs, NeedsFirst, Names;
  }

  lemma NeedsAreFirst(builtins: Builtins, load: seq<Lib>, n: string)
    requires LaterAddNothing(builtins, load)
    ensures NeedsFirst(builtins, load, n) == Needs(builtins, load, n)
  {
    forall r | r in Needs(builtins, load, n) ensures r in NeedsFirst(builtins, load, n) {
      var lib :| lib in load && lib.name == n && r in RequiredBy(builtins, lib);
      var k :| 0 <= k < |load| && load[k] == lib;
      var j := FirstOf(load, k);
      assert r in RequiredBy(builtins, load[j]);
    }
    FirstAreNeeds(builtins, load, n);
  }

  lemma {:induction false} FirstOf(load: seq<Lib>, k: nat) returns (j: nat)
    requires k < |load|
    ensures j <= k && load[j].name == load[k].name && IsFirst(load, j)
  {
    if i: nat :| i < k && load[i].name == load[k].name {
      j := FirstOf(load, i);
    } else {
      j := k;
    }
  }

  /** A path along requirements. */
  ghost predicate IsPath(g: Graph, p: seq<string>) {
    && (forall i :: 0 <= i < |p| ==> p[i] in g)
    && (forall i {:trigger Follows(g, p, i)} :: 0 < i < |p| ==> Follows(g, p, i))
  }

  ghost predicate Follows(g: Graph, p: seq<string>, i: nat)
    requires 0 < i < |p|
  {
    p[i - 1] in g && p[i] in g[p[i - 1]]
  }

  ghost predicate HasCycle(g: Graph) {
    exists p :: IsCycle(g, p)
  }

  ghost predicate IsCycle(g: Graph, p: seq<string>) {
    |p| >= 2 && p[0] == p[|p| - 1] && IsPath(g, p)
  }

  /** A cycle of requirements of first entries is one of requirements. */
  lemma CycleOfFirst(builtins: Builtins, load: seq<Lib>, p: seq<string>)
    requires IsCycle(WantedFirst(builtins, load), p)
    ensures IsCycle(Wanted(builtins, load), p)
  {
    var first, g := WantedFirst(builtins, load), Wanted(builtins, load);
    hide Needs, NeedsFirst, Names;
    forall i | 0 < i < |p| ensures Follows(g, p, i) {
      assert Follows(first, p, i);
      FirstAreNeeds(builtins, load, p[i - 1]);
    }
  }

  lemma FirstAreNeeds(builtins: Builtins, load: seq<Lib>, n: string)
    ensures NeedsFirst(builtins, load, n) <= Needs(builtins, load, n)
  {
    forall r | r in NeedsFirst(builtins, load, n) ensures r in Needs(builtins, load, n) {
      var k :| 0 <= k < |load| && load[k].name == n && r in RequiredBy(builtins, load[k]);
      assert load[k] in load;
    }
  }

  /** Each of these names waits for another of them. */
  ghost predicate Stuck(g: Graph, names: set<string>) {
    names != {} && names <= g.Keys && forall n :: n in names ==> g[n] * names != {}
  }

  /** Following requirements among stuck names never comes to an end. */
  lemma {:induction false} StuckPath(g: Graph, names: set<string>, length: nat) returns (p: seq<string>)
    requires Stuck(g, names) && length > 0
    ensures |p| == length && IsPath(g, p) && forall i :: 0 <= i < |p| ==> p[i] in names
  {
    if length == 1 {
      var n :| n in names;
      p := [n];
    } else {
      var q := StuckPath(g, names, length - 1);
      var last := q[|q| - 1];
      var r :| r in g[last] * names;
      p := q + [r];
      forall i | 0 < i < |p| ensures Follows(g, p, i) {
        if i < |q| { assert Follows(g, q, i); }
      }
    }
  }

  /** A path with more elements than there are names goes through one of them twice. */
  lemma {:induction false} Pigeonhole(p: seq<string>, names: set<string>) returns (i: nat, j: nat)
    requires forall k :: 0 <= k < |p| ==> p[k] in names
    requires |p| > |names|
    ensures i < j < |p| && p[i] == p[j]
  {
    if k: nat :| k < |p| - 1 && p[k] == p[|p| - 1] {
      i, j := k, |p| - 1;
    } else {
      var last := p[|p| - 1];
      i, j := Pigeonhole(p[..|p| - 1], names - {last});
    }
  }

  lemma StuckIsCyclic(g: Graph, names: set<string>)
    requires Stuck(g, names)
    ensures HasCycle(g)
  {
    var p := StuckPath(g, names, |names| + 1);
    var i, j := Pigeonhole(p, names);
    var cycle := p[i..j + 1];
    forall k | 0 < k < |cycle| ensures Follows(g, cycle, k) {
      assert Follows(g, p, i + k);
    }
    assert IsCycle(g, cycle);
  }

  // ----- Load orders -----------------------------------------------------------------------------

  function SetOf(s: seq<string>): set<string> {
    set x | x in s
  }

  /** No name twice, and each after all that it requires. */
  ghost predicate Ordered(g: Graph, order: seq<string>) {
    && (forall i, j :: 0 <= i < j < |order| ==> order[i] != order[j])
    && (forall i :: 0 <= i < |order| ==> order[i] in g && g[order[i]] <= SetOf(order[..i]))
  }

  /** Whatever a live plugin requires is live. */
  ghost predicate LiveClosed(g: Graph, live: set<string>) {
    forall n :: n in live && n in g ==> g[n] <= live
  }

  /** At every moment of loading and of unloading, the live plugins are a prefix of the load order. */
  lemma PrefixIsClosed(g: Graph, order: seq<string>, k: nat)
    requires Ordered(g, order) && k <= |order|
    ensures LiveClosed(g, SetOf(order[..k]))
  {
    forall n | n in SetOf(order[..k]) ensures n in g && g[n] <= SetOf(order[..k]) {
      var i :| 0 <= i < k && order[i] == n;
      assert order[..i] == order[..k][..i];
    }
  }

  /** Along a path, the places in the load order go down. */
  lemma {:induction false} Descent(g: Graph, order: seq<string>, p: seq<string>, i: nat, k: nat) returns (at: nat)
    requires Ordered(g, order) && IsPath(g, p)
    requires k < |p| && i < |order| && p[0] == order[i]
    ensures at < |order| && order[at] == p[k] && at <= i && (k > 0 ==> at < i)
  {
    at := i;
    if k > 0 {
      var before := Descent(g, order, p, i, k - 1);
      assert Follows(g, p, k);
      assert p[k] in SetOf(order[..before]);
      at :| 0 <= at < before && order[at] == p[k];
    }
  }

  /** Everything can be loaded in order only if nothing is on a cycle. */
  lemma CompleteOrderIsAcyclic(g: Graph, order: seq<string>)
    requires Ordered(g, order) && SetOf(order) == g.Keys
    ensures !HasCycle(g)
  {
    if HasCycle(g) {
      var p :| IsCycle(g, p);
      assert p[0] in SetOf(order);
      var i :| 0 <= i < |order| && order[i] == p[0];
      var at := Descent(g, order, p, i, |p| - 1);
      assert false;
    }
  }

  lemma OrderExtended(g: Graph, order: seq<string>, name: string)
    requires Ordered(g, order) && name !in SetOf(order) && name in g && g[name] <= SetOf(order)
    ensures Ordered(g, order + [name]) && SetOf(order + [name]) == SetOf(order) + {name}
  {
    var longer := order + [name];
    forall i | 0 <= i < |longer| ensures longer[i] in g && g[longer[i]] <= SetOf(longer[..i]) {
      assert longer[..i] == order[..i];
      assert order[..|order|] == order;
    }
  }

  lemma OrderIsListed(g: Graph, order: seq<string>)
    requires Ordered(g, order)
    ensures SetOf(order) <= g.Keys
  {
  }

  lemma OneFewer(g: Graph, order: seq<string>, n: nat)
    requires Ordered(g, order) && n < |order|
    ensures SetOf(order[..n + 1]) - {order[n]} == SetOf(order[..n])
  {
    assert order[..n + 1] == order[..n] + [order[n]];
    assert order[n] !in order[..n];
  }

  /** `lived` has the sets of ever shorter prefixes of the order, down to length `n`. */
  ghost predicate ArePrefixes(order: seq<string>, lived: seq<set<string>>, n: nat) {
    && n <= |order| && |lived| == |order| - n + 1
    && forall i :: 0 <= i < |lived| ==> lived[i] == SetOf(order[..|order| - i])
  }

  lemma OnePrefixMore(order: seq<string>, lived: seq<set<string>>, n: nat)
    requires ArePrefixes(order, lived, n + 1)
    ensures ArePrefixes(order, lived + [SetOf(order[..n])], n)
  {
  }

  lemma PrefixesAreClosed(g: Graph, order: seq<string>, lived: seq<set<string>>)
    requires Ordered(g, order) && ArePrefixes(order, lived, 0)
    ensures |lived| == |order| + 1 && lived[0] == SetOf(order) && lived[|order|] == {}
    ensures forall i :: 0 <= i < |lived| ==> LiveClosed(g, lived[i])
    ensures forall i :: 0 <= i < |order| ==> lived[i + 1] == lived[i] - {order[|order| - 1 - i]}
  {
    assert order[..|order|] == order;
    hide Ordered, LiveClosed;
    forall i | 0 <= i < |lived| ensures LiveClosed(g, lived[i]) {
      PrefixIsClosed(g, order, |order| - i);
    }
    forall i | 0 <= i < |order| ensures lived[i + 1] == lived[i] - {order[|order| - 1 - i]} {
      OneFewer(g, order, |order| - 1 - i);
    }
  }

  lemma NothingIsOrdered(g: Graph)
    ensures Ordered(g, []) && SetOf([]) == {}
  {
  }

  lemma EntryIsListed(load: seq<Lib>, i: nat)
    requires i < |load|
    ensures load[i].name in Names(load)
  {
    assert load[i] in load;
  }

  /** Behind the names of `earlier`, each name comes after all that it requires. */
  ghost predicate OrderedBehind(g: Graph, earlier: seq<string>, order: seq<string>) {
    && earlier <= order
    && forall i :: |earlier| <= i < |order| ==> order[i] in g && g[order[i]] <= SetOf(order[..i])
  }

  lemma NothingBehind(g: Graph, order: seq<string>)
    ensures OrderedBehind(g, order, order)
  {
  }

  lemma BehindExtended(g: Graph, earlier: seq<string>, order: seq<string>, name: string)
    requires OrderedBehind(g, earlier, order) && name in g && g[name] <= SetOf(order)
    ensures OrderedBehind(g, earlier, order + [name])
  {
    var longer := order + [name];
    forall i | |earlier| <= i < |longer| ensures longer[i] in g && g[longer[i]] <= SetOf(longer[..i]) {
      assert longer[..i] == order[..i];
      assert order[..|order|] == order;
    }
  }

  lemma BehindJoined(g: Graph, a: seq<string>, b: seq<string>, c: seq<string>)
    requires OrderedBehind(g, a, b) && OrderedBehind(g, b, c)
    ensures OrderedBehind(g, a, c)
  {
    forall i | |a| <= i < |c| ensures c[i] in g && g[c[i]] <= SetOf(c[..i]) {
      if i < |b| { assert c[i] == b[i] && c[..i] == b[..i]; }
    }
  }

  /** Such an order is right from the beginning exactly if `earlier` is. */
  lemma OrderedIfEarlierIs(g: Graph, earlier: seq<string>, order: seq<string>)
    requires OrderedBehind(g, earlier, order)
    requires forall i, j :: 0 <= i < j < |order| ==> order[i] != order[j]
    ensures Ordered(g, order) <==> Ordered(g, earlier)
  {
    assert forall i :: 0 <= i < |earlier| ==> earlier[i] == order[i] && earlier[..i] == order[..i];
    if Ordered(g, earlier) {
      forall i | 0 <= i < |order| ensures order[i] in g && g[order[i]] <= SetOf(order[..i]) {
        if i < |earlier| { assert g[earlier[i]] <= SetOf(earlier[..i]); }
      }
    }
    if Ordered(g, order) {
      forall i | 0 <= i < |earlier| ensures earlier[i] in g && g[earlier[i]] <= SetOf(earlier[..i]) {
        assert g[order[i]] <= SetOf(order[..i]);
      }
    }
  }

  // ----- One pass --------------------------------------------------------------------------------

  /** What is live, in which order it has been loaded, and what is pending for the names to be loaded. */
  datatype Progress = Progress(plugins: set<string>, order: seq<string>, toLoad: Graph)

  /** What is pending for a name after one of its entries, which has these requirements. */
  function PendingAfter(required: set<string>, plugins: set<string>, pending: set<string>): set<string> {
    pending - required * plugins + (required - plugins)
  }

  /** Looking at this entry loads its plugin. */
  predicate Loads(builtins: Builtins, lib: Lib, s: Progress) {
    && lib.name !in s.plugins && lib.name in s.toLoad
    && PendingAfter(SetOf(RequiredBy(builtins, lib)), s.plugins, s.toLoad[lib.name]) == {}
  }

  function AfterEntry(builtins: Builtins, lib: Lib, s: Progress): Progress {
    if Loads(builtins, lib, s) then Progress(s.plugins + {lib.name}, s.order + [lib.name], s.toLoad - {lib.name})
    else if lib.name in s.plugins || lib.name !in s.toLoad then s
    else
      var pending := PendingAfter(SetOf(RequiredBy(builtins, lib)), s.plugins, s.toLoad[lib.name]);
      s.(toLoad := s.toLoad[lib.name := pending])
  }

  /** After the first `k` entries. */
  function AfterEntries(builtins: Builtins, load: seq<Lib>, s: Progress, k: nat): Progress
    requires k <= |load|
  {
    if k == 0 then s else AfterEntry(builtins, load[k - 1], AfterEntries(builtins, load, s, k - 1))
  }

  lemma NextEntry(builtins: Builtins, load: seq<Lib>, s: Progress, k: nat)
    requires k < |load|
    ensures AfterEntries(builtins, load, s, k + 1) == AfterEntry(builtins, load[k], AfterEntries(builtins, load, s, k))
  {
  }

  lemma OrderAfter(builtins: Builtins, lib: Lib, s: Progress)
    ensures AfterEntry(builtins, lib, s).order == if Loads(builtins, lib, s) then s.order + [lib.name] else s.order
  {
  }

  /** Where loading starts: nothing is pending for any listed name yet. */
  ghost function AtStart(load: seq<Lib>, plugins: set<string>, order: seq<string>): Progress {
    Progress(plugins, order, map n | n in Names(load) :: {})
  }

  ghost function FirstPass(builtins: Builtins, load: seq<Lib>, plugins: set<string>, order: seq<string>): Progress {
    AfterEntries(builtins, load, AtStart(load, plugins, order), |load|)
  }

  /** What is live stays so during a pass, and the order has what is live. */
  lemma {:induction false} PassGoesOn(builtins: Builtins, load: seq<Lib>, s: Progress, j: nat, k: nat)
    requires j <= k <= |load|
    ensures var a, b := AfterEntries(builtins, load, s, j), AfterEntries(builtins, load, s, k);
      && a.plugins <= b.plugins && a.order <= b.order
      && (a.plugins == SetOf(a.order) ==> b.plugins == SetOf(b.order))
  {
    if j < k {
      PassGoesOn(builtins, load, s, j, k - 1);
      hide RequiredBy, PendingAfter;
    }
  }

  /** If entry `k` loads its plugin, all that is required under its name is live. */
  ghost predicate InTime(builtins: Builtins, load: seq<Lib>, s: Progress, k: nat)
    requires k < |load|
  {
    var before := AfterEntries(builtins, load, s, k);
    Loads(builtins, load[k], before) ==> Needs(builtins, load, load[k].name) <= before.plugins
  }

  ghost predicate AllInTime(builtins: Builtins, load: seq<Lib>, s: Progress, k: nat)
    requires k <= |load|
  {
    forall j :: 0 <= j < k ==> InTime(builtins, load, s, j)
  }

  lemma AllAndOneMore(builtins: Builtins, load: seq<Lib>, s: Progress, k: nat)
    requires k < |load|
    ensures AllInTime(builtins, load, s, k + 1) <==> AllInTime(builtins, load, s, k) && InTime(builtins, load, s, k)
  {
    hide InTime;
  }

  /** The order of a pass is right exactly if each plugin that it loads is loaded in time. */
  lemma {:induction false} OrderedExactlyInTime(builtins: Builtins, load: seq<Lib>, s: Progress, k: nat)
    requires k <= |load| && s.plugins == SetOf(s.order) && Ordered(Wanted(builtins, load), s.order)
    ensures Ordered(Wanted(builtins, load), AfterEntries(builtins, load, s, k).order) <==>
      AllInTime(builtins, load, s, k)
  {
    if k == 0 {
      StartsAt(builtins, load, s);
      hide AfterEntries, Ordered, InTime;
    } else {
      hide *;
      OrderedExactlyInTime(builtins, load, s, k - 1);
      AllAndOneMore(builtins, load, s, k - 1);
      PassGoesOn(builtins, load, s, 0, k - 1);
      StartsAt(builtins, load, s);
      OneMoreInTime(builtins, load, s, k - 1);
    }
  }

  lemma StartsAt(builtins: Builtins, load: seq<Lib>, s: Progress)
    ensures AfterEntries(builtins, load, s, 0) == s
  {
  }

  lemma OneMoreInTime(builtins: Builtins, load: seq<Lib>, s: Progress, k: nat)
    requires k < |load|
    requires var before := AfterEntries(builtins, load, s, k); before.plugins == SetOf(before.order)
    ensures Ordered(Wanted(builtins, load), AfterEntries(builtins, load, s, k + 1).order) <==>
      Ordered(Wanted(builtins, load), AfterEntries(builtins, load, s, k).order) && InTime(builtins, load, s, k)
  {
    hide Needs, Names, Ordered, RequiredBy, PendingAfter;
    var before := AfterEntries(builtins, load, s, k);
    EntryIsListed(load, k);
    if Loads(builtins, load[k], before) {
      OrderedWithOneMore(Wanted(builtins, load), before.order, load[k].name);
    }
  }

  lemma OrderedWithOneMore(g: Graph, order: seq<string>, name: string)
    requires name !in SetOf(order) && name in g
    ensures Ordered(g, order + [name]) <==> Ordered(g, order) && g[name] <= SetOf(order)
  {
    var longer := order + [name];
    assert order[..|order|] == order && longer[..|order|] == order;
    if Ordered(g, order) && g[name] <= SetOf(order) { OrderExtended(g, order, name); }
    if Ordered(g, longer) {
      forall i | 0 <= i < |order| ensures order[i] in g && g[order[i]] <= SetOf(order[..i]) {
        assert longer[i] == order[i] && longer[..i] == order[..i];
      }
    }
  }

  // ----- What is pending -------------------------------------------------------------------------

  /** Entry `k` has been looked at.  All that it requires is loaded or pending; and if that has been in this
      pass, and nothing has been loaded in it, exactly what is not loaded of its requirements is pending. */
  ghost predicate Seen(builtins: Builtins, load: seq<Lib>, plugins: set<string>, toLoad: Graph, k: nat, noChange: bool)
    requires k < |load|
  {
    && load[k].name in toLoad
    && var required, pending := SetOf(RequiredBy(builtins, load[k])), toLoad[load[k].name];
    && required - plugins <= pending
    && (noChange ==> pending != {} && required * pending == required - plugins)
  }

  /** The bookkeeping of a pass that has come to entry `i`; `seen` entries have been looked at, in this pass
      or in an earlier one.  What has been live from the start stays among the names to be loaded. */
  ghost predicate PendingRight(builtins: Builtins, load: seq<Lib>, before: set<string>, plugins: set<string>,
          toLoad: Graph, i: nat, seen: nat, noChange: bool) {
    && i <= seen <= |load| && before <= plugins
    && toLoad.Keys == Names(load) - (plugins - before)
    && (forall n :: n in toLoad ==> toLoad[n] <= Needs(builtins, load, n))
    && (forall k :: 0 <= k < seen && load[k].name !in plugins ==>
          Seen(builtins, load, plugins, toLoad, k, noChange && k < i))
  }

  /** How many entries have been seen after entry `i`. */
  function SeenAfter(seen: nat, i: nat): nat {
    if seen <= i then i + 1 else seen
  }

  /** After entry `i`, what the first entry of its name requires is loaded or pending. */
  lemma FirstIsPending(builtins: Builtins, load: seq<Lib>, before: set<string>, plugins: set<string>, toLoad: Graph,
          i: nat, seen: nat, noChange: bool)
    requires i < |load| && PendingRight(builtins, load, before, plugins, toLoad, i, seen, noChange)
    requires load[i].name !in plugins && load[i].name in toLoad
    ensures NeedsFirst(builtins, load, load[i].name) - plugins <=
      PendingAfter(SetOf(RequiredBy(builtins, load[i])), plugins, toLoad[load[i].name])
  {
    var name := load[i].name;
    forall r | r in NeedsFirst(builtins, load, name) - plugins
      ensures r in PendingAfter(SetOf(RequiredBy(builtins, load[i])), plugins, toLoad[name])
    {
      var k := FirstThatNeeds(builtins, load, name, r);
      hide NeedsFirst, Needs, Names, RequiredBy;
      if k < i { assert Seen(builtins, load, plugins, toLoad, k, noChange && k < i); }
    }
  }

  lemma FirstThatNeeds(builtins: Builtins, load: seq<Lib>, name: string, r: string) returns (k: nat)
    requires r in NeedsFirst(builtins, load, name)
    ensures k < |load| && load[k].name == name && IsFirst(load, k) && r in SetOf(RequiredBy(builtins, load[k]))
  {
    k :| 0 <= k < |load| && load[k].name == name && IsFirst(load, k) && r in RequiredBy(builtins, load[k]);
  }

  /** Once all entries have been seen, so is all that is required under its name. */
  lemma AllIsPending(builtins: Builtins, load: seq<Lib>, before: set<string>, plugins: set<string>, toLoad: Graph,
          i: nat, noChange: bool)
    requires i < |load| && PendingRight(builtins, load, before, plugins, toLoad, i, |load|, noChange)
    requires load[i].name !in plugins && load[i].name in toLoad
    ensures Needs(builtins, load, load[i].name) - plugins <=
      PendingAfter(SetOf(RequiredBy(builtins, load[i])), plugins, toLoad[load[i].name])
  {
    var name := load[i].name;
    forall r | r in Needs(builtins, load, name) - plugins
      ensures r in PendingAfter(SetOf(RequiredBy(builtins, load[i])), plugins, toLoad[name])
    {
      var k := EntryThatNeeds(builtins, load, name, r);
      hide Needs, Names, RequiredBy;
      assert Seen(builtins, load, plugins, toLoad, k, noChange && k < i);
    }
  }

  lemma EntryThatNeeds(builtins: Builtins, load: seq<Lib>, name: string, r: string) returns (k: nat)
    requires r in Needs(builtins, load, name)
    ensures k < |load| && load[k].name == name && r in SetOf(RequiredBy(builtins, load[k]))
  {
    var lib :| lib in load && lib.name == name && r in RequiredBy(builtins, lib);
    k :| 0 <= k < |load| && load[k] == lib;
  }

  lemma NothingPending(needs: set<string>, plugins: set<string>, pending: set<string>)
    requires needs - plugins <= pending == {}
    ensures needs <= plugins
  {
    assert forall r :: r in needs && r !in plugins ==> r in pending;
  }

  lemma PendingSkipped(builtins: Builtins, load: seq<Lib>, before: set<string>, plugins: set<string>, toLoad: Graph,
          i: nat, seen: nat, noChange: bool)
    requires i < |load| && PendingRight(builtins, load, before, plugins, toLoad, i, seen, noChange)
    requires load[i].name in plugins
    ensures PendingRight(builtins, load, before, plugins, toLoad, i + 1, SeenAfter(seen, i), noChange)
  {
    hide Needs, Names, Seen;
  }

  lemma NameIsPending(builtins: Builtins, load: seq<Lib>, before: set<string>, plugins: set<string>, toLoad: Graph,
          i: nat, seen: nat, noChange: bool)
    requires i < |load| && PendingRight(builtins, load, before, plugins, toLoad, i, seen, noChange)
    requires load[i].name !in plugins
    ensures load[i].name in toLoad
    ensures SetOf(RequiredBy(builtins, load[i])) <= Needs(builtins, load, load[i].name)
  {
    assert load[i] in load;
  }

  lemma PendingKept(builtins: Builtins, load: seq<Lib>, before: set<string>, plugins: set<string>, toLoad: Graph,
          i: nat, seen: nat, noChange: bool, pending: set<string>)
    requires i < |load| && PendingRight(builtins, load, before, plugins, toLoad, i, seen, noChange)
    requires load[i].name in toLoad && SetOf(RequiredBy(builtins, load[i])) <= Needs(builtins, load, load[i].name)
    requires pending == PendingAfter(SetOf(RequiredBy(builtins, load[i])), plugins, toLoad[load[i].name]) != {}
    ensures PendingRight(builtins, load, before, plugins, toLoad[load[i].name := pending], i + 1, SeenAfter(seen, i),
                         noChange)
  {
    hide Needs, Names;
    var later := toLoad[load[i].name := pending];
    forall k | 0 <= k < SeenAfter(seen, i) && load[k].name !in plugins
      ensures Seen(builtins, load, plugins, later, k, noChange && k < i + 1)
    {
      hide RequiredBy, SetOf;
      if k != i { assert Seen(builtins, load, plugins, toLoad, k, noChange && k < i); }
    }
  }

  lemma PendingLoaded(builtins: Builtins, load: seq<Lib>, before: set<string>, plugins: set<string>, toLoad: Graph,
          i: nat, seen: nat, noChange: bool)
    requires i < |load| && PendingRight(builtins, load, before, plugins, toLoad, i, seen, noChange)
    requires load[i].name in toLoad && load[i].name !in plugins
    ensures PendingRight(builtins, load, before, plugins + {load[i].name}, toLoad - {load[i].name}, i + 1,
                         SeenAfter(seen, i), false)
    ensures (toLoad - {load[i].name}).Keys < toLoad.Keys
  {
    hide Needs, Names, RequiredBy, SetOf;
    var name := load[i].name;
    assert (toLoad - {name}).Keys == toLoad.Keys - {name};
    forall k | 0 <= k < SeenAfter(seen, i) && load[k].name !in plugins + {name}
      ensures Seen(builtins, load, plugins + {name}, toLoad - {name}, k, false)
    {
      assert Seen(builtins, load, plugins, toLoad, k, noChange && k < i);
    }
  }

  lemma NewPass(builtins: Builtins, load: seq<Lib>, before: set<string>, plugins: set<string>, toLoad: Graph, i: nat,
          seen: nat, noChange: bool)
    requires PendingRight(builtins, load, before, plugins, toLoad, i, seen, noChange)
    ensures PendingRight(builtins, load, before, plugins, toLoad, 0, seen, true)
    ensures PendingRight(builtins, load, before, plugins, toLoad, 0, seen, false)
  {
    hide Needs, Names, RequiredBy, SetOf;
    forall k | 0 <= k < seen && load[k].name !in plugins ensures Seen(builtins, load, plugins, toLoad, k, false) {
      assert Seen(builtins, load, plugins, toLoad, k, noChange && k < i);
    }
  }

  /** When the loader has loaded everything, nothing has been live before. */
  lemma NothingRemains(builtins: Builtins, load: seq<Lib>, before: set<string>, plugins: set<string>, toLoad: Graph,
          i: nat, seen: nat, noChange: bool)
    requires PendingRight(builtins, load, before, plugins, toLoad, i, seen, noChange) && plugins <= Names(load)
    ensures toLoad.Keys == {} <==> before == {} && plugins == Names(load)
    ensures toLoad.Keys == Names(load) - (plugins - before)
  {
    hide Needs, Names, Seen;
    if toLoad.Keys == {} {
      assert forall n :: n in Names(load) ==> n in toLoad.Keys || (n in plugins && n !in before);
    }
  }

  /** A pass that has changed nothing leaves the rest waiting for each other. */
  lemma NothingChanged(builtins: Builtins, load: seq<Lib>, before: set<string>, plugins: set<string>, toLoad: Graph)
    requires Closed(builtins, load) && PendingRight(builtins, load, before, plugins, toLoad, |load|, |load|, true)
    requires Names(load) - plugins != {}
    ensures Stuck(Wanted(builtins, load), Names(load) - plugins)
  {
    var rest := Names(load) - plugins;
    hide Needs, Names, PendingRight;
    forall n | n in rest ensures Wanted(builtins, load)[n] * rest != {} {
      var r := SomethingUnmet(builtins, load, before, plugins, toLoad, n);
      assert r in Needs(builtins, load, n) && r in Names(load);
      assert r in Wanted(builtins, load)[n] * rest;
    }
  }

  lemma SomethingUnmet(builtins: Builtins, load: seq<Lib>, before: set<string>, plugins: set<string>, toLoad: Graph,
          n: string) returns (r: string)
    requires PendingRight(builtins, load, before, plugins, toLoad, |load|, |load|, true) && n in Names(load) - plugins
    ensures r in Needs(builtins, load, n) && r !in plugins
  {
    var k := EntryOf(load, n);
    assert Seen(builtins, load, plugins, toLoad, k, true);
    r :| r in toLoad[n];
    var j := EntryThatNeeds(builtins, load, n, r);
    assert Seen(builtins, load, plugins, toLoad, j, true);
    assert r in SetOf(RequiredBy(builtins, load[j])) * toLoad[n];
  }

  lemma EntryOf(load: seq<Lib>, n: string) returns (k: nat)
    requires n in Names(load)
    ensures k < |load| && load[k].name == n
  {
    var lib :| lib in load && lib.name == n;
    k :| 0 <= k < |load| && load[k] == lib;
  }

  /** The graph without these names. */
  ghost function Without(g: Graph, names: set<string>): Graph {
    map n | n in g.Keys - names :: g[n] - names
  }

  /** Names that wait for each other do so without regard to any others. */
  lemma StuckWithout(g: Graph, others: set<string>, names: set<string>)
    requires Stuck(g, names) && names * others == {}
    ensures Stuck(Without(g, others), names)
  {
    var rest := Without(g, others);
    hide Without;
    forall n | n in names ensures n in rest && rest[n] * names != {} {
      assert n !in names * others;
      WithoutAt(g, others, n);
      KeptWithout(g[n], others, names);
    }
    assert names <= rest.Keys;
  }

  lemma WithoutAt(g: Graph, others: set<string>, n: string)
    requires n in g && n !in others
    ensures n in Without(g, others) && Without(g, others)[n] == g[n] - others
  {
  }

  lemma KeptWithout(required: set<string>, others: set<string>, names: set<string>)
    requires required * names != {} && names * others == {}
    ensures (required - others) * names != {}
  {
    var r :| r in required * names;
    assert r !in names * others;
    assert r in (required - others) * names;
  }

  /** A cycle without these names is one that does not go through them. */
  lemma CycleWithout(g: Graph, names: set<string>, p: seq<string>)
    ensures IsCycle(Without(g, names), p) <==> IsCycle(g, p) && forall i :: 0 <= i < |p| ==> p[i] !in names
  {
    var rest := Without(g, names);
    if IsCycle(rest, p) {
      forall i | 0 < i < |p| ensures Follows(g, p, i) {
        assert Follows(rest, p, i);
      }
    }
    if IsCycle(g, p) && forall i :: 0 <= i < |p| ==> p[i] !in names {
      forall i | 0 < i < |p| ensures Follows(rest, p, i) {
        assert Follows(g, p, i);
      }
    }
  }

  /** If all names but the earlier ones come after all that they require, they have no cycle. */
  lemma BehindIsAcyclic(g: Graph, earlier: seq<string>, order: seq<string>)
    requires OrderedBehind(g, earlier, order) && SetOf(order) == g.Keys
    requires forall i, j :: 0 <= i < j < |order| ==> order[i] != order[j]
    ensures !HasCycle(Without(g, SetOf(earlier)))
  {
    var rest, behind := Without(g, SetOf(earlier)), order[|earlier|..];
    BehindParts(earlier, order);
    forall i | 0 <= i < |behind| ensures behind[i] in rest && rest[behind[i]] <= SetOf(behind[..i]) {
      assert behind[i] == order[|earlier| + i] && behind[i] in SetOf(behind);
      BehindParts(earlier, order[..|earlier| + i]);
      assert order[..|earlier| + i][|earlier|..] == behind[..i];
    }
    hide Follows, IsPath;
    CompleteOrderIsAcyclic(rest, behind);
  }

  /** The names behind the earlier ones. */
  lemma BehindParts(earlier: seq<string>, order: seq<string>)
    requires earlier <= order && forall i, j :: 0 <= i < j < |order| ==> order[i] != order[j]
    ensures SetOf(order[|earlier|..]) == SetOf(order) - SetOf(earlier)
  {
    var behind := order[|earlier|..];
    assert order == earlier + behind;
    forall n | n in behind ensures n !in earlier {
      var i :| 0 <= i < |behind| && behind[i] == n;
      assert order[|earlier| + i] == n;
    }
  }

  /** How loading has ended, if it has started with `before` live, in this order.  It succeeds if and only if
      nothing has been live and everything is now.  What fails to be loaded waits for something else that does.

      Everything is live in the end if and only if what the first pass leaves has no cycle.  That is loaded after
      all that it requires; so everything is if and only if that holds of what the first pass loads.  So success is
      ruled out by a cycle among the requirements of first entries, and failure takes a cycle among all
      requirements; if later entries add nothing, these are the same. */
  ghost predicate Outcome(builtins: Builtins, load: seq<Lib>, before: set<string>, orderBefore: seq<string>,
          plugins: set<string>, order: seq<string>, ok: bool, unmet: set<string>) {
    var first := FirstPass(builtins, load, before, orderBefore);
    && before <= plugins <= Names(load)
    && (ok <==> before == {} && plugins == Names(load))
    && unmet == Names(load) - (plugins - before) && (ok <==> unmet == {})
    && (Names(load) - plugins == {} || Stuck(Wanted(builtins, load), Names(load) - plugins))
    && (plugins == Names(load) <==> !HasCycle(Without(Wanted(builtins, load), first.plugins)))
    && OrderedBehind(Wanted(builtins, load), first.order, order)
    && (Ordered(Wanted(builtins, load), order) <==> Ordered(Wanted(builtins, load), first.order))
    && (ok ==> !HasCycle(WantedFirst(builtins, load)))
    && (before == {} && !HasCycle(Wanted(builtins, load)) ==> ok)
    && (before == {} && LaterAddNothing(builtins, load) ==> (ok <==> !HasCycle(Wanted(builtins, load))))
  }

  lemma OutcomeFollows(builtins: Builtins, load: seq<Lib>, before: set<string>, orderBefore: seq<string>,
          plugins: set<string>, order: seq<string>, unmet: set<string>)
    requires before <= plugins <= Names(load) && unmet == Names(load) - (plugins - before)
    requires unmet == {} <==> before == {} && plugins == Names(load)
    requires before == SetOf(orderBefore) && plugins == SetOf(order) && Ordered(WantedFirst(builtins, load), order)
    requires OrderedBehind(Wanted(builtins, load), FirstPass(builtins, load, before, orderBefore).order, order)
    requires Names(load) - plugins == {} || Stuck(Wanted(builtins, load), Names(load) - plugins)
    ensures Outcome(builtins, load, before, orderBefore, plugins, order, unmet == {}, unmet)
  {
    var g, first := Wanted(builtins, load), FirstPass(builtins, load, before, orderBefore);
    FirstPassLives(builtins, load, before, orderBefore);
    hide Needs, NeedsFirst, Names, Ordered, OrderedBehind, FirstPass, SetOf, LaterAddNothing, HasCycle, Stuck, Without;
    Distinct(WantedFirst(builtins, load), order);
    OrderedIfEarlierIs(g, first.order, order);
    EndIsDecided(g, first.order, order);
    if plugins == Names(load) { CompleteOrderIsAcyclic(WantedFirst(builtins, load), order); }
    if LaterAddNothing(builtins, load) { OneGraph(builtins, load); }
  }

  lemma FirstPassLives(builtins: Builtins, load: seq<Lib>, before: set<string>, orderBefore: seq<string>)
    requires before == SetOf(orderBefore)
    ensures var first := FirstPass(builtins, load, before, orderBefore); first.plugins == SetOf(first.order)
  {
    StartsAt(builtins, load, AtStart(load, before, orderBefore));
    PassGoesOn(builtins, load, AtStart(load, before, orderBefore), 0, |load|);
    hide AfterEntries, SetOf;
  }

  /** If the names that are left wait for each other, there are any exactly if the later names have a cycle. */
  lemma EndIsDecided(g: Graph, earlier: seq<string>, order: seq<string>)
    requires OrderedBehind(g, earlier, order) && SetOf(order) <= g.Keys
    requires forall i, j :: 0 <= i < j < |order| ==> order[i] != order[j]
    requires g.Keys - SetOf(order) == {} || Stuck(g, g.Keys - SetOf(order))
    ensures SetOf(order) == g.Keys <==> !HasCycle(Without(g, SetOf(earlier)))
    ensures !HasCycle(g) ==> SetOf(order) == g.Keys
  {
    var rest := g.Keys - SetOf(order);
    PrefixIsPart(earlier, order, g.Keys);
    NothingIsLeft(SetOf(order), g.Keys);
    hide Ordered, OrderedBehind, SetOf, HasCycle, Stuck, Without;
    if rest == {} {
      BehindIsAcyclic(g, earlier, order);
    } else {
      StuckWithout(g, SetOf(earlier), rest);
      StuckIsCyclic(Without(g, SetOf(earlier)), rest);
      StuckIsCyclic(g, rest);
    }
  }

  lemma NothingIsLeft(part: set<string>, whole: set<string>)
    requires part <= whole
    ensures whole - part == {} <==> part == whole
  {
    if whole - part == {} {
      forall n | n in whole ensures n in part {
        assert n !in whole - part;
      }
    }
  }

  lemma PrefixIsPart(earlier: seq<string>, order: seq<string>, names: set<string>)
    requires earlier <= order
    ensures SetOf(earlier) <= SetOf(order) && (names - SetOf(order)) * SetOf(earlier) == {}
  {
  }

  lemma Distinct(g: Graph, order: seq<string>)
    requires Ordered(g, order)
    ensures forall i, j :: 0 <= i < j < |order| ==> order[i] != order[j]
  {
  }

  lemma OutcomeIsDecided(builtins: Builtins, load: seq<Lib>, plugins: set<string>, order: seq<string>, ok: bool,
          unmet: set<string>)
    requires Outcome(builtins, load, {}, [], plugins, order, ok, unmet)
    ensures ok <==> !HasCycle(Without(Wanted(builtins, load), FirstPass(builtins, load, {}, []).plugins))
    ensures Ordered(Wanted(builtins, load), order) <==> AllInTime(builtins, load, AtStart(load, {}, []), |load|)
    ensures LaterAddNothing(builtins, load) ==> (ok <==> !HasCycle(Wanted(builtins, load)))
  {
    NothingIsOrdered(Wanted(builtins, load));
    hide Ordered, AllInTime, LaterAddNothing, HasCycle, Stuck;
    OrderedExactlyInTime(builtins, load, AtStart(load, {}, []), |load|);
  }

  // ----- The closure of the load list --------------------------------------------------------------

  /** `needed_for` names builtins. */
  ghost predicate ValidBuiltins(builtins: Builtins) {
    forall n, m :: n in builtins && m in builtins[n].neededFor ==> m in builtins
  }

  /** A name that `m` is to require because it is listed as a builtin needed for `m`. */
  predicate NeededFor(builtins: Builtins, r: string, m: string) {
    r in builtins && m in builtins[r].neededFor
  }

  /** `given` has become `builtins` once the names in `seen` have been registered. */
  ghost predicate Registered(given: Builtins, builtins: Builtins, seen: set<string>) {
    && builtins.Keys == given.Keys
    && (forall m :: m in builtins ==> builtins[m].neededFor == given[m].neededFor)
    && (forall m :: m in builtins ==> RequirementsOf(given, builtins, seen, m))
  }

  ghost predicate RequirementsOf(given: Builtins, builtins: Builtins, seen: set<string>, m: string)
    requires m in given && m in builtins
  {
    forall r :: r in builtins[m].required <==> r in given[m].required || (r in seen && NeededFor(given, r, m))
  }

  /** The list begins with the configured entries and goes on with dependencies that have been added;
      the first `idx` entries have been resolved. */
  ghost predicate Extends(builtins: Builtins, configured: seq<Lib>, load: seq<Lib>, idx: nat) {
    && idx <= |load| && |configured| <= |load|
    && (forall k :: 0 <= k < |configured| ==>
          load[k].name == configured[k].name && load[k].required == configured[k].required)
    && (forall k :: |configured| <= k < |load| ==> load[k].required == [])
    && (forall k :: 0 <= k < |load| ==> (load[k].shared <==> k < idx && load[k].name in builtins))
  }

  /** Each added entry is required by an earlier one, which has been resolved. */
  ghost predicate HasParents(builtins: Builtins, configured: seq<Lib>, load: seq<Lib>, idx: nat, parents: seq<nat>) {
    && |parents| == |load|
    && (forall k {:trigger IsParent(builtins, load, idx, k, parents[k])} :: |configured| <= k < |load| ==>
          IsParent(builtins, load, idx, k, parents[k]))
  }

  predicate IsParent(builtins: Builtins, load: seq<Lib>, idx: nat, k: nat, parent: nat)
    requires k < |load|
  {
    parent < k && parent < idx && load[k].name in RequiredBy(builtins, load[parent])
  }

  /** What the first `idx` entries require is listed. */
  ghost predicate ClosedUpTo(builtins: Builtins, load: seq<Lib>, idx: nat) {
    idx <= |load| && forall k, r :: 0 <= k < idx && r in RequiredBy(builtins, load[k]) ==> r in Names(load)
  }

  /** All names that can come up. */
  ghost function Universe(builtins: Builtins, configured: seq<Lib>): set<string> {
    Names(configured) + builtins.Keys
    + (set m, r | m in builtins && r in builtins[m].required :: r)
    + (set lib, r | lib in configured && r in lib.required :: r)
  }

  ghost predicate Resolving(given: Builtins, configured: seq<Lib>, builtins: Builtins, load: seq<Lib>, idx: nat,
          added: set<string>, parents: seq<nat>) {
    && Extends(given, configured, load, idx)
    && Registered(given, builtins, Names(load[..idx]))
    && HasParents(builtins, configured, load, idx, parents)
    && ClosedUpTo(builtins, load, idx)
    && added <= Names(load) <= Universe(given, configured)
  }

  lemma NamesOfPrefix(load: seq<Lib>, k: nat)
    requires k < |load|
    ensures Names(load[..k + 1]) == Names(load[..k]) + {load[k].name} && load[k].name in Names(load)
  {
    assert load[..k + 1] == load[..k] + [load[k]];
    assert load[k] in load;
  }

  lemma NamesAppended(load: seq<Lib>, lib: Lib)
    ensures Names(load + [lib]) == Names(load) + {lib.name}
  {
    assert lib in load + [lib];
  }

  /** Whatever is required is among the names that can come up. */
  lemma RequiredInUniverse(given: Builtins, configured: seq<Lib>, builtins: Builtins, load: seq<Lib>, idx: nat,
          k: nat, seen: set<string>, r: string)
    requires Extends(given, configured, load, idx) && Registered(given, builtins, seen)
    requires seen <= Universe(given, configured)
    requires k < |load| && r in RequiredBy(builtins, load[k])
    ensures r in Universe(given, configured)
  {
    if !(load[k].shared && load[k].name in builtins) {
      assert k < |configured| && configured[k] in configured;
    }
  }

  /** Registering more names adds requirements, but only of names that have been registered. */
  lemma RequirementsGrow(given: Builtins, b: Builtins, seen: set<string>, b': Builtins, seen': set<string>, lib: Lib)
    requires Registered(given, b, seen) && Registered(given, b', seen') && seen <= seen'
    ensures forall r :: r in RequiredBy(b, lib) ==> r in RequiredBy(b', lib)
    ensures forall r :: r in RequiredBy(b', lib) ==> r in RequiredBy(b, lib) || r in seen'
  {
    var m := lib.name;
    if lib.shared && m in given {
      assert RequirementsOf(given, b, seen, m) && RequirementsOf(given, b', seen', m);
    }
  }

  /** Entry `idx` has been resolved, its builtin registered if it is one. */
  lemma EntryRegistered(given: Builtins, configured: seq<Lib>, builtins: Builtins, load: seq<Lib>, idx: nat,
          builtins': Builtins, load': seq<Lib>)
    requires Extends(given, configured, load, idx) && idx < |load|
    requires load' == load[idx := load[idx].(shared := load[idx].name in given)]
    requires Registered(given, builtins', Names(load[..idx]) + {load[idx].name})
    ensures Extends(given, configured, load', idx + 1) && Names(load') == Names(load)
    ensures Registered(given, builtins', Names(load'[..idx + 1]))
  {
    SameNames(load, load');
    SameNames(load[..idx + 1], load'[..idx + 1]);
    NamesOfPrefix(load, idx);
    hide Names, Registered, RequiredBy;
  }

  lemma RequirementsRegistered(given: Builtins, configured: seq<Lib>, builtins: Builtins, load: seq<Lib>, idx: nat,
          added: set<string>, parents: seq<nat>, builtins': Builtins, load': seq<Lib>)
    requires Resolving(given, configured, builtins, load, idx, added, parents) && idx < |load|
    requires load' == load[idx := load[idx].(shared := load[idx].name in given)]
    requires Registered(given, builtins', Names(load[..idx]) + {load[idx].name}) && Names(load') == Names(load)
    ensures HasParents(builtins', configured, load', idx, parents)
    ensures ClosedUpTo(builtins', load', idx)
  {
    var seen, seen' := Names(load[..idx]), Names(load[..idx]) + {load[idx].name};
    SeenAreListed(load, idx);
    hide Names, Registered, RequiredBy, Universe;
    forall k | 0 <= k < idx
      ensures forall r :: r in RequiredBy(builtins, load[k]) ==> r in RequiredBy(builtins', load'[k])
      ensures forall r :: r in RequiredBy(builtins', load'[k]) ==> r in Names(load)
    {
      RequirementsGrow(given, builtins, seen, builtins', seen', load[k]);
    }
    forall k | |configured| <= k < |load'| ensures IsParent(builtins', load', idx, k, parents[k]) {
      assert IsParent(builtins, load, idx, k, parents[k]);
    }
  }

  lemma SeenAreListed(load: seq<Lib>, idx: nat)
    requires idx < |load|
    ensures Names(load[..idx]) + {load[idx].name} <= Names(load)
  {
    assert load[idx] in load;
  }

  lemma SameNames(a: seq<Lib>, b: seq<Lib>)
    requires |a| == |b| && forall k :: 0 <= k < |a| ==> a[k].name == b[k].name
    ensures Names(a) == Names(b)
  {
    forall n | n in Names(a) ensures n in Names(b) {
      var k := EntryOf(a, n);
      assert b[k] in b;
    }
    forall n | n in Names(b) ensures n in Names(a) {
      var k := EntryOf(b, n);
      assert a[k] in a;
    }
  }

  /** Adding a dependency of entry `idx` to the list. */
  lemma DependencyAdded(given: Builtins, configured: seq<Lib>, builtins: Builtins, load: seq<Lib>, idx: nat,
          parents: seq<nat>, dep: string)
    requires idx < |load| && Extends(given, configured, load, idx + 1)
    requires HasParents(builtins, configured, load, idx + 1, parents)
    requires ClosedUpTo(builtins, load, idx) && dep in RequiredBy(builtins, load[idx])
    ensures var longer := load + [Lib(dep, [], false)];
      && Extends(given, configured, longer, idx + 1)
      && HasParents(builtins, configured, longer, idx + 1, parents + [idx])
      && ClosedUpTo(builtins, longer, idx) && Names(longer) == Names(load) + {dep}
      && longer[..idx + 1] == load[..idx + 1]
  {
    var longer := load + [Lib(dep, [], false)];
    NamesAppended(load, Lib(dep, [], false));
    hide Names;
    forall k | |configured| <= k < |longer| ensures IsParent(builtins, longer, idx + 1, k, (parents + [idx])[k]) {
      if k < |load| { assert IsParent(builtins, load, idx + 1, k, parents[k]); }
    }
  }

  lemma ParentsLater(builtins: Builtins, configured: seq<Lib>, load: seq<Lib>, idx: nat, parents: seq<nat>)
    requires HasParents(builtins, configured, load, idx, parents)
    ensures HasParents(builtins, configured, load, idx + 1, parents)
  {
    forall k | |configured| <= k < |load| ensures IsParent(builtins, load, idx + 1, k, parents[k]) {
      assert IsParent(builtins, load, idx, k, parents[k]);
    }
  }

  lemma AddedInUniverse(given: Builtins, configured: seq<Lib>, builtins: Builtins, load: seq<Lib>, idx: nat,
          added: set<string>, added': set<string>, names: set<string>)
    requires idx < |load| && Extends(given, configured, load, idx + 1)
    requires Registered(given, builtins, Names(load[..idx + 1]))
    requires added <= names <= Universe(given, configured) && Names(load[..idx + 1]) <= names
    requires Names(load) == names + added'
    requires forall r :: r in added' - added ==> r in RequiredBy(builtins, load[idx])
    ensures Names(load) <= Universe(given, configured) && added' <= Names(load)
  {
    forall r | r in added' - added ensures r in Universe(given, configured) {
      RequiredInUniverse(given, configured, builtins, load, idx + 1, idx, Names(load[..idx + 1]), r);
    }
  }

  /** When all entries have been resolved, the list is closed. */
  lemma ResolvedIsClosed(builtins: Builtins, load: seq<Lib>)
    requires ClosedUpTo(builtins, load, |load|)
    ensures Closed(builtins, load)
  {
    forall n, r | n in Names(load) && r in Needs(builtins, load, n) ensures r in Names(load) {
      var lib :| lib in load && lib.name == n && r in RequiredBy(builtins, lib);
      var k :| 0 <= k < |load| && load[k] == lib;
    }
  }

  /** Nothing is listed that is not needed: a set that has the configured names, and with a name all
      that it requires, has all listed names. */
  lemma {:induction false} ListedIsNeeded(builtins: Builtins, configured: seq<Lib>, load: seq<Lib>,
          parents: seq<nat>, names: set<string>, k: nat)
    requires |configured| <= |load| && HasParents(builtins, configured, load, |load|, parents)
    requires forall i :: 0 <= i < |configured| ==> load[i].name in names
    requires LiveClosed(Wanted(builtins, load), names)
    requires k < |load|
    ensures load[k].name in names
  {
    if k >= |configured| {
      var parent := parents[k];
      assert IsParent(builtins, load, |load|, k, parent);
      ListedIsNeeded(builtins, configured, load, parents, names, parent);
      assert load[parent] in load && load[k].name in Needs(builtins, load, load[parent].name);
    }
  }

  /** The list is the least closed one that has the configured names. */
  ghost predicate LeastClosed(builtins: Builtins, configured: seq<Lib>, load: seq<Lib>) {
    && Names(configured) <= Names(load) && Closed(builtins, load)
    && forall names :: Names(configured) <= names && LiveClosed(Wanted(builtins, load), names) ==> Names(load) <= names
  }

  lemma ResolvedIsLeast(given: Builtins, builtins: Builtins, configured: seq<Lib>, load: seq<Lib>, parents: seq<nat>)
    requires Extends(given, configured, load, |load|) && HasParents(builtins, configured, load, |load|, parents)
    requires ClosedUpTo(builtins, load, |load|)
    ensures LeastClosed(builtins, configured, load)
  {
    ResolvedIsClosed(builtins, load);
    forall n | n in Names(configured) ensures n in Names(load) {
      var k := EntryOf(configured, n);
      assert load[k] in load;
    }
    forall names, n | Names(configured) <= names && LiveClosed(Wanted(builtins, load), names) && n in Names(load)
      ensures n in names
    {
      forall i | 0 <= i < |configured| ensures load[i].name in names {
        assert configured[i] in configured;
      }
      var k := EntryOf(load, n);
      ListedIsNeeded(builtins, configured, load, parents, names, k);
    }
  }

  /** A configured name that is listed again requires nothing new; for builtins it does not matter. */
  ghost predicate OneSetOfRequirements(builtins: Builtins, configured: seq<Lib>) {
    forall j, k :: 0 <= j < k < |configured| && configured[j].name == configured[k].name ==>
      configured[j].name in builtins || forall r :: r in configured[k].required ==> r in configured[j].required
  }

  /** If the configured entries have one set of requirements for a name, so has the resolved list. */
  lemma ResolvedAddsNothingLater(given: Builtins, builtins: Builtins, configured: seq<Lib>, load: seq<Lib>)
    requires Extends(given, configured, load, |load|) && builtins.Keys == given.Keys
    requires OneSetOfRequirements(given, configured)
    ensures LaterAddNothing(builtins, load)
  {
    forall j, k, r | 0 <= j < k < |load| && load[j].name == load[k].name && r in RequiredBy(builtins, load[k])
      ensures r in RequiredBy(builtins, load[j])
    {
      if load[k].name !in given {
        assert k < |configured|;
        assert configured[j].name == configured[k].name && r in configured[k].required;
      }
    }
  }

  lemma ResolvingParts(given: Builtins, configured: seq<Lib>, builtins: Builtins, load: seq<Lib>, idx: nat,
          added: set<string>, parents: seq<nat>)
    requires Resolving(given, configured, builtins, load, idx, added, parents)
    ensures idx <= |load| && Extends(given, configured, load, idx)
    ensures HasParents(builtins, configured, load, idx, parents)
    ensures Registered(given, builtins, Names(load[..idx])) && ClosedUpTo(builtins, load, idx)
    ensures added <= Names(load) <= Universe(given, configured)
  {
  }

  lemma ResolvingWhole(given: Builtins, configured: seq<Lib>, builtins: Builtins, load: seq<Lib>, idx: nat,
          added: set<string>, parents: seq<nat>)
    requires idx <= |load| && Extends(given, configured, load, idx)
    requires HasParents(builtins, configured, load, idx, parents)
    requires Registered(given, builtins, Names(load[..idx])) && ClosedUpTo(builtins, load, idx)
    requires added <= Names(load) <= Universe(given, configured)
    ensures Resolving(given, configured, builtins, load, idx, added, parents)
  {
  }

  lemma ResolvingIndex(given: Builtins, configured: seq<Lib>, builtins: Builtins, load: seq<Lib>, idx: nat,
          added: set<string>, parents: seq<nat>)
    requires Resolving(given, configured, builtins, load, idx, added, parents)
    ensures idx <= |load|
  {
  }

  lemma ResolvingStarts(builtins: Builtins, load: seq<Lib>) returns (parents: seq<nat>)
    requires forall k :: 0 <= k < |load| ==> !load[k].shared
    ensures Resolving(builtins, load, builtins, load, 0, {}, parents)
  {
    parents := seq(|load|, _ => 0);
    assert load[..0] == [] && Names([]) == {};
    assert forall m :: m in builtins ==> RequirementsOf(builtins, builtins, {}, m);
  }

  lemma ResolvingEnds(given: Builtins, configured: seq<Lib>, builtins: Builtins, load: seq<Lib>, added: set<string>,
          parents: seq<nat>)
    requires Resolving(given, configured, builtins, load, |load|, added, parents)
    ensures LeastClosed(builtins, configured, load) && Registered(given, builtins, Names(load))
    ensures Extends(given, configured, load, |load|)
  {
    hide *;
    ResolvingParts(given, configured, builtins, load, |load|, added, parents);
    assert load[..|load|] == load;
    ResolvedIsLeast(given, builtins, configured, load, parents);
  }

  lemma SameKeys(given: Builtins, builtins: Builtins, seen: set<string>)
    requires Registered(given, builtins, seen)
    ensures builtins.Keys == given.Keys
  {
  }

  lemma LessToAdd(all: set<string>, before: set<string>, after: set<string>)
    requires before <= after <= all
    ensures before == after || all - after < all - before
  {
    if before != after {
      assert !(after <= before);
      var x :| x in after && x !in before;
      assert x in all - before && x !in all - after;
    }
  }

  // ----- The program -----------------------------------------------------------------------------

  class Boot {
    var builtins: Builtins
    var load: seq<Lib>
    var plugins: set<string>
    var loadOrder: seq<string>

    /** The configured entries, of which the last is always that of the given builtin. */
    constructor (builtins: Builtins, configured: seq<Lib>, always: string)
      requires always in builtins
      ensures this.builtins == builtins && plugins == {} && loadOrder == []
      ensures load == configured + [Lib(always, builtins[always].required, false)]
    {
      this.builtins := builtins;
      load := configured + [Lib(always, builtins[always].required, false)];
      plugins, loadOrder := {}, [];
    }

    /** Live are the plugins in the load order. */
    ghost predicate Valid()
      reads this
    {
      && plugins == SetOf(loadOrder)
      && Ordered(WantedFirst(builtins, load), loadOrder)
    }

    /** The builtin becomes a requirement of those that it is needed for. */
    method Register(name: string, ghost given: Builtins, ghost seen: set<string>)
      requires ValidBuiltins(given) && Registered(given, builtins, seen)
      modifies this`builtins
      ensures Registered(given, builtins, seen + {name})
    {
      if name in builtins {
        var neededFor := builtins[name].neededFor;
        ghost var before := builtins;
        for k := 0 to |neededFor|
          invariant builtins.Keys == before.Keys
          invariant forall m :: m in builtins ==> builtins[m].neededFor == before[m].neededFor
          invariant forall m, r :: m in builtins ==>
            (r in builtins[m].required <==> r in before[m].required || (r == name && m in neededFor[..k]))
        {
          var needing := neededFor[k];
          assert neededFor[..k + 1] == neededFor[..k] + [needing];
          builtins := builtins[needing := Builtin(builtins[needing].required + [name], builtins[needing].neededFor)];
        }
        assert neededFor[..|neededFor|] == neededFor;
        forall m | m in builtins ensures RequirementsOf(given, builtins, seen + {name}, m) {
          assert RequirementsOf(given, before, seen, m);
        }
      } else {
        forall m | m in builtins ensures RequirementsOf(given, builtins, seen + {name}, m) {
          assert RequirementsOf(given, builtins, seen, m);
        }
      }
    }

    /** Appends an entry for a dependency of entry `idx`. */
    method AddDependency(dependency: string, ghost idx: nat, ghost given: Builtins, ghost configured: seq<Lib>,
            ghost parents: seq<nat>)
      returns (ghost parents': seq<nat>)
      requires idx < |load| && Extends(given, configured, load, idx + 1)
      requires HasParents(builtins, configured, load, idx + 1, parents)
      requires ClosedUpTo(builtins, load, idx) && dependency in RequiredBy(builtins, load[idx])
      modifies this`load
      ensures idx < |load| && Extends(given, configured, load, idx + 1)
      ensures HasParents(builtins, configured, load, idx + 1, parents')
      ensures ClosedUpTo(builtins, load, idx) && Names(load) == Names(old(load)) + {dependency}
      ensures load[..idx + 1] == old(load[..idx + 1]) && load[idx] == old(load[idx])
    {
      DependencyAdded(given, configured, builtins, load, idx, parents, dependency);
      load := load + [Lib(dependency, [], false)];
      parents' := parents + [idx];
    }

    /** Adds the dependencies of entry `idx` that have not been added yet. */
    method AddDependencies(idx: nat, added: set<string>, ghost given: Builtins, ghost configured: seq<Lib>,
            ghost parents: seq<nat>)
      returns (added': set<string>, ghost parents': seq<nat>)
      requires idx < |load| && Extends(given, configured, load, idx + 1)
      requires HasParents(builtins, configured, load, idx + 1, parents)
      requires ClosedUpTo(builtins, load, idx) && added <= Names(load)
      modifies this`load
      ensures Extends(given, configured, load, idx + 1) && HasParents(builtins, configured, load, idx + 1, parents')
      ensures ClosedUpTo(builtins, load, idx + 1) && added <= added' <= Names(load)
      ensures load[..idx + 1] == old(load[..idx + 1])
      ensures Names(load) == Names(old(load)) + added'
      ensures forall r :: r in added' - added ==> r in RequiredBy(builtins, load[idx])
      ensures added' == added ==> load == old(load)
    {
      var required := RequiredBy(builtins, load[idx]);
      added', parents' := added, parents;
      hide Names, Extends, HasParents, RequiredBy;
      for j := 0 to |required|
        invariant Extends(given, configured, load, idx + 1) && HasParents(builtins, configured, load, idx + 1, parents')
        invariant idx < |load| && load[idx] == old(load[idx]) && load[..idx + 1] == old(load[..idx + 1])
        invariant ClosedUpTo(builtins, load, idx) && added <= added' && Names(load) == Names(old(load)) + added'
        invariant forall r :: r in added' - added ==> r in required
        invariant forall r :: r in required[..j] ==> r in added'
        invariant added' == added ==> load == old(load)
      {
        var dependency := required[j];
        assert required[..j + 1] == required[..j] + [dependency];
        if dependency !in added' {
          parents' := AddDependency(dependency, idx, given, configured, parents');
          added' := added' + {dependency};
        }
      }
      assert required[..|required|] == required;
    }

    /** Resolves entry `idx`: it shares its builtin's array, if it is a builtin, and what it requires is
        listed. */
    method ResolveEntry(idx: nat, added: set<string>, ghost given: Builtins, ghost configured: seq<Lib>,
            ghost parents: seq<nat>)
      returns (added': set<string>, ghost parents': seq<nat>)
      requires ValidBuiltins(given) && idx < |load|
      requires Resolving(given, configured, builtins, load, idx, added, parents)
      modifies this`builtins, this`load
      ensures Resolving(given, configured, builtins, load, idx + 1, added', parents')
      ensures added <= added' <= Universe(given, configured)
      ensures added' == added ==> |load| == |old(load)|
    {
      ghost var builtins0, load0 := builtins, load;
      SeenAreListed(load, idx);
      NamesOfPrefix(load, idx);
      hide *;
      ResolvingParts(given, configured, builtins, load, idx, added, parents);
      var name := load[idx].name;
      Register(name, given, Names(load[..idx]));
      load := load[idx := Lib(name, load[idx].required, name in builtins)];
      SameKeys(given, builtins, Names(load0[..idx]) + {name});
      EntryRegistered(given, configured, builtins0, load0, idx, builtins, load);
      RequirementsRegistered(given, configured, builtins0, load0, idx, added, parents, builtins, load);
      ParentsLater(builtins, configured, load, idx, parents);
      ghost var load1 := load;
      SeenAreListed(load, idx);
      NamesOfPrefix(load, idx);
      added', parents' := AddDependencies(idx, added, given, configured, parents);
      AddedInUniverse(given, configured, builtins, load, idx, added, added', Names(load1));
      ResolvingWhole(given, configured, builtins, load, idx + 1, added', parents');
    }

    /** Closes the load list under dependencies, while it is being gone through. */
    method ResolveBuiltinDependencies()
      requires ValidBuiltins(builtins)
      requires forall k :: 0 <= k < |load| ==> !load[k].shared
      modifies this`builtins, this`load
      ensures LeastClosed(builtins, old(load), load)
      ensures Registered(old(builtins), builtins, Names(load))
      ensures Extends(old(builtins), old(load), load, |load|)
    {
      ghost var given, configured := builtins, load;
      var added: set<string> := {};
      var idx := 0;
      ghost var parents := ResolvingStarts(builtins, load);
      hide *;
      while idx != |load|
        invariant idx <= |load|
        invariant Resolving(given, configured, builtins, load, idx, added, parents)
        decreases Universe(given, configured) - added, |load| - idx
      {
        ghost var before := added;
        added, parents := ResolveEntry(idx, added, given, configured, parents);
        idx := idx + 1;
        LessToAdd(Universe(given, configured), before, added);
        ResolvingIndex(given, configured, builtins, load, idx, added, parents);
      }
      ResolvingEnds(given, configured, builtins, load, added, parents);
    }

    /** What entry `i` requires and is not loaded is added to the names that are pending for it; the
        rest of what it requires is taken out. */
    method UpdatePending(i: nat, toLoad: Graph) returns (pending: set<string>)
      requires i < |load| && load[i].name in toLoad
      ensures pending == PendingAfter(SetOf(RequiredBy(builtins, load[i])), plugins, toLoad[load[i].name])
    {
      var required := RequiredBy(builtins, load[i]);
      var start := toLoad[load[i].name];
      pending := start;
      for k := 0 to |required|
        invariant pending == PendingAfter(SetOf(required[..k]), plugins, start)
      {
        assert required[..k + 1] == required[..k] + [required[k]];
        if required[k] !in plugins { pending := pending + {required[k]}; } else { pending := pending - {required[k]}; }
      }
      assert required[..|required|] == required;
    }

    /** The plugin of entry `i` is loaded, all that the first entry of its name requires being loaded. */
    method LoadPlugin(i: nat)
      requires i < |load| && load[i].name !in plugins && load[i].name in Names(load)
      requires NeedsFirst(builtins, load, load[i].name) <= plugins && Valid()
      modifies this`plugins, this`loadOrder
      ensures Valid()
      ensures plugins == old(plugins) + {load[i].name} && loadOrder == old(loadOrder) + [load[i].name]
    {
      OrderExtended(WantedFirst(builtins, load), loadOrder, load[i].name);
      plugins := plugins + {load[i].name};
      loadOrder := loadOrder + [load[i].name];
    }

    /** One entry of a pass: nothing if its plugin is loaded already; otherwise what is pending for its name is
        brought up to date, and if that is nothing the plugin is loaded. */
    method Visit(i: nat, toLoad: Graph, noChange: bool, ghost before: set<string>, ghost seen: nat)
      returns (toLoad': Graph, noChange': bool)
      requires i < |load| && Valid() && PendingRight(builtins, load, before, plugins, toLoad, i, seen, noChange)
      modifies this`plugins, this`loadOrder
      ensures Valid() && PendingRight(builtins, load, before, plugins, toLoad', i + 1, SeenAfter(seen, i), noChange')
      ensures var was := Progress(old(plugins), old(loadOrder), toLoad);
        && Progress(plugins, loadOrder, toLoad') == AfterEntry(builtins, load[i], was)
        && (load[i].name !in was.plugins ==> load[i].name in toLoad)
        && if Loads(builtins, load[i], was)
           then
             && !noChange' && toLoad'.Keys < toLoad.Keys
             && (seen == |load| ==> Needs(builtins, load, load[i].name) <= was.plugins)
           else noChange' == noChange && toLoad'.Keys == toLoad.Keys
    {
      toLoad', noChange' := toLoad, noChange;
      if load[i].name in plugins {
        PendingSkipped(builtins, load, before, plugins, toLoad, i, seen, noChange);
        return;
      }
      NameIsPending(builtins, load, before, plugins, toLoad, i, seen, noChange);
      EntryIsListed(load, i);
      hide *;
      var pending := UpdatePending(i, toLoad);
      toLoad' := toLoad[load[i].name := pending];
      if pending == {} {
        noChange' := false;
        toLoad' := toLoad - {load[i].name};
        PendingLoaded(builtins, load, before, plugins, toLoad, i, seen, noChange);
        FirstIsPending(builtins, load, before, plugins, toLoad, i, seen, noChange);
        NothingPending(NeedsFirst(builtins, load, load[i].name), plugins, pending);
        if seen == |load| {
          AllIsPending(builtins, load, before, plugins, toLoad, i, noChange);
          NothingPending(Needs(builtins, load, load[i].name), plugins, pending);
        }
        LoadPlugin(i);
      } else {
        PendingKept(builtins, load, before, plugins, toLoad, i, seen, noChange, pending);
      }
    }

    /** A pass that began with `start` has come to entry `i`; `again` says that it is not the first one. */
    ghost predicate Passing(before: set<string>, start: Progress, toLoad: Graph, i: nat, again: bool, noChange: bool)
      reads this
    {
      && i <= |load| && Valid()
      && PendingRight(builtins, load, before, plugins, toLoad, i, if again then |load| else i, noChange)
      && (if noChange then toLoad.Keys == start.toLoad.Keys else toLoad.Keys < start.toLoad.Keys)
      && Progress(plugins, loadOrder, toLoad) == AfterEntries(builtins, load, start, i)
      && (again ==> OrderedBehind(Wanted(builtins, load), start.order, loadOrder))
    }

    lemma LiveIsOrder()
      requires Valid()
      ensures plugins == SetOf(loadOrder)
    {
    }

    lemma PassBegins(before: set<string>, toLoad: Graph, again: bool)
      requires Valid()
      requires PendingRight(builtins, load, before, plugins, toLoad, 0, if again then |load| else 0, false)
      ensures Passing(before, Progress(plugins, loadOrder, toLoad), toLoad, 0, again, true)
    {
      hide Valid, PendingRight, OrderedBehind, Needs, Names;
      NewPass(builtins, load, before, plugins, toLoad, 0, if again then |load| else 0, false);
      NothingBehind(Wanted(builtins, load), loadOrder);
    }

    /** Looks at each entry once. */
    method Pass(toLoad: Graph, ghost before: set<string>, ghost again: bool) returns (toLoad': Graph, noChange: bool)
      requires Valid()
      requires PendingRight(builtins, load, before, plugins, toLoad, 0, if again then |load| else 0, false)
      modifies this`plugins, this`loadOrder
      ensures Passing(before, Progress(old(plugins), old(loadOrder), toLoad), toLoad', |load|, again, noChange)
    {
      hide *;
      ghost var start := Progress(plugins, loadOrder, toLoad);
      toLoad', noChange := toLoad, true;
      PassBegins(before, toLoad, again);
      for i := 0 to |load|
        invariant Passing(before, start, toLoad', i, again, noChange)
      {
        toLoad', noChange := VisitNext(i, toLoad', noChange, before, start, again);
      }
    }

    method VisitNext(i: nat, toLoad: Graph, noChange: bool, ghost before: set<string>, ghost start: Progress,
            ghost again: bool)
      returns (toLoad': Graph, noChange': bool)
      requires i < |load| && Passing(before, start, toLoad, i, again, noChange)
      modifies this`plugins, this`loadOrder
      ensures Passing(before, start, toLoad', i + 1, again, noChange')
    {
      hide Valid, PendingRight, AfterEntry, AfterEntries, Loads, OrderedBehind, Needs, Names, SetOf, RequiredBy;
      ghost var was := Progress(plugins, loadOrder, toLoad);
      EntryIsListed(load, i);
      NextEntry(builtins, load, start, i);
      OrderAfter(builtins, load[i], was);
      LiveIsOrder();
      toLoad', noChange' := Visit(i, toLoad, noChange, before, if again then |load| else i);
      if again && Loads(builtins, load[i], was) {
        BehindExtended(Wanted(builtins, load), start.order, was.order, load[i].name);
      }
    }

    /** Loads what is listed, in as many passes as it takes; fails if a pass has not changed anything, or
        if something that is listed has been live before.  A plugin is loaded after all that the first entry
        of its name requires, and, if the first pass has not loaded it, after all that it requires. */
    method Load() returns (ok: bool, ghost unmet: set<string>)
      requires Valid() && Closed(builtins, load)
      modifies this`plugins, this`loadOrder
      ensures Valid()
      ensures Outcome(builtins, load, old(plugins), old(loadOrder), plugins, loadOrder, ok, unmet)
    {
      var toLoad: Graph := map n | n in Names(load) :: {};
      ghost var start, again := AtStart(load, plugins, loadOrder), false;
      var noChange := false;
      assert Loading(start, toLoad, again, noChange);
      hide *;
      while toLoad.Keys != {} && !noChange
        invariant Loading(start, toLoad, again, noChange)
        decreases toLoad.Keys, !noChange
      {
        toLoad, noChange := NextPass(start, toLoad, again);
        again := true;
      }
      ok := !noChange;
      unmet := toLoad.Keys;
      PassesEnd(start, toLoad, again, noChange);
    }

    /** Between two passes.  Once there has been one, what has been loaded since comes after all that it
        requires. */
    ghost predicate Loading(start: Progress, toLoad: Graph, again: bool, noChange: bool)
      reads this
    {
      && Valid()
      && PendingRight(builtins, load, start.plugins, plugins, toLoad, if noChange then |load| else 0,
                      if again then |load| else 0, noChange)
      && (noChange ==> toLoad.Keys != {}) && start.plugins == SetOf(start.order)
      && if again
         then OrderedBehind(Wanted(builtins, load), AfterEntries(builtins, load, start, |load|).order, loadOrder)
         else start == Progress(plugins, loadOrder, toLoad)
    }

    method NextPass(ghost start: Progress, toLoad: Graph, ghost again: bool) returns (toLoad': Graph, noChange: bool)
      requires Loading(start, toLoad, again, false) && toLoad.Keys != {}
      modifies this`plugins, this`loadOrder
      ensures Loading(start, toLoad', true, noChange)
      ensures if noChange then toLoad'.Keys == toLoad.Keys else toLoad'.Keys < toLoad.Keys
    {
      ghost var was := loadOrder;
      toLoad', noChange := Pass(toLoad, start.plugins, again);
      hide Valid, PendingRight, OrderedBehind, AfterEntries, Names, Needs;
      if !noChange { NewPass(builtins, load, start.plugins, plugins, toLoad', |load|, |load|, false); }
      if again {
        BehindJoined(Wanted(builtins, load), AfterEntries(builtins, load, start, |load|).order, was, loadOrder);
      } else {
        NothingBehind(Wanted(builtins, load), loadOrder);
      }
    }

    /** What the end of the last pass means. */
    lemma PassesEnd(start: Progress, toLoad: Graph, again: bool, noChange: bool)
      requires start == AtStart(load, start.plugins, start.order)
      requires Loading(start, toLoad, again, noChange) && Closed(builtins, load) && (noChange <==> toLoad.Keys != {})
      ensures Outcome(builtins, load, start.plugins, start.order, plugins, loadOrder, !noChange, toLoad.Keys)
    {
      FirstIsBehind(start, toLoad, again, noChange);
      OrderIsListed(WantedFirst(builtins, load), loadOrder);
      var i, seen := if noChange then |load| else 0, if again then |load| else 0;
      NothingRemains(builtins, load, start.plugins, plugins, toLoad, i, seen, noChange);
      if Names(load) - plugins != {} { NothingChanged(builtins, load, start.plugins, plugins, toLoad); }
      hide Names, Closed, Stuck, Seen, OrderedBehind, FirstPass, Outcome;
      OutcomeFollows(builtins, load, start.plugins, start.order, plugins, loadOrder, toLoad.Keys);
    }

    lemma FirstIsBehind(start: Progress, toLoad: Graph, again: bool, noChange: bool)
      requires start == AtStart(load, start.plugins, start.order)
      requires Loading(start, toLoad, again, noChange) && (noChange <==> toLoad.Keys != {})
      ensures var first := FirstPass(builtins, load, start.plugins, start.order);
        OrderedBehind(Wanted(builtins, load), first.order, loadOrder)
      ensures noChange ==> again
    {
      hide Needs, Ordered, Seen, AfterEntry;
      if !again {
        if load != [] { EntryIsListed(load, 0); }
        assert load == [];
        NothingBehind(Wanted(builtins, load), loadOrder);
      }
    }

    /** Resolves the list and loads it.  This succeeds exactly when there is no cycle among what the first pass
        leaves; with no name listed twice with new requirements, exactly when there is none at all. */
    method Start() returns (ok: bool, ghost unmet: set<string>)
      requires plugins == {} && loadOrder == []
      requires ValidBuiltins(builtins)
      requires forall k :: 0 <= k < |load| ==> !load[k].shared
      modifies this
      ensures Valid() && LeastClosed(builtins, old(load), load) && Registered(old(builtins), builtins, Names(load))
      ensures Extends(old(builtins), old(load), load, |load|)
      ensures Outcome(builtins, load, {}, [], plugins, loadOrder, ok, unmet)
      ensures Ordered(Wanted(builtins, load), loadOrder) <==>
        AllInTime(builtins, load, AtStart(load, {}, []), |load|)
      ensures OneSetOfRequirements(old(builtins), old(load)) ==> (ok <==> !HasCycle(Wanted(builtins, load)))
    {
      ghost var given, configured := builtins, load;
      ResolveBuiltinDependencies();
      SameKeys(given, builtins, Names(load));
      if OneSetOfRequirements(given, configured) { ResolvedAddsNothingLater(given, builtins, configured, load); }
      assert Valid() by { NothingIsOrdered(WantedFirst(builtins, load)); }
      assert Closed(builtins, load);
      hide *;
      ok, unmet := Load();
      OutcomeIsDecided(builtins, load, plugins, loadOrder, ok, unmet);
    }

    /** Unloads in reverse; `lived` is what has been live after each erasure. */
    method Unload() returns (ghost lived: seq<set<string>>)
      requires Valid()
      modifies this`plugins
      ensures plugins == {}
      ensures |lived| == |loadOrder| + 1 && lived[0] == old(plugins) && lived[|loadOrder|] == {}
      ensures forall i :: 0 <= i < |lived| ==> LiveClosed(WantedFirst(builtins, load), lived[i])
      ensures forall i :: 0 <= i < |loadOrder| ==> lived[i + 1] == lived[i] - {loadOrder[|loadOrder| - 1 - i]}
    {
      ghost var g := WantedFirst(builtins, load);
      var n := |loadOrder|;
      lived := [plugins];
      assert loadOrder[..n] == loadOrder;
      hide *;
      while n != 0
        invariant 0 <= n <= |loadOrder| && plugins == SetOf(loadOrder[..n])
        invariant ArePrefixes(loadOrder, lived, n)
      {
        n := n - 1;
        OneFewer(g, loadOrder, n);
        plugins := plugins - {loadOrder[n]};
        OnePrefixMore(loadOrder, lived, n);
        lived := lived + [plugins];
      }
      PrefixesAreClosed(g, loadOrder, lived);
      plugins := {};
    }
  }
}
