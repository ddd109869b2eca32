/** The module registry: sorting by dependencies, startup, and the lists of request handlers. */
module Modules {

  datatype DepKind = Required | Optional | Conflicts

  /** Names stand for the names of modules up to case. */
  datatype Dep = Dep(name: nat, kind: DepKind)

  datatype Module = Module(name: nat, deps: seq<Dep>, startup: bool, shutdown: bool, postDeactivate: bool)

  /** Every name is registered once. */
  ghost predicate Distinct(s: seq<Module>) {
    forall i, j :: 0 <= i < j < |s| ==> s[i].name != s[j].name
  }

  /** The sort has to bring `name` before `m`. */
  predicate Needs(m: Module, name: nat) {
    exists k :: 0 <= k < |m.deps| && m.deps[k].name == name && m.deps[k].kind != Conflicts
  }

  /** The dependencies among the modules that have not been started can be ranked. */
  ghost predicate Acyclic(s: seq<Module>, started: set<nat>, rank: nat -> nat) {
    forall i, j :: 0 <= i < |s| && 0 <= j < |s| && i != j && s[i].name !in started && Needs(s[i], s[j].name) ==>
      rank(s[j].name) < rank(s[i].name)
  }

  /** No dependency of a module that has not been started stands behind it. */
  ghost predicate Ordered(s: seq<Module>, started: set<nat>) {
    OrderedUpTo(s, started, |s|)
  }

  ghost predicate OrderedUpTo(s: seq<Module>, started: set<nat>, n: nat) {
    forall i, j :: 0 <= i < j < |s| && i < n && s[i].name !in started ==> !Needs(s[i], s[j].name)
  }

  // ----------------------------------------------------------------------- the sort

  /** The search of zend_sort_modules behind position `b1` for dependency `name`. */
  method FindBehind(a: array<Module>, b1: nat, name: nat) returns (b2: nat)
    requires b1 < a.Length
    ensures b1 < b2 <= a.Length
    ensures b2 < a.Length ==> a[b2].name == name
    ensures b2 == a.Length ==> forall j :: b1 < j < a.Length ==> a[j].name != name
  {
    b2 := b1 + 1;
    while b2 < a.Length
      invariant b1 < b2 <= a.Length && forall j :: b1 < j < b2 ==> a[j].name != name
    {
      if a[b2].name == name {
        return;
      }
      b2 := b2 + 1;
    }
  }

  /** One pass over the dependencies of the module at `b1`: the position of one that stands behind. */
  method FindLate(a: array<Module>, started: set<nat>, b1: nat) returns (b2: nat)
    requires b1 < a.Length
    ensures b1 < b2 <= a.Length
    ensures b2 < a.Length ==> a[b1].name !in started && Needs(a[b1], a[b2].name)
    ensures b2 == a.Length ==> a[b1].name in started || forall j :: b1 < j < a.Length ==> !Needs(a[b1], a[j].name)
  {
    var m := a[b1];
    if m.name !in started {
      for d := 0 to |m.deps|
        invariant forall j, k :: b1 < j < a.Length && 0 <= k < d && m.deps[k].kind != Conflicts ==> m.deps[k].name != a[j].name
      {
        if m.deps[d].kind != Conflicts {
          b2 := FindBehind(a, b1, m.deps[d].name);
          if b2 < a.Length {
            return;
          }
        }
      }
    }
    b2 := a.Length;
  }

  lemma SwapKeeps(s: seq<Module>, t: seq<Module>, started: set<nat>, rank: nat -> nat, n: nat, p: nat)
    requires n < p < |s| && t == s[n := s[p]][p := s[n]]
    requires Distinct(s) && Acyclic(s, started, rank) && OrderedUpTo(s, started, n)
    ensures Distinct(t) && Acyclic(t, started, rank) && OrderedUpTo(t, started, n) && multiset(t) == multiset(s)
  {
    hide Needs, Acyclic, OrderedUpTo;
    forall i, j | 0 <= i < j < |t|
      ensures t[i].name != t[j].name
    {
      assert t[i] == s[Swapped(n, p, i)] && t[j] == s[Swapped(n, p, j)];
    }
    SwapAcyclic(s, t, started, rank, n, p);
    SwapOrdered(s, t, started, n, p);
  }

  lemma SwapAcyclic(s: seq<Module>, t: seq<Module>, started: set<nat>, rank: nat -> nat, n: nat, p: nat)
    requires n < p < |s| && t == s[n := s[p]][p := s[n]] && Acyclic(s, started, rank)
    ensures Acyclic(t, started, rank)
  {
    hide Needs;
    forall i, j | 0 <= i < |t| && 0 <= j < |t| && i != j && t[i].name !in started && Needs(t[i], t[j].name)
      ensures rank(t[j].name) < rank(t[i].name)
    {
      assert t[i] == s[Swapped(n, p, i)] && t[j] == s[Swapped(n, p, j)];
    }
  }

  lemma SwapOrdered(s: seq<Module>, t: seq<Module>, started: set<nat>, n: nat, p: nat)
    requires n < p < |s| && t == s[n := s[p]][p := s[n]] && OrderedUpTo(s, started, n)
    ensures OrderedUpTo(t, started, n)
  {
    hide Needs;
    forall i, j | 0 <= i < j < |t| && i < n && t[i].name !in started
      ensures !Needs(t[i], t[j].name)
    {
      assert t[j] == s[Swapped(n, p, j)];
    }
  }

  function Swapped(n: nat, p: nat, i: int): int {
    if i == n then p else if i == p then n else i
  }

  /** zend_sort_modules: for every dependency relation without a cycle it ends, with the modules in
      an order that suits the dependencies. An order that already does is left alone. */
  method SortModules(a: array<Module>, started: set<nat>, ghost rank: nat -> nat)
    requires Distinct(a[..]) && Acyclic(a[..], started, rank)
    modifies a
    ensures multiset(a[..]) == multiset(old(a[..])) && Distinct(a[..])
    ensures Ordered(a[..], started) && Acyclic(a[..], started, rank)
    ensures Ordered(old(a[..]), started) ==> a[..] == old(a[..])
  {
    hide Distinct, Acyclic, Needs;
    var b1 := 0;
    while b1 < a.Length
      invariant b1 <= a.Length
      invariant multiset(a[..]) == multiset(old(a[..])) && Distinct(a[..]) && Acyclic(a[..], started, rank)
      invariant OrderedUpTo(a[..], started, b1)
      invariant Ordered(old(a[..]), started) ==> a[..] == old(a[..])
      decreases a.Length - b1, if b1 < a.Length then rank(a[b1].name) else 0
    {
      var b2 := FindLate(a, started, b1);
      if b2 < a.Length {
        ghost var s := a[..];
        RankFalls(s, started, rank, b1, b2);
        SwapKeeps(s, s[b1 := s[b2]][b2 := s[b1]], started, rank, b1, b2);
        a[b1], a[b2] := a[b2], a[b1];
        assert a[..] == s[b1 := s[b2]][b2 := s[b1]];
      } else {
        b1 := b1 + 1;
      }
    }
  }

  lemma RankFalls(s: seq<Module>, started: set<nat>, rank: nat -> nat, i: nat, j: nat)
    requires Acyclic(s, started, rank) && i < j < |s| && s[i].name !in started && Needs(s[i], s[j].name)
    ensures rank(s[j].name) < rank(s[i].name)
  {
    hide Needs;
  }

  /** Position of the module with that name. */
  function PositionOf(s: seq<Module>, name: nat): nat {
    if s == [] || s[0].name == name then 0 else 1 + PositionOf(s[1..], name)
  }

  lemma {:induction false} PositionFound(s: seq<Module>, i: nat)
    requires Distinct(s) && i < |s|
    ensures PositionOf(s, s[i].name) == i
  {
    if i > 0 {
      assert s[1..][i - 1] == s[i];
      PositionFound(s[1..], i - 1);
    }
  }

  /** The condition is exact: if any order of the modules suits the dependencies, they have no cycle.
      With a cycle the sort would therefore never end. */
  lemma OnlyAcyclicSorts(s: seq<Module>, t: seq<Module>, started: set<nat>)
    requires Distinct(s) && Distinct(t) && multiset(t) == multiset(s) && Ordered(t, started)
    ensures exists rank: nat -> nat :: Acyclic(s, started, rank)
  {
    hide Needs, PositionOf;
    var rank := (n: nat) => PositionOf(t, n);
    forall i, j | 0 <= i < |s| && 0 <= j < |s| && i != j && s[i].name !in started && Needs(s[i], s[j].name)
      ensures rank(s[j].name) < rank(s[i].name)
    {
      assert s[i] in multiset(s) && s[j] in multiset(s);
      var k :| 0 <= k < |t| && t[k] == s[i];
      var l :| 0 <= l < |t| && t[l] == s[j];
      PositionFound(t, k);
      PositionFound(t, l);
    }
    assert Acyclic(s, started, rank);
  }

  // --------------------------------------------------------------------- the startup

  predicate Registered(s: seq<Module>, name: nat) {
    exists i :: 0 <= i < |s| && s[i].name == name
  }

  /** The check of zend_startup_module_ex. The module itself already counts as started. */
  predicate DepsStarted(m: Module, registry: seq<Module>, started: set<nat>) {
    forall k :: 0 <= k < |m.deps| && m.deps[k].kind == Required ==>
      Registered(registry, m.deps[k].name) && m.deps[k].name in started
  }

  /** zend_startup_module_ex with a startup hook that succeeds. */
  method StartModule(m: Module, registry: seq<Module>, started: set<nat>) returns (ok: bool, started': set<nat>)
    ensures m.name in started ==> ok && started' == started
    ensures m.name !in started ==>
      ok == DepsStarted(m, registry, started + {m.name}) && started' == if ok then started + {m.name} else started
  {
    started' := started;
    if m.name in started {
      return true, started;
    }
    started' := started + {m.name};
    for d := 0 to |m.deps|
      invariant forall k :: 0 <= k < d && m.deps[k].kind == Required ==>
        Registered(registry, m.deps[k].name) && m.deps[k].name in started'
    {
      if m.deps[d].kind == Required {
        if !Registered(registry, m.deps[d].name) || m.deps[d].name !in started' {
          return false, started;
        }
      }
    }
    ok := true;
  }

  /** A module can be loaded when all modules it requires are registered and can be loaded. */
  ghost predicate Loads(s: seq<Module>, rank: nat -> nat, i: nat)
    requires i < |s|
    decreases rank(s[i].name)
  {
    forall k :: 0 <= k < |s[i].deps| && s[i].deps[k].kind == Required && s[i].deps[k].name != s[i].name ==>
      exists j :: 0 <= j < |s| && s[j].name == s[i].deps[k].name && rank(s[j].name) < rank(s[i].name) && Loads(s, rank, j)
  }

  /** `path` leads along required dependencies from a module to a name that is not registered. */
  ghost predicate Missing(s: seq<Module>, i: nat, path: seq<nat>)
    requires i < |s|
    decreases |path|
  {
    && path != [] && path[0] != s[i].name
    && (exists k :: 0 <= k < |s[i].deps| && s[i].deps[k] == Dep(path[0], Required))
    && if |path| == 1 then !Registered(s, path[0])
       else exists j: nat :: j < |s| && s[j].name == path[0] && Missing(s, j, path[1..])
  }

  lemma DepNeeds(m: Module, k: nat)
    requires k < |m.deps| && m.deps[k].kind == Required
    ensures Needs(m, m.deps[k].name)
  {
  }

  lemma SameIndex(s: seq<Module>, i: nat, j: nat)
    requires Distinct(s) && i < |s| && j < |s| && s[i].name == s[j].name
    ensures i == j
  {
  }

  /** A module that cannot be loaded lacks some module, directly or through others. */
  lemma {:induction false} MissingPath(s: seq<Module>, rank: nat -> nat, i: nat) returns (path: seq<nat>)
    requires Distinct(s) && Acyclic(s, {}, rank) && i < |s| && !Loads(s, rank, i)
    ensures Missing(s, i, path)
    decreases rank(s[i].name)
  {
    hide Needs, Distinct;
    var k: nat :| k < |s[i].deps| && s[i].deps[k].kind == Required && s[i].deps[k].name != s[i].name
      && !exists j :: 0 <= j < |s| && s[j].name == s[i].deps[k].name && rank(s[j].name) < rank(s[i].name) && Loads(s, rank, j);
    var name := s[i].deps[k].name;
    if Registered(s, name) {
      var j: nat :| j < |s| && s[j].name == name;
      DepNeeds(s[i], k);
      var tail := MissingPath(s, rank, j);
      path := [name] + tail;
      assert path[1..] == tail;
    } else {
      path := [name];
    }
  }

  lemma {:induction false} MissingBlocks(s: seq<Module>, rank: nat -> nat, i: nat, path: seq<nat>)
    requires Distinct(s) && i < |s| && Missing(s, i, path)
    ensures !Loads(s, rank, i)
    decreases |path|
  {
    hide Needs, Distinct;
    if Loads(s, rank, i) {
      var k :| 0 <= k < |s[i].deps| && s[i].deps[k] == Dep(path[0], Required);
      var j: nat :| j < |s| && s[j].name == s[i].deps[k].name && Loads(s, rank, j);
      if |path| > 1 {
        var l: nat :| l < |s| && s[l].name == path[0] && Missing(s, l, path[1..]);
        SameIndex(s, j, l);
        MissingBlocks(s, rank, l, path[1..]);
      }
    }
  }

  // ------------------------------------------------------------- the pass over the registry

  /** The modules among the first `n` that can be loaded. */
  ghost function Loaded(s: seq<Module>, rank: nat -> nat, n: nat): seq<Module>
    requires n <= |s|
  {
    if n == 0 then [] else Loaded(s, rank, n - 1) + if Loads(s, rank, n - 1) then [s[n - 1]] else []
  }

  ghost function Names(s: seq<Module>): set<nat> {
    set i | 0 <= i < |s| :: s[i].name
  }

  lemma {:induction false} LoadedMembers(s: seq<Module>, rank: nat -> nat, n: nat, m: Module)
    requires n <= |s|
    ensures m in Loaded(s, rank, n) <==> exists i :: 0 <= i < n && s[i] == m && Loads(s, rank, i)
  {
    hide Loads;
    if n > 0 {
      LoadedMembers(s, rank, n - 1, m);
      if m in Loaded(s, rank, n - 1) {
        var i :| 0 <= i < n - 1 && s[i] == m && Loads(s, rank, i);
      }
    }
  }

  /** At its turn a module passes the check exactly when it can be loaded. */
  lemma CheckIsLoads(s: seq<Module>, rank: nat -> nat, n: nat, registry: seq<Module>, started: set<nat>)
    requires n < |s| && Distinct(s) && Acyclic(s, {}, rank) && Ordered(s, {})
    requires registry == Loaded(s, rank, n) + s[n..] && started == Names(Loaded(s, rank, n))
    ensures s[n].name !in started
    ensures DepsStarted(s[n], registry, started + {s[n].name}) <==> Loads(s, rank, n)
  {
    hide Needs, Distinct, Loads, Loaded;
    var m := s[n];
    assert m.name !in started by {
      if m.name in started {
        LoadedBefore(s, rank, n, m.name);
      }
    }
    if Loads(s, rank, n) {
      forall k | 0 <= k < |m.deps| && m.deps[k].kind == Required
        ensures Registered(registry, m.deps[k].name) && m.deps[k].name in started + {m.name}
      {
        LoadedDep(s, rank, n, k);
        assert registry[|Loaded(s, rank, n)|] == m;
        if m.deps[k].name != m.name {
          var i :| 0 <= i < |Loaded(s, rank, n)| && Loaded(s, rank, n)[i].name == m.deps[k].name;
          assert registry[i] == Loaded(s, rank, n)[i];
        }
      }
    }
    if DepsStarted(m, registry, started + {m.name}) {
      forall k: nat | k < |m.deps| && m.deps[k].kind == Required && m.deps[k].name != m.name
        ensures HasLoaded(s, rank, n, m.deps[k].name)
      {
        LoadedBefore(s, rank, n, m.deps[k].name);
        DepNeeds(m, k);
      }
      LoadsFrom(s, rank, n);
    }
  }

  ghost predicate HasLoaded(s: seq<Module>, rank: nat -> nat, n: nat, name: nat)
    requires n < |s|
  {
    exists j :: 0 <= j < |s| && s[j].name == name && rank(s[j].name) < rank(s[n].name) && Loads(s, rank, j)
  }

  lemma LoadsFrom(s: seq<Module>, rank: nat -> nat, n: nat)
    requires n < |s|
    requires forall k: nat :: k < |s[n].deps| && s[n].deps[k].kind == Required && s[n].deps[k].name != s[n].name ==>
      HasLoaded(s, rank, n, s[n].deps[k].name)
    ensures Loads(s, rank, n)
  {
    forall k: nat | k < |s[n].deps| && s[n].deps[k].kind == Required && s[n].deps[k].name != s[n].name
      ensures exists j :: 0 <= j < |s| && s[j].name == s[n].deps[k].name && rank(s[j].name) < rank(s[n].name) && Loads(s, rank, j)
    {
      assert HasLoaded(s, rank, n, s[n].deps[k].name);
    }
  }

  /** A started name belongs to an earlier module, which can be loaded. */
  lemma LoadedBefore(s: seq<Module>, rank: nat -> nat, n: nat, name: nat)
    requires n < |s| && Distinct(s) && Acyclic(s, {}, rank) && name in Names(Loaded(s, rank, n))
    ensures name != s[n].name
    ensures Needs(s[n], name) ==> HasLoaded(s, rank, n, name)
  {
    hide Needs, Loads, Loaded;
    var i :| 0 <= i < |Loaded(s, rank, n)| && Loaded(s, rank, n)[i].name == name;
    LoadedMembers(s, rank, n, Loaded(s, rank, n)[i]);
    var j :| 0 <= j < n && s[j] == Loaded(s, rank, n)[i] && Loads(s, rank, j);
  }

  /** A required module of a module that can be loaded has been started before. */
  lemma LoadedDep(s: seq<Module>, rank: nat -> nat, n: nat, k: nat)
    requires n < |s| && Ordered(s, {}) && Loads(s, rank, n) && k < |s[n].deps| && s[n].deps[k].kind == Required
    ensures s[n].deps[k].name != s[n].name ==> s[n].deps[k].name in Names(Loaded(s, rank, n))
  {
    hide Needs, Loaded;
    DepNeeds(s[n], k);
    if s[n].deps[k].name != s[n].name {
      var j :| 0 <= j < |s| && s[j].name == s[n].deps[k].name && rank(s[j].name) < rank(s[n].name) && Loads(s, rank, j);
      assert j < n;
      LoadedMembers(s, rank, n, s[j]);
    }
  }

  /** zend_hash_apply with zend_startup_module_zval, when no module has been started yet. */
  method ApplyStartup(s: seq<Module>, ghost rank: nat -> nat) returns (registry: seq<Module>, started: set<nat>)
    requires Distinct(s) && Acyclic(s, {}, rank) && Ordered(s, {})
    ensures registry == Loaded(s, rank, |s|) && started == Names(registry)
  {
    hide Distinct, Acyclic, Needs, Ordered, Loads, DepsStarted;
    registry, started := s, {};
    var i := 0;
    ghost var n := 0;
    assert registry == Loaded(s, rank, 0) + s[0..];
    while i < |registry|
      invariant n <= |s| && i == |Loaded(s, rank, n)|
      invariant registry == Loaded(s, rank, n) + s[n..] && started == Names(Loaded(s, rank, n))
      decreases |s| - n
    {
      CheckIsLoads(s, rank, n, registry, started);
      var ok;
      assert s[n..] == [s[n]] + s[n + 1..];
      ok, started := StartModule(registry[i], registry, started);
      if ok {
        i := i + 1;
      } else {
        registry := registry[..i] + registry[i + 1..];
      }
      NextLoaded(s, rank, n);
      n := n + 1;
    }
    assert s[n..] == [];
  }

  lemma NextLoaded(s: seq<Module>, rank: nat -> nat, n: nat)
    requires n < |s|
    ensures Names(Loaded(s, rank, n + 1)) == Names(Loaded(s, rank, n)) + if Loads(s, rank, n) then {s[n].name} else {}
    ensures Loaded(s, rank, n + 1) == Loaded(s, rank, n) + if Loads(s, rank, n) then [s[n]] else []
    ensures s[n..] == [s[n]] + s[n + 1..]
  {
    hide Loads;
    var l, l' := Loaded(s, rank, n), Loaded(s, rank, n + 1);
    forall x | x in Names(l)
      ensures x in Names(l')
    {
      var i :| 0 <= i < |l| && l[i].name == x;
      assert l'[i] == l[i];
    }
    if Loads(s, rank, n) {
      assert l'[|l|] == s[n];
    }
  }

  /** zend_startup_modules, with no module started before: exactly those modules are started that lack
      no required module, directly or through others. The others are no longer registered. */
  method StartupModules(a: array<Module>, ghost rank: nat -> nat) returns (registry: seq<Module>, started: set<nat>)
    requires Distinct(a[..]) && Acyclic(a[..], {}, rank)
    modifies a
    ensures multiset(a[..]) == multiset(old(a[..])) && Ordered(a[..], {})
    ensures started == Names(registry)
    ensures forall i: nat :: i < a.Length ==>
      (a[i] in registry <==> Complete(a[..], i))
    ensures Ordered(registry, {}) && forall m :: m in registry ==> DepsStarted(m, registry, started)
  {
    hide Distinct, Acyclic, Needs, Ordered, Loads, Complete, DepsStarted, Loaded;
    SortModules(a, {}, rank);
    ghost var s := a[..];
    registry, started := ApplyStartup(a[..], rank);
    forall i: nat | i < a.Length
      ensures a[i] in registry <==> Complete(s, i)
    {
      LoadedExactly(s, rank, i);
    }
    LoadedOrdered(s, rank, |s|);
    forall m | m in registry
      ensures DepsStarted(m, registry, started)
    {
      LoadedStarted(s, rank, m);
    }
  }

  /** Modules are started in an order that suits the dependencies. */
  lemma {:induction false} LoadedOrdered(s: seq<Module>, rank: nat -> nat, n: nat)
    requires n <= |s| && Ordered(s, {})
    ensures Ordered(Loaded(s, rank, n), {})
  {
    hide Needs, Loads;
    if n > 0 {
      LoadedOrdered(s, rank, n - 1);
      var l := Loaded(s, rank, n - 1);
      forall i | 0 <= i < |l|
        ensures !Needs(l[i], s[n - 1].name)
      {
        LoadedMembers(s, rank, n - 1, l[i]);
      }
    }
  }

  lemma LoadedStarted(s: seq<Module>, rank: nat -> nat, m: Module)
    requires m in Loaded(s, rank, |s|)
    ensures DepsStarted(m, Loaded(s, rank, |s|), Names(Loaded(s, rank, |s|)))
  {
    hide Needs, Loaded;
    var l := Loaded(s, rank, |s|);
    LoadedMembers(s, rank, |s|, m);
    var i :| 0 <= i < |s| && s[i] == m && Loads(s, rank, i);
    var p :| 0 <= p < |l| && l[p] == m;
    forall k | 0 <= k < |m.deps| && m.deps[k].kind == Required
      ensures Registered(l, m.deps[k].name) && m.deps[k].name in Names(l)
    {
      if m.deps[k].name != m.name {
        var j :| 0 <= j < |s| && s[j].name == m.deps[k].name && Loads(s, rank, j);
        LoadedMembers(s, rank, |s|, s[j]);
        var q :| 0 <= q < |l| && l[q] == s[j];
      }
    }
  }

  /** The module lacks no required module, directly or through others. */
  ghost predicate Complete(s: seq<Module>, i: nat)
    requires i < |s|
  {
    forall path :: !Missing(s, i, path)
  }

  lemma LoadedExactly(s: seq<Module>, rank: nat -> nat, i: nat)
    requires Distinct(s) && Acyclic(s, {}, rank) && i < |s|
    ensures s[i] in Loaded(s, rank, |s|) <==> Complete(s, i)
  {
    hide Loads, Missing, Loaded, Acyclic;
    LoadedMembers(s, rank, |s|, s[i]);
    if Loads(s, rank, i) {
      if path :| Missing(s, i, path) {
        MissingBlocks(s, rank, i, path);
      }
    } else {
      var path := MissingPath(s, rank, i);
    }
  }

  // ------------------------------------------------------------------- request handlers

  datatype Entry = Null | Handler(m: Module)

  datatype Phase = Startup | Shutdown | PostDeactivate

  predicate Handles(m: Module, ph: Phase) {
    match ph
    case Startup => m.startup
    case Shutdown => m.shutdown
    case PostDeactivate => m.postDeactivate
  }

  /** The modules that handle the phase, in registry order. */
  function Filter(s: seq<Module>, ph: Phase): seq<Entry> {
    if s == [] then [] else Filter(s[..|s| - 1], ph) + if Handles(s[|s| - 1], ph) then [Handler(s[|s| - 1])] else []
  }

  function Reversed(s: seq<Entry>): (r: seq<Entry>)
    ensures |r| == |s|
  {
    if s == [] then [] else Reversed(s[1..]) + [s[0]]
  }

  lemma {:induction false} ReversedAppend(s: seq<Entry>, e: Entry)
    ensures Reversed(s + [e]) == [e] + Reversed(s)
  {
    if s == [] {
    } else {
      ReversedAppend(s[1..], e);
      assert (s + [e])[1..] == s[1..] + [e];
    }
  }

  lemma {:induction false} FilterPrefix(s: seq<Module>, ph: Phase, n: nat)
    requires n <= |s|
    ensures |Filter(s[..n], ph)| <= |Filter(s, ph)|
    ensures n < |s| ==> Filter(s[..n + 1], ph) == Filter(s[..n], ph) + if Handles(s[n], ph) then [Handler(s[n])] else []
    ensures n < |s| && Handles(s[n], ph) ==> |Filter(s[..n], ph)| < |Filter(s, ph)|
    decreases |s|
  {
    if n < |s| {
      assert s[..n + 1][..n] == s[..n];
      var t := s[..|s| - 1];
      assert t[..n] == s[..n];
      FilterPrefix(t, ph, n);
    } else {
      assert s[..n] == s;
    }
  }

  /** A list holds the modules with a handler for its phase, and no others. */
  lemma {:induction false} HandlersExactly(s: seq<Module>, m: Module)
    ensures Handler(m) in Filter(s, Startup) <==> m in s && m.startup
    ensures Handler(m) in Filter(s, Shutdown) <==> m in s && m.shutdown
    ensures Handler(m) in Filter(s, PostDeactivate) <==> m in s && m.postDeactivate
    ensures forall ph :: Null !in Filter(s, ph)
  {
    if s != [] {
      HandlersExactly(s[..|s| - 1], m);
      assert s == s[..|s| - 1] + [s[|s| - 1]];
    }
  }

  /** The handlers of a registry are those of its parts, in the same order. */
  lemma {:induction false} HandlersInOrder(a: seq<Module>, b: seq<Module>, ph: Phase)
    ensures Filter(a + b, ph) == Filter(a, ph) + Filter(b, ph)
    decreases |b|
  {
    if b == [] {
      assert a + b == a;
    } else {
      assert (a + b)[..|a + b| - 1] == a + b[..|b| - 1];
      HandlersInOrder(a, b[..|b| - 1], ph);
    }
  }

  lemma {:induction false} ReversedAt(s: seq<Entry>, k: nat)
    requires k < |s|
    ensures Reversed(s)[k] == s[|s| - 1 - k]
  {
    if k < |s| - 1 {
      ReversedAt(s[1..], k);
    }
  }

  /** The counting loop of zend_collect_module_handlers. */
  method CountHandlers(registry: seq<Module>, ph: Phase) returns (n: nat)
    ensures n == |Filter(registry, ph)|
  {
    n := 0;
    for i := 0 to |registry|
      invariant n == |Filter(registry[..i], ph)|
    {
      FilterPrefix(registry, ph, i);
      if Handles(registry[i], ph) {
        n := n + 1;
      }
    }
    assert registry[..|registry|] == registry;
  }

  /** zend_collect_module_handlers: one block holds three lists, each closed by a null entry. Startup
      handlers are in registry order, the others in reverse. */
  method CollectHandlers(registry: seq<Module>) returns (block: array<Entry>, shutdown: nat, post: nat)
    ensures fresh(block)
    ensures var up, down, after := Filter(registry, Startup), Filter(registry, Shutdown),
                                   Filter(registry, PostDeactivate);
      && shutdown == |up| + 1 && post == shutdown + |down| + 1
      && block[..] == up + [Null] + Reversed(down) + [Null] + Reversed(after) + [Null]
  {
    hide Filter, Reversed;
    var nUp := CountHandlers(registry, Startup);
    var nDown := CountHandlers(registry, Shutdown);
    var nAfter := CountHandlers(registry, PostDeactivate);
    shutdown := nUp + 1;
    post := shutdown + nDown + 1;
    block := new Entry[nUp + 1 + nDown + 1 + nAfter + 1](_ => Null);
    FillForward(block, 0, registry, Startup);
    ghost var s1 := block[..];
    FillBackward(block, shutdown, registry, Shutdown);
    ghost var s2 := block[..];
    FillBackward(block, post, registry, PostDeactivate);
    ghost var s3 := block[..];
    ThreeLists(s1, s2, s3, nUp, nDown, nAfter);
  }

  /** The block before and after the last two lists are filled in. */
  lemma ThreeLists(s1: seq<Entry>, s2: seq<Entry>, s3: seq<Entry>, n: nat, m: nat, l: nat)
    requires |s1| == |s2| == |s3| == n + 1 + m + 1 + l + 1
    requires forall k :: n <= k < |s1| ==> s1[k] == Null
    requires forall k :: 0 <= k < |s2| && !(n + 1 <= k < n + 1 + m) ==> s2[k] == s1[k]
    requires forall k :: 0 <= k < |s3| && !(n + m + 2 <= k < n + m + 2 + l) ==> s3[k] == s2[k]
    ensures s3 == s1[..n] + [Null] + s2[n + 1..n + 1 + m] + [Null] + s3[n + m + 2..n + m + 2 + l] + [Null]
  {
    var b, c := s2[n + 1..n + 1 + m], s3[n + m + 2..n + m + 2 + l];
    assert s3[..n] == s1[..n];
    assert s3[n + 1..n + 1 + m] == b;
    Joined(s3, s1[..n], b, c);
  }

  lemma Joined(s: seq<Entry>, a: seq<Entry>, b: seq<Entry>, c: seq<Entry>)
    requires |s| == |a| + 1 + |b| + 1 + |c| + 1
    requires s[..|a|] == a && s[|a| + 1..|a| + 1 + |b|] == b && s[|a| + 1 + |b| + 1..|s| - 1] == c
    requires s[|a|] == s[|a| + 1 + |b|] == s[|s| - 1] == Null
    ensures s == a + [Null] + b + [Null] + c + [Null]
  {
  }

  method FillForward(block: array<Entry>, start: nat, registry: seq<Module>, ph: Phase)
    requires start + |Filter(registry, ph)| <= block.Length
    modifies block
    ensures block[start..start + |Filter(registry, ph)|] == Filter(registry, ph)
    ensures forall k :: 0 <= k < block.Length && !(start <= k < start + |Filter(registry, ph)|) ==> block[k] == old(block[k])
  {
    var n := 0;
    for i := 0 to |registry|
      invariant n == |Filter(registry[..i], ph)| <= |Filter(registry, ph)|
      invariant block[start..start + n] == Filter(registry[..i], ph)
      invariant forall k :: 0 <= k < block.Length && !(start <= k < start + n) ==> block[k] == old(block[k])
    {
      FilterPrefix(registry, ph, i);
      if Handles(registry[i], ph) {
        block[start + n] := Handler(registry[i]);
        n := n + 1;
      }
    }
    assert registry[..|registry|] == registry;
  }

  method FillBackward(block: array<Entry>, start: nat, registry: seq<Module>, ph: Phase)
    requires start + |Filter(registry, ph)| <= block.Length
    modifies block
    ensures block[start..start + |Filter(registry, ph)|] == Reversed(Filter(registry, ph))
    ensures forall k :: 0 <= k < block.Length && !(start <= k < start + |Filter(registry, ph)|) ==> block[k] == old(block[k])
  {
    hide Filter, Reversed;
    ghost var all := |Filter(registry, ph)|;
    var n := CountHandlers(registry, ph);
    BackwardStart(registry, ph);
    for i := 0 to |registry|
      invariant 0 <= n == all - |Filter(registry[..i], ph)|
      invariant block[start + n..start + all] == Reversed(Filter(registry[..i], ph))
      invariant forall k :: 0 <= k < block.Length && !(start + n <= k < start + all) ==> block[k] == old(block[k])
    {
      BackwardNext(registry, ph, i);
      if Handles(registry[i], ph) {
        n := n - 1;
        ghost var before := block[start + n + 1..start + all];
        block[start + n] := Handler(registry[i]);
        assert block[start + n..start + all] == [Handler(registry[i])] + before;
      }
    }
    assert registry[..|registry|] == registry;
  }

  lemma BackwardStart(s: seq<Module>, ph: Phase)
    ensures Filter(s[..0], ph) == [] && Reversed([]) == []
  {
  }

  lemma BackwardNext(s: seq<Module>, ph: Phase, i: nat)
    requires i < |s|
    ensures var f, f' := Filter(s[..i], ph), Filter(s[..i + 1], ph);
      && |f'| == |f| + (if Handles(s[i], ph) then 1 else 0) && |f'| <= |Filter(s, ph)|
      && Reversed(f') == (if Handles(s[i], ph) then [Handler(s[i])] else []) + Reversed(f)
  {
    hide Filter, Reversed;
    FilterPrefix(s, ph, i);
    FilterPrefix(s, ph, i + 1);
    var f := Filter(s[..i], ph);
    assert f + [] == f && [] + Reversed(f) == Reversed(f);
    ReversedAppend(f, Handler(s[i]));
  }
}
