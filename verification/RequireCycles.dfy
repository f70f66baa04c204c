/**
 `findCycle` of require.js: a depth-first search for a dependency cycle that copies the
 set of traced modules for every dependency it follows.
 */
module RequireCycles {
  import opened Common

  /** What the search reads of a module; `deps` are the ids in `depMaps`. */
  datatype Module = Module(id: string, inited: bool, enabled: bool, deps: seq<string>)

  /** The modules registered, and the names of the properties every JavaScript object inherits: looking
      one of those up in a plain object finds something although nothing was stored. */
  datatype Registry = Registry(own: map<string, Module>, inherited: set<string>)

  /** Modules are registered under their own ids, none of which replaces the prototype of the table. */
  ghost predicate WellKeyed(reg: Registry) {
    "__proto__" !in reg.own && forall id :: id in reg.own ==> reg.own[id].id == id
  }

  ghost predicate Known(reg: Registry, mod: Module) {
    mod.id in reg.own ==> reg.own[mod.id] == mod
  }

  // ----- the graph the search walks -----

  /** Dependency `i` is registered and no dependency up to it is still waiting. */
  ghost predicate Follows(reg: Registry, m: Module, i: int) {
    0 <= i < |m.deps| && m.deps[i] in reg.own &&
    forall j :: 0 <= j <= i ==>
      if m.deps[j] in reg.own then reg.own[m.deps[j]].inited && reg.own[m.deps[j]].enabled
      else m.deps[j] !in reg.inherited
  }

  /** The search goes from `m` to `n`. */
  ghost predicate Edge(reg: Registry, m: Module, n: Module) {
    exists i :: Follows(reg, m, i) && reg.own[m.deps[i]] == n
  }

  /** A nonempty path of such edges. */
  ghost predicate IsPath(reg: Registry, p: seq<Module>) {
    |p| >= 1 && forall i :: 0 <= i < |p| - 1 ==> Edge(reg, p[i], p[i + 1])
  }

  ghost predicate Reaches(reg: Registry, m: Module, n: Module) {
    exists p :: IsPath(reg, p) && p[0] == m && p[|p| - 1] == n
  }

  ghost predicate OnCycle(reg: Registry, m: Module) {
    exists p :: IsPath(reg, p) && |p| >= 2 && p[0] == m && p[|p| - 1] == m
  }

  /** The last module of `p` has an id that occurred earlier on `p`. */
  ghost predicate Closes(p: seq<Module>)
    requires |p| >= 1
  {
    exists i :: 0 <= i < |p| - 1 && p[i].id == p[|p| - 1].id
  }

  /** It has an id in `seen`, or one that occurred earlier on `p`. */
  ghost predicate ComesBack(seen: set<string>, p: seq<Module>)
    requires |p| >= 1
  {
    p[|p| - 1].id in seen || Closes(p)
  }

  ghost predicate NeverComesBack(reg: Registry, mod: Module, traced: set<string>) {
    forall p :: IsPath(reg, p) && p[0] == mod ==> !ComesBack(traced, p)
  }

  lemma TailPath(reg: Registry, p: seq<Module>)
    requires IsPath(reg, p) && |p| >= 2
    ensures IsPath(reg, p[1..]) && Edge(reg, p[0], p[1])
  {
    assert Edge(reg, p[0], p[0 + 1]);
    forall i | 0 <= i < |p[1..]| - 1 ensures Edge(reg, p[1..][i], p[1..][i + 1]) {
      assert Edge(reg, p[i + 1], p[i + 1 + 1]);
    }
  }

  lemma ConsPath(reg: Registry, m: Module, p: seq<Module>)
    requires IsPath(reg, p) && Edge(reg, m, p[0])
    ensures IsPath(reg, [m] + p)
  {
    var r := [m] + p;
    forall i | 0 <= i < |r| - 1 ensures Edge(reg, r[i], r[i + 1]) {
      if i > 0 {
        assert Edge(reg, p[i - 1], p[i - 1 + 1]);
      }
    }
  }

  /** If no dependency the search follows leads back to `seen` or to `mod`, then neither does `mod`. */
  lemma NoWayBack(reg: Registry, mod: Module, seen: set<string>)
    requires mod.id !in seen
    requires forall i :: Follows(reg, mod, i) ==> NeverComesBack(reg, reg.own[mod.deps[i]], seen + {mod.id})
    ensures NeverComesBack(reg, mod, seen)
  {
    forall p: seq<Module> | IsPath(reg, p) && p[0] == mod ensures !ComesBack(seen, p) {
      if |p| >= 2 {
        TailPath(reg, p);
        var i :| Follows(reg, mod, i) && reg.own[mod.deps[i]] == p[1];
        var tail := p[1..];
        assert !ComesBack(seen + {mod.id}, tail);
        assert tail[|tail| - 1] == p[|p| - 1];
        forall k | 0 <= k < |p| - 1 ensures p[k].id != p[|p| - 1].id {
          if k > 0 {
            assert tail[k - 1] == p[k];
          }
        }
      }
    }
  }

  /** The search.  It ends on every registry; what it returns closes a path from `mod` or bears an
      inherited name, and when it returns nothing no path from an inited `mod` ends like that. */
  method FindCycle(reg: Registry, mod: Module, traced: set<string>) returns (found: Option<Module>)
    requires WellKeyed(reg) && Known(reg, mod)
    ensures found.Some? ==> mod.inited && exists p ::
      IsPath(reg, p) && p[0] == mod && p[|p| - 1] == found.value && ComesBack(traced + reg.inherited, p)
    ensures found.None? && mod.inited ==> NeverComesBack(reg, mod, traced + reg.inherited)
    decreases reg.own.Keys + {mod.id} - traced
  {
    ghost var seen := traced + reg.inherited;
    if !mod.inited {
      return None;
    }
    if mod.id in traced || mod.id in reg.inherited {
      assert IsPath(reg, [mod]) && ComesBack(seen, [mod]);
      return Some(mod);
    }
    var traced' := traced + {mod.id};
    assert traced' + reg.inherited == seen + {mod.id};
    var i := 0;
    while i < |mod.deps|
      invariant 0 <= i <= |mod.deps|
      invariant forall j :: 0 <= j < i ==>
        if mod.deps[j] in reg.own then reg.own[mod.deps[j]].inited && reg.own[mod.deps[j]].enabled
        else mod.deps[j] !in reg.inherited
      invariant forall j :: 0 <= j < i && mod.deps[j] in reg.own ==>
        NeverComesBack(reg, reg.own[mod.deps[j]], seen + {mod.id})
    {
      var depId := mod.deps[i];
      if depId in reg.own {
        var depMod := reg.own[depId];
        if !depMod.inited || !depMod.enabled {
          NoWayBack(reg, mod, seen);
          return None;
        }
        assert Follows(reg, mod, i);
        found := FindCycle(reg, depMod, traced');
        if found.Some? {
          ghost var p :| IsPath(reg, p) && p[0] == depMod && p[|p| - 1] == found.value
            && ComesBack(seen + {mod.id}, p);
          GoesOn(reg, mod, seen, p);
          return;
        }
      } else if depId in reg.inherited {
        // what is found under such a name is not inited
        NoWayBack(reg, mod, seen);
        return None;
      }
      i := i + 1;
    }
    NoWayBack(reg, mod, seen);
    return None;
  }

  lemma GoesOn(reg: Registry, mod: Module, seen: set<string>, p: seq<Module>)
    requires IsPath(reg, p) && Edge(reg, mod, p[0]) && ComesBack(seen + {mod.id}, p)
    ensures exists q :: IsPath(reg, q) && q[0] == mod && q[|q| - 1] == p[|p| - 1] && ComesBack(seen, q)
  {
    ConsPath(reg, mod, p);
    var q := [mod] + p;
    if p[|p| - 1].id == mod.id {
      assert q[0].id == q[|q| - 1].id;
    } else if p[|p| - 1].id !in seen {
      var i :| 0 <= i < |p| - 1 && p[i].id == p[|p| - 1].id;
      assert q[i + 1].id == q[|q| - 1].id;
    }
    assert ComesBack(seen, q);
  }

  // ----- what the search decides -----

  lemma PathKnown(reg: Registry, p: seq<Module>, i: nat)
    requires WellKeyed(reg) && IsPath(reg, p) && Known(reg, p[0]) && i < |p|
    ensures Known(reg, p[i]) && (i > 0 ==> p[i].id in reg.own)
  {
    if i > 0 {
      assert Edge(reg, p[i - 1], p[i - 1 + 1]);
    }
  }

  lemma SubPath(reg: Registry, p: seq<Module>, i: nat, j: nat)
    requires IsPath(reg, p) && i < j <= |p|
    ensures IsPath(reg, p[i..j])
  {
    forall k | 0 <= k < |p[i..j]| - 1 ensures Edge(reg, p[i..j][k], p[i..j][k + 1]) {
      assert Edge(reg, p[i + k], p[i + k + 1]);
    }
  }

  /** A path that closes leads to a module on a cycle. */
  lemma ClosedPathHasCycle(reg: Registry, p: seq<Module>)
    requires WellKeyed(reg) && IsPath(reg, p) && Known(reg, p[0]) && Closes(p)
    ensures Reaches(reg, p[0], p[|p| - 1]) && OnCycle(reg, p[|p| - 1])
  {
    var n := |p| - 1;
    var i :| 0 <= i < n && p[i].id == p[n].id;
    PathKnown(reg, p, i);
    PathKnown(reg, p, n);
    SubPath(reg, p, i, |p|);
    var q := p[i..];
    assert q[0] == p[n] && q[|q| - 1] == p[n];
  }

  /** A reachable cycle gives a path that closes. */
  lemma CycleClosesPath(reg: Registry, mod: Module, m: Module)
    requires Reaches(reg, mod, m) && OnCycle(reg, m)
    ensures exists p :: IsPath(reg, p) && p[0] == mod && Closes(p)
  {
    var p :| IsPath(reg, p) && p[0] == mod && p[|p| - 1] == m;
    var q :| IsPath(reg, q) && |q| >= 2 && q[0] == m && q[|q| - 1] == m;
    var r := p + q[1..];
    forall i | 0 <= i < |r| - 1 ensures Edge(reg, r[i], r[i + 1]) {
      if i < |p| - 1 {
        assert Edge(reg, p[i], p[i + 1]);
      } else {
        assert Edge(reg, q[i - (|p| - 1)], q[i - (|p| - 1) + 1]);
      }
    }
    assert r[|p| - 1] == m && r[|r| - 1] == m;
    assert Closes(r);
  }

  /** What the search takes for a cycle: a module on one, or a module with an inherited name, which is
      found in the table of traced modules although it was never put there. */
  ghost predicate Caught(reg: Registry, m: Module) {
    OnCycle(reg, m) || m.id in reg.inherited
  }

  /** The call `findCycle(mod, {})`: it finds something exactly when `mod` is inited and such a module can
      be reached along the dependencies the search follows, and what it finds is one. */
  method FindCycleFrom(reg: Registry, mod: Module) returns (found: Option<Module>)
    requires WellKeyed(reg) && Known(reg, mod)
    ensures found.Some? ==> Reaches(reg, mod, found.value) && Caught(reg, found.value)
    ensures found.Some? <==> mod.inited && exists m :: Reaches(reg, mod, m) && Caught(reg, m)
  {
    found := FindCycle(reg, mod, {});
    assert {} + reg.inherited == reg.inherited;
    if found.Some? {
      ghost var p :| IsPath(reg, p) && p[0] == mod && p[|p| - 1] == found.value && ComesBack(reg.inherited, p);
      assert Reaches(reg, mod, found.value);
      if Closes(p) {
        ClosedPathHasCycle(reg, p);
      }
    } else if mod.inited {
      NothingCaught(reg, mod);
    }
  }

  lemma NothingCaught(reg: Registry, mod: Module)
    requires NeverComesBack(reg, mod, reg.inherited)
    ensures !exists m :: Reaches(reg, mod, m) && Caught(reg, m)
  {
    forall m | Reaches(reg, mod, m) ensures !Caught(reg, m) {
      var p :| IsPath(reg, p) && p[0] == mod && p[|p| - 1] == m;
      assert !ComesBack(reg.inherited, p);
      if OnCycle(reg, m) {
        CycleClosesPath(reg, mod, m);
      }
    }
  }

  // ----- when nothing reachable is waiting -----

  /** `n` is a registered dependency of `m`. */
  ghost predicate Depends(reg: Registry, m: Module, n: Module) {
    exists i :: 0 <= i < |m.deps| && m.deps[i] in reg.own && reg.own[m.deps[i]] == n
  }

  ghost predicate IsDependencyPath(reg: Registry, p: seq<Module>) {
    |p| >= 1 && forall i :: 0 <= i < |p| - 1 ==> Depends(reg, p[i], p[i + 1])
  }

  /** No module that can be reached, `mod` included, has a dependency that waits. */
  ghost predicate NoneWaits(reg: Registry, mod: Module) {
    forall p :: IsDependencyPath(reg, p) && p[0] == mod ==> AllArrived(reg, p[|p| - 1])
  }

  ghost predicate AllArrived(reg: Registry, m: Module) {
    forall i :: 0 <= i < |m.deps| ==>
      if m.deps[i] in reg.own then reg.own[m.deps[i]].inited && reg.own[m.deps[i]].enabled
      else m.deps[i] !in reg.inherited
  }

  /** A dependency cycle can be reached from `mod`. */
  ghost predicate HasCycle(reg: Registry, mod: Module) {
    exists p :: IsDependencyPath(reg, p) && p[0] == mod && Closes(p)
  }

  /** When nothing that `mod` depends on, directly or not, still waits, the search follows every
      dependency: its paths are all the dependency paths from `mod`. */
  lemma SearchSeesAll(reg: Registry, mod: Module, p: seq<Module>)
    requires NoneWaits(reg, mod) && |p| >= 1 && p[0] == mod
    ensures IsPath(reg, p) <==> IsDependencyPath(reg, p)
  {
    if IsPath(reg, p) {
      PathDepends(reg, p);
    }
    if IsDependencyPath(reg, p) {
      forall i | 0 <= i < |p| - 1 ensures Edge(reg, p[i], p[i + 1]) {
        assert Depends(reg, p[i], p[i + 1]);
        var k :| 0 <= k < |p[i].deps| && p[i].deps[k] in reg.own && reg.own[p[i].deps[k]] == p[i + 1];
        var q := p[..i + 1];
        assert IsDependencyPath(reg, q) by {
          forall l | 0 <= l < |q| - 1 ensures Depends(reg, q[l], q[l + 1]) {
            assert Depends(reg, p[l], p[l + 1]);
          }
        }
        assert q[|q| - 1] == p[i];
        assert Follows(reg, p[i], k);
      }
    }
  }

  /** What the search follows are dependencies. */
  lemma PathDepends(reg: Registry, p: seq<Module>)
    requires IsPath(reg, p)
    ensures IsDependencyPath(reg, p)
  {
    forall i | 0 <= i < |p| - 1 ensures Depends(reg, p[i], p[i + 1]) {
      assert Edge(reg, p[i], p[i + 1]);
      var k :| Follows(reg, p[i], k) && reg.own[p[i].deps[k]] == p[i + 1];
    }
  }

  /** Then, if no registered module has an inherited name, the search finds something exactly when a
      dependency cycle can be reached. */
  lemma ReadyMeansEveryCycle(reg: Registry, mod: Module)
    requires WellKeyed(reg) && Known(reg, mod) && NoneWaits(reg, mod)
    requires mod.id !in reg.inherited && reg.own.Keys !! reg.inherited
    ensures (exists m :: Reaches(reg, mod, m) && Caught(reg, m)) <==> HasCycle(reg, mod)
  {
    forall m | Reaches(reg, mod, m) ensures m.id !in reg.inherited {
      var p :| IsPath(reg, p) && p[0] == mod && p[|p| - 1] == m;
      PathKnown(reg, p, |p| - 1);
    }
    if m :| Reaches(reg, mod, m) && OnCycle(reg, m) {
      CycleClosesPath(reg, mod, m);
      var p :| IsPath(reg, p) && p[0] == mod && Closes(p);
      PathDepends(reg, p);
    }
    if HasCycle(reg, mod) {
      var p :| IsDependencyPath(reg, p) && p[0] == mod && Closes(p);
      SearchSeesAll(reg, mod, p);
      ClosedPathHasCycle(reg, p);
    }
  }

  // ----- when something waits -----

  /** A dependency that is not inited or not enabled, or unregistered with an inherited name, hides every
      later one; if none before it is registered either, it hides whatever the module depends on. */
  lemma WaitingHidesCycles(reg: Registry, mod: Module, k: nat)
    requires k < |mod.deps|
    requires if mod.deps[k] in reg.own then !reg.own[mod.deps[k]].inited || !reg.own[mod.deps[k]].enabled
             else mod.deps[k] in reg.inherited
    ensures forall i :: Follows(reg, mod, i) ==> i < k
    ensures (forall j :: 0 <= j < k ==> mod.deps[j] !in reg.own) ==>
      NeverComesBack(reg, mod, {}) && !exists n :: Edge(reg, mod, n)
  {
    if forall j :: 0 <= j < k ==> mod.deps[j] !in reg.own {
      forall p: seq<Module> | IsPath(reg, p) && p[0] == mod ensures |p| == 1 {
        if |p| >= 2 {
          TailPath(reg, p);
        }
      }
    }
  }

  /** A hidden cycle: "a" depends on itself, but first on "b", which is not inited or not enabled. */
  lemma HiddenCycle(inherited: set<string>, inited: bool, enabled: bool)
    requires "a" !in inherited && !(inited && enabled)
    ensures var a := Module("a", true, true, ["b", "a"]);
      var reg := Registry(map["a" := a, "b" := Module("b", inited, enabled, [])], inherited);
      && WellKeyed(reg) && HasCycle(reg, a)
      && !exists m :: Reaches(reg, a, m) && Caught(reg, m)
  {
    var a := Module("a", true, true, ["b", "a"]);
    var reg := Registry(map["a" := a, "b" := Module("b", inited, enabled, [])], inherited);
    assert a.deps[1] == "a" && reg.own[a.deps[1]] == a;
    assert Depends(reg, a, a);
    assert [a, a][0].id == [a, a][1].id;
    assert IsDependencyPath(reg, [a, a]) && Closes([a, a]);
    WaitingHidesCycles(reg, a, 0);
    assert NeverComesBack(reg, a, inherited) by {
      forall p: seq<Module> | IsPath(reg, p) && p[0] == a ensures !ComesBack(inherited, p) {
        if |p| >= 2 {
          TailPath(reg, p);
        }
      }
    }
    NothingCaught(reg, a);
  }

  /** The same cycle is caught when "b" is inited and enabled: "a" is reached and lies on it. */
  lemma VisibleCycle(inherited: set<string>)
    ensures var a := Module("a", true, true, ["b", "a"]);
      var reg := Registry(map["a" := a, "b" := Module("b", true, true, [])], inherited);
      Reaches(reg, a, a) && OnCycle(reg, a)
  {
    var a := Module("a", true, true, ["b", "a"]);
    var reg := Registry(map["a" := a, "b" := Module("b", true, true, [])], inherited);
    assert a.deps[0] == "b" && a.deps[1] == "a";
    assert Follows(reg, a, 1);
    assert Edge(reg, a, a);
    assert IsPath(reg, [a]) && IsPath(reg, [a, a]);
  }

  /** A cycle that is none: "constructor" depends on nothing and is taken for one. */
  lemma FalseCycle(inherited: set<string>)
    requires "constructor" in inherited
    ensures var c := Module("constructor", true, true, []);
      var reg := Registry(map["constructor" := c], inherited);
      && WellKeyed(reg) && NoneWaits(reg, c) && !HasCycle(reg, c)
      && Reaches(reg, c, c) && Caught(reg, c)
  {
    var c := Module("constructor", true, true, []);
    var reg := Registry(map["constructor" := c], inherited);
    assert IsPath(reg, [c]);
    forall p: seq<Module> | IsDependencyPath(reg, p) && p[0] == c ensures p == [c] {
      assert |p| > 1 ==> Depends(reg, p[0], p[0 + 1]);
    }
  }
}
