/**
 The module loader of almond.js: `callDep` and `main` execute waiting modules, each
 calling the other for the dependencies still to be executed, over tables that shrink and
 grow as they go.  Names carry no plugin prefix and factories do not call `require`.
 */
module Almond {
  import opened Common

  /** JavaScript values, as far as the loader tells them apart.  `Exports(m, i)` is the object made for
      the dependency "exports" at place `i` of module `m`, `ModuleObject` the CommonJS module object
      with the exports it starts from. */
  datatype Value =
    | Undefined
    | Exports(owner: string, place: nat)
    | RequireFor(owner: string)
    | ModuleObject(owner: string, exports: Value)
    | Other(id: int)

  /** `arity` is the number of parameters a factory declares. */
  datatype Callback = Factory(arity: nat) | Literal(value: Value)

  datatype Definition = Definition(deps: seq<string>, callback: Callback)

  /** The second argument of `define`. */
  datatype Second = DepArray(deps: seq<string>) | NoArray(callback: Callback)

  /** What a factory does: the value it returns, and what `module.exports` is afterwards. */
  datatype Effect = Effect(ret: Value, moduleExports: Value)

  datatype Error = NoModule(name: string) | MissingDependency(name: string, dep: string)

  datatype Result<T> = Ok(value: T) | Thrown(error: Error)

  /** One factory call. */
  datatype Call = Call(name: string, args: seq<Value>)

  type Table = map<string, Definition>

  predicate Special(dep: string) {
    dep == "require" || dep == "exports" || dep == "module"
  }

  /** The dependencies `main` goes through, before their names are resolved. */
  function Listed(def: Definition): seq<string> {
    if def.deps == [] && def.callback.Factory? && def.callback.arity > 0 then ["require", "exports", "module"]
    else def.deps
  }

  /** The loader's tables at one moment. */
  datatype Tables = Tables(waiting: Table, defining: set<string>, defined: map<string, Value>, calls: seq<Call>)

  /** `all` are the modules that were waiting, and `start` those defined, when the outermost call began;
      `resolve(dep, name)` is the full name of a dependency of `name`, and `factory(name, args)` what the
      factory of `name` does; `inherited` are the properties every JavaScript object inherits, all functions,
      which the test `!defining[depName]` finds in the plain object `defining`. */
  datatype World = World(resolve: (string, string) -> string, factory: (string, seq<Value>) -> Effect,
                         inherited: map<string, Value>, all: Table, start: map<string, Value>)

  /** Names no module can have: the empty one, which the code tests for, and two that would replace what
      the tables themselves are asked, `hasOwnProperty` and the prototype. */
  const UNUSABLE: set<string> := {"", "hasOwnProperty", "__proto__"}

  // ----- the dependency graph -----

  /** Module `m` has a factory, which is given the value of `d`. */
  ghost predicate Needs(w: World, m: string, d: string) {
    m in w.all && w.all[m].callback.Factory? && !Special(d) &&
    exists i :: 0 <= i < |Listed(w.all[m])| && w.resolve(Listed(w.all[m])[i], m) == d
  }

  ghost predicate IsPath(w: World, p: seq<string>) {
    |p| >= 1 && forall i :: 0 <= i < |p| - 1 ==> Needs(w, p[i], p[i + 1])
  }

  ghost predicate Reaches(w: World, m: string, n: string) {
    exists p :: IsPath(w, p) && p[0] == m && p[|p| - 1] == n
  }

  lemma ReachesSelf(w: World, m: string)
    ensures Reaches(w, m, m)
  {
    assert IsPath(w, [m]);
  }

  lemma ReachesOn(w: World, m: string, n: string, d: string)
    requires Reaches(w, m, n) && Needs(w, n, d)
    ensures Reaches(w, m, d)
  {
    var p :| IsPath(w, p) && p[0] == m && p[|p| - 1] == n;
    var q := p + [d];
    forall i | 0 <= i < |q| - 1 ensures Needs(w, q[i], q[i + 1]) {
      if i < |p| - 1 {
        assert Needs(w, p[i], p[i + 1]);
      }
    }
    assert IsPath(w, q);
  }

  lemma ReachesFrom(w: World, m: string, d: string, n: string)
    requires Needs(w, m, d) && Reaches(w, d, n)
    ensures Reaches(w, m, n)
  {
    var p :| IsPath(w, p) && p[0] == d && p[|p| - 1] == n;
    var q := [m] + p;
    forall i | 0 <= i < |q| - 1 ensures Needs(w, q[i], q[i + 1]) {
      if i > 0 {
        assert Needs(w, p[i - 1], p[i - 1 + 1]);
      }
    }
    assert IsPath(w, q);
  }

  // ----- the state between two statements -----

  /** What a module being executed may be defined as: its exports, or what it was before. */
  ghost predicate Partial(w: World, n: string, v: Value) {
    (v.Exports? && v.owner == n) || (n in w.start && v == w.start[n])
  }

  /** With `stack` the modules being executed now, every other module is still waiting or is defined. */
  ghost predicate Coherent(w: World, s: Tables, stack: set<string>) {
    && "" !in w.all
    && (forall n :: n in s.waiting ==> n in w.all && s.waiting[n] == w.all[n])
    && (forall n :: n in w.all && n !in s.waiting ==> n in s.defining)
    && (forall n :: n in w.all && n !in s.waiting && n !in stack ==> n in s.defined)
    && (forall n :: n in stack ==> n in w.all && n !in s.waiting)
    && (forall n :: n in s.waiting && n in s.defined ==> n in w.start && s.defined[n] == w.start[n])
    && (forall n :: n in stack && n in s.defined ==> Partial(w, n, s.defined[n]))
    && (forall n :: n in w.start ==> n in s.defined)
  }

  /** What reading `defined[n]` gives, where the plain object `defined` inherits properties. */
  function Held(inherited: map<string, Value>, defined: map<string, Value>, n: string): Value {
    if n in defined then defined[n] else if n in inherited then inherited[n] else Undefined
  }

  /** What `name` is defined as when the first `i` of its dependencies are seen to: the exports object
      made for the last "exports" among them, or what it was before it began to be executed. */
  ghost function CurrentAt(w: World, name: string, listed: seq<string>, i: nat): Value
    requires i <= |listed|
  {
    if i == 0 then Held(w.inherited, w.start, name)
    else if w.resolve(listed[i - 1], name) == "exports" then Exports(name, i - 1)
    else CurrentAt(w, name, listed, i - 1)
  }

  /** A name that stops no module needing it: the loader has heard of it, or it is inherited. */
  ghost predicate Known(w: World, s: Tables, d: string) {
    d in s.waiting || d in s.defined || d in s.defining || d in w.inherited
  }

  /** What a factory is given for dependency `d` of module `name`: the final value of `d`; or, when `d`
      itself depends on `name`, what `d` has exported so far, if anything; or nothing, for a name left
      half-defined by an earlier failure or an inherited one. */
  ghost predicate ArgumentOK(w: World, s: Tables, stack: set<string>, name: string, d: string, v: Value) {
    || Special(d)
    || (d in s.defined && d !in s.waiting && d !in stack && v == s.defined[d])
    || (Reaches(w, d, name) && (v == Undefined || Partial(w, d, v)))
    || (d !in w.all && d !in s.defined && v == Undefined)
  }

  /** What a factory is given at place `i` when the dependency there is one the loader provides. */
  ghost predicate ProvidedOK(w: World, name: string, listed: seq<string>, i: nat, v: Value)
    requires i < |listed|
  {
    var d := w.resolve(listed[i], name);
    && (d == "require" ==> v == RequireFor(name))
    && (d == "exports" ==> v == Exports(name, i))
    && (d == "module" ==> v == ModuleObject(name, CurrentAt(w, name, listed, i)))
  }

  ghost predicate ArgumentsOK(w: World, s: Tables, stack: set<string>, name: string, listed: seq<string>,
                              args: seq<Value>)
  {
    |args| <= |listed| && forall i :: 0 <= i < |args| ==>
      ArgumentOK(w, s, stack, name, w.resolve(listed[i], name), args[i]) && ProvidedOK(w, name, listed, i, args[i])
  }

  ghost predicate CallOK(w: World, s: Tables, stack: set<string>, c: Call) {
    && c.name in w.all && w.all[c.name].callback.Factory?
    && |c.args| == |Listed(w.all[c.name])|
    && ArgumentsOK(w, s, stack, c.name, Listed(w.all[c.name]), c.args)
  }

  /** The first `i` listed dependencies of `name` include `d`. */
  ghost predicate Lists(w: World, name: string, listed: seq<string>, i: nat, d: string) {
    exists k :: 0 <= k < i <= |listed| && w.resolve(listed[k], name) == d
  }

  /** A module with a factory is defined by that factory, given its arguments. */
  ghost predicate ValueOK(w: World, s: Tables, c: Call)
    requires c.name in w.all
  {
    var listed := Listed(w.all[c.name]);
    var usingExports := Lists(w, c.name, listed, |listed|, "exports");
    var current := CurrentAt(w, c.name, listed, |listed|);
    var effect := w.factory(c.name, c.args);
    c.name in s.defined && s.defined[c.name] ==
      if Lists(w, c.name, listed, |listed|, "module") && effect.moduleExports !in {Undefined, current}
      then effect.moduleExports
      else if effect.ret == Undefined && usingExports then current
      else effect.ret
  }

  ghost predicate NeedsMet(w: World, s: Tables, n: string) {
    forall d :: Needs(w, n, d) ==> d !in s.waiting && Known(w, s, d)
  }

  /** From `s` to `e` exactly the modules of `done` have left the waiting table; of what was defined,
      only entries of `own` may have changed. */
  ghost predicate Moved(s: Tables, e: Tables, own: set<string>, done: set<string>) {
    && done == s.waiting.Keys - e.waiting.Keys
    && (forall n :: n in e.waiting ==> n in s.waiting && e.waiting[n] == s.waiting[n])
    && e.defining == s.defining + done
    && (forall n :: n in s.defined ==> n in e.defined)
    && (forall n :: n in s.defined && n !in done && n !in own ==> e.defined[n] == s.defined[n])
    && (forall n :: n in e.defined ==> n in s.defined || n in done || n in own)
    && done !! own
  }

  /** A module without a factory is defined as its literal. */
  ghost predicate LiteralOK(w: World, s: Tables, n: string) {
    n in w.all && w.all[n].callback.Literal? ==> n in s.defined && s.defined[n] == w.all[n].callback.value
  }

  ghost predicate AllMet(w: World, e: Tables, done: set<string>) {
    forall n :: n in done ==> n in e.defined && NeedsMet(w, e, n) && LiteralOK(w, e, n)
  }

  /** From `s` to `e` exactly the modules of `done` have been executed, each with all its needs met and
      each factory among them called once. */
  ghost predicate Advanced(w: World, s: Tables, e: Tables, stack: set<string>, own: set<string>, done: set<string>) {
    Moved(s, e, own, done) && AllMet(w, e, done) && CallsOnce(w, s, e, stack, done)
  }

  /** The calls made from `s` to `e` are one for each factory of `done`, with proper arguments. */
  ghost predicate CallsOnce(w: World, s: Tables, e: Tables, stack: set<string>, done: set<string>) {
    && s.calls <= e.calls
    && (forall j :: |s.calls| <= j < |e.calls| ==> CallGood(w, e, stack, done, e.calls[j]))
    && (forall j, k :: |s.calls| <= j < k < |e.calls| ==> e.calls[j].name != e.calls[k].name)
    && (forall n :: n in done && n in w.all && w.all[n].callback.Factory? ==> Called(e.calls, |s.calls|, n))
  }

  ghost predicate CallGood(w: World, e: Tables, stack: set<string>, done: set<string>, c: Call) {
    c.name in done && CallOK(w, e, stack, c) && ValueOK(w, e, c)
  }

  /** The factory of `n` has been called since the first `from` calls. */
  ghost predicate Called(calls: seq<Call>, from: nat, n: string) {
    exists j :: from <= j < |calls| && calls[j].name == n
  }

  lemma CalledLater(early: seq<Call>, calls: seq<Call>, from: nat, n: string)
    requires early <= calls && Called(early, from, n)
    ensures Called(calls, from, n)
  {
    var j :| from <= j < |early| && early[j].name == n;
    assert calls[j].name == n;
  }

  lemma ArgumentStable(w: World, m: Tables, e: Tables, stack: set<string>, own: set<string>, done: set<string>,
                       name: string, d: string, v: Value)
    requires Advanced(w, m, e, stack, own, done) && Coherent(w, m, stack) && own <= stack
    requires ArgumentOK(w, m, stack, name, d, v)
    ensures ArgumentOK(w, e, stack, name, d, v)
  {
  }

  lemma CallStable(w: World, m: Tables, e: Tables, stack: set<string>, own: set<string>, done: set<string>, c: Call)
    requires Advanced(w, m, e, stack, own, done) && Coherent(w, m, stack) && own <= stack
    requires CallOK(w, m, stack, c)
    ensures CallOK(w, e, stack, c)
  {
    var listed := Listed(w.all[c.name]);
    forall i | 0 <= i < |c.args| ensures ArgumentOK(w, e, stack, c.name, w.resolve(listed[i], c.name), c.args[i]) {
      ArgumentStable(w, m, e, stack, own, done, c.name, w.resolve(listed[i], c.name), c.args[i]);
    }
  }

  lemma ValueStable(w: World, m: Tables, e: Tables, c: Call)
    requires c.name in w.all && ValueOK(w, m, c)
    requires c.name in m.defined ==> c.name in e.defined && e.defined[c.name] == m.defined[c.name]
    ensures ValueOK(w, e, c)
  {
  }

  lemma AdvancedNot(w: World, s: Tables, stack: set<string>, own: set<string>)
    ensures Advanced(w, s, s, stack, own, {})
  {
  }

  lemma CallsTwice(w: World, s: Tables, m: Tables, e: Tables, stack: set<string>, own: set<string>, x: set<string>,
                   y: set<string>)
    requires Advanced(w, s, m, stack, own, x) && Advanced(w, m, e, stack, own, y)
    requires Coherent(w, m, stack) && own <= stack
    ensures CallsOnce(w, s, e, stack, x + y)
  {
    assert x !! y;
    forall j | |s.calls| <= j < |m.calls| ensures CallGood(w, e, stack, x + y, e.calls[j]) {
      assert e.calls[j] == m.calls[j] && CallGood(w, m, stack, x, m.calls[j]);
      CallStable(w, m, e, stack, own, y, m.calls[j]);
      ValueStable(w, m, e, m.calls[j]);
    }
    forall n | n in x && n in w.all && w.all[n].callback.Factory? ensures Called(e.calls, |s.calls|, n) {
      CalledLater(m.calls, e.calls, |s.calls|, n);
    }
  }

  lemma MovedTwice(s: Tables, m: Tables, e: Tables, own: set<string>, x: set<string>, y: set<string>)
    requires Moved(s, m, own, x) && Moved(m, e, own, y)
    ensures Moved(s, e, own, x + y)
  {
  }

  lemma MetStays(w: World, m: Tables, e: Tables, own: set<string>, x: set<string>, y: set<string>)
    requires AllMet(w, m, x) && Moved(m, e, own, y) && x !! y && x !! own
    ensures AllMet(w, e, x)
  {
    forall n | n in x ensures n in e.defined && NeedsMet(w, e, n) && LiteralOK(w, e, n) {
      assert NeedsMet(w, m, n) && LiteralOK(w, m, n);
    }
  }

  lemma AdvancedTwice(w: World, s: Tables, m: Tables, e: Tables, stack: set<string>, own: set<string>,
                      x: set<string>, y: set<string>)
    requires Advanced(w, s, m, stack, own, x) && Advanced(w, m, e, stack, own, y)
    requires Coherent(w, m, stack) && own <= stack
    ensures Advanced(w, s, e, stack, own, x + y)
  {
    CallsTwice(w, s, m, e, stack, own, x, y);
    MovedTwice(s, m, e, own, x, y);
    MetStays(w, m, e, own, x, y);
  }

  lemma ArgumentsStable(w: World, m: Tables, e: Tables, stack: set<string>, own: set<string>, done: set<string>,
                        name: string, listed: seq<string>, args: seq<Value>)
    requires Advanced(w, m, e, stack, own, done) && Coherent(w, m, stack) && own <= stack
    requires ArgumentsOK(w, m, stack, name, listed, args)
    ensures ArgumentsOK(w, e, stack, name, listed, args)
  {
    forall i | 0 <= i < |args| ensures ArgumentOK(w, e, stack, name, w.resolve(listed[i], name), args[i]) {
      ArgumentStable(w, m, e, stack, own, done, name, w.resolve(listed[i], name), args[i]);
    }
  }

  /** The first `i` listed dependencies of `name` have been seen to. */
  ghost predicate SeenTo(w: World, s: Tables, name: string, listed: seq<string>, i: nat) {
    i <= |listed| &&
    forall j :: 0 <= j < i ==>
      var d := w.resolve(listed[j], name);
      Special(d) || (d !in s.waiting && Known(w, s, d))
  }

  /** A waiting module begins to be executed. */
  lemma Begins(w: World, s: Tables, stack: set<string>, name: string)
    requires Coherent(w, s, stack) && name in s.waiting
    ensures Coherent(w, s.(waiting := s.waiting - {name}, defining := s.defining + {name}), stack + {name})
  {
  }

  /** A definition of `name` while it is being executed changes nothing else. */
  lemma OwnDefinition(w: World, s: Tables, stack: set<string>, name: string, v: Value)
    requires Coherent(w, s, stack) && name in stack && v.Exports? && v.owner == name
    ensures Advanced(w, s, s.(defined := s.defined[name := v]), stack, {name}, {})
    ensures Coherent(w, s.(defined := s.defined[name := v]), stack)
  {
  }

  /** When its dependencies are seen to and its value is set, the module has been executed. */
  lemma ModuleExecuted(w: World, before: Tables, s: Tables, m: Tables, e: Tables, stack: set<string>, name: string,
                       done: set<string>, args: seq<Value>)
    requires name in stack && Coherent(w, s, stack) && Coherent(w, m, stack)
    requires before.waiting == s.waiting[name := w.all[name]] && s.defining == before.defining + {name}
    requires before.defined == s.defined && before.calls == s.calls
    requires Advanced(w, s, m, stack, {name}, done)
    requires e.waiting == m.waiting && e.defining == m.defining
    requires name in e.defined && e.defined == m.defined[name := e.defined[name]]
    requires if w.all[name].callback.Factory? then
        && e.calls == m.calls + [Call(name, args)] && |args| == |Listed(w.all[name])|
        && ArgumentsOK(w, m, stack, name, Listed(w.all[name]), args)
        && SeenTo(w, m, name, Listed(w.all[name]), |args|) && ValueOK(w, e, Call(name, args))
      else e.calls == m.calls && LiteralOK(w, e, name)
    ensures Advanced(w, before, e, stack - {name}, {}, done + {name})
    ensures Coherent(w, e, stack - {name})
  {
    ExecutedMoves(w, before, s, m, e, stack, name, done);
    ExecutedMet(w, m, e, stack, name, done, args);
    ExecutedCalls(w, before, s, m, e, stack, name, done, args);
  }

  lemma ExecutedMoves(w: World, before: Tables, s: Tables, m: Tables, e: Tables, stack: set<string>, name: string,
                      done: set<string>)
    requires name in stack && Coherent(w, s, stack) && Coherent(w, m, stack)
    requires before.waiting == s.waiting[name := w.all[name]] && s.defining == before.defining + {name}
    requires before.defined == s.defined
    requires Moved(s, m, {name}, done)
    requires e.waiting == m.waiting && e.defining == m.defining
    requires name in e.defined && e.defined == m.defined[name := e.defined[name]]
    ensures Moved(before, e, {}, done + {name}) && Coherent(w, e, stack - {name})
  {
  }

  lemma ExecutedMet(w: World, m: Tables, e: Tables, stack: set<string>, name: string, done: set<string>,
                    args: seq<Value>)
    requires name in stack && Coherent(w, m, stack) && AllMet(w, m, done)
    requires e.waiting == m.waiting && e.defining == m.defining
    requires name in e.defined && e.defined == m.defined[name := e.defined[name]]
    requires w.all[name].callback.Factory? ==>
      |args| == |Listed(w.all[name])| && SeenTo(w, m, name, Listed(w.all[name]), |args|)
    requires LiteralOK(w, e, name) && name !in done
    ensures AllMet(w, e, done + {name})
  {
    forall n | n in done ensures NeedsMet(w, e, n) && LiteralOK(w, e, n) {
      assert NeedsMet(w, m, n) && LiteralOK(w, m, n);
    }
  }

  lemma ExecutedCalls(w: World, before: Tables, s: Tables, m: Tables, e: Tables, stack: set<string>, name: string,
                      done: set<string>, args: seq<Value>)
    requires name in stack && name !in done && Coherent(w, s, stack) && Coherent(w, m, stack)
    requires before.calls == s.calls && CallsOnce(w, s, m, stack, done)
    requires e.waiting == m.waiting && name in e.defined && e.defined == m.defined[name := e.defined[name]]
    requires if w.all[name].callback.Factory? then
        && e.calls == m.calls + [Call(name, args)] && |args| == |Listed(w.all[name])|
        && ArgumentsOK(w, m, stack, name, Listed(w.all[name]), args) && ValueOK(w, e, Call(name, args))
      else e.calls == m.calls
    ensures CallsOnce(w, before, e, stack - {name}, done + {name})
  {
    forall j | |s.calls| <= j < |m.calls| ensures CallGood(w, e, stack - {name}, done + {name}, e.calls[j]) {
      assert e.calls[j] == m.calls[j] && CallGood(w, m, stack, done, m.calls[j]);
      ValueStable(w, m, e, m.calls[j]);
      LeavesStack(w, m, e, stack, name, m.calls[j].name, Listed(w.all[m.calls[j].name]), m.calls[j].args);
    }
    forall n | n in done && n in w.all && w.all[n].callback.Factory? ensures Called(e.calls, |s.calls|, n) {
      CalledLater(m.calls, e.calls, |s.calls|, n);
    }
    if w.all[name].callback.Factory? {
      LeavesStack(w, m, e, stack, name, name, Listed(w.all[name]), args);
      assert e.calls[|m.calls|].name == name;
    }
  }

  lemma LeavesStack(w: World, m: Tables, e: Tables, stack: set<string>, name: string, caller: string,
                    listed: seq<string>, args: seq<Value>)
    requires name in stack && Coherent(w, m, stack) && ArgumentsOK(w, m, stack, caller, listed, args)
    requires e.waiting == m.waiting && name in e.defined && e.defined == m.defined[name := e.defined[name]]
    ensures ArgumentsOK(w, e, stack - {name}, caller, listed, args)
  {
    forall i | 0 <= i < |args|
      ensures ArgumentOK(w, e, stack - {name}, caller, w.resolve(listed[i], caller), args[i])
    {
      assert ArgumentOK(w, m, stack, caller, w.resolve(listed[i], caller), args[i]);
    }
  }

  /** `usingExports` and `cjsModule` tell which of "exports" and "module" are among the first `i` dependencies. */
  ghost predicate Exporting(w: World, s: Tables, name: string, listed: seq<string>, i: nat, usingExports: bool,
                            cjsModule: bool)
  {
    && usingExports == Lists(w, name, listed, i, "exports")
    && cjsModule == Lists(w, name, listed, i, "module")
    && (usingExports ==> name in s.defined)
    && i <= |listed| && Held(w.inherited, s.defined, name) == CurrentAt(w, name, listed, i)
  }

  lemma ListsMore(w: World, name: string, listed: seq<string>, i: nat, d: string)
    requires i < |listed|
    ensures Lists(w, name, listed, i + 1, d) <==> Lists(w, name, listed, i, d) || w.resolve(listed[i], name) == d
  {
    if Lists(w, name, listed, i, d) {
      var k :| 0 <= k < i && w.resolve(listed[k], name) == d;
      assert w.resolve(listed[k], name) == d;
    }
  }

  ghost predicate SameDefinition(m: Tables, e: Tables, name: string) {
    (name in m.defined <==> name in e.defined) && (name in m.defined ==> m.defined[name] == e.defined[name])
  }

  lemma ExportingMore(w: World, m: Tables, e: Tables, name: string, listed: seq<string>, i: nat, usingExports: bool,
                      cjsModule: bool)
    requires i < |listed| && Exporting(w, m, name, listed, i, usingExports, cjsModule)
    requires if w.resolve(listed[i], name) == "exports" then name in e.defined && e.defined[name] == Exports(name, i)
      else SameDefinition(m, e, name)
    ensures var d := w.resolve(listed[i], name);
      Exporting(w, e, name, listed, i + 1, usingExports || d == "exports", cjsModule || d == "module")
  {
    ListsMore(w, name, listed, i, "exports");
    ListsMore(w, name, listed, i, "module");
  }

  /** Where the loop of `main` stands: the first dependencies of `name` have become its arguments. */
  ghost predicate Progress(w: World, s: Tables, e: Tables, stack: set<string>, name: string, listed: seq<string>,
                           args: seq<Value>, usingExports: bool, cjsModule: bool, done: set<string>) {
    && Advanced(w, s, e, stack, {name}, done) && Coherent(w, e, stack)
    && ArgumentsOK(w, e, stack, name, listed, args) && SeenTo(w, e, name, listed, |args|)
    && Exporting(w, e, name, listed, |args|, usingExports, cjsModule)
    && AllReached(w, name, done)
  }

  lemma NoneYet(w: World, s: Tables, stack: set<string>, name: string, listed: seq<string>)
    requires Coherent(w, s, stack) && Held(w.inherited, s.defined, name) == Held(w.inherited, w.start, name)
    ensures Progress(w, s, s, stack, name, listed, [], false, false, {})
  {
    AdvancedNot(w, s, stack, {name});
  }

  ghost predicate AllReached(w: World, name: string, done: set<string>) {
    forall n :: n in done ==> Reaches(w, name, n)
  }

  lemma OneMoreArgument(w: World, m: Tables, e: Tables, stack: set<string>, name: string, listed: seq<string>,
                        args: seq<Value>, value: Value, more: set<string>)
    requires name in stack && Coherent(w, m, stack) && Advanced(w, m, e, stack, {name}, more)
    requires ArgumentsOK(w, m, stack, name, listed, args) && SeenTo(w, m, name, listed, |args|) && |args| < |listed|
    requires var d := w.resolve(listed[|args|], name);
      ArgumentOK(w, e, stack, name, d, value) && (Special(d) || (d !in e.waiting && Known(w, e, d)))
    requires ProvidedOK(w, name, listed, |args|, value)
    ensures ArgumentsOK(w, e, stack, name, listed, args + [value]) && SeenTo(w, e, name, listed, |args| + 1)
  {
    ArgumentsStable(w, m, e, stack, {name}, more, name, listed, args);
    MovedGrows(w, m, e, {name}, more);
  }

  /** One more dependency has been seen to. */
  lemma OneMore(w: World, s: Tables, m: Tables, e: Tables, stack: set<string>, name: string, listed: seq<string>,
                args: seq<Value>, usingExports: bool, cjsModule: bool, value: Value, done: set<string>,
                more: set<string>)
    requires name in stack && Coherent(w, m, stack) && |args| < |listed|
    requires Progress(w, s, m, stack, name, listed, args, usingExports, cjsModule, done)
    requires Advanced(w, m, e, stack, {name}, more) && Coherent(w, e, stack) && AllReached(w, name, more)
    requires Handled(w, m, e, stack, name, w.resolve(listed[|args|], name), |args|, value)
    ensures var d := w.resolve(listed[|args|], name);
      Progress(w, s, e, stack, name, listed, args + [value],
               usingExports || d == "exports", cjsModule || d == "module", done + more)
  {
    hide Coherent, Advanced, ArgumentsOK, ArgumentOK, SeenTo, Known, Needs, Reaches;
    AdvancedTwice(w, s, m, e, stack, {name}, done, more);
    OneMoreArgument(w, m, e, stack, name, listed, args, value, more);
    ExportingMore(w, m, e, name, listed, |args|, usingExports, cjsModule);
  }

  /** Dependency `d` of `name`, at place `i`, is seen to, and `value` is the argument for it; what `name`
      has exported changes only when `d` is "exports". */
  ghost predicate Handled(w: World, m: Tables, e: Tables, stack: set<string>, name: string, d: string, i: nat,
                          value: Value) {
    && ArgumentOK(w, e, stack, name, d, value) && (Special(d) || (d !in e.waiting && Known(w, e, d)))
    && (if d == "exports" then name in e.defined && e.defined[name] == Exports(name, i) == value
        else SameDefinition(m, e, name))
    && (d == "require" ==> value == RequireFor(name))
    && (d == "module" ==> value == ModuleObject(name, Held(w.inherited, m.defined, name)))
  }

  // ----- failures -----

  /** `name` cannot be had: the loader has never heard of it, or some module that would be executed
      for it needs a name the loader has never heard of. */
  ghost predicate Blamed(w: World, s: Tables, e: Tables, name: string) {
    (name !in s.waiting && name !in s.defined) || Stuck(w, e, name)
  }

  ghost predicate Stuck(w: World, s: Tables, name: string) {
    exists m, d :: Reaches(w, name, m) && Needs(w, m, d) && !Known(w, s, d)
  }

  ghost predicate Grown(w: World, s: Tables, e: Tables) {
    forall d :: Known(w, s, d) ==> Known(w, e, d)
  }

  lemma MovedGrows(w: World, s: Tables, e: Tables, own: set<string>, done: set<string>)
    requires Moved(s, e, own, done)
    ensures Grown(w, s, e)
  {
  }

  // ----- whole requires -----

  /** What is executed is closed: every waiting module on a path from it is executed too. */
  lemma {:induction false} PathExecuted(w: World, s: Tables, e: Tables, done: set<string>, p: seq<string>)
    requires Advanced(w, s, e, {}, {}, done) && w.all == s.waiting
    requires IsPath(w, p) && p[0] in done && p[|p| - 1] in w.all
    ensures p[|p| - 1] in done
  {
    if |p| > 1 {
      var q := p[..|p| - 1];
      assert IsPath(w, q) by {
        forall i | 0 <= i < |q| - 1 ensures Needs(w, q[i], q[i + 1]) {
          assert Needs(w, p[i], p[i + 1]);
        }
      }
      assert Needs(w, p[|p| - 2], p[|p| - 2 + 1]);
      PathExecuted(w, s, e, done, q);
      assert NeedsMet(w, e, p[|p| - 2]);
    }
  }

  lemma ReachedExecuted(w: World, s: Tables, e: Tables, done: set<string>, name: string, n: string)
    requires Advanced(w, s, e, {}, {}, done) && w.all == s.waiting
    requires name in done && Reaches(w, name, n) && n in w.all
    ensures n in done
  {
    var p :| IsPath(w, p) && p[0] == name && p[|p| - 1] == n;
    PathExecuted(w, s, e, done, p);
  }

  /** A require that succeeds needed no unknown name. */
  lemma SuccessUnstuck(w: World, s: Tables, e: Tables, done: set<string>, name: string)
    requires Advanced(w, s, e, {}, {}, done) && w.all == s.waiting && name in done
    ensures !Stuck(w, s, name)
  {
    forall m, d | Reaches(w, name, m) && Needs(w, m, d) ensures Known(w, s, d) {
      ReachedExecuted(w, s, e, done, name, m);
      assert NeedsMet(w, e, m);
    }
  }

  /** Only a waiting module can be stuck. */
  lemma StuckWaits(w: World, s: Tables, name: string)
    requires Stuck(w, s, name)
    ensures name in w.all
  {
    var m, d :| Reaches(w, name, m) && Needs(w, m, d) && !Known(w, s, d);
    var p :| IsPath(w, p) && p[0] == name && p[|p| - 1] == m;
    if |p| > 1 {
      assert Needs(w, p[0], p[0 + 1]);
    }
  }

  lemma StuckBefore(w: World, s: Tables, e: Tables, name: string)
    requires Grown(w, s, e) && Stuck(w, e, name)
    ensures Stuck(w, s, name)
  {
    var m, d :| Reaches(w, name, m) && Needs(w, m, d) && !Known(w, e, d);
    assert !Known(w, s, d);
  }

  lemma CallOfRun(w: World, s: Tables, e: Tables, done: set<string>, c: Call)
    requires Advanced(w, s, e, {}, {}, done) && c in e.calls[|s.calls|..]
    ensures CallGood(w, e, {}, done, c)
  {
    var j :| |s.calls| <= j < |e.calls| && e.calls[j] == c;
  }

  /** A dependency that does not depend back on the module is given its final value; an inherited name
      that nobody defined is given nothing. */
  lemma FinalArgument(w: World, s: Tables, e: Tables, done: set<string>, c: Call, i: nat)
    requires Advanced(w, s, e, {}, {}, done) && w.all == s.waiting && s.defining <= s.defined.Keys
    requires c in e.calls[|s.calls|..] && i < |c.args|
    requires c.name in w.all && i < |Listed(w.all[c.name])|
    requires var d := w.resolve(Listed(w.all[c.name])[i], c.name); !Special(d) && !Reaches(w, d, c.name)
    ensures var d := w.resolve(Listed(w.all[c.name])[i], c.name);
      if d in e.defined then c.args[i] == e.defined[d] else d in w.inherited && c.args[i] == Undefined
  {
    CallOfRun(w, s, e, done, c);
    var d := w.resolve(Listed(w.all[c.name])[i], c.name);
    assert ArgumentOK(w, e, {}, c.name, d, c.args[i]);
    assert Needs(w, c.name, d) && NeedsMet(w, e, c.name);
  }

  /** Place `k` holds the last "exports" among the first `i` dependencies of `name`. */
  ghost predicate LastExports(w: World, name: string, listed: seq<string>, i: nat, k: nat) {
    && k < i <= |listed| && w.resolve(listed[k], name) == "exports"
    && forall j :: k < j < i ==> w.resolve(listed[j], name) != "exports"
  }

  lemma {:induction false} CurrentIsLast(w: World, name: string, listed: seq<string>, i: nat, k: nat)
    requires LastExports(w, name, listed, i, k)
    ensures CurrentAt(w, name, listed, i) == Exports(name, k)
  {
    if k < i - 1 {
      CurrentIsLast(w, name, listed, i - 1, k);
    }
  }

  lemma {:induction false} CurrentIsFirst(w: World, name: string, listed: seq<string>, i: nat)
    requires i <= |listed| && forall k :: 0 <= k < i ==> w.resolve(listed[k], name) != "exports"
    ensures CurrentAt(w, name, listed, i) == Held(w.inherited, w.start, name)
  {
    if i > 0 {
      CurrentIsFirst(w, name, listed, i - 1);
    }
  }

  /** A module that lists "exports" is defined as a new `module.exports`, if it lists "module"; or else as
      what its factory returned; or else as its own exports object, the one made for the last "exports". */
  lemma DefinedByExporting(w: World, s: Tables, e: Tables, done: set<string>, c: Call, k: nat)
    requires Advanced(w, s, e, {}, {}, done) && c in e.calls[|s.calls|..] && c.name in w.all
    requires var listed := Listed(w.all[c.name]); LastExports(w, c.name, listed, |listed|, k)
    ensures c.name in e.defined
    ensures var listed, effect := Listed(w.all[c.name]), w.factory(c.name, c.args);
      e.defined[c.name] ==
        if (exists i :: 0 <= i < |listed| && w.resolve(listed[i], c.name) == "module") &&
           effect.moduleExports != Undefined && effect.moduleExports != Exports(c.name, k)
        then effect.moduleExports
        else if effect.ret != Undefined then effect.ret
        else Exports(c.name, k)
  {
    CallOfRun(w, s, e, done, c);
    var listed := Listed(w.all[c.name]);
    CurrentIsLast(w, c.name, listed, |listed|, k);
    assert w.resolve(listed[k], c.name) == "exports";
    assert Lists(w, c.name, listed, |listed|, "exports");
  }

  /** A module that does not list "exports" is defined as a new `module.exports`, if it lists "module", and
      otherwise as what its factory returned.  New is what differs from what the module was before, or from an
      inherited property of that name. */
  lemma DefinedByReturning(w: World, s: Tables, e: Tables, done: set<string>, c: Call)
    requires Advanced(w, s, e, {}, {}, done) && c in e.calls[|s.calls|..] && c.name in w.all && w.start == s.defined
    requires var listed := Listed(w.all[c.name]);
      forall k :: 0 <= k < |listed| ==> w.resolve(listed[k], c.name) != "exports"
    ensures c.name in e.defined
    ensures var listed, effect := Listed(w.all[c.name]), w.factory(c.name, c.args);
      e.defined[c.name] ==
        if (exists i :: 0 <= i < |listed| && w.resolve(listed[i], c.name) == "module") &&
           effect.moduleExports != Undefined &&
           (c.name in s.defined ==> effect.moduleExports != s.defined[c.name]) &&
           (c.name !in s.defined && c.name in w.inherited ==> effect.moduleExports != w.inherited[c.name])
        then effect.moduleExports
        else effect.ret
  {
    CallOfRun(w, s, e, done, c);
    var listed := Listed(w.all[c.name]);
    CurrentIsFirst(w, c.name, listed, |listed|);
  }

  /** A factory that lists no dependencies but has parameters is given `require`, its own exports object and a
      module object that starts from the same exports; without parameters it is given nothing. */
  lemma DefaultArguments(w: World, s: Tables, e: Tables, done: set<string>, c: Call)
    requires Advanced(w, s, e, {}, {}, done) && c in e.calls[|s.calls|..]
    requires c.name in w.all && w.all[c.name].deps == []
    requires forall d :: Special(d) ==> w.resolve(d, c.name) == d
    ensures w.all[c.name].callback.Factory?
    ensures c.args == if w.all[c.name].callback.arity == 0 then [] else
      [RequireFor(c.name), Exports(c.name, 1), ModuleObject(c.name, Exports(c.name, 1))]
  {
    CallOfRun(w, s, e, done, c);
    if w.all[c.name].callback.arity > 0 {
      var listed := ["require", "exports", "module"];
      assert Special(listed[0]) && Special(listed[1]) && Special(listed[2]);
      forall i | 0 <= i < 3 ensures ProvidedOK(w, c.name, listed, i, c.args[i]) {
      }
      CurrentIsLast(w, c.name, listed, 2, 1);
    }
  }

  /** A factory that lists dependencies is given one argument for each, whatever its parameters: at place `i`
      `require`, an exports object of its own, or a module object that starts from the exports object made
      for the last "exports" before it, or from what the module was before, or from an inherited property. */
  lemma ProvidedArguments(w: World, s: Tables, e: Tables, done: set<string>, c: Call, i: nat)
    requires Advanced(w, s, e, {}, {}, done) && c in e.calls[|s.calls|..] && w.start == s.defined
    requires c.name in w.all && w.all[c.name].deps != []
    ensures |c.args| == |w.all[c.name].deps|
    ensures i < |c.args| ==>
      var deps := w.all[c.name].deps;
      var d := w.resolve(deps[i], c.name);
      && (d == "require" ==> c.args[i] == RequireFor(c.name))
      && (d == "exports" ==> c.args[i] == Exports(c.name, i))
      && (d == "module" ==>
            && c.args[i].ModuleObject? && c.args[i].owner == c.name
            && (forall k :: LastExports(w, c.name, deps, i, k) ==> c.args[i].exports == Exports(c.name, k))
            && ((forall k :: 0 <= k < i ==> w.resolve(deps[k], c.name) != "exports") ==>
                  c.args[i].exports ==
                    if c.name in s.defined then s.defined[c.name]
                    else if c.name in w.inherited then w.inherited[c.name]
                    else Undefined))
  {
    CallOfRun(w, s, e, done, c);
    if i < |c.args| {
      var deps := w.all[c.name].deps;
      assert ProvidedOK(w, c.name, deps, i, c.args[i]);
      forall k | LastExports(w, c.name, deps, i, k) ensures CurrentAt(w, c.name, deps, i) == Exports(c.name, k) {
        CurrentIsLast(w, c.name, deps, i, k);
      }
      if forall k :: 0 <= k < i ==> w.resolve(deps[k], c.name) != "exports" {
        CurrentIsFirst(w, c.name, deps, i);
      }
    }
  }

  class Loader {
    // makeMap(dep, name).f for names without a plugin prefix
    const resolve: (string, string) -> string
    // the factory of each module
    const factory: (string, seq<Value>) -> Effect
    // the properties every JavaScript object inherits
    const inherited: map<string, Value>

    var waiting: Table
    var defining: set<string>
    var defined: map<string, Value>
    // the factory calls made so far
    var calls: seq<Call>

    constructor (resolve: (string, string) -> string, factory: (string, seq<Value>) -> Effect,
                 inherited: map<string, Value>)
      ensures Now() == Tables(map[], {}, map[], [])
      ensures this.resolve == resolve && this.factory == factory && this.inherited == inherited
    {
      this.resolve, this.factory, this.inherited := resolve, factory, inherited;
      waiting, defining, defined, calls := map[], {}, map[], [];
    }

    ghost function Now(): Tables
      reads this
    {
      Tables(waiting, defining, defined, calls)
    }

    ghost predicate Here(w: World) {
      w.resolve == resolve && w.factory == factory && w.inherited == inherited
    }

    /** `define`: a second argument that is no array of dependencies takes the place of the third. */
    method Define(name: string, second: Second, callback: Callback)
      modifies `waiting
      ensures second.DepArray? ==> waiting == old(waiting)[name := Definition(second.deps, callback)]
      ensures second.NoArray? ==> waiting == old(waiting)[name := Definition([], second.callback)]
    {
      var deps, callback' := [], callback;
      if second.NoArray? {
        callback' := second.callback;
      } else {
        deps := second.deps;
      }
      waiting := waiting[name := Definition(deps, callback')];
    }

    method CallDep(name: string, ghost w: World, ghost stack: set<string>)
      returns (r: Result<Value>, ghost done: set<string>)
      requires Here(w) && Coherent(w, Now(), stack)
      requires forall m :: m in stack ==> Reaches(w, m, name)
      modifies this
      ensures r.Ok? ==>
        && Advanced(w, old(Now()), Now(), stack, {}, done) && Coherent(w, Now(), stack)
        && name in defined && name !in waiting && r.value == defined[name]
        && AllReached(w, name, done)
        && (name in old(waiting) ==> name in done)
        && (name !in old(waiting) ==> done == {})
      ensures r.Thrown? ==> Grown(w, old(Now()), Now()) && Blamed(w, old(Now()), Now(), name)
      decreases waiting.Keys, 0
    {
      hide AllMet, CallsOnce, Reaches;
      done := {};
      if name in waiting {
        ghost var before := Now();
        var def := waiting[name];
        waiting := waiting - {name};
        defining := defining + {name};
        Begins(w, before, stack, name);
        ReachesSelf(w, name);
        var error: Option<Error>;
        error, done := RunMain(name, def, w, stack + {name}, before);
        if error.Some? {
          return Thrown(error.value), done;
        }
        assert stack + {name} - {name} == stack;
      } else {
        AdvancedNot(w, Now(), stack, {});
      }
      if name !in defined {
        return Thrown(NoModule(name)), done;
      }
      return Ok(defined[name]), done;
    }

    /** `main` for a named module. */
    method RunMain(name: string, def: Definition, ghost w: World, ghost stack: set<string>, ghost before: Tables)
      returns (error: Option<Error>, ghost done: set<string>)
      requires Here(w) && Coherent(w, Now(), stack) && name in stack && w.all[name] == def
      requires forall m :: m in stack ==> Reaches(w, m, name)
      requires before.waiting == waiting[name := def] && defining == before.defining + {name}
      requires before.defined == defined && before.calls == calls
      requires Held(inherited, defined, name) == Held(w.inherited, w.start, name)
      modifies this
      ensures error.None? ==>
        && Advanced(w, before, Now(), stack - {name}, {}, done) && Coherent(w, Now(), stack - {name})
        && name in done && AllReached(w, name, done)
      ensures error.Some? ==> Grown(w, before, Now()) && Blamed(w, before, Now(), name)
      decreases waiting.Keys, 4
    {
      ghost var start := Now();
      done := {};
      ReachesSelf(w, name);
      if def.callback.Literal? {
        defined := defined[name := def.callback.value];
        AdvancedNot(w, start, stack, {name});
        ModuleExecuted(w, before, start, start, Now(), stack, name, {}, []);
        done := {name};
        return None, done;
      }
      var args, usingExports, cjsModule;
      error, args, usingExports, cjsModule, done := Dependencies(name, def, w, stack);
      if error.Some? {
        return;
      }
      ghost var m := Now();
      CallFactory(name, args, usingExports, cjsModule);
      ModuleExecuted(w, before, start, m, Now(), stack, name, done, args);
      done := done + {name};
    }

    /** The end of `main`: the factory is called, and its module defined. */
    method CallFactory(name: string, args: seq<Value>, usingExports: bool, cjsModule: bool)
      requires usingExports ==> name in defined
      modifies `calls, `defined
      ensures calls == old(calls) + [Call(name, args)]
      ensures name in defined && defined == old(defined)[name := defined[name]]
      ensures var effect, current := factory(name, args), Held(inherited, old(defined), name);
        && (cjsModule && effect.moduleExports != Undefined && effect.moduleExports != current ==>
              defined[name] == effect.moduleExports)
        && (!cjsModule || effect.moduleExports == Undefined || effect.moduleExports == current ==>
              && (effect.ret != Undefined ==> defined[name] == effect.ret)
              && (effect.ret == Undefined ==> defined[name] == if usingExports then current else Undefined))
    {
      var effect := factory(name, args);
      calls := calls + [Call(name, args)];
      var current := Held(inherited, defined, name);
      if cjsModule && effect.moduleExports != Undefined && effect.moduleExports != current {
        defined := defined[name := effect.moduleExports];
      } else if effect.ret != Undefined || !usingExports {
        defined := defined[name := effect.ret];
      }
    }

    /** A dependency the loader itself provides. */
    method Provide(name: string, depName: string, place: nat, ghost w: World, ghost stack: set<string>)
      returns (value: Value)
      requires Coherent(w, Now(), stack) && name in stack && Special(depName)
      modifies `defined
      ensures Advanced(w, old(Now()), Now(), stack, {name}, {}) && Coherent(w, Now(), stack)
      ensures depName == "require" ==> value == RequireFor(name)
      ensures depName == "module" ==> value == ModuleObject(name, Held(inherited, old(defined), name))
      ensures depName == "exports" ==> value == Exports(name, place) && defined == old(defined)[name := value]
      ensures depName != "exports" ==> defined == old(defined)
    {
      if depName == "require" {
        value := RequireFor(name);
        AdvancedNot(w, Now(), stack, {name});
      } else if depName == "exports" {
        value := Exports(name, place);
        OwnDefinition(w, Now(), stack, name, value);
        defined := defined[name := value];
      } else {
        value := ModuleObject(name, Held(inherited, defined, name));
        AdvancedNot(w, Now(), stack, {name});
      }
    }

    /** One ordinary dependency of a factory. */
    method Dependency(name: string, depName: string, ghost w: World, ghost stack: set<string>)
      returns (error: Option<Error>, value: Value, ghost done: set<string>)
      requires Here(w) && Coherent(w, Now(), stack) && name in stack && Needs(w, name, depName)
      requires forall m :: m in stack ==> Reaches(w, m, name)
      modifies this
      ensures error.None? ==>
        && Advanced(w, old(Now()), Now(), stack, {}, done) && Coherent(w, Now(), stack)
        && ArgumentOK(w, Now(), stack, name, depName, value)
        && depName !in waiting && Known(w, Now(), depName)
        && AllReached(w, name, done)
      ensures error.Some? ==> Grown(w, old(Now()), Now()) && Stuck(w, Now(), name)
      decreases waiting.Keys, 1
    {
      error, value, done := None, Undefined, {};
      if depName in defined || depName in waiting {
        forall m | m in stack ensures Reaches(w, m, depName) {
          ReachesOn(w, m, name, depName);
        }
        var r;
        r, done := CallDep(depName, w, stack);
        if r.Thrown? {
          ghost var m, d :| Reaches(w, depName, m) && Needs(w, m, d) && !Known(w, Now(), d);
          ReachesFrom(w, name, depName, m);
          return Some(r.error), value, done;
        }
        forall n | n in done ensures Reaches(w, name, n) {
          ReachesFrom(w, name, depName, n);
        }
        value := r.value;
      } else if depName !in defining && depName !in inherited {
        ReachesSelf(w, name);
        error := Some(MissingDependency(name, depName));
      } else {
        AdvancedNot(w, Now(), stack, {});
      }
    }

    /** One dependency of a factory. */
    method Argument(name: string, depName: string, place: nat, ghost w: World, ghost stack: set<string>)
      returns (error: Option<Error>, value: Value, ghost more: set<string>)
      requires Here(w) && Coherent(w, Now(), stack) && name in stack && (Special(depName) || Needs(w, name, depName))
      requires forall m :: m in stack ==> Reaches(w, m, name)
      modifies this
      ensures error.None? ==>
        && Advanced(w, old(Now()), Now(), stack, {name}, more) && Coherent(w, Now(), stack)
        && AllReached(w, name, more) && Handled(w, old(Now()), Now(), stack, name, depName, place, value)
      ensures error.Some? ==> Grown(w, old(Now()), Now()) && Stuck(w, Now(), name)
      decreases waiting.Keys, 2
    {
      if Special(depName) {
        error, more := None, {};
        value := Provide(name, depName, place, w, stack);
      } else {
        error, value, more := Dependency(name, depName, w, stack);
      }
    }

    /** The loop of `main` over the dependencies of a factory. */
    method Dependencies(name: string, def: Definition, ghost w: World, ghost stack: set<string>)
      returns (error: Option<Error>, args: seq<Value>, usingExports: bool, cjsModule: bool, ghost done: set<string>)
      requires Here(w) && Coherent(w, Now(), stack) && name in stack && w.all[name] == def
      requires def.callback.Factory?
      requires forall m :: m in stack ==> Reaches(w, m, name)
      requires Held(inherited, defined, name) == Held(w.inherited, w.start, name)
      modifies this
      ensures error.None? ==>
        && |args| == |Listed(def)|
        && Progress(w, old(Now()), Now(), stack, name, Listed(def), args, usingExports, cjsModule, done)
      ensures error.Some? ==> Grown(w, old(Now()), Now()) && Stuck(w, Now(), name)
      decreases waiting.Keys, 3
    {
      hide ArgumentsOK, AllMet, CallsOnce, AllReached, Exporting, Handled, Known, Reaches, SeenTo, Stuck;
      error, args, usingExports, cjsModule, done := None, [], false, false, {};
      var deps := Listed(def);
      NoneYet(w, Now(), stack, name, deps);
      var i := 0;
      while i < |deps|
        invariant error.None? && 0 <= i == |args| <= |deps|
        invariant Progress(w, old(Now()), Now(), stack, name, deps, args, usingExports, cjsModule, done)
      {
        ghost var m := Now();
        var depName := resolve(deps[i], name);
        MovedGrows(w, old(Now()), m, {name}, done);
        assert waiting.Keys <= old(waiting.Keys);
        var value;
        ghost var more;
        error, value, more := Argument(name, depName, i, w, stack);
        if error.Some? {
          return;
        }
        OneMore(w, old(Now()), m, Now(), stack, name, deps, args, usingExports, cjsModule, value, done, more);
        usingExports, cjsModule := usingExports || depName == "exports", cjsModule || depName == "module";
        args := args + [value];
        done := done + more;
        i := i + 1;
      }
    }

    ghost function Start(): World
      reads this
    {
      World(resolve, factory, inherited, waiting, defined)
    }

    /** `require(dep)` from module `relName`. */
    method Require(dep: string, relName: string) returns (r: Result<Value>, ghost done: set<string>)
      requires forall n :: n in UNUSABLE ==> n !in waiting && n !in defined
      modifies this
      ensures var w, name := old(Start()), resolve(dep, relName);
        && (r.Thrown? <==> old(!(name in waiting || name in defined)) || Stuck(w, old(Now()), name))
        && (r.Ok? ==>
              && name in defined && r.value == defined[name]
              && Advanced(w, old(Now()), Now(), {}, {}, done)
              && (name !in old(waiting) ==> done == {})
              && (name in old(waiting) ==> forall n :: n in w.all ==> (n in done <==> Reaches(w, name, n))))
    {
      var name := resolve(dep, relName);
      ghost var w, s := Start(), Now();
      r, done := CallDep(name, w, {});
      if r.Ok? {
        if name in s.waiting {
          SuccessUnstuck(w, s, Now(), done, name);
          forall n | n in w.all && Reaches(w, name, n) ensures n in done {
            ReachedExecuted(w, s, Now(), done, name, n);
          }
        }
      } else if Stuck(w, Now(), name) {
        StuckBefore(w, s, Now(), name);
      }
      if Stuck(w, s, name) {
        StuckWaits(w, s, name);
      }
    }
  }
}
