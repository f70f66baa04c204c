/**
 The meaning of `TimedCache`: entries that expire and entries that die with their group,
 on top of two LRU caches.  The clock readings of an operation are its parameters.
 */
module TimedModel {
  import opened Common
  import opened LruLaws
  import M = LruModel

  /** `equals` compares the name and the timestamp, and so does equality here. */
  datatype CacheGroup = CacheGroup(group: string, timestamp: int)

  /** `id` tells apart the entry objects, which the LRU cache compares by identity. */
  datatype Entry<V> = Entry(id: nat, value: Option<V>, group: Option<CacheGroup>, expireInterval: int, checkTime: int)

  /** Two's-complement addition of Java's `long`. */
  function Wrap64(x: int): int {
    (x + 0x8000_0000_0000_0000) % 0x1_0000_0000_0000_0000 - 0x8000_0000_0000_0000
  }

  predicate InTime(checkTime: int, expireInterval: int, now: int) {
    now < Wrap64(checkTime + expireInterval)
  }

  predicate Unexpired<V>(e: Entry<V>, now: int) {
    InTime(e.checkTime, e.expireInterval, now)
  }

  /** The group cache exists only when the constructor was asked for one. */
  datatype State<K, V> = State(
    cache: M.Cache<K, Entry<V>>,
    groups: Option<M.Cache<string, CacheGroup>>,
    made: nat)

  datatype Setup<!V> = Setup(cache: M.Config<Entry<V>>, groups: M.Config<CacheGroup>, expireInterval: int)

  datatype Outcome<T> = Done(value: T) | NullPointer

  function Initial<K, V>(isGroup: bool): State<K, V> {
    State(M.Cache([], [], 0, []), if isGroup then Some(M.Cache([], [], 0, [])) else None, 0)
  }

  // ----- the calls of the two caches -----

  function StoreEntry<V(==), K(==)>(u: Setup<V>, s: State<K, V>, key: K, e: Entry<V>): (State<K, V>, Option<Entry<V>>) {
    var (c, left) := M.CompareAndPut(u.cache, s.cache, None, key, Some(e), false);
    (s.(cache := c), left)
  }

  function TouchEntry<V, K(==)>(u: Setup<V>, s: State<K, V>, key: K): (State<K, V>, Option<Entry<V>>) {
    var (c, found) := M.Get(u.cache, s.cache, key);
    (s.(cache := c), found)
  }

  function DropEntry<V, K(==)>(u: Setup<V>, s: State<K, V>, key: K): (State<K, V>, Option<Entry<V>>) {
    var (c, was) := M.Remove(u.cache, s.cache, key);
    (s.(cache := c), was)
  }

  function TouchGroup<V, K>(u: Setup<V>, s: State<K, V>, name: string): (State<K, V>, Option<CacheGroup>)
    requires s.groups.Some?
  {
    var (g, found) := M.Get(u.groups, s.groups.value, name);
    (s.(groups := Some(g)), found)
  }

  /** `new CacheGroup(name, now)`, put into the group cache. */
  function PutGroup<V, K>(u: Setup<V>, s: State<K, V>, name: string, now: int): State<K, V>
    requires s.groups.Some?
  {
    s.(groups := Some(M.CompareAndPut(u.groups, s.groups.value, None, name, Some(CacheGroup(name, now)), false).0))
  }

  // ----- operations -----

  function Put<V(==), K(==)>(u: Setup<V>, s: State<K, V>, key: K, value: Option<V>, group: Option<CacheGroup>, now: int)
    : (State<K, V>, Option<V>)
  {
    var e := Entry(s.made, value, group, u.expireInterval, now);
    var (t, left) := StoreEntry(u, s.(made := s.made + 1), key, e);
    (t, if left.Some? then left.value.value else None)
  }

  function GetGroup<V, K>(u: Setup<V>, s: State<K, V>, name: string, now: int): (State<K, V>, CacheGroup)
    requires s.groups.Some?
  {
    var (t, found) := TouchGroup(u, s, name);
    if found.Some? then (t, found.value) else (PutGroup(u, t, name, now), CacheGroup(name, now))
  }

  /** `get`, as far as the entry it reads; `now1` is the clock if a group has to be made, `now2` the
      clock when the entry is checked. */
  function Fetch<V, K(==)>(u: Setup<V>, s: State<K, V>, key: K, now1: int, now2: int)
    : (State<K, V>, Outcome<Option<Entry<V>>>)
  {
    var (t, found) := TouchEntry(u, s, key);
    if found.None? then (t, Done(None))
    else
      var e := found.value;
      if e.group.Some? && s.groups.None? then (t, NullPointer)
      else
        var (t', current) :=
          if e.group.Some? then
            var (w, group) := GetGroup(u, t, e.group.value.group, now1);
            (w, group == e.group.value)
          else (t, true);
        if Unexpired(e, now2) && current then (t', Done(Some(e))) else (DropEntry(u, t', key).0, Done(None))
  }

  function Get<V, K(==)>(u: Setup<V>, s: State<K, V>, key: K, now1: int, now2: int): (State<K, V>, Outcome<Option<V>>) {
    var (t, r) := Fetch(u, s, key, now1, now2);
    (t, if r.NullPointer? then NullPointer else Done(if r.value.Some? then r.value.value.value else None))
  }

  function Remove<V, K(==)>(u: Setup<V>, s: State<K, V>, key: K): (State<K, V>, Option<V>) {
    var (t, was) := DropEntry(u, s, key);
    (t, if was.Some? then was.value.value else None)
  }

  function RemoveAll<K, V>(s: State<K, V>, fired: seq<M.Event<Entry<V>>>): State<K, V> {
    s.(cache := M.Clear(s.cache, fired))
  }

  // ----- the invariant -----

  ghost predicate Sound<V, K>(u: Setup<V>, s: State<K, V>) {
    WellFormed(u.cache, s.cache) && (s.groups.Some? ==> WellFormed(u.groups, s.groups.value))
  }

  // ----- single operations -----

  /** An LRU `put` sets its key; another key keeps its value or is evicted. */
  lemma PutLookup<V, K>(cfg: M.Config<V>, c: M.Cache<K, V>, k: K, v: V, q: K)
    requires WellFormed(cfg, c)
    ensures var d := M.CompareAndPut(cfg, c, None, k, Some(v), false).0;
      && WellFormed(cfg, d)
      && (if q == k then Lookup(d, q) == Some(Some(v)) else Lookup(d, q) == Lookup(c, q) || Lookup(d, q) == None)
  {
    CompareAndPutLaw(cfg, c, None, k, Some(v), false, q);
    EvictLaw(cfg, c);
    PrefixLookup(c, M.Evict(cfg, c), q);
  }

  /** The group object `getGroup` hands out: the recorded one, or a new one when there is none. */
  function GroupNow<K, V>(s: State<K, V>, name: string, now: int): CacheGroup
    requires s.groups.Some?
  {
    var found := Lookup(s.groups.value, name);
    if found.Some? && found.value.Some? then found.value.value else CacheGroup(name, now)
  }

  lemma PutGroupLaw<V, K>(u: Setup<V>, s: State<K, V>, name: string, now: int, q: string)
    requires Sound(u, s) && s.groups.Some?
    ensures var t := PutGroup(u, s, name, now);
      && Sound(u, t) && t.cache == s.cache && t.groups.Some?
      && (if q == name then Lookup(t.groups.value, q) == Some(Some(CacheGroup(name, now)))
          else Lookup(t.groups.value, q) == Lookup(s.groups.value, q) || Lookup(t.groups.value, q) == None)
  {
    PutLookup(u.groups, s.groups.value, name, CacheGroup(name, now), q);
  }

  /** `getGroup` hands out the current group and leaves it recorded. */
  lemma GetGroupLaw<V, K>(u: Setup<V>, s: State<K, V>, name: string, now: int, q: string)
    requires Sound(u, s) && s.groups.Some?
    ensures var (t, group) := GetGroup(u, s, name, now);
      && Sound(u, t) && t.cache == s.cache && t.groups.Some?
      && group == GroupNow(s, name, now)
      && (if q == name then Lookup(t.groups.value, q) == Some(Some(group))
          else Lookup(t.groups.value, q) == Lookup(s.groups.value, q) || Lookup(t.groups.value, q) == None)
  {
    GetLaw(u.groups, s.groups.value, name, q);
    var t := s.(groups := Some(M.Get(u.groups, s.groups.value, name).0));
    PutGroupLaw(u, t, name, now, q);
  }

  /** `get` serves an entry exactly when the key is cached, the entry has not expired, and its group
      object equals the current one; otherwise the key is gone afterwards. */
  lemma FetchIff<V, K>(u: Setup<V>, s: State<K, V>, key: K, now1: int, now2: int)
    requires Sound(u, s)
    ensures var (t, r) := Fetch(u, s, key, now1, now2);
      var found := Lookup(s.cache, key);
      && (r.NullPointer? <==> found.Some? && found.value.Some? && found.value.value.group.Some? && s.groups.None?)
      && (r.Done? && r.value.Some? <==>
            found.Some? && found.value.Some? &&
            Unexpired(found.value.value, now2) &&
            var e := found.value.value;
            e.group.Some? ==> s.groups.Some? && e.group.value == GroupNow(s, e.group.value.group, now1))
      && (r.Done? && r.value.Some? ==> found == Some(r.value) && Lookup(t.cache, key) == found)
      && (r.Done? && r.value.None? && found.Some? && found.value.Some? ==> Lookup(t.cache, key) == None)
  {
    GetLaw(u.cache, s.cache, key, key);
    var t := s.(cache := M.Get(u.cache, s.cache, key).0);
    var found := Lookup(s.cache, key);
    if found.Some? && found.value.Some? {
      var e := found.value.value;
      RemoveLaw(u.cache, t.cache, key, key);
      if e.group.Some? && s.groups.Some? {
        GetGroupLaw(u, t, e.group.value.group, now1, e.group.value.group);
      }
    }
  }

  /** What `get` leaves in the group cache: only the group of the entry may be recorded anew. */
  lemma FetchGroups<V, K>(u: Setup<V>, s: State<K, V>, key: K, now1: int, now2: int, g: string)
    requires Sound(u, s)
    ensures var t := Fetch(u, s, key, now1, now2).0;
      && t.groups.Some? == s.groups.Some?
      && (s.groups.Some? ==>
            && WellFormed(u.groups, t.groups.value)
            && (|| Lookup(t.groups.value, g) == Lookup(s.groups.value, g)
                || Lookup(t.groups.value, g) == None
                || Lookup(t.groups.value, g) == Some(Some(GroupNow(s, g, now1)))))
  {
    GetLaw(u.cache, s.cache, key, key);
    var (c, found) := M.Get(u.cache, s.cache, key);
    if found.Some? && found.value.group.Some? && s.groups.Some? {
      GetGroupLaw(u, s.(cache := c), found.value.group.value.group, now1, g);
    }
  }

  lemma FetchCacheIs<V, K>(u: Setup<V>, s: State<K, V>, key: K, now1: int, now2: int)
    ensures var t := Fetch(u, s, key, now1, now2).0;
      var c := M.Get(u.cache, s.cache, key).0;
      t.made == s.made && (t.cache == c || t.cache == M.Remove(u.cache, c, key).0)
  {
  }

  /** What `get` leaves in the cache: no key gains a value. */
  lemma FetchCache<V, K>(u: Setup<V>, s: State<K, V>, key: K, now1: int, now2: int, q: K)
    requires Sound(u, s)
    ensures var t := Fetch(u, s, key, now1, now2).0;
      && WellFormed(u.cache, t.cache) && t.made == s.made
      && (Lookup(t.cache, q) == Lookup(s.cache, q) || Lookup(t.cache, q) == None)
  {
    hide Fetch, WellFormed, M.Get, M.Remove;
    FetchCacheIs(u, s, key, now1, now2);
    GetLaw(u.cache, s.cache, key, q);
    RemoveLaw(u.cache, M.Get(u.cache, s.cache, key).0, key, q);
  }

  lemma FetchKeeps<V, K>(u: Setup<V>, s: State<K, V>, key: K, now1: int, now2: int)
    requires Sound(u, s)
    ensures Sound(u, Fetch(u, s, key, now1, now2).0)
  {
    FetchGroups(u, s, key, now1, now2, "");
    FetchCache(u, s, key, now1, now2, key);
  }

  // ----- runs -----

  datatype Op<K, V> =
    | PutOp(key: K, value: Option<V>, group: Option<CacheGroup>, now: int)
    | GetOp(key: K, now1: int, now2: int)
    | GetGroupOp(name: string, now: int)
    | RefrushGroupOp(name: string, now: int)
    | RemoveOp(key: K)
    | RemoveAllOp(fired: seq<M.Event<Entry<V>>>)

  /** An operation on a missing group cache throws and changes nothing. */
  function Step<V(==), K(==)>(u: Setup<V>, s: State<K, V>, op: Op<K, V>): State<K, V> {
    match op
    case PutOp(key, value, group, now) => Put(u, s, key, value, group, now).0
    case GetOp(key, now1, now2) => Fetch(u, s, key, now1, now2).0
    case GetGroupOp(name, now) => if s.groups.Some? then GetGroup(u, s, name, now).0 else s
    case RefrushGroupOp(name, now) => if s.groups.Some? then PutGroup(u, s, name, now) else s
    case RemoveOp(key) => Remove(u, s, key).0
    case RemoveAllOp(fired) => RemoveAll(s, fired)
  }

  function Run<V(==), K(==)>(u: Setup<V>, s: State<K, V>, ops: seq<Op<K, V>>): State<K, V> {
    if ops == [] then s else Step(u, Run(u, s, ops[..|ops| - 1]), ops[|ops| - 1])
  }

  /** No clock reading of the operation is before `t`. */
  predicate NotBefore<K, V>(op: Op<K, V>, t: int) {
    match op
    case PutOp(_, _, _, now) => t <= now
    case GetOp(_, now1, now2) => t <= now1 && t <= now2
    case GetGroupOp(_, now) => t <= now
    case RefrushGroupOp(_, now) => t <= now
    case RemoveOp(_) => true
    case RemoveAllOp(_) => true
  }

  /** The last reading of the operation, or `t` when it reads no clock. */
  function LastReading<K, V>(op: Op<K, V>, t: int): int {
    match op
    case PutOp(_, _, _, now) => now
    case GetOp(_, now1, now2) => if now1 <= now2 then now2 else now1
    case GetGroupOp(_, now) => now
    case RefrushGroupOp(_, now) => now
    case RemoveOp(_) => t
    case RemoveAllOp(_) => t
  }

  /** The clock never goes back. */
  predicate Ticking<K, V>(ops: seq<Op<K, V>>, t: int) {
    ops == [] || (NotBefore(ops[0], t) && Ticking(ops[1..], LastReading(ops[0], t)))
  }

  lemma {:induction false} TickingLater<K, V>(ops: seq<Op<K, V>>, t: int, j: nat)
    requires Ticking(ops, t) && j < |ops|
    ensures NotBefore(ops[j], t)
  {
    if j > 0 {
      TickingLater(ops[1..], LastReading(ops[0], t), j - 1);
      assert ops[1..][j - 1] == ops[j];
    }
  }

  /** After a reading, no operation reads an earlier time. */
  lemma {:induction false} TickingAfter<K, V>(ops: seq<Op<K, V>>, t: int, i: nat, j: nat)
    requires Ticking(ops, t) && i < j < |ops|
    requires ops[i].RefrushGroupOp?
    ensures NotBefore(ops[j], ops[i].now)
  {
    if i == 0 {
      TickingLater(ops[1..], ops[0].now, j - 1);
      assert ops[1..][j - 1] == ops[j];
    } else {
      TickingAfter(ops[1..], LastReading(ops[0], t), i - 1, j - 1);
      assert ops[1..][i - 1] == ops[i] && ops[1..][j - 1] == ops[j];
    }
  }

  // ----- no stale read -----

  /** No group object of `g` older than `t` is current. */
  ghost predicate Renewed<K, V>(s: State<K, V>, g: string, t: int) {
    s.groups.Some? ==>
      var found := Lookup(s.groups.value, g);
      found.Some? && found.value.Some? ==> t <= found.value.value.timestamp
  }

  lemma StepSound<V, K>(u: Setup<V>, s: State<K, V>, op: Op<K, V>)
    requires Sound(u, s)
    ensures Sound(u, Step(u, s, op)) && Step(u, s, op).groups.Some? == s.groups.Some?
  {
    match op
    case PutOp(key, value, group, now) =>
      PutLookup(u.cache, s.cache, key, Entry(s.made, value, group, u.expireInterval, now), key);
    case GetOp(key, now1, now2) => FetchKeeps(u, s, key, now1, now2); FetchGroups(u, s, key, now1, now2, "");
    case GetGroupOp(name, now) => if s.groups.Some? { GetGroupLaw(u, s, name, now, name); }
    case RefrushGroupOp(name, now) => if s.groups.Some? { PutGroupLaw(u, s, name, now, name); }
    case RemoveOp(key) => RemoveLaw(u.cache, s.cache, key, key);
    case RemoveAllOp(fired) =>
  }

  lemma StepRenewed<V, K>(u: Setup<V>, s: State<K, V>, op: Op<K, V>, g: string, t: int)
    requires Sound(u, s) && NotBefore(op, t) && Renewed(s, g, t)
    ensures Renewed(Step(u, s, op), g, t)
  {
    match op
    case PutOp(key, value, group, now) =>
    case GetOp(key, now1, now2) => FetchGroups(u, s, key, now1, now2, g);
    case GetGroupOp(name, now) => if s.groups.Some? { GetGroupLaw(u, s, name, now, g); }
    case RefrushGroupOp(name, now) => if s.groups.Some? { PutGroupLaw(u, s, name, now, g); }
    case RemoveOp(key) =>
    case RemoveAllOp(fired) =>
  }

  lemma RefreshRenews<V, K>(u: Setup<V>, s: State<K, V>, op: Op<K, V>)
    requires Sound(u, s) && op.RefrushGroupOp?
    ensures Renewed(Step(u, s, op), op.name, op.now)
  {
    if s.groups.Some? {
      PutGroupLaw(u, s, op.name, op.now, op.name);
    }
  }

  lemma {:induction false} RunSound<V, K>(u: Setup<V>, s: State<K, V>, ops: seq<Op<K, V>>)
    requires Sound(u, s)
    ensures Sound(u, Run(u, s, ops)) && Run(u, s, ops).groups.Some? == s.groups.Some?
  {
    if ops != [] {
      RunSound(u, s, ops[..|ops| - 1]);
      StepSound(u, Run(u, s, ops[..|ops| - 1]), ops[|ops| - 1]);
    }
  }

  ghost predicate NoneBefore<K, V>(ops: seq<Op<K, V>>, from: nat, t: int) {
    forall i :: from <= i < |ops| ==> NotBefore(ops[i], t)
  }

  lemma NoneBeforePrefix<K, V>(ops: seq<Op<K, V>>, n: nat, from: nat, t: int)
    requires n <= |ops| && NoneBefore(ops, from, t)
    ensures NoneBefore(ops[..n], from, t)
  {
  }

  /** Once renewed, a group stays renewed whatever happens next, even if its record is evicted and
      made again. */
  lemma {:induction false} RunRenewed<V, K>(u: Setup<V>, s: State<K, V>, ops: seq<Op<K, V>>, j: nat)
    requires Sound(u, s) && j < |ops| && ops[j].RefrushGroupOp?
    requires NoneBefore(ops, j + 1, ops[j].now)
    ensures Renewed(Run(u, s, ops), ops[j].name, ops[j].now)
  {
    hide Sound, Renewed, Step;
    var n := |ops| - 1;
    var before := Run(u, s, ops[..n]);
    RunSound(u, s, ops[..n]);
    if j < n {
      assert NotBefore(ops[n], ops[j].now);
      NoneBeforePrefix(ops, n, j + 1, ops[j].now);
      assert ops[..n][j] == ops[j];
      RunRenewed(u, s, ops[..n], j);
      StepRenewed(u, before, ops[n], ops[j].name, ops[j].now);
    } else {
      RefreshRenews(u, before, ops[n]);
    }
  }

  // ----- the last writer -----

  function Puts<K, V>(ops: seq<Op<K, V>>): nat {
    if ops == [] then 0 else Puts(ops[..|ops| - 1]) + (if ops[|ops| - 1].PutOp? then 1 else 0)
  }

  /** The entry of the last `put` for the key, unless it was removed since. */
  function Latest<K(==), V>(interval: int, ops: seq<Op<K, V>>, key: K): Option<Entry<V>> {
    if ops == [] then None
    else
      var before := ops[..|ops| - 1];
      match ops[|ops| - 1]
      case PutOp(k, value, group, now) =>
        if k == key then Some(Entry(Puts(before), value, group, interval, now)) else Latest(interval, before, key)
      case RemoveOp(k) => if k == key then None else Latest(interval, before, key)
      case RemoveAllOp(_) => None
      case _ => Latest(interval, before, key)
  }

  /** What is cached under the key, if anything, is this entry. */
  ghost predicate HoldsOnly<K, V>(s: State<K, V>, key: K, latest: Option<Entry<V>>) {
    Lookup(s.cache, key).Some? ==> latest.Some? && Lookup(s.cache, key) == Some(latest)
  }

  lemma StepHoldsLatest<V, K>(u: Setup<V>, s: State<K, V>, op: Op<K, V>, latest: Option<Entry<V>>, q: K)
    requires Sound(u, s) && HoldsOnly(s, q, latest)
    ensures var t := Step(u, s, op);
      && t.made == s.made + (if op.PutOp? then 1 else 0)
      && HoldsOnly(t, q,
           if op.PutOp? && op.key == q then Some(Entry(s.made, op.value, op.group, u.expireInterval, op.now))
           else latest)
      && (op.RemoveAllOp? || (op.RemoveOp? && op.key == q) ==> Lookup(t.cache, q) == None)
  {
    match op
    case PutOp(key, value, group, now) =>
      PutLookup(u.cache, s.cache, key, Entry(s.made, value, group, u.expireInterval, now), q);
    case GetOp(key, now1, now2) => FetchCache(u, s, key, now1, now2, q);
    case GetGroupOp(name, now) => if s.groups.Some? { GetGroupLaw(u, s, name, now, name); }
    case RefrushGroupOp(name, now) =>
    case RemoveOp(key) => RemoveLaw(u.cache, s.cache, key, q);
    case RemoveAllOp(fired) =>
  }

  /** Everything cached was put last under its key. */
  lemma {:induction false} RunHoldsLatest<V, K>(u: Setup<V>, isGroup: bool, ops: seq<Op<K, V>>, q: K)
    ensures var s := Run(u, Initial(isGroup), ops);
      && Sound(u, s) && s.made == Puts(ops)
      && HoldsOnly(s, q, Latest(u.expireInterval, ops, q))
  {
    RunSound(u, Initial<K, V>(isGroup), ops);
    if ops != [] {
      var before := ops[..|ops| - 1];
      RunHoldsLatest(u, isGroup, before, q);
      StepHoldsLatest(u, Run(u, Initial(isGroup), before), ops[|ops| - 1], Latest(u.expireInterval, before, q), q);
    }
  }

  // ----- what put and remove answer -----

  /** The last entry put for a key was made before the next one. */
  lemma {:induction false} LatestIsOlder<K, V>(interval: int, ops: seq<Op<K, V>>, key: K)
    ensures Latest(interval, ops, key).Some? ==> Latest(interval, ops, key).value.id < Puts(ops)
  {
    if ops != [] {
      LatestIsOlder(interval, ops[..|ops| - 1], key);
    }
  }

  /** The cache of entries stays within its capacity. */
  lemma {:induction false} RunFits<V, K>(u: Setup<V>, isGroup: bool, ops: seq<Op<K, V>>)
    ensures Run(u, Initial<K, V>(isGroup), ops).cache.Size() <= u.cache.Limit()
  {
    if ops != [] {
      RunSound(u, Initial<K, V>(isGroup), ops[..|ops| - 1]);
      RunFits(u, isGroup, ops[..|ops| - 1]);
      StepFits(u, Run(u, Initial(isGroup), ops[..|ops| - 1]), ops[|ops| - 1]);
    }
  }

  lemma StepFits<V, K>(u: Setup<V>, s: State<K, V>, op: Op<K, V>)
    requires Sound(u, s) && s.cache.Size() <= u.cache.Limit()
    ensures Step(u, s, op).cache.Size() <= u.cache.Limit()
  {
    match op
    case PutOp(key, value, group, now) =>
      var e := Entry(s.made, value, group, u.expireInterval, now);
      CompareAndPutLaw(u.cache, s.cache, None, key, Some(e), false, key);
    case GetOp(key, now1, now2) =>
      FetchCacheIs(u, s, key, now1, now2);
      GetLaw(u.cache, s.cache, key, key);
      RemoveLaw(u.cache, M.Get(u.cache, s.cache, key).0, key, key);
    case GetGroupOp(name, now) =>
    case RefrushGroupOp(name, now) =>
    case RemoveOp(key) => RemoveLaw(u.cache, s.cache, key, key);
    case RemoveAllOp(fired) =>
  }

  /** After any run, `put` answers the value put last under the key, if its entry is still cached and not
      lost to the eviction of this very put; and null otherwise. */
  lemma PutAnswers<V, K>(u: Setup<V>, isGroup: bool, ops: seq<Op<K, V>>, key: K, value: Option<V>,
                         group: Option<CacheGroup>, now: int)
    ensures var s := Run(u, Initial(isGroup), ops);
      var found, latest := Lookup(s.cache, key), Latest(u.expireInterval, ops, key);
      && (found.Some? ==> latest.Some? && found == Some(latest))
      && Put(u, s, key, value, group, now).1 ==
         if found.None? || LosesItsKey(u.cache, s.cache, key) then None else latest.value.value
  {
    hide Sound, WellFormed, LosesItsKey;
    var s := Run(u, Initial(isGroup), ops);
    RunHoldsLatest(u, isGroup, ops, key);
    LatestIsOlder(u.expireInterval, ops, key);
    RunFits(u, isGroup, ops);
    var e := Entry(s.made, value, group, u.expireInterval, now);
    PutDisplaces(u, s, key, e);
  }

  /** An LRU put of a new object answers the object it displaces. */
  lemma PutDisplaces<V, K>(u: Setup<V>, s: State<K, V>, key: K, e: Entry<V>)
    requires Sound(u, s) && s.cache.Size() <= u.cache.Limit()
    requires var found := Lookup(s.cache, key); found.Some? ==> found.value != Some(e)
    ensures var found := Lookup(s.cache, key);
      StoreEntry(u, s, key, e).1 ==
      if found.None? || LosesItsKey(u.cache, s.cache, key) then None else found.value
  {
    PutReportsIff(u.cache, s.cache, key, Some(e));
    HasIsLookup(s.cache, key);
  }

  /** `remove` answers the value of the entry that was cached, and the key is gone. */
  lemma RemoveAnswers<V, K>(u: Setup<V>, s: State<K, V>, key: K)
    requires Sound(u, s)
    ensures var (t, value) := Remove(u, s, key);
      var found := Lookup(s.cache, key);
      && Lookup(t.cache, key) == None && t.groups == s.groups
      && value == if found.Some? && found.value.Some? then found.value.value.value else None
  {
    RemoveLaw(u.cache, s.cache, key, key);
    HasIsLookup(s.cache, key);
  }

  /** After any run with a clock that never goes back, an entry that `get` serves is the one put last
      under its key and not removed since; it has not expired; and its group object is no older than
      any refresh of that group so far. */
  lemma ServedIsFresh<V, K>(u: Setup<V>, isGroup: bool, ops: seq<Op<K, V>>, start: int, key: K, now1: int, now2: int)
    requires Ticking(ops + [GetOp(key, now1, now2)], start)
    ensures var r := Fetch(u, Run(u, Initial(isGroup), ops), key, now1, now2).1;
      r.Done? && r.value.Some? ==>
        var e := r.value.value;
        && Latest(u.expireInterval, ops, key) == Some(e)
        && Unexpired(e, now2)
        && (e.group.Some? ==>
              forall j :: 0 <= j < |ops| && ops[j].RefrushGroupOp? && ops[j].name == e.group.value.group ==>
                ops[j].now <= e.group.value.timestamp)
  {
    var s := Run(u, Initial(isGroup), ops);
    RunHoldsLatest(u, isGroup, ops, key);
    FetchIff(u, s, key, now1, now2);
    var r := Fetch(u, s, key, now1, now2).1;
    if r.Done? && r.value.Some? && r.value.value.group.Some? {
      var e := r.value.value;
      forall j | 0 <= j < |ops| && ops[j].RefrushGroupOp? && ops[j].name == e.group.value.group
        ensures ops[j].now <= e.group.value.timestamp
      {
        RefreshSeen(u, isGroup, ops, start, key, now1, now2, j);
      }
    }
  }

  /** The group current at a `get` is no older than an earlier refresh. */
  lemma RefreshSeen<V, K>(u: Setup<V>, isGroup: bool, ops: seq<Op<K, V>>, start: int, key: K, now1: int, now2: int,
                          j: nat)
    requires Ticking(ops + [GetOp(key, now1, now2)], start) && j < |ops| && ops[j].RefrushGroupOp?
    ensures var s := Run(u, Initial(isGroup), ops);
      s.groups.Some? ==> ops[j].now <= GroupNow(s, ops[j].name, now1).timestamp
  {
    var all := ops + [GetOp(key, now1, now2)];
    forall i | j < i < |all| ensures NotBefore(all[i], all[j].now) {
      TickingAfter(all, start, j, i);
    }
    assert all[|ops|] == GetOp(key, now1, now2);
    assert all[..|ops|] == ops;
    NoneBeforePrefix(all, |ops|, j + 1, all[j].now);
    RunRenewed(u, Initial<K, V>(isGroup), ops, j);
  }

  // ----- what a refresh does, and does not do -----

  /** A refresh invalidates an unexpired entry exactly when it falls at another time than the group
      object was made: two in the same millisecond cannot be told apart. */
  lemma RefreshInvalidatesIff<V, K>(u: Setup<V>, s: State<K, V>, g: string, t: int, key: K, e: Entry<V>, now1: int,
                                    now2: int)
    requires Sound(u, s) && s.groups.Some? && Lookup(s.cache, key) == Some(Some(e))
    requires e.group.Some? && e.group.value.group == g && Unexpired(e, now2)
    ensures Fetch(u, PutGroup(u, s, g, t), key, now1, now2).1 ==
            Done(if t == e.group.value.timestamp then Some(e) else None)
  {
    PutGroupLaw(u, s, g, t, g);
    FetchIff(u, PutGroup(u, s, g, t), key, now1, now2);
  }

  /** What is recorded under a name is a group of that name. */
  ghost predicate Named<K, V>(s: State<K, V>, g: string) {
    s.groups.Some? ==> GroupNow(s, g, 0).group == g
  }

  lemma {:induction false} RunNamed<V, K>(u: Setup<V>, isGroup: bool, ops: seq<Op<K, V>>, g: string)
    ensures Named(Run(u, Initial(isGroup), ops), g)
  {
    if ops != [] {
      var before := ops[..|ops| - 1];
      RunNamed(u, isGroup, before, g);
      RunSound(u, Initial<K, V>(isGroup), before);
      StepNamed(u, Run(u, Initial(isGroup), before), ops[|ops| - 1], g);
    }
  }

  lemma StepNamed<V, K>(u: Setup<V>, s: State<K, V>, op: Op<K, V>, g: string)
    requires Sound(u, s) && Named(s, g)
    ensures Named(Step(u, s, op), g)
  {
    match op
    case PutOp(key, value, group, now) =>
    case GetOp(key, now1, now2) => FetchGroups(u, s, key, now1, now2, g);
    case GetGroupOp(name, now) => if s.groups.Some? { GetGroupLaw(u, s, name, now, g); }
    case RefrushGroupOp(name, now) => if s.groups.Some? { PutGroupLaw(u, s, name, now, g); }
    case RemoveOp(key) =>
    case RemoveAllOp(fired) =>
  }

  /** `e` is cached under the key, and its group is current. */
  ghost predicate Servable<V, K>(u: Setup<V>, s: State<K, V>, key: K, e: Entry<V>, now: int) {
    && Sound(u, s) && s.groups.Some? && Lookup(s.cache, key) == Some(Some(e))
    && e.group.Some? && GroupNow(s, e.group.value.group, now) == e.group.value
  }

  lemma PutServable<V, K>(u: Setup<V>, s: State<K, V>, key: K, value: Option<V>, group: CacheGroup, now: int, now1: int)
    requires Sound(u, s) && s.groups.Some? && GroupNow(s, group.group, now1) == group
    ensures Servable(u, Put(u, s, key, value, Some(group), now).0, key,
                     Entry(s.made, value, Some(group), u.expireInterval, now), now1)
  {
    PutLookup(u.cache, s.cache, key, Entry(s.made, value, Some(group), u.expireInterval, now), key);
  }

  lemma ServableIsRead<V, K>(u: Setup<V>, s: State<K, V>, key: K, e: Entry<V>, now1: int, now2: int)
    requires Servable(u, s, key, e, now1)
    ensures Get(u, s, key, now1, now2).1 == Done(if Unexpired(e, now2) then e.value else None)
  {
    FetchIff(u, s, key, now1, now2);
  }

  lemma WrittenIsRead<V, K>(u: Setup<V>, s: State<K, V>, group: CacheGroup, key: K, value: Option<V>,
                            now: int, now1: int, now2: int)
    requires Sound(u, s) && s.groups.Some? && GroupNow(s, group.group, now1) == group
    ensures Get(u, Put(u, s, key, value, Some(group), now).0, key, now1, now2).1 ==
            Done(if InTime(now, u.expireInterval, now2) then value else None)
  {
    PutServable(u, s, key, value, group, now, now1);
    ServableIsRead(u, Put(u, s, key, value, Some(group), now).0, key,
                   Entry(s.made, value, Some(group), u.expireInterval, now), now1, now2);
  }

  /** After any run, a value put with the group that `getGroup` hands out is read back until it
      expires. */
  lemma ReadYourWrite<V, K>(u: Setup<V>, ops: seq<Op<K, V>>, g: string, key: K, value: Option<V>,
                            now0: int, now: int, now1: int, now2: int)
    ensures var s := Run(u, Initial(true), ops);
      s.groups.Some? &&
      var (t, group) := GetGroup(u, s, g, now0);
      Get(u, Put(u, t, key, value, Some(group), now).0, key, now1, now2).1 ==
      Done(if InTime(now, u.expireInterval, now2) then value else None)
  {
    var s := Run(u, Initial(true), ops);
    RunSound(u, Initial<K, V>(true), ops);
    RunNamed(u, true, ops, g);
    GetGroupLaw(u, s, g, now0, g);
    var (t, group) := GetGroup(u, s, g, now0);
    WrittenIsRead(u, t, group, key, value, now, now1, now2);
  }

  /** An interval so long that the deadline does not fit a `long` makes the entry invalid at once. */
  lemma ValidUntil<V>(e: Entry<V>, now: int)
    requires 0 <= e.checkTime <= now < 0x8000_0000_0000_0000
    requires -0x8000_0000_0000_0000 <= e.expireInterval < 0x8000_0000_0000_0000
    ensures Unexpired(e, now) <==>
            now < e.checkTime + e.expireInterval && e.checkTime + e.expireInterval < 0x8000_0000_0000_0000
  {
  }
}
