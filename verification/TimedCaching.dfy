/**
 The class `TimedCache` over two `LruCache` objects: every operation is shown to compute the
 function of `TimedModel` that carries its laws.
 */
module TimedCaching {
  import opened Common
  import opened LruCache
  import opened TimedModel
  import LruKeys
  import LruRuns
  import M = LruModel

  predicate Yes<T>(x: T) {
    true
  }

  predicate No<T>(x: T) {
    false
  }

  class TimedCache<K(==), V(==)> {
    const cache: LruCache<K, Entry<V>>
    const groupCache: LruCache?<string, CacheGroup>
    const expireInterval: int

    // how many entries have been made: the identity of the next one
    var made: nat

    constructor (capacity: int, expireInterval: int, isGroup: bool, hashCode: K -> int, hashString: string -> int)
      requires IsInt32(capacity) && SizingEnds(capacity)
      ensures Valid() && Now() == Initial(isGroup)
      ensures SetUp() == Setup(M.Config(capacity, true, Yes, No, No),
                               M.Config(if isGroup then capacity else 0, true, No, No, No), expireInterval)
    {
      hide LruCache.Valid;
      var c := NewCache(capacity, hashCode);
      var g := NewGroupCache(capacity, isGroup, hashString);
      cache, groupCache := c, g;
      this.expireInterval := expireInterval;
      made := 0;
    }

    static method NewCache(capacity: int, hashCode: K -> int) returns (c: LruCache<K, Entry<V>>)
      requires IsInt32(capacity) && SizingEnds(capacity)
      ensures c.Valid() && !c.isLruTailRemove && c.isEnableListeners && fresh(c.Repr())
      ensures c.model == M.Cache([], [], 0, []) && c.Cfg() == M.Config(capacity, true, Yes, No, No)
    {
      c := new LruCache(capacity, hashCode, Yes, No, No);
    }

    static method NewGroupCache(capacity: int, isGroup: bool, hashString: string -> int)
      returns (g: LruCache?<string, CacheGroup>)
      requires IsInt32(capacity) && SizingEnds(capacity)
      ensures isGroup <==> g != null
      ensures g != null ==> g.Valid() && !g.isLruTailRemove && g.isEnableListeners && fresh(g.Repr())
      ensures g != null ==> g.model == M.Cache([], [], 0, []) && g.Cfg() == M.Config(capacity, true, No, No, No)
    {
      g := null;
      if isGroup {
        g := new LruCache(capacity, hashString, No, No, No);
      }
    }

    // ----- the abstract state -----

    ghost function Caches(): set<object>
      reads cache, groupCache
    {
      cache.Repr() + (if groupCache != null then groupCache.Repr() else {})
    }

    /** Listeners stay enabled: nothing here disables them. */
    ghost function SetUp(): Setup<V> {
      Setup(M.Config(cache.capacity, true, cache.isCacheListener, cache.isSyncListener, cache.isLruListener),
            if groupCache == null then M.Config(0, true, No, No, No)
            else M.Config(groupCache.capacity, true,
                          groupCache.isCacheListener, groupCache.isSyncListener, groupCache.isLruListener),
            expireInterval)
    }

    ghost function Now(): State<K, V>
      reads `made, cache, groupCache
    {
      State(cache.model, if groupCache != null then Some(groupCache.model) else None, made)
    }

    ghost predicate CacheOK()
      reads cache.Repr()
    {
      cache.Valid() && !cache.isLruTailRemove && cache.isEnableListeners
    }

    ghost predicate GroupsOK()
      reads groupCache, if groupCache != null then groupCache.Repr() else {}
    {
      groupCache != null ==> groupCache.Valid() && !groupCache.isLruTailRemove && groupCache.isEnableListeners
    }

    ghost predicate Valid()
      reads cache.Repr(), groupCache, if groupCache != null then groupCache.Repr() else {}
    {
      CacheOK() && GroupsOK()
    }

    /** The two caches share no object, and this object is no part of them: the types differ. */
    lemma Apart()
      ensures this !in cache.Repr()
      ensures groupCache != null ==> this !in groupCache.Repr() && cache.Repr() !! groupCache.Repr()
    {
    }

    // ----- calls of the two caches -----

    /** `new Entry(...)`. */
    method NewEntry(value: Option<V>, group: Option<CacheGroup>, now: int) returns (entry: Entry<V>)
      requires Valid()
      modifies `made
      ensures Valid() && Now() == old(Now()).(made := old(made) + 1)
      ensures entry == Entry(old(made), value, group, expireInterval, now)
    {
      hide LruCache.Valid;
      Apart();
      entry := Entry(made, value, group, expireInterval, now);
      made := made + 1;
    }

    method StoreEntry(key: K, entry: Entry<V>) returns (left: Option<Entry<V>>)
      requires Valid()
      modifies cache.Repr()
      ensures Valid() && fresh(cache.items - old(cache.items))
      ensures (Now(), left) == TimedModel.StoreEntry(SetUp(), old(Now()), key, entry)
    {
      hide LruCache.Valid, M.CompareAndPut;
      Apart();
      left := cache.Put(key, Some(entry));
    }

    method TouchEntry(key: K) returns (found: Option<Entry<V>>)
      requires Valid()
      modifies cache.Repr()
      ensures Valid() && cache.items == old(cache.items)
      ensures groupCache != null ==> groupCache.items == old(groupCache.items)
      ensures (Now(), found) == TimedModel.TouchEntry(SetUp(), old(Now()), key)
    {
      hide LruCache.Valid, M.Get;
      Apart();
      found := cache.Get(key);
    }

    method DropEntry(key: K) returns (was: Option<Entry<V>>)
      requires Valid()
      modifies cache.Repr()
      ensures Valid() && cache.items <= old(cache.items)
      ensures groupCache != null ==> groupCache.items == old(groupCache.items)
      ensures (Now(), was) == TimedModel.DropEntry(SetUp(), old(Now()), key)
    {
      hide LruCache.Valid, M.Remove;
      Apart();
      was := cache.Remove(key);
    }

    method TouchGroup(name: string) returns (found: Option<CacheGroup>)
      requires Valid() && groupCache != null
      modifies groupCache.Repr()
      ensures Valid() && groupCache.items == old(groupCache.items) && cache.items == old(cache.items)
      ensures (Now(), found) == TimedModel.TouchGroup(SetUp(), old(Now()), name)
    {
      hide LruCache.Valid, M.Get;
      Apart();
      found := groupCache.Get(name);
    }

    /** `new CacheGroup(key, now)`, put into the group cache. */
    method PutNewGroup(name: string, now: int) returns (group: CacheGroup)
      requires Valid() && groupCache != null
      modifies groupCache.Repr()
      ensures Valid() && fresh(groupCache.items - old(groupCache.items)) && cache.items == old(cache.items)
      ensures group == CacheGroup(name, now) && Now() == PutGroup(SetUp(), old(Now()), name, now)
    {
      hide LruCache.Valid, M.CompareAndPut;
      Apart();
      group := CacheGroup(name, now);
      var _ := groupCache.Put(name, Some(group));
    }

    // ----- operations -----

    /** `put(key, value)`, and `put(key, value, group)` when a group is given. */
    method Put(key: K, value: Option<V>, group: Option<CacheGroup>, now: int) returns (oldValue: Option<V>)
      requires Valid()
      modifies `made, cache.Repr()
      ensures Valid() && fresh(cache.items - old(cache.items))
      ensures (Now(), oldValue) == TimedModel.Put(SetUp(), old(Now()), key, value, group, now)
    {
      hide LruCache.Valid, M.CompareAndPut, TimedModel.StoreEntry;
      var entry := NewEntry(value, group, now);
      var left := StoreEntry(key, entry);
      oldValue := if left.Some? then left.value.value else None;
    }

    /** `getGroup` when there is a group cache. */
    method FindGroup(name: string, now: int) returns (group: CacheGroup)
      requires Valid() && groupCache != null
      modifies groupCache.Repr()
      ensures Valid() && fresh(groupCache.items - old(groupCache.items)) && cache.items == old(cache.items)
      ensures (Now(), group) == TimedModel.GetGroup(SetUp(), old(Now()), name, now)
    {
      hide LruCache.Valid;
      var found := TouchGroup(name);
      if found.None? {
        group := PutNewGroup(name, now);
      } else {
        group := found.value;
      }
    }

    /** A missing group cache makes `getGroup` throw. */
    method GetGroup(name: string, now: int) returns (r: Outcome<CacheGroup>)
      requires Valid()
      modifies if groupCache != null then groupCache.Repr() else {}
      ensures Valid() && (groupCache != null ==> fresh(groupCache.items - old(groupCache.items)))
      ensures r.NullPointer? <==> groupCache == null
      ensures if groupCache == null then Now() == old(Now())
              else r.Done? && (Now(), r.value) == TimedModel.GetGroup(SetUp(), old(Now()), name, now)
    {
      if groupCache == null {
        return NullPointer;
      }
      var group := FindGroup(name, now);
      return Done(group);
    }

    method RefrushGroup(name: string, now: int) returns (r: Outcome<()>)
      requires Valid()
      modifies if groupCache != null then groupCache.Repr() else {}
      ensures Valid() && (groupCache != null ==> fresh(groupCache.items - old(groupCache.items)))
      ensures r.NullPointer? <==> groupCache == null
      ensures Now() == if groupCache == null then old(Now()) else PutGroup(SetUp(), old(Now()), name, now)
    {
      if groupCache == null {
        return NullPointer;
      }
      var _ := PutNewGroup(name, now);
      return Done(());
    }

    /** `get(key)`; the clock reads `now1` if a group has to be made and `now2` when validity is checked. */
    method Get(key: K, now1: int, now2: int) returns (r: Outcome<Option<V>>)
      requires Valid()
      modifies Caches()
      ensures Valid() && cache.items <= old(cache.items)
      ensures groupCache != null ==> fresh(groupCache.items - old(groupCache.items))
      ensures (Now(), r) == TimedModel.Get(SetUp(), old(Now()), key, now1, now2)
    {
      hide LruCache.Valid;
      Apart();
      var entry := TouchEntry(key);
      if entry.None? {
        return Done(None);
      }
      var e := entry.value;
      var current := true;
      if e.group.Some? {
        if groupCache == null {
          return NullPointer;
        }
        var group := FindGroup(e.group.value.group, now1);
        current := group == e.group.value;
      }
      if Unexpired(e, now2) && current {
        return Done(e.value);
      }
      var _ := DropEntry(key);
      return Done(None);
    }

    method Remove(key: K) returns (value: Option<V>)
      requires Valid()
      modifies cache.Repr()
      ensures Valid() && cache.items <= old(cache.items)
      ensures (Now(), value) == TimedModel.Remove(SetUp(), old(Now()), key)
    {
      hide LruCache.Valid;
      var entry := DropEntry(key);
      value := if entry.Some? then entry.value.value else None;
    }

    /** `removeAll`; `fired` is the order in which the entries are notified. */
    method RemoveAll() returns (ghost fired: seq<Entry<V>>)
      requires Valid()
      modifies cache.Repr()
      ensures Valid() && cache.items <= old(cache.items)
      ensures multiset(fired) == LruRuns.Held(SetUp().cache, old(cache.model))
      ensures Now() == TimedModel.RemoveAll(old(Now()), LruRuns.AllNotified(fired))
    {
      hide LruCache.Valid;
      Apart();
      fired := cache.Clear();
    }

    method ListKeys() returns (keys: seq<K>)
      requires Valid()
      ensures keys == LruKeys.KeyOrder(cache.model) && |keys| == cache.model.Size() && NoDup(keys)
    {
      keys := LruKeys.ListKeys(cache);
    }
  }
}
