/** Enumeration of the cache's keys, and how full its table can get. */
module LruKeys {
  import opened Common
  import opened LruLaws
  import opened LruModel
  import opened LruCache

  function KeysOf<K, V>(es: seq<Entry<K, V>>): (keys: seq<K>)
    ensures |keys| == |es|
  {
    seq(|es|, i requires 0 <= i < |es| => es[i].key)
  }

  /** The order of enumeration: list 2 from most to least recent, then list 1. */
  function KeyOrder<K, V>(c: Cache<K, V>): seq<K> {
    KeysOf(c.twice) + KeysOf(c.once)
  }

  /** The keys enumerated are exactly those cached. */
  lemma KeysAreCached<K, V>(c: Cache<K, V>, k: K)
    ensures k in KeyOrder(c) <==> Has(c, k)
  {
    if k in KeyOrder(c) {
      var i :| 0 <= i < |KeyOrder(c)| && KeyOrder(c)[i] == k;
      var n := |c.twice|;
      if i < n {
        assert c.twice[i].key == k;
      } else {
        assert c.once[i - n].key == k;
      }
    } else {
      forall i | 0 <= i < |c.twice| ensures c.twice[i].key != k {
        assert KeyOrder(c)[i] == c.twice[i].key;
      }
      forall i | 0 <= i < |c.once| ensures c.once[i].key != k {
        assert KeyOrder(c)[|c.twice| + i] == c.once[i].key;
      }
    }
  }

  class KeyIterator<K(==), V(==)> {
    const cache: LruCache<K, V>
    var item: Item?<K, V>
    var isHead1: bool
    ghost var pos: nat

    /** The iterator stands at position `pos` of list 2 followed by list 1. */
    ghost predicate Positioned()
      reads this, cache.list1`order, cache.list2`order
    {
      var all := cache.list2.order + cache.list1.order;
      && pos <= |all|
      && item == (if pos < |all| then all[pos] else null)
      && (isHead1 <==> pos >= |cache.list2.order|)
    }

    /** `init`. */
    constructor (cache: LruCache<K, V>)
      requires cache.Valid()
      ensures this.cache == cache && Positioned() && pos == 0
    {
      this.cache := cache;
      var first := cache.list2.head;
      item, isHead1 := first, false;
      if first == null {
        item, isHead1 := cache.list1.head, true;
      }
      pos := 0;
    }

    method HasNext() returns (more: bool)
      requires Positioned()
      ensures more <==> pos < |cache.list2.order| + |cache.list1.order|
    {
      more := item != null;
    }

    /** Where an item of the enumeration points next. */
    lemma NextLink()
      requires cache.Valid() && Positioned() && item != null
      ensures var all := cache.list2.order + cache.list1.order;
        && item.key == KeyOrder(cache.model)[pos]
        && item.nextLru == (if pos == |cache.list2.order| - 1 || pos == |all| - 1 then null else all[pos + 1])
    {
      var n := |cache.list2.order|;
      if pos < n {
        assert Threaded(cache.list2.order, cache.list2.nodes, pos);
        assert Shown(cache.model.twice, cache.list2.order, cache.list2.nodes, pos);
      } else {
        assert Threaded(cache.list1.order, cache.list1.nodes, pos - n);
        assert Shown(cache.model.once, cache.list1.order, cache.list1.nodes, pos - n);
      }
    }

    /** Returns the keys of `KeyOrder` one after the other, then null for ever. */
    method Next() returns (key: Option<K>)
      requires cache.Valid() && Positioned()
      modifies this
      ensures Positioned()
      ensures var all := KeyOrder(cache.model);
        if old(pos) < |all| then key == Some(all[old(pos)]) && pos == old(pos) + 1
        else key == None && pos == old(pos)
    {
      var entry := item;
      if item != null {
        NextLink();
        item := item.nextLru;
      }
      if item == null && !isHead1 {
        isHead1 := true;
        item := cache.list1.head;
      }
      if entry != null {
        pos := pos + 1;
        return Some(entry.key);
      }
      return None;
    }
  }

  /** `TimedCache.listKeys`: every cached key exactly once. */
  method ListKeys<K(==), V(==)>(cache: LruCache<K, V>) returns (keys: seq<K>)
    requires cache.Valid()
    ensures keys == KeyOrder(cache.model) && |keys| == cache.model.Size()
    ensures NoDup(keys)
  {
    KeysAreDistinct(cache);
    ghost var all := KeyOrder(cache.model);
    var ki := new KeyIterator(cache);
    keys := [];
    var more := ki.HasNext();
    while more
      invariant ki.Positioned() && ki.cache == cache
      invariant ki.pos <= |all| && keys == all[..ki.pos]
      invariant more <==> ki.pos < |all|
      decreases |all| - ki.pos
    {
      var key := ki.Next();
      keys := keys + [key.value];
      more := ki.HasNext();
    }
  }

  lemma KeysAreDistinct<K, V>(cache: LruCache<K, V>)
    requires cache.Valid()
    ensures NoDup(KeyOrder(cache.model))
  {
    var keys := KeyOrder(cache.model);
    forall i, j | 0 <= i < j < |keys| ensures At(keys, i) != At(keys, j) {
      var x, y := ItemAt(cache, i), ItemAt(cache, j);
      ItemAtIs(cache, i);
      ItemAtIs(cache, j);
      var n := |cache.list2.order|;
      if j < n {
        DistinctFrom(cache.list2.order, i, j);
      } else if i >= n {
        DistinctFrom(cache.list1.order, i - n, j - n);
      }
      cache.KeysUnique(x);
    }
  }

  ghost function ItemAt<K, V>(cache: LruCache<K, V>, i: nat): Item<K, V>
    requires i < |cache.list2.order| + |cache.list1.order|
    reads cache.list1, cache.list2
  {
    (cache.list2.order + cache.list1.order)[i]
  }

  lemma ItemAtIs<K, V>(cache: LruCache<K, V>, i: nat)
    requires cache.Valid() && i < cache.model.Size()
    ensures ItemAt(cache, i) in cache.items && ItemAt(cache, i).key == KeyOrder(cache.model)[i]
    ensures ItemAt(cache, i) in (if i < |cache.list2.order| then cache.list2.nodes else cache.list1.nodes)
  {
    var n := |cache.list2.order|;
    if i < n {
      assert Shown(cache.model.twice, cache.list2.order, cache.list2.nodes, i);
    } else {
      assert Shown(cache.model.once, cache.list1.order, cache.list1.nodes, i - n);
    }
  }

  // ----- the load of the table -----

  ghost function UsedBuckets<K, V>(cache: LruCache<K, V>, n: nat): set<int>
    requires n <= cache.entries.Length
    reads cache.entries
  {
    set b | 0 <= b < n && cache.entries[b] != null
  }

  ghost function ItemsBelow<K, V>(cache: LruCache<K, V>, n: nat): set<Item<K, V>>
    requires 1 <= cache.prime <= cache.entries.Length
    reads cache
  {
    set x | x in cache.items && cache.BucketOf(x.key) < n
  }

  lemma {:induction false} EachUsedBucketHasAnItem<K, V>(cache: LruCache<K, V>, n: nat)
    requires cache.HashOK() && n <= cache.entries.Length
    ensures |UsedBuckets(cache, n)| <= |ItemsBelow(cache, n)|
  {
    if n == 0 {
      assert UsedBuckets(cache, 0) == {};
    } else {
      EachUsedBucketHasAnItem(cache, n - 1);
      var before, after := ItemsBelow(cache, n - 1), ItemsBelow(cache, n);
      if cache.entries[n - 1] == null {
        assert UsedBuckets(cache, n) == UsedBuckets(cache, n - 1);
        Subset(before, after);
      } else {
        var x := cache.entries[n - 1];
        assert cache.BucketOK(n - 1);
        assert Hooked(cache.buckets[n - 1], cache.items, 0);
        assert x in cache.buckets[n - 1];
        assert UsedBuckets(cache, n) == UsedBuckets(cache, n - 1) + {n - 1};
        Subset(before + {x}, after);
      }
    }
  }

  lemma Subset<T>(a: set<T>, b: set<T>)
    requires a <= b
    ensures |a| <= |b|
  {
    assert b == a + (b - a);
  }

  lemma NodesFit<K, V>(order: seq<Item<K, V>>, nodes: set<Item<K, V>>, j: nat)
    requires j <= |order|
    ensures |Elements(order, j)| <= |order| - j
    decreases |order| - j
  {
    if j < |order| {
      NodesFit(order, nodes, j + 1);
    }
  }

  lemma ListFits<K, V>(list: LruList<K, V>)
    requires list.Valid()
    ensures |list.nodes| <= |list.order|
  {
    NodesFit(list.order, list.nodes, 0);
    ElementsAll(list.order);
    Subset(list.nodes, Elements(list.order, 0));
  }

  /** No more buckets are used than there are items; so the table, which is meant always to remain at
      least half empty, does so up to a capacity of 2^29. */
  lemma HalfEmpty<K, V>(cache: LruCache<K, V>)
    requires cache.Valid()
    ensures |UsedBuckets(cache, cache.entries.Length)| <= cache.model.Size()
    ensures cache.capacity <= 0x2000_0000 ==> 2 * |UsedBuckets(cache, cache.entries.Length)| <= cache.entries.Length
  {
    var n := cache.entries.Length;
    EachUsedBucketHasAnItem(cache, n);
    Subset(ItemsBelow(cache, n), cache.items);
    ListFits(cache.list1);
    ListFits(cache.list2);
  }

  /** The bucket of a cached key is used. */
  lemma CachedIsUsed<K, V>(cache: LruCache<K, V>, key: K)
    requires cache.Valid() && Has(cache.model, key)
    ensures cache.BucketOf(key) in UsedBuckets(cache, cache.entries.Length)
  {
    var b := cache.BucketOf(key);
    if cache.entries[b] == null {
      assert cache.BucketOK(b);
      forall x | x in cache.items ensures x.key != key {
        assert cache.Homed(x);
      }
      cache.AbsentKey(key);
    }
  }

  /** While there is room a put loses no key. */
  lemma PutKeepsKeys<V, K>(cfg: Config<V>, c: Cache<K, V>, k: K, v: Option<V>, q: K)
    requires WellFormed(cfg, c) && c.Size() < cfg.capacity
    ensures var d := CompareAndPut(cfg, c, None, k, v, false).0;
      WellFormed(cfg, d) && d.Size() <= c.Size() + 1 && (q == k || Has(c, q) ==> Has(d, q))
  {
    EvictLaw(cfg, c);
    StoreLaw(cfg, c, None, k, v, false, q);
    CompareAndPutLaw(cfg, c, None, k, v, false, q);
  }

  function Itself(k: int): int {
    k
  }

  predicate NoListener(v: int) {
    false
  }

  ghost predicate HasFirst<V>(cfg: Config<V>, c: Cache<int, V>, n: nat) {
    WellFormed(cfg, c) && c.Size() <= n && forall j :: 0 <= j < n ==> Has(c, j)
  }

  method PutNext(cache: LruCache<int, int>, k: nat)
    requires cache.Valid() && !cache.isLruTailRemove && k < cache.capacity && HasFirst(cache.Cfg(), cache.model, k)
    modifies cache.Repr()
    ensures cache.Valid() && !cache.isLruTailRemove && fresh(cache.items - old(cache.items))
    ensures cache.Cfg() == old(cache.Cfg()) && HasFirst(cache.Cfg(), cache.model, k + 1)
  {
    hide LruCache.Valid;
    ghost var before := cache.model;
    var _ := cache.Put(k, Some(0));
    forall j | 0 <= j <= k ensures Has(cache.model, j) {
      PutKeepsKeys(cache.Cfg(), before, k, Some(0), j);
    }
    PutKeepsKeys(cache.Cfg(), before, k, Some(0), k);
  }

  lemma NineUsed(cache: LruCache<int, int>)
    requires cache.Valid() && HasFirst(cache.Cfg(), cache.model, 9)
    requires cache.entries.Length == 16 && cache.prime == 13 && cache.hashCode == Itself
    ensures 2 * |UsedBuckets(cache, cache.entries.Length)| > cache.entries.Length
  {
    hide LruCache.Valid;
    var used := UsedBuckets(cache, cache.entries.Length);
    forall j | 0 <= j < 9 ensures j in used {
      CachedIsUsed(cache, j);
    }
    Subset({0, 1, 2, 3, 4, 5, 6, 7, 8}, used);
  }

  /** Beyond that it does not: from a capacity of 2^30 on the constructor ends up with 16 slots, and nine
      keys in buckets of their own leave the table more than half full. */
  method Overfull(capacity: int) returns (cache: LruCache<int, int>)
    requires 0x4000_0000 <= capacity && IsInt32(capacity)
    ensures cache.Valid() && cache.capacity == capacity
    ensures 2 * |UsedBuckets(cache, cache.entries.Length)| > cache.entries.Length
  {
    cache := new LruCache(capacity, Itself, NoListener, NoListener, NoListener);
    hide LruCache.Valid;
    var k := 0;
    while k < 9
      invariant 0 <= k <= 9 && fresh(cache.Repr()) && cache.Valid() && !cache.isLruTailRemove
      invariant HasFirst(cache.Cfg(), cache.model, k)
    {
      PutNext(cache, k);
      k := k + 1;
    }
    NineUsed(cache);
  }
}
