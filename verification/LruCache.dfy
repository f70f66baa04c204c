/**
 The `LruCache` class itself: a chained hash table and two intrusive doubly linked
 lists sharing the same nodes.  Every method is proved to compute the function of
 `LruModel` that gives its meaning and to keep the representation invariant.
 */
module LruCache {
  import opened Common
  import opened LruModel
  import LruLaws
  import LruRuns
  import Primes

  /** A node of the hash table and of the recency lists. */
  class Item<K, V> {
    const key: K
    var value: Option<V>
    var nextHash: Item?<K, V>
    var prevLru: Item?<K, V>
    var nextLru: Item?<K, V>
    var lruCounter: int
    var hitCount: int

    constructor (key: K, value: Option<V>)
      ensures this.key == key && this.value == value && hitCount == 1 && lruCounter == 0
      ensures nextHash == null && prevLru == null && nextLru == null
    {
      this.key, this.value := key, value;
      nextHash, prevLru, nextLru := null, null, null;
      lruCounter, hitCount := 0, 1;
    }
  }

  // ----- shapes -----

  /** The node at position `i` of `s` points to its neighbours. */
  ghost predicate Threaded<K, V>(s: seq<Item<K, V>>, S: set<Item<K, V>>, i: nat)
    requires i < |s|
    reads S`prevLru, S`nextLru
  {
    && s[i] in S
    && s[i].prevLru == (if i == 0 then null else s[i - 1])
    && s[i].nextLru == (if i == |s| - 1 then null else s[i + 1])
  }

  /** `s`, whose nodes are exactly `S`, is the doubly linked list from `head` to `tail`. */
  ghost predicate Linked<K, V>(s: seq<Item<K, V>>, S: set<Item<K, V>>, head: Item?<K, V>, tail: Item?<K, V>)
    reads S`prevLru, S`nextLru
  {
    && NoDup(s)
    && (forall x :: x in S ==> x in s)
    && (forall i :: 0 <= i < |s| ==> Threaded(s, S, i))
    && head == (if s == [] then null else s[0])
    && tail == (if s == [] then null else s[|s| - 1])
  }

  /** The node at position `i` of a hash chain points to its successor. */
  ghost predicate Hooked<K, V>(s: seq<Item<K, V>>, S: set<Item<K, V>>, i: nat)
    requires i < |s|
    reads S`nextHash
  {
    s[i] in S && s[i].nextHash == (if i == |s| - 1 then null else s[i + 1])
  }

  /** `s`, among the nodes `S`, is the hash chain that starts at `first`. */
  ghost predicate Chained<K, V>(s: seq<Item<K, V>>, S: set<Item<K, V>>, first: Item?<K, V>)
    reads S`nextHash
  {
    && NoDup(s)
    && (forall i :: 0 <= i < |s| ==> Hooked(s, S, i))
    && first == (if s == [] then null else s[0])
  }

  /** The node before `x` in a chain, null for the first one. */
  ghost function Predecessor<K, V>(chain: seq<Item<K, V>>, x: Item<K, V>): Item?<K, V>
    requires x in chain
  {
    var k := Position(chain, x);
    if k == 0 then null else chain[k - 1]
  }

  /** Entry `i` of the model says what the item at position `i` of a list holds. */
  ghost predicate Shown<K, V>(es: seq<Entry<K, V>>, order: seq<Item<K, V>>, nodes: set<Item<K, V>>, i: nat)
    requires i < |order| && |es| == |order|
    reads nodes`value, nodes`lruCounter
  {
    && order[i] in nodes
    && es[i].key == order[i].key && es[i].value == order[i].value && es[i].stamp == order[i].lruCounter
  }

  ghost predicate Shows<K, V>(es: seq<Entry<K, V>>, order: seq<Item<K, V>>, nodes: set<Item<K, V>>)
    reads nodes`value, nodes`lruCounter
  {
    |es| == |order| && forall i :: 0 <= i < |order| ==> Shown(es, order, nodes, i)
  }

  /** A key's place in the model is its item's place in the list. */
  lemma ShownAt<K, V>(es: seq<Entry<K, V>>, order: seq<Item<K, V>>, nodes: set<Item<K, V>>, item: Item<K, V>)
    requires Shows(es, order, nodes) && NoDup(order) && item in order
    requires forall x :: x in nodes && x.key == item.key ==> x == item
    ensures IndexOf(es, item.key) == Position(order, item)
    ensures item in nodes && es[Position(order, item)].value == item.value
    ensures es[Position(order, item)].stamp == item.lruCounter
  {
    assert Shown(es, order, nodes, Position(order, item));
    var i := IndexOf(es, item.key);
    assert Shown(es, order, nodes, i);
    PositionIs(order, i);
  }

  lemma ShownKey<K, V>(es: seq<Entry<K, V>>, order: seq<Item<K, V>>, nodes: set<Item<K, V>>, key: K)
    requires Shows(es, order, nodes) && IndexOf(es, key) < |es|
    ensures exists x :: x in nodes && x.key == key
  {
    assert Shown(es, order, nodes, IndexOf(es, key));
  }

  /** Taking an item out of a list takes its entry out of the model, provided the others still are
      what the model says. */
  lemma ShowsWithout<K, V>(es: seq<Entry<K, V>>, order: seq<Item<K, V>>, nodes: set<Item<K, V>>, item: Item<K, V>)
    requires |es| == |order| && NoDup(order) && item in order
    requires forall i :: 0 <= i < |order| && order[i] != item ==> Shown(es, order, nodes, i)
    ensures Shows(RemoveAt(es, Position(order, item)), Without(order, item), nodes - {item})
  {
    var k, r := Position(order, item), Without(order, item);
    WithoutAt(order, item);
    forall i | 0 <= i < |r| ensures Shown(RemoveAt(es, k), r, nodes - {item}, i) {
      var j := if i < k then i else i + 1;
      assert r[i] != item && order[j] == r[i];
      assert Shown(es, order, nodes, j);
    }
  }

  /** Putting an item in front of a list puts its entry in front of the model. */
  lemma ShowsCons<K, V>(e: Entry<K, V>, es: seq<Entry<K, V>>, item: Item<K, V>, order: seq<Item<K, V>>,
                        nodes: set<Item<K, V>>)
    requires Shows(es, order, nodes)
    requires e.key == item.key && e.value == item.value && e.stamp == item.lruCounter
    ensures Shows([e] + es, [item] + order, nodes + {item})
  {
    forall i | 0 <= i < |[item] + order| ensures Shown([e] + es, [item] + order, nodes + {item}, i) {
      if i > 0 {
        assert Shown(es, order, nodes, i - 1);
      }
    }
  }

  /** Moving an item to the front does the same to its entry. */
  lemma ShowsMoved<K, V>(e: Entry<K, V>, es: seq<Entry<K, V>>, item: Item<K, V>, order: seq<Item<K, V>>,
                         nodes: set<Item<K, V>>)
    requires |es| == |order| && NoDup(order) && item in order && item in nodes
    requires forall i :: 0 <= i < |order| && order[i] != item ==> Shown(es, order, nodes, i)
    requires e.key == item.key && e.value == item.value && e.stamp == item.lruCounter
    ensures Shows([e] + RemoveAt(es, Position(order, item)), [item] + Without(order, item), nodes)
  {
    ShowsWithout(es, order, nodes, item);
    ShowsCons(e, RemoveAt(es, Position(order, item)), item, Without(order, item), nodes - {item});
    assert nodes - {item} + {item} == nodes;
  }

  /** One of the two recency lists: the fields `_head1`, `_tail1`, `_size1` of the cache, or
      their namesakes for list 2. */
  class LruList<K, V> {
    var head: Item?<K, V>
    var tail: Item?<K, V>
    var size: int

    // the items from head to tail, as a sequence and as a set
    ghost var order: seq<Item<K, V>>
    ghost var nodes: set<Item<K, V>>

    ghost predicate Valid()
      reads this, nodes`prevLru, nodes`nextLru
    {
      Linked(order, nodes, head, tail) && size == |order|
    }

    constructor ()
      ensures Valid() && order == [] && nodes == {}
    {
      head, tail, size := null, null, 0;
      order, nodes := [], {};
    }

    /** The two neighbours of `item` are made to skip it. */
    method Bypass(item: Item<K, V>, ghost k: int)
      requires Valid() && 0 <= k < |order| && item == order[k]
      modifies `head, `tail, nodes`prevLru, nodes`nextLru
      ensures item.prevLru == null && item.nextLru == null
      ensures forall x :: x in nodes && x != item ==>
        && x.prevLru == (if x == old(item.nextLru) then old(item.prevLru) else old(x.prevLru))
        && x.nextLru == (if x == old(item.prevLru) then old(item.nextLru) else old(x.nextLru))
      ensures head == (if k == 0 then old(item.nextLru) else old(head))
      ensures tail == (if k == |order| - 1 then old(item.prevLru) else old(tail))
    {
      assert Threaded(order, nodes, k);
      assert k > 0 ==> Threaded(order, nodes, k - 1);
      assert k < |order| - 1 ==> Threaded(order, nodes, k + 1);
      DistinctFrom(order, k - 1, k + 1);
      DistinctFrom(order, k - 1, k);
      DistinctFrom(order, k, k + 1);
      var prevLru := item.prevLru;
      var nextLru := item.nextLru;
      item.prevLru := null;
      item.nextLru := null;
      if prevLru != null {
        prevLru.nextLru := nextLru;
      } else {
        head := nextLru;
      }
      if nextLru != null {
        nextLru.prevLru := prevLru;
      } else {
        tail := prevLru;
      }
    }

    /** Takes `item` out of the list. */
    method Unlink(item: Item<K, V>)
      requires Valid() && item in nodes
      modifies this, nodes`prevLru, nodes`nextLru
      ensures Valid() && order == Without(old(order), item) && nodes == old(nodes) - {item}
      ensures item.prevLru == null && item.nextLru == null
    {
      ghost var k: int, s := Position(order, item), order;
      WithoutAt(s, item);
      assert Threaded(s, nodes, k);
      Bypass(item, k);
      size := size - 1;
      order, nodes := Without(s, item), nodes - {item};
      forall i | 0 <= i < |order| ensures Threaded(order, nodes, i) {
        var j := if i < k then i else i + 1;
        assert old(Threaded(s, nodes, j));
        DistinctFrom(s, j, k);
        DistinctFrom(s, j, k - 1);
        DistinctFrom(s, j, k + 1);
        assert order[i] == s[j] && s[j] != item;
      }
    }

    /** Puts `item` at the head of the list. */
    method PushFront(item: Item<K, V>)
      requires Valid() && item !in nodes
      modifies this, nodes`prevLru, item`prevLru, item`nextLru
      ensures Valid() && order == [item] + old(order) && nodes == old(nodes) + {item}
    {
      ghost var s, r := order, [item] + order;
      assert head != null ==> Threaded(s, nodes, 0);
      item.prevLru := null;
      item.nextLru := head;
      if head != null {
        head.prevLru := item;
      } else {
        tail := item;
      }
      head := item;
      size := size + 1;
      order, nodes := r, nodes + {item};
      forall i, j | 0 <= i < j < |r| ensures At(r, i) != At(r, j) {
        assert old(Threaded(s, nodes, j - 1));
        assert i > 0 ==> At(s, i - 1) != At(s, j - 1);
      }
      forall i | 0 <= i < |r| ensures Threaded(r, nodes, i) {
        if i > 0 {
          assert old(Threaded(s, nodes, i - 1));
          assert i > 1 ==> At(s, i - 1) != At(s, 0);
        }
      }
    }
  }

  function Pow2(n: nat): nat {
    if n == 0 then 1 else 2 * Pow2(n - 1)
  }

  lemma Pow2Grows(m: nat, n: nat)
    requires m < n
    ensures 2 * Pow2(m) <= Pow2(n)
  {
    if m + 1 < n {
      Pow2Grows(m, n - 1);
    }
  }

  lemma Pow2Of30()
    ensures Pow2(4) == 16 && Pow2(30) == 0x4000_0000
  {
    assert Pow2(2) == 4;
    assert Pow2(5) == 32;
    assert Pow2(10) == 0x400;
    assert Pow2(15) == 0x8000;
    assert Pow2(20) == 0x10_0000;
    assert Pow2(25) == 0x200_0000;
  }

  lemma EvictStep<V, K>(cfg: Config<V>, c: Cache<K, V>)
    ensures var d := LruModel.RemoveTail(cfg, c);
      if cfg.capacity <= c.Size() && Victim(cfg, c).Some? then Evict(cfg, c) == Evict(cfg, d) && d.Size() < c.Size()
      else Evict(cfg, c) == c
  {
  }

  lemma {:induction false} EvictMakesRoom<V, K>(cfg: Config<V>, c: Cache<K, V>)
    ensures Evict(cfg, c).Size() < cfg.Limit()
    decreases c.Size()
  {
    EvictStep(cfg, c);
    if cfg.capacity <= c.Size() && Victim(cfg, c).Some? {
      EvictMakesRoom(cfg, LruModel.RemoveTail(cfg, c));
    }
  }

  /** The eviction loop of a forgotten cache gets nowhere: every round leaves both lists as they were. */
  lemma {:induction false} ForgottenKeepsLists<V, K>(cfg: Config<V>, c: Cache<K, V>, n: nat)
    ensures var d := EvictedForgotten(cfg, c, n);
      d.once == c.once && d.twice == c.twice && d.clock == c.clock && Victim(cfg, d) == Victim(cfg, c)
  {
    if n > 0 {
      ForgottenKeepsLists(cfg, c, n - 1);
    }
  }

  /** `listeners` accounts for the values that have left the cache since it was `start`. */
  ghost predicate ClearedSince<V, K>(cfg: Config<V>, start: Cache<K, V>, c: Cache<K, V>, listeners: seq<V>) {
    && multiset(listeners) + LruRuns.Held(cfg, c) == LruRuns.Held(cfg, start)
    && c.clock + c.Size() == start.clock + start.Size()
    && c.events == start.events
  }

  lemma ClearedNothing<V, K>(cfg: Config<V>, c: Cache<K, V>)
    ensures ClearedSince(cfg, c, c, [])
  {
  }

  lemma ClearedStep<V, K>(cfg: Config<V>, start: Cache<K, V>, c: Cache<K, V>, listeners: seq<V>, key: K)
    requires ClearedSince(cfg, start, c, listeners) && Has(c, key)
    ensures var value := ValueOf(c, key);
      ClearedSince(cfg, start, Drop(c, key),
        if value.Some? && cfg.isCacheListener(value.value) then listeners + [value.value] else listeners)
  {
    LruRuns.HeldDrop(cfg, c, key);
  }

  // ----- the size of the table -----

  predicate IsInt32(x: int) {
    -0x8000_0000 <= x < 0x8000_0000
  }

  /** Java's `int` arithmetic. */
  function Wrap32(x: int): (r: int)
    ensures IsInt32(r)
  {
    (x + 0x8000_0000) % 0x1_0000_0000 - 0x8000_0000
  }

  lemma WrapTwice(x: int)
    requires IsInt32(x)
    ensures Wrap32(2 * x) ==
      if x >= 0x4000_0000 then 2 * x - 0x1_0000_0000 else if x < -0x4000_0000 then 2 * x + 0x1_0000_0000 else 2 * x
  {
  }

  /** The variable of the sizing loop after `n` doublings. */
  function Doubled(n: nat): int {
    if n == 0 then 16 else Wrap32(2 * Doubled(n - 1))
  }

  /** The guard that decides whether the sizing loop ends: twice the capacity, as an `int`, is a size
      the doublings reach before they overflow to 0. */
  predicate SizingEnds(initialCapacity: int) {
    Wrap32(2 * initialCapacity) <= 0x4000_0000
  }

  lemma {:induction false} DoubledIs(n: nat)
    ensures Doubled(n) == if n <= 26 then Pow2(n + 4) else if n == 27 then -0x8000_0000 else 0
    ensures Doubled(n) <= 0x4000_0000
  {
    hide Wrap32;
    Pow2Of30();
    if n > 0 {
      DoubledIs(n - 1);
      WrapTwice(Doubled(n - 1));
    }
    if n < 26 {
      Pow2Grows(n + 4, 30);
    }
  }

  /** The sizing loop ends exactly when some doubling is no longer below twice the capacity. */
  lemma SizingEndsIff(initialCapacity: int)
    ensures SizingEnds(initialCapacity) <==> exists n: nat :: Doubled(n) >= Wrap32(2 * initialCapacity)
  {
    if SizingEnds(initialCapacity) {
      DoubledIs(26);
      Pow2Of30();
      assert Doubled(26) >= Wrap32(2 * initialCapacity);
    }
    if n: nat :| Doubled(n) >= Wrap32(2 * initialCapacity) {
      DoubledIs(n);
    }
  }

  /** The capacities for which the constructor never returns. */
  lemma SizingHangsFor(initialCapacity: int)
    requires IsInt32(initialCapacity)
    ensures !SizingEnds(initialCapacity) <==>
            0x2000_0000 < initialCapacity < 0x4000_0000 || -0x6000_0000 < initialCapacity < -0x4000_0000
  {
  }

  /** The sizing loop: the least power of two from 16 up that is at least twice the capacity, as far as
      an `int` can tell.  It really is twice the capacity exactly up to a capacity of 2^29. */
  method TableSize(initialCapacity: int) returns (size: int, ghost n: nat)
    requires IsInt32(initialCapacity) && SizingEnds(initialCapacity)
    ensures size == Doubled(n) == Pow2(n + 4) && 16 <= size <= 0x4000_0000
    ensures size >= Wrap32(2 * initialCapacity) && (n == 0 || Doubled(n - 1) < Wrap32(2 * initialCapacity))
    ensures 2 * initialCapacity <= size <==> initialCapacity <= 0x2000_0000
    ensures initialCapacity >= 0x4000_0000 ==> size == 16
  {
    hide Wrap32;
    WrapTwice(initialCapacity);
    Pow2Of30();
    size, n := 16, 0;
    while size < Wrap32(2 * initialCapacity)
      invariant n <= 26 && size == Doubled(n) == Pow2(n + 4) && 16 <= size <= 0x4000_0000
      invariant n == 0 || 16 <= Doubled(n - 1) < Wrap32(2 * initialCapacity)
      decreases Wrap32(2 * initialCapacity) - size
    {
      DoubledIs(26);
      DoubledIs(n + 1);
      assert n < 26;
      size, n := Wrap32(size * 2), n + 1;
    }
  }

  /** The modulus of the hash index, for a table of at least 16 slots. */
  method Modulus(size: int) returns (prime: int)
    requires size >= 16
    ensures 1 <= prime <= size && (size == 16 ==> prime == 13)
  {
    prime := Primes.GetBiggestPrime(size);
    Primes.ThirteenBelow16(prime);
  }

  class LruCache<K(==), V(==)> {
    const capacity: int
    const capacity1: int
    const entries: array<Item?<K, V>>
    const prime: int
    const locks: int
    const lruTimeout: int

    // what the key and value classes contribute
    const hashCode: K -> int
    const isCacheListener: V -> bool
    const isSyncListener: V -> bool
    const isLruListener: V -> bool

    var isEnableListeners: bool
    const list1: LruList<K, V>
    const list2: LruList<K, V>
    var isLruTailRemove: bool
    var lruCounter: int

    // the listener calls made so far
    var events: seq<Event<V>>

    // the hash chains, as sequences and as sets
    ghost var buckets: seq<seq<Item<K, V>>>
    ghost var items: set<Item<K, V>>
    ghost var model: Cache<K, V>

    constructor (initialCapacity: int, hashCode: K -> int,
                 isCacheListener: V -> bool, isSyncListener: V -> bool, isLruListener: V -> bool)
      requires IsInt32(initialCapacity) && SizingEnds(initialCapacity)
      ensures Valid() && !isLruTailRemove && isEnableListeners
      ensures items == {} && fresh(entries) && fresh(list1) && fresh(list2)
      ensures model == Cache([], [], 0, [])
      ensures Cfg() == Config(initialCapacity, true, isCacheListener, isSyncListener, isLruListener)
      ensures this.hashCode == hashCode
      ensures initialCapacity >= 0x4000_0000 ==> entries.Length == 16 && prime == 13
    {
      hide Wrap32, Doubled, Pow2;
      var size, n := TableSize(initialCapacity);
      entries := new Item?<K, V>[size](_ => null);
      var p := Modulus(size);
      prime := p;
      locks := size / 8 + 1;
      capacity := initialCapacity;
      capacity1 := if initialCapacity >= 0 then initialCapacity / 2 else -(-initialCapacity / 2);
      lruTimeout := if initialCapacity > 32 then initialCapacity / 32 else 1;
      this.hashCode := hashCode;
      this.isCacheListener, this.isSyncListener, this.isLruListener := isCacheListener, isSyncListener, isLruListener;
      isEnableListeners := true;
      isLruTailRemove := false;
      lruCounter := 0;
      list1 := new LruList();
      list2 := new LruList();
      events := [];
      buckets := seq(size, _ => []);
      items := {};
      model := Cache([], [], 0, []);
      new;
      hide LruCache.ListsOK, LruCache.HashOK, LruCache.ModelOK;
      NothingListed();
      NothingHashed();
    }

    lemma NothingListed()
      requires list1.Valid() && list1.order == [] && list1.nodes == {}
      requires list2.Valid() && list2.order == [] && list2.nodes == {} && list1 != list2
      requires model == Cache([], [], 0, []) && lruCounter == 0 && events == []
      requires lruTimeout == Cfg().Timeout() && capacity1 == Cfg().Capacity1()
      ensures ListsOK() && ModelOK()
    {
    }

    lemma NothingHashed()
      requires items == {} && |buckets| == entries.Length && 1 <= prime <= entries.Length
      requires entries.Length >= 16 && (capacity <= 0x2000_0000 ==> entries.Length >= 2 * capacity)
      requires locks == entries.Length / 8 + 1
      requires forall b :: 0 <= b < entries.Length ==> buckets[b] == [] && entries[b] == null
      ensures HashOK()
    {
      forall b | 0 <= b < |buckets| ensures BucketOK(b) {
      }
    }

    // ----- the representation invariant -----

    ghost function Cfg(): (cfg: Config<V>)
      reads `isEnableListeners
    {
      Config(capacity, isEnableListeners, isCacheListener, isSyncListener, isLruListener)
    }

    /** `(hashCode & 0x7fffffff) % _prime`: always an index of the table, whatever the hash code. */
    function BucketOf(key: K): (h: int)
      requires 1 <= prime <= entries.Length
      ensures 0 <= h < entries.Length
    {
      (hashCode(key) % 0x8000_0000) % prime
    }

    /** Both recency lists are well formed, with exact sizes and the right hit counts.  This holds
        whenever the LRU lock is free, whatever the hash table looks like. */
    ghost predicate ListsOK()
      reads `lruCounter, list1, list2
      reads list1.nodes`prevLru, list1.nodes`nextLru, list1.nodes`hitCount
      reads list2.nodes`prevLru, list2.nodes`nextLru, list2.nodes`hitCount
    {
      && list1.Valid() && list2.Valid() && list1 != list2
      && list1.nodes !! list2.nodes
      && (forall x :: x in list1.nodes ==> x.hitCount == 1)
      && (forall x :: x in list2.nodes ==> x.hitCount > 1)
      && 0 <= lruCounter < COUNTER_RANGE
    }

    ghost predicate BucketOK(b: int)
      requires 0 <= b < |buckets| == entries.Length && 1 <= prime <= entries.Length
      reads `buckets, `items, entries, items`nextHash
    {
      && Chained(buckets[b], items, entries[b])
      && (forall x :: x in buckets[b] ==> BucketOf(x.key) == b)
      && (forall x, y :: x in buckets[b] && y in buckets[b] && x.key == y.key ==> x == y)
    }

    /** The item is in the bucket of its key. */
    ghost predicate Homed(x: Item<K, V>)
      requires |buckets| == entries.Length && 1 <= prime <= entries.Length
      reads `buckets
    {
      x in buckets[BucketOf(x.key)]
    }

    /** Every bucket is a chain of the items whose keys belong there. */
    ghost predicate HashOK()
      reads `buckets, `items, entries, items`nextHash
    {
      && 1 <= prime <= entries.Length && entries.Length >= 16
      && (capacity <= 0x2000_0000 ==> entries.Length >= 2 * capacity)
      && locks == entries.Length / 8 + 1
      && |buckets| == entries.Length
      && (forall b :: 0 <= b < |buckets| ==> BucketOK(b))
      && (forall x {:trigger Homed(x)} :: x in items ==> Homed(x))
    }

    /** The lists hold what the model says. */
    ghost predicate ModelOK()
      reads `lruCounter, `events, `model, `isEnableListeners, list1, list2
      reads list1.nodes`value, list1.nodes`lruCounter, list2.nodes`value, list2.nodes`lruCounter
    {
      && lruTimeout == Cfg().Timeout() && capacity1 == Cfg().Capacity1()
      && Shows(model.once, list1.order, list1.nodes)
      && Shows(model.twice, list2.order, list2.nodes)
      && lruCounter == model.Counter()
      && events == model.events
    }

    ghost function Repr(): set<object>
      reads this
    {
      {this, entries, list1, list2} + items
    }

    ghost predicate Valid()
      reads Repr()
    {
      && items == list1.nodes + list2.nodes
      && ListsOK() && HashOK() && ModelOK()
      && model.Size() <= Cfg().Limit()
    }

    // ----- the recency lists, guarded by the LRU lock -----

    /** First hit: the item moves from list 1 to the head of list 2. */
    method MoveToTwice(item: Item<K, V>)
      requires ListsOK() && item in list1.nodes
      modifies list1, list2, list1.nodes`prevLru, list1.nodes`nextLru, list2.nodes`prevLru, item`hitCount
      ensures ListsOK()
      ensures list1.order == Without(old(list1.order), item) && list2.order == [item] + old(list2.order)
      ensures list1.nodes == old(list1.nodes) - {item} && list2.nodes == old(list2.nodes) + {item}
    {
      item.hitCount := item.hitCount + 1;
      list1.Unlink(item);
      list2.PushFront(item);
    }

    /** A later hit: the item moves to the head of list 2, unless it is there already. */
    method MoveToFront(item: Item<K, V>)
      requires ListsOK() && item in list2.nodes
      modifies list2, list2.nodes`prevLru, list2.nodes`nextLru, item`hitCount
      ensures ListsOK()
      ensures list2.order == [item] + Without(old(list2.order), item)
      ensures list2.nodes == old(list2.nodes)
    {
      item.hitCount := item.hitCount + 1;
      ghost var order := list2.order;
      WithoutAt(order, item);
      if item == list2.head {
        PositionIs(order, 0);
        assert order == [item] + Without(order, item);
        return;
      }
      list2.Unlink(item);
      list2.PushFront(item);
    }

    /** `updateLruImpl`, safe for any item ever created: one that was removed meanwhile, which only
        a reader without the bucket lock can still hold, is not linked again. */
    method UpdateLruImpl(item: Item<K, V>)
      requires ListsOK() && (item in list1.nodes || item in list2.nodes || item.hitCount <= 0)
      modifies `lruCounter, list1, list2, item`hitCount, item`lruCounter
      modifies list1.nodes`prevLru, list1.nodes`nextLru, list2.nodes`prevLru, list2.nodes`nextLru
      ensures ListsOK()
      ensures lruCounter == Mask30(old(lruCounter) + 1) && item.lruCounter == lruCounter
      ensures old(item in list1.nodes) ==>
        && list1.order == Without(old(list1.order), item) && list2.order == [item] + old(list2.order)
        && list1.nodes == old(list1.nodes) - {item} && list2.nodes == old(list2.nodes) + {item}
      ensures old(item in list2.nodes) ==>
        && unchanged(list1) && list2.order == [item] + Without(old(list2.order), item)
        && list2.nodes == old(list2.nodes)
      ensures old(item.hitCount <= 0) ==> unchanged(list1) && unchanged(list2) && item.hitCount == old(item.hitCount)
    {
      lruCounter := Mask30(lruCounter + 1);
      item.lruCounter := lruCounter;
      if item.hitCount <= 0 {
        return;
      } else if item.hitCount == 1 {
        MoveToTwice(item);
      } else {
        MoveToFront(item);
      }
    }

    /** `removeLruItem`, safe for any item ever created: the item leaves the list it is in and is
        marked for good. */
    method RemoveLruItem(item: Item<K, V>)
      requires ListsOK() && (item in list1.nodes || item in list2.nodes || item.hitCount <= 0)
      modifies `lruCounter, list1, list2, item`prevLru, item`nextLru, item`hitCount
      modifies list1.nodes`prevLru, list1.nodes`nextLru, list2.nodes`prevLru, list2.nodes`nextLru
      ensures ListsOK()
      ensures lruCounter == Mask30(old(lruCounter) + 1) && item.hitCount == -1
      ensures list1.nodes == old(list1.nodes) - {item} && list2.nodes == old(list2.nodes) - {item}
      ensures old(item in list1.nodes) ==> list1.order == Without(old(list1.order), item) && unchanged(list2)
      ensures old(item in list2.nodes) ==> list2.order == Without(old(list2.order), item) && unchanged(list1)
      ensures old(item.hitCount <= 0) ==> unchanged(list1) && unchanged(list2)
    {
      lruCounter := Mask30(lruCounter + 1);
      var hitCount := item.hitCount;
      item.hitCount := -1;
      if hitCount == 1 {
        list1.Unlink(item);
      } else if hitCount > 1 {
        list2.Unlink(item);
      } else {
        item.prevLru := null;
        item.nextLru := null;
      }
    }

    /** The locked part of an insertion: a new item becomes the head of list 1. */
    method LinkNewItem(item: Item<K, V>)
      requires ListsOK() && item.hitCount == 1 && item !in list1.nodes && item !in list2.nodes
      modifies `lruCounter, list1, list1.nodes`prevLru, item`prevLru, item`nextLru, item`lruCounter
      ensures ListsOK()
      ensures list1.order == [item] + old(list1.order) && list1.nodes == old(list1.nodes) + {item}
      ensures lruCounter == Mask30(old(lruCounter) + 1) && item.lruCounter == -(lruTimeout + 16)
    {
      lruCounter := Mask30(lruCounter + 1);
      item.lruCounter := -(lruTimeout + 16);
      list1.PushFront(item);
    }

    // ----- hits -----

    /** The item is in one of the lists and no other item there has its key. */
    ghost predicate Tracked(item: Item<K, V>)
      reads list1`nodes, list2`nodes
    {
      && item in list1.nodes + list2.nodes
      && forall x :: x in list1.nodes + list2.nodes && x.key == item.key ==> x == item
    }

    lemma KeysUnique(item: Item<K, V>)
      requires HashOK() && item in items
      ensures forall x :: x in items && x.key == item.key ==> x == item
    {
      forall x | x in items && x.key == item.key ensures x == item {
        assert Homed(x) && Homed(item) && BucketOK(BucketOf(item.key));
      }
    }

    /** Where the model has the key of an item. */
    lemma Located(item: Item<K, V>)
      requires ListsOK() && ModelOK() && Tracked(item)
      ensures Has(model, item.key) && ValueOf(model, item.key) == item.value
      ensures StampOf(model, item.key) == item.lruCounter
      ensures InOnce(model, item.key) <==> item in list1.nodes
      ensures item in list1.nodes ==> IndexOf(model.once, item.key) == Position(list1.order, item)
      ensures item in list2.nodes ==> IndexOf(model.twice, item.key) == Position(list2.order, item)
    {
      if item in list1.nodes {
        ShownAt(model.once, list1.order, list1.nodes, item);
      } else {
        ShownAt(model.twice, list2.order, list2.nodes, item);
        if InOnce(model, item.key) {
          ShownKey(model.once, list1.order, list1.nodes, item.key);
        }
      }
    }

    lemma LocatedItem(item: Item<K, V>)
      requires Valid() && item in items
      ensures Tracked(item)
      ensures Has(model, item.key) && ValueOf(model, item.key) == item.value
      ensures StampOf(model, item.key) == item.lruCounter
      ensures InOnce(model, item.key) <==> item in list1.nodes
      ensures item in list1.nodes ==> IndexOf(model.once, item.key) == Position(list1.order, item)
      ensures item in list2.nodes ==> IndexOf(model.twice, item.key) == Position(list2.order, item)
    {
      KeysUnique(item);
      Located(item);
    }

    /** A first hit moves the item's entry to the second list of the model. */
    method PromoteFromOnce(item: Item<K, V>)
      requires Valid() && item in list1.nodes
      modifies `lruCounter, `model, list1, list2
      modifies items`prevLru, items`nextLru, items`hitCount, items`lruCounter
      ensures ListsOK() && ModelOK() && items == list1.nodes + list2.nodes
      ensures var k, c, now := Position(old(list1.order), item), old(model), old(model.clock) + 1;
        k < |c.once| &&
        model == c.(once := RemoveAt(c.once, k),
                    twice := [c.once[k].(stamp := Mask30(now), at := now)] + c.twice,
                    clock := now)
    {
      ghost var c, order1, nodes1, order2, nodes2 := model, list1.order, list1.nodes, list2.order, list2.nodes;
      ghost var k := Position(order1, item);
      assert Shown(c.once, order1, nodes1, k);
      UpdateLruImpl(item);
      forall i | 0 <= i < |order1| && order1[i] != item ensures Shown(c.once, order1, nodes1, i) {
        assert old(Shown(c.once, order1, nodes1, i));
      }
      ShowsWithout(c.once, order1, nodes1, item);
      forall i | 0 <= i < |order2| ensures Shown(c.twice, order2, nodes2, i) {
        assert old(Shown(c.twice, order2, nodes2, i));
      }
      ghost var now := c.clock + 1;
      ghost var e := c.once[k].(stamp := Mask30(now), at := now);
      MaskNext(c.clock);
      ShowsCons(e, c.twice, item, order2, nodes2);
      model := c.(once := RemoveAt(c.once, k), twice := [e] + c.twice, clock := now);
    }

    /** A later hit moves the item's entry to the front of the second list of the model. */
    method PromoteAgain(item: Item<K, V>)
      requires Valid() && item in list2.nodes
      modifies `lruCounter, `model, list1, list2
      modifies items`prevLru, items`nextLru, items`hitCount, items`lruCounter
      ensures ListsOK() && ModelOK() && items == list1.nodes + list2.nodes
      ensures var k, c, now := Position(old(list2.order), item), old(model), old(model.clock) + 1;
        k < |c.twice| &&
        model == c.(twice := [c.twice[k].(stamp := Mask30(now), at := now)] + RemoveAt(c.twice, k), clock := now)
    {
      ghost var order2, nodes2 := list2.order, list2.nodes;
      ghost var k := Position(order2, item);
      assert Shown(model.twice, order2, nodes2, k);
      UpdateLruImpl(item);
      forall i | 0 <= i < |order2| && order2[i] != item ensures Shown(model.twice, order2, nodes2, i) {
        assert old(Shown(model.twice, order2, nodes2, i));
      }
      ghost var now := model.clock + 1;
      ghost var e := model.twice[k].(stamp := Mask30(now), at := now);
      MaskNext(model.clock);
      ShowsMoved(e, model.twice, item, order2, nodes2);
      model := model.(twice := [e] + RemoveAt(model.twice, k), clock := now);
    }

    /** `updateLru`: a hit counts only if the item has not been stamped recently. */
    method UpdateLru(item: Item<K, V>)
      requires Valid() && item in items
      modifies `lruCounter, `model, list1, list2
      modifies items`prevLru, items`nextLru, items`hitCount, items`lruCounter
      ensures Valid()
      ensures Has(old(model), item.key) && model == Touch(Cfg(), old(model), item.key)
    {
      LocatedItem(item);
      var delta := Mask30(lruCounter - item.lruCounter);
      if lruTimeout < delta || delta < 0 {
        if item.hitCount == 1 {
          PromoteFromOnce(item);
        } else {
          PromoteAgain(item);
        }
        assert HashOK();
      }
    }

    // ----- the hash table -----

    /** No item of the table has the key. */
    ghost predicate NoneHas(key: K)
      reads `items
    {
      forall x :: x in items ==> x.key != key
    }

    lemma AbsentKey(key: K)
      requires NoneHas(key)
      ensures Valid() ==> !Has(model, key)
    {
      if Valid() {
        if InOnce(model, key) {
          ShownKey(model.once, list1.order, list1.nodes, key);
        } else if InTwice(model, key) {
          ShownKey(model.twice, list2.order, list2.nodes, key);
        }
      }
    }

    /** The walk along a bucket that `get`, `compareAndPut` and `remove` share. */
    method FindItem(okey: K) returns (prevItem: Item?<K, V>, item: Item?<K, V>)
      requires HashOK()
      ensures item == null ==> NoneHas(okey)
      ensures item != null ==> item in items && item.key == okey
      ensures item != null ==>
        var chain := buckets[BucketOf(okey)];
        item in chain && prevItem == Predecessor(chain, item)
    {
      var hash := BucketOf(okey);
      assert hash / 8 < locks;
      ghost var chain, j := buckets[hash], 0;
      assert BucketOK(hash);
      prevItem, item := null, entries[hash];
      while item != null
        invariant 0 <= j <= |chain|
        invariant item == if j < |chain| then chain[j] else null
        invariant prevItem == if j > 0 then chain[j - 1] else null
        invariant forall i :: 0 <= i < j ==> chain[i].key != okey
        decreases |chain| - j
      {
        assert Hooked(chain, items, j);
        if item.key == okey {
          PositionIs(chain, j);
          return;
        }
        prevItem, item := item, item.nextHash;
        j := j + 1;
      }
      forall x | x in items ensures x.key != okey {
        assert Homed(x);
      }
    }

    method Get(key: K) returns (value: Option<V>)
      requires Valid()
      modifies `lruCounter, `model, list1, list2
      modifies items`prevLru, items`nextLru, items`hitCount, items`lruCounter
      ensures Valid() && (model, value) == LruModel.Get(Cfg(), old(model), key)
    {
      var _, item := FindItem(key);
      if item != null {
        LocatedItem(item);
        UpdateLru(item);
        return item.value;
      }
      AbsentKey(key);
      return None;
    }

    // ----- removal -----

    /** An item leaves list 1 and its entry leaves the model. */
    method DropFromOnce(item: Item<K, V>)
      requires ListsOK() && ModelOK() && item in list1.nodes
      modifies `lruCounter, `model, list1, list2
      modifies item`prevLru, item`nextLru, item`hitCount
      modifies list1.nodes`prevLru, list1.nodes`nextLru, list2.nodes`prevLru, list2.nodes`nextLru
      ensures ListsOK() && ModelOK() && list1.nodes + list2.nodes == old(list1.nodes + list2.nodes) - {item}
      ensures var k, c := Position(old(list1.order), item), old(model);
        k < |c.once| && model == c.(once := RemoveAt(c.once, k), clock := c.clock + 1)
    {
      ghost var order1, nodes1 := list1.order, list1.nodes;
      ghost var k := Position(order1, item);
      assert Shown(model.once, order1, nodes1, k);
      RemoveLruItem(item);
      forall i | 0 <= i < |order1| ensures Shown(model.once, order1, nodes1, i) {
        assert old(Shown(model.once, order1, nodes1, i));
      }
      ShowsWithout(model.once, order1, nodes1, item);
      MaskNext(model.clock);
      model := model.(once := RemoveAt(model.once, k), clock := model.clock + 1);
    }

    /** An item leaves list 2 and its entry leaves the model. */
    method DropFromTwice(item: Item<K, V>)
      requires ListsOK() && ModelOK() && item in list2.nodes
      modifies `lruCounter, `model, list1, list2
      modifies item`prevLru, item`nextLru, item`hitCount
      modifies list1.nodes`prevLru, list1.nodes`nextLru, list2.nodes`prevLru, list2.nodes`nextLru
      ensures ListsOK() && ModelOK() && list1.nodes + list2.nodes == old(list1.nodes + list2.nodes) - {item}
      ensures var k, c := Position(old(list2.order), item), old(model);
        k < |c.twice| && model == c.(twice := RemoveAt(c.twice, k), clock := c.clock + 1)
    {
      ghost var order2, nodes2 := list2.order, list2.nodes;
      ghost var k := Position(order2, item);
      assert Shown(model.twice, order2, nodes2, k);
      RemoveLruItem(item);
      forall i | 0 <= i < |order2| ensures Shown(model.twice, order2, nodes2, i) {
        assert old(Shown(model.twice, order2, nodes2, i));
      }
      ShowsWithout(model.twice, order2, nodes2, item);
      MaskNext(model.clock);
      model := model.(twice := RemoveAt(model.twice, k), clock := model.clock + 1);
    }

    /** The item leaves its list and its entry leaves the model. */
    method DropItem(item: Item<K, V>)
      requires ListsOK() && ModelOK() && Tracked(item)
      modifies `lruCounter, `model, list1, list2
      modifies item`prevLru, item`nextLru, item`hitCount
      modifies list1.nodes`prevLru, list1.nodes`nextLru, list2.nodes`prevLru, list2.nodes`nextLru
      ensures ListsOK() && ModelOK() && list1.nodes + list2.nodes == old(list1.nodes + list2.nodes) - {item}
      ensures Has(old(model), item.key) && model == Drop(old(model), item.key)
    {
      Located(item);
      if item.hitCount == 1 {
        DropFromOnce(item);
      } else {
        DropFromTwice(item);
      }
    }

    /** The item leaves its hash chain; its own link stays, for readers that stand on it. */
    method UnhookItem(prevItem: Item?<K, V>, item: Item<K, V>)
      requires HashOK() && item in items && Homed(item) && prevItem == Predecessor(buckets[BucketOf(item.key)], item)
      modifies `buckets, `items, entries, items`nextHash
      ensures HashOK() && items == old(items) - {item} && item.nextHash == old(item.nextHash)
    {
      var hash := BucketOf(item.key);
      ghost var chain, all, was := buckets[hash], items, buckets;
      ghost var k: int := Position(chain, item);
      assert BucketOK(hash);
      assert Hooked(chain, all, k);
      assert k > 0 ==> Hooked(chain, all, k - 1);
      DistinctFrom(chain, k - 1, k);
      var nextHash := item.nextHash;
      if prevItem != null {
        prevItem.nextHash := nextHash;
      } else {
        entries[hash] := nextHash;
      }
      WithoutAt(chain, item);
      buckets, items := buckets[hash := Without(chain, item)], items - {item};
      forall i | 0 <= i < |buckets[hash]| ensures Hooked(buckets[hash], items, i) {
        var j := if i < k then i else i + 1;
        assert old(Hooked(chain, all, j));
        DistinctFrom(chain, j, k);
        DistinctFrom(chain, j, k - 1);
      }
      forall b | 0 <= b < |buckets| ensures BucketOK(b) {
        if b != hash {
          assert old(BucketOK(b));
          forall i | 0 <= i < |was[b]| ensures Hooked(was[b], items, i) {
            assert old(Hooked(was[b], all, i));
            assert was[b][i] in was[b];
          }
        }
      }
      forall x | x in items ensures Homed(x) {
        assert old(Homed(x));
      }
    }

    /** The listener calls of a removal, in the order the code makes them. */
    method NotifyRemoved(value: Option<V>)
      requires Valid()
      modifies `events, `model
      ensures Valid()
      ensures model == old(model).(events := old(model).events + Cfg().OnRemove(value))
    {
      if isEnableListeners && value.Some? {
        if isSyncListener(value.value) {
          events := events + [SyncRemoveEvent(value.value)];
        }
        if isCacheListener(value.value) {
          events := events + [RemoveEvent(value.value)];
        }
      }
      model := model.(events := events);
      assert ListsOK() && HashOK();
    }

    /** The item leaves its list, then its hash chain. */
    method RemoveItem(prevItem: Item?<K, V>, item: Item<K, V>)
      requires Valid() && item in items && Homed(item) && prevItem == Predecessor(buckets[BucketOf(item.key)], item)
      modifies `lruCounter, `model, `buckets, `items, entries, list1, list2
      modifies items`nextHash, items`prevLru, items`nextLru, items`hitCount
      ensures Valid() && items == old(items) - {item}
      ensures Has(old(model), item.key) && model == Drop(old(model), item.key)
    {
      LocatedItem(item);
      DropItem(item);
      UnhookItem(prevItem, item);
    }

    /** The state in which a `clear` with listeners disabled leaves a cache that was not empty: both
        recency lists are what they were, but no item is in the table any more. */
    ghost predicate Forgotten()
      reads Repr(), list1.nodes, list2.nodes
    {
      ListsOK() && HashOK() && ModelOK() && items == {} && model.Size() > 0
    }

    /** On a forgotten cache there is nothing to remove. */
    method Remove(key: K) returns (value: Option<V>)
      requires Valid() || Forgotten()
      modifies `lruCounter, `model, `events, `buckets, `items, entries, list1, list2
      modifies items`nextHash, items`prevLru, items`nextLru, items`hitCount
      ensures old(Valid()) ==> Valid() && (model, value) == LruModel.Remove(Cfg(), old(model), key)
      ensures old(Forgotten()) ==> Forgotten() && model == old(model) && value == None
      ensures items <= old(items)
    {
      var prevItem, item := FindItem(key);
      value := None;
      if item != null {
        LocatedItem(item);
        RemoveItem(prevItem, item);
        value := item.value;
        NotifyRemoved(value);
      } else {
        AbsentKey(key);
      }
    }

    // ----- eviction -----

    /** The call that warns a value of its eviction; it does not depend on listeners being enabled. */
    method NotifyEvicted(value: Option<V>)
      requires ListsOK() && HashOK() && ModelOK()
      modifies `events, `model
      ensures ListsOK() && HashOK() && ModelOK()
      ensures model == old(model).(events := old(model).events + Cfg().OnEvict(value))
    {
      if value.Some? && isLruListener(value.value) {
        events := events + [LruEvent(value.value)];
      }
      model := model.(events := events);
      assert ListsOK() && HashOK();
    }

    lemma TailShown()
      requires ListsOK() && ModelOK()
      ensures list1.tail == null <==> model.once == []
      ensures list1.tail != null ==>
        var e := model.once[|model.once| - 1];
        list1.tail in list1.nodes && list1.tail.key == e.key && list1.tail.value == e.value
      ensures list2.tail == null <==> model.twice == []
      ensures list2.tail != null ==>
        var e := model.twice[|model.twice| - 1];
        list2.tail in list2.nodes && list2.tail.key == e.key && list2.tail.value == e.value
    {
      if list1.tail != null {
        assert Shown(model.once, list1.order, list1.nodes, |model.once| - 1);
      }
      if list2.tail != null {
        assert Shown(model.twice, list2.order, list2.nodes, |model.twice| - 1);
      }
    }

    /** The common end of `removeTail` and `removeLongestTail`. */
    method EvictTail(tail: Item<K, V>, ghost victim: Entry<K, V>)
      requires Valid() || Forgotten()
      requires tail.key == victim.key && tail.value == victim.value
      modifies `lruCounter, `model, `events, `buckets, `items, entries, list1, list2
      modifies items`nextHash, items`prevLru, items`nextLru, items`hitCount
      ensures items <= old(items)
      ensures old(Valid()) ==> Valid() && model == RemoveVictim(Cfg(), old(model), Some(victim))
      ensures old(Forgotten()) ==> Forgotten() && model == WarnVictim(Cfg(), old(model), Some(victim))
    {
      NotifyEvicted(tail.value);
      var _ := Remove(tail.key);
    }

    method RemoveTail() returns (removed: bool)
      requires Valid() || Forgotten()
      modifies `lruCounter, `model, `events, `buckets, `items, entries, list1, list2
      modifies items`nextHash, items`prevLru, items`nextLru, items`hitCount
      ensures items <= old(items)
      ensures old(Valid()) ==> Valid() && model == LruModel.RemoveTail(Cfg(), old(model))
      ensures old(Forgotten()) ==> Forgotten() && model == WarnVictim(Cfg(), old(model), Victim(Cfg(), old(model)))
      ensures removed <==> Victim(Cfg(), old(model)).Some?
    {
      TailShown();
      var tail: Item?<K, V> := null;
      if capacity1 <= list1.size {
        tail := list1.tail;
      }
      if tail == null {
        tail := list2.tail;
        if tail == null {
          tail := list1.tail;
          if tail == null {
            return false;
          }
        }
      }
      EvictTail(tail, Victim(Cfg(), model).value);
      return true;
    }

    method RemoveLongestTail() returns (removed: bool)
      requires Valid()
      modifies `lruCounter, `model, `events, `buckets, `items, entries, list1, list2
      modifies items`nextHash, items`prevLru, items`nextLru, items`hitCount
      ensures Valid() && items <= old(items)
      ensures model == RemoveVictim(Cfg(), old(model), LongestVictim(old(model)))
      ensures removed <==> LongestVictim(old(model)).Some?
    {
      TailShown();
      var tail: Item?<K, V>;
      if list1.size <= list2.size {
        tail := list2.tail;
      } else {
        tail := list1.tail;
      }
      if tail == null {
        return false;
      }
      EvictTail(tail, LongestVictim(model).value);
      return true;
    }

    /** The loop of `removeLru`. */
    method EvictDown()
      requires Valid()
      modifies `lruCounter, `model, `events, `buckets, `items, entries, list1, list2
      modifies items`nextHash, items`prevLru, items`nextLru, items`hitCount
      ensures Valid() && items <= old(items)
      ensures model == Evict(Cfg(), old(model))
    {
      while capacity <= list1.size + list2.size
        invariant Valid() && items <= old(items)
        invariant Evict(Cfg(), model) == Evict(Cfg(), old(model))
        decreases model.Size()
      {
        EvictStep(Cfg(), model);
        var removed := RemoveTail();
        if !removed {
          return;
        }
      }
      EvictStep(Cfg(), model);
    }

    /** `removeLru`.  Sequentially nobody else can be evicting. */
    method RemoveLru()
      requires Valid() && !isLruTailRemove
      modifies `lruCounter, `model, `events, `buckets, `items, `isLruTailRemove, entries, list1, list2
      modifies items`nextHash, items`prevLru, items`nextLru, items`hitCount
      ensures Valid() && !isLruTailRemove && items <= old(items)
      ensures model == Evict(Cfg(), old(model))
    {
      if capacity <= list1.size + list2.size {
        if !isLruTailRemove {
          isLruTailRemove := true;
          EvictDown();
          isLruTailRemove := false;
        }
      }
    }

    // ----- the put family -----

    /** A new item enters list 1 and its entry enters the model. */
    method EnterLists(item: Item<K, V>)
      requires Valid() && item !in items && item.hitCount == 1
      modifies `lruCounter, `model, list1, items`prevLru, item`prevLru, item`nextLru, item`lruCounter
      ensures ListsOK() && ModelOK() && list1.nodes + list2.nodes == items + {item}
      ensures model == Insert(Cfg(), old(model), item.key, item.value)
    {
      ghost var order1, nodes1 := list1.order, list1.nodes;
      LinkNewItem(item);
      forall i | 0 <= i < |order1| ensures Shown(model.once, order1, nodes1, i) {
        assert old(Shown(model.once, order1, nodes1, i));
      }
      MaskNext(model.clock);
      ghost var c := Insert(Cfg(), model, item.key, item.value);
      ShowsCons(c.once[0], model.once, item, order1, nodes1);
      model := c;
    }

    /** A new item becomes the first of its hash chain: its own link is written before it is
        published in the table. */
    method HookItem(item: Item<K, V>)
      requires HashOK() && item !in items && forall x :: x in items ==> x.key != item.key
      modifies `buckets, `items, entries, item`nextHash
      ensures HashOK() && items == old(items) + {item}
    {
      var hash := BucketOf(item.key);
      ghost var chain, all, was := buckets[hash], items, buckets;
      assert BucketOK(hash);
      item.nextHash := entries[hash];
      entries[hash] := item;
      buckets, items := buckets[hash := [item] + chain], items + {item};
      forall i | 0 <= i < |chain| ensures Hooked(chain, all, i) {
        assert old(Hooked(chain, all, i));
      }
      forall i | 0 <= i < |buckets[hash]| ensures Hooked(buckets[hash], items, i) {
        assert i > 0 ==> Hooked(chain, all, i - 1);
      }
      NoDupCons(item, chain, all);
      forall x | x in chain ensures x.key != item.key {
        assert Hooked(chain, all, Position(chain, x));
      }
      assert BucketOK(hash);
      forall b | 0 <= b < |buckets| ensures BucketOK(b) {
        if b != hash {
          assert old(BucketOK(b));
          forall i | 0 <= i < |was[b]| ensures Hooked(was[b], items, i) {
            assert old(Hooked(was[b], all, i));
          }
        }
      }
      forall x | x in items ensures Homed(x) {
        assert x != item ==> old(Homed(x));
      }
    }

    lemma NoDupCons(item: Item<K, V>, chain: seq<Item<K, V>>, all: set<Item<K, V>>)
      requires NoDup(chain) && item !in all && forall i :: 0 <= i < |chain| ==> Hooked(chain, all, i)
      ensures NoDup([item] + chain)
    {
      var r := [item] + chain;
      forall i, j | 0 <= i < j < |r| ensures At(r, i) != At(r, j) {
        assert Hooked(chain, all, j - 1);
        assert i > 0 ==> At(chain, i - 1) != At(chain, j - 1);
      }
    }

    lemma NobodyHas(key: K)
      requires Valid() && !Has(model, key)
      ensures forall x :: x in items ==> x.key != key
    {
      forall x | x in items ensures x.key != key {
        LocatedItem(x);
      }
    }

    /** A new item enters the list and then its bucket. */
    method AddItem(item: Item<K, V>)
      requires Valid() && item !in items && item.hitCount == 1 && model.Size() < Cfg().Limit()
      requires forall x :: x in items ==> x.key != item.key
      modifies `lruCounter, `model, `buckets, `items, entries, list1, items`prevLru
      modifies item`prevLru, item`nextLru, item`lruCounter, item`nextHash
      ensures Valid() && items == old(items) + {item}
      ensures model == Insert(Cfg(), old(model), item.key, item.value)
    {
      EnterLists(item);
      HookItem(item);
    }

    method InsertItem(okey: K, value: Option<V>)
      requires Valid() && !Has(model, okey) && model.Size() < Cfg().Limit()
      modifies `lruCounter, `model, `buckets, `items, entries, list1, items`prevLru
      ensures Valid() && fresh(items - old(items))
      ensures model == Insert(Cfg(), old(model), okey, value)
    {
      NobodyHas(okey);
      var item := new Item(okey, value);
      AddItem(item);
    }

    /** A list one of whose items got a new value shows the model with that entry's value replaced. */
    lemma ShowsUpdate(es: seq<Entry<K, V>>, item: Item<K, V>, order: seq<Item<K, V>>, nodes: set<Item<K, V>>)
      requires |es| == |order| && NoDup(order) && item in order && item in nodes
      requires forall i :: 0 <= i < |order| && order[i] != item ==> Shown(es, order, nodes, i)
      requires var e := es[Position(order, item)]; e.key == item.key && e.stamp == item.lruCounter
      ensures var k := Position(order, item); Shows(es[k := es[k].(value := item.value)], order, nodes)
    {
      var k := Position(order, item);
      var es' := es[k := es[k].(value := item.value)];
      forall i | 0 <= i < |order| ensures Shown(es', order, nodes, i) {
        if i != k {
          DistinctFrom(order, i, k);
          assert Shown(es, order, nodes, i);
        }
      }
    }

    method OverwriteInOnce(item: Item<K, V>, value: Option<V>)
      requires Valid() && item in list1.nodes
      modifies `model, item`value
      ensures Valid()
      ensures var k, c := Position(list1.order, item), old(model);
        k < |c.once| && model == c.(once := c.once[k := c.once[k].(value := value)])
    {
      ghost var k := Position(list1.order, item);
      assert Shown(model.once, list1.order, list1.nodes, k);
      item.value := value;
      forall i | 0 <= i < |list1.order| && list1.order[i] != item
        ensures Shown(model.once, list1.order, list1.nodes, i)
      {
        assert old(Shown(model.once, list1.order, list1.nodes, i));
      }
      ShowsUpdate(model.once, item, list1.order, list1.nodes);
      model := model.(once := model.once[k := model.once[k].(value := value)]);
      assert ListsOK() && HashOK();
    }

    method OverwriteInTwice(item: Item<K, V>, value: Option<V>)
      requires Valid() && item in list2.nodes
      modifies `model, item`value
      ensures Valid()
      ensures var k, c := Position(list2.order, item), old(model);
        k < |c.twice| && model == c.(twice := c.twice[k := c.twice[k].(value := value)])
    {
      ghost var k := Position(list2.order, item);
      assert Shown(model.twice, list2.order, list2.nodes, k);
      item.value := value;
      forall i | 0 <= i < |list2.order| && list2.order[i] != item
        ensures Shown(model.twice, list2.order, list2.nodes, i)
      {
        assert old(Shown(model.twice, list2.order, list2.nodes, i));
      }
      ShowsUpdate(model.twice, item, list2.order, list2.nodes);
      model := model.(twice := model.twice[k := model.twice[k].(value := value)]);
      assert ListsOK() && HashOK();
    }

    /** `item._value = value`. */
    method Overwrite(item: Item<K, V>, value: Option<V>)
      requires Valid() && item in items
      modifies `model, item`value
      ensures Valid() && Has(old(model), item.key) && model == SetValue(old(model), item.key, value)
    {
      LocatedItem(item);
      if item.hitCount == 1 {
        OverwriteInOnce(item, value);
      } else {
        OverwriteInTwice(item, value);
      }
    }

    /** The `matching item` branch of `compareAndPut`. */
    method StoreOver(testValue: Option<V>, item: Item<K, V>, value: Option<V>, isCompare: bool)
      returns (result: Option<V>)
      requires Valid() && item in items
      modifies `lruCounter, `model, `events, list1, list2
      modifies items`prevLru, items`nextLru, items`hitCount, items`lruCounter, items`value
      ensures Valid()
      ensures (model, result) == LruModel.Store(Cfg(), old(model), testValue, item.key, value, isCompare)
    {
      hide LruCache.Valid, ValueOf;
      LocatedItem(item);
      UpdateLru(item);
      var oldValue := item.value;
      if isCompare && testValue != oldValue {
        return oldValue;
      }
      Overwrite(item, value);
      if value == oldValue {
        oldValue := None;
      }
      if isCompare && testValue != oldValue {
        return None;
      }
      NotifyRemoved(oldValue);
      return oldValue;
    }

    /** The part of `compareAndPut` under the bucket lock, and the notification after it. */
    method Store(testValue: Option<V>, okey: K, value: Option<V>, isCompare: bool) returns (result: Option<V>)
      requires Valid() && model.Size() < Cfg().Limit()
      modifies `lruCounter, `model, `events, `buckets, `items, entries, list1, list2
      modifies items`prevLru, items`nextLru, items`hitCount, items`lruCounter, items`value
      ensures Valid() && fresh(items - old(items))
      ensures (model, result) == LruModel.Store(Cfg(), old(model), testValue, okey, value, isCompare)
    {
      var _, item := FindItem(okey);
      if item == null {
        AbsentKey(okey);
      }
      if item != null {
        result := StoreOver(testValue, item, value, isCompare);
      } else if isCompare && testValue != None {
        result := None;
      } else {
        InsertItem(okey, value);
        result := None;
      }
    }

    /** The private `compareAndPut`: evict first, look up afterwards. */
    method CompareAndPutAny(testValue: Option<V>, key: K, value: Option<V>, isCompare: bool) returns (result: Option<V>)
      requires Valid() && !isLruTailRemove
      modifies Repr()
      ensures Valid() && !isLruTailRemove && fresh(items - old(items)) && isEnableListeners == old(isEnableListeners)
      ensures (model, result) == LruModel.CompareAndPut(Cfg(), old(model), testValue, key, value, isCompare)
    {
      EvictMakesRoom(Cfg(), model);
      RemoveLru();
      result := Store(testValue, key, value, isCompare);
    }

    method Put(key: K, value: Option<V>) returns (oldValue: Option<V>)
      requires Valid() && !isLruTailRemove
      modifies Repr()
      ensures Valid() && !isLruTailRemove && fresh(items - old(items)) && isEnableListeners == old(isEnableListeners)
      ensures (model, oldValue) == LruModel.CompareAndPut(Cfg(), old(model), None, key, value, false)
    {
      oldValue := CompareAndPutAny(None, key, value, false);
    }

    method PutIfNew(key: K, value: Option<V>) returns (stored: Option<V>)
      requires Valid() && !isLruTailRemove
      modifies Repr()
      ensures Valid() && !isLruTailRemove && fresh(items - old(items)) && isEnableListeners == old(isEnableListeners)
      ensures (model, stored) == LruLaws.PutIfNew(Cfg(), old(model), key, value)
    {
      var oldValue := CompareAndPutAny(None, key, value, true);
      stored := if oldValue != None then oldValue else value;
    }

    /** The public `compareAndPut`. */
    method CompareAndPut(testValue: Option<V>, key: K, value: Option<V>) returns (success: bool)
      requires Valid() && !isLruTailRemove
      modifies Repr()
      ensures Valid() && !isLruTailRemove && fresh(items - old(items)) && isEnableListeners == old(isEnableListeners)
      ensures model == LruModel.CompareAndPut(Cfg(), old(model), testValue, key, value, true).0
      ensures success <==>
        ValueOf(Evict(Cfg(), old(model)), key) == testValue && !(testValue.Some? && value == testValue)
    {
      LruLaws.CompareAndPutResult(Cfg(), model, testValue, key, value);
      var result := CompareAndPutAny(testValue, key, value, true);
      success := testValue == result;
    }

    /** `size()`. */
    method Size() returns (n: int)
      requires Valid()
      ensures n == model.Size() <= Cfg().Limit()
    {
      n := list1.size + list2.size;
    }

    // ----- clear -----

    /** The keys of a set of items are all different. */
    ghost predicate KeysDiffer(all: set<Item<K, V>>) {
      forall x, y :: x in all && y in all && x.key == y.key ==> x == y
    }

    /** One item of a cleared bucket leaves its list. */
    method ClearItem(item: Item<K, V>, listeners: seq<V>, ghost start: Cache<K, V>) returns (listeners': seq<V>)
      requires ListsOK() && ModelOK() && Tracked(item) && ClearedSince(Cfg(), start, model, listeners)
      modifies `lruCounter, `model, list1, list2, item`prevLru, item`nextLru, item`hitCount
      modifies list1.nodes`prevLru, list1.nodes`nextLru, list2.nodes`prevLru, list2.nodes`nextLru
      ensures ListsOK() && ModelOK() && ClearedSince(Cfg(), start, model, listeners')
      ensures list1.nodes + list2.nodes == old(list1.nodes + list2.nodes) - {item}
    {
      Located(item);
      ClearedStep(Cfg(), start, model, listeners, item.key);
      DropItem(item);
      listeners' := listeners;
      if item.value.Some? && isCacheListener(item.value.value) {
        listeners' := listeners' + [item.value.value];
      }
    }

    /** With its next item gone, what is left of a bucket is the rest of its chain. */
    lemma RestOfChain(chain: seq<Item<K, V>>, j: nat, kept: set<Item<K, V>>, nodes: set<Item<K, V>>)
      requires NoDup(chain) && j < |chain| && nodes == kept + Elements(chain, j) && kept !! Elements(chain, 0)
      ensures chain[j] in nodes && nodes - {chain[j]} == kept + Elements(chain, j + 1)
    {
      ElementsLater(chain, j);
      ElementsAre(chain, 0, chain[j]);
    }

    /** One step of the walk along a bucket that is no longer in the table. */
    method ClearAlong(item: Item<K, V>, ghost chain: seq<Item<K, V>>, ghost j: nat, ghost all: set<Item<K, V>>,
                      listeners: seq<V>, ghost start: Cache<K, V>) returns (listeners': seq<V>)
      requires ListsOK() && HashOK() && ModelOK() && NoDup(chain) && j < |chain| && item == chain[j]
      requires list1.nodes + list2.nodes == items + Elements(chain, j) <= all
      requires items !! Elements(chain, 0) && KeysDiffer(all) && ClearedSince(Cfg(), start, model, listeners)
      modifies `lruCounter, `model, list1, list2
      modifies all`prevLru, all`nextLru, all`hitCount
      ensures ListsOK() && HashOK() && ModelOK() && ClearedSince(Cfg(), start, model, listeners')
      ensures list1.nodes + list2.nodes == items + Elements(chain, j + 1)
    {
      RestOfChain(chain, j, items, list1.nodes + list2.nodes);
      listeners' := ClearItem(item, listeners, start);
      assert HashOK();
    }

    /** The walk along a bucket that is no longer in the table. */
    method ClearChain(first: Item?<K, V>, ghost chain: seq<Item<K, V>>, ghost all: set<Item<K, V>>,
                      listeners: seq<V>, ghost start: Cache<K, V>) returns (listeners': seq<V>)
      requires ListsOK() && HashOK() && ModelOK() && list1.nodes + list2.nodes == items + Elements(chain, 0) <= all
      requires items !! Elements(chain, 0) && KeysDiffer(all) && ClearedSince(Cfg(), start, model, listeners)
      requires Chained(chain, all, first)
      modifies `lruCounter, `model, list1, list2
      modifies all`prevLru, all`nextLru, all`hitCount
      ensures ListsOK() && HashOK() && ModelOK() && items == list1.nodes + list2.nodes
      ensures ClearedSince(Cfg(), start, model, listeners')
    {
      hide LruCache.ListsOK, LruCache.HashOK, LruCache.ModelOK, ClearedSince;
      var item := first;
      listeners' := listeners;
      ghost var j := 0;
      while item != null
        invariant 0 <= j <= |chain| && item == if j < |chain| then chain[j] else null
        invariant ListsOK() && HashOK() && ModelOK() && ClearedSince(Cfg(), start, model, listeners')
        invariant list1.nodes + list2.nodes == items + Elements(chain, j) <= all
        invariant Chained(chain, all, first)
        decreases |chain| - j
      {
        assert Hooked(chain, all, j);
        ghost var next := item.nextHash;
        listeners' := ClearAlong(item, chain, j, all, listeners', start);
        assert item.nextHash == next;
        item := item.nextHash;
        j := j + 1;
      }
    }

    /** One bucket of the table is emptied: first in the table, then item by item in the lists. */
    method ClearBucket(i: int, listeners: seq<V>, ghost start: Cache<K, V>) returns (listeners': seq<V>)
      requires ListsOK() && HashOK() && ModelOK() && items == list1.nodes + list2.nodes
      requires 0 <= i < entries.Length && ClearedSince(Cfg(), start, model, listeners)
      modifies `lruCounter, `model, `buckets, `items, entries, list1, list2
      modifies items`prevLru, items`nextLru, items`hitCount
      ensures ListsOK() && HashOK() && ModelOK() && items == list1.nodes + list2.nodes && items <= old(items)
      ensures buckets == old(buckets)[i := []] && ClearedSince(Cfg(), start, model, listeners')
    {
      AllKeysDiffer();
      assert BucketOK(i);
      ghost var all, chain := items, buckets[i];
      ChainWithin(chain, all);
      var item := entries[i];
      EmptyBucket(i);
      assert all == items + Elements(chain, 0);
      listeners' := ClearChain(item, chain, all, listeners, start);
    }

    lemma ChainWithin(chain: seq<Item<K, V>>, all: set<Item<K, V>>)
      requires forall k :: 0 <= k < |chain| ==> Hooked(chain, all, k)
      ensures Elements(chain, 0) <= all
    {
      ElementsAll(chain);
      forall x | x in Elements(chain, 0) ensures x in all {
        assert x in chain;
        assert Hooked(chain, all, Position(chain, x));
      }
    }

    lemma ItemsInBuckets()
      requires HashOK()
      ensures forall x :: x in items ==> x in buckets[BucketOf(x.key)]
    {
      forall x | x in items ensures x in buckets[BucketOf(x.key)] {
        assert Homed(x);
      }
    }

    /** A valid cache that holds anything shows it in its table. */
    lemma AllKeysDiffer()
      requires HashOK()
      ensures KeysDiffer(items)
    {
      forall x, y | x in items && y in items && x.key == y.key ensures x == y {
        KeysUnique(x);
      }
    }

    /** `_entries[i] = null`. */
    method EmptyBucket(i: int)
      requires HashOK() && 0 <= i < entries.Length
      modifies `buckets, `items, entries
      ensures HashOK() && entries[i] == null
      ensures buckets == old(buckets)[i := []] && items == old(items) - Elements(old(buckets)[i], 0)
    {
      ghost var all, was := items, buckets;
      assert BucketOK(i);
      ElementsAll(was[i]);
      entries[i] := null;
      buckets, items := buckets[i := []], items - Elements(was[i], 0);
      forall b | 0 <= b < |buckets| ensures BucketOK(b) {
        if b != i {
          assert old(BucketOK(b));
          forall k | 0 <= k < |was[b]| ensures Hooked(was[b], items, k) {
            assert old(Hooked(was[b], all, k));
            assert was[b][k] in was[b];
          }
        }
      }
      forall x | x in items ensures Homed(x) {
        assert old(Homed(x));
      }
    }

    /** The calls `clear` makes at the end, last listener first. */
    method FireAll(listeners: seq<V>) returns (ghost fired: seq<V>)
      requires ListsOK() && HashOK() && ModelOK()
      modifies `events, `model
      ensures ListsOK() && HashOK() && ModelOK()
      ensures multiset(fired) == multiset(listeners)
      ensures model == old(model).(events := old(model).events + LruRuns.AllNotified(fired))
    {
      var k := |listeners| - 1;
      fired := [];
      assert listeners[..k + 1] == listeners;
      assert model.events + LruRuns.AllNotified([]) == model.events;
      while k >= 0
        invariant -1 <= k < |listeners|
        invariant multiset(fired) + multiset(listeners[..k + 1]) == multiset(listeners)
        invariant ListsOK() && HashOK() && ModelOK()
        invariant model == old(model).(events := old(model).events + LruRuns.AllNotified(fired))
      {
        assert listeners[..k + 1] == listeners[..k] + [listeners[k]];
        assert LruRuns.AllNotified(fired + [listeners[k]]) == LruRuns.AllNotified(fired) + [RemoveEvent(listeners[k])];
        events := events + [RemoveEvent(listeners[k])];
        fired := fired + [listeners[k]];
        model := model.(events := events);
        k := k - 1;
      }
    }

    lemma EmptyLists()
      requires ListsOK() && ModelOK()
      ensures list1.nodes + list2.nodes == {} <==> model.Size() == 0
    {
      if |list1.order| > 0 {
        assert Threaded(list1.order, list1.nodes, 0);
      }
      if |list2.order| > 0 {
        assert Threaded(list2.order, list2.nodes, 0);
      }
    }

    /** The table and the lists are empty; the listeners are told. */
    method FinishClear(listeners: seq<V>, ghost start: Cache<K, V>) returns (ghost fired: seq<V>)
      requires ListsOK() && HashOK() && ModelOK() && items == list1.nodes + list2.nodes == {}
      requires ClearedSince(Cfg(), start, model, listeners)
      modifies `events, `model
      ensures Valid() && multiset(fired) == LruRuns.Held(Cfg(), start)
      ensures model == LruModel.Clear(start, LruRuns.AllNotified(fired))
    {
      EmptyLists();
      assert LruRuns.Held(Cfg(), model) == multiset{};
      fired := FireAll(listeners);
    }

    /** The loop of `clear` over the table, with listeners enabled. */
    method ClearTable() returns (listeners: seq<V>)
      requires Valid()
      modifies `lruCounter, `model, `buckets, `items, entries, list1, list2
      modifies items`prevLru, items`nextLru, items`hitCount
      ensures ListsOK() && HashOK() && ModelOK() && items == list1.nodes + list2.nodes == {}
      ensures ClearedSince(Cfg(), old(model), model, listeners)
    {
      hide LruCache.ModelOK, LruCache.ListsOK, ClearedSince;
      ClearedNothing(Cfg(), model);
      listeners := [];
      var i := entries.Length - 1;
      while i >= 0
        invariant -1 <= i < entries.Length
        invariant ListsOK() && HashOK() && ModelOK() && items == list1.nodes + list2.nodes && items <= old(items)
        invariant forall b :: i < b < |buckets| ==> buckets[b] == []
        invariant ClearedSince(Cfg(), old(model), model, listeners)
      {
        listeners := ClearBucket(i, listeners, old(model));
        i := i - 1;
      }
      ItemsInBuckets();
      assert items == {};
    }

    /** `clear` with listeners disabled: the table is emptied and the lists are left as they were. */
    /** The loop of `clear` over the table, with listeners disabled: the items are forgotten. */
    method ClearSilently()
      requires Valid()
      modifies `buckets, `items, entries
      ensures HashOK() && items == {}
    {
      var i := entries.Length - 1;
      while i >= 0
        invariant -1 <= i < entries.Length
        invariant forall b :: i < b < entries.Length ==> entries[b] == null
      {
        entries[i] := null;
        i := i - 1;
      }
      buckets, items := seq(entries.Length, _ => []), {};
      NothingHashed();
    }

    method ClearLoudly() returns (ghost fired: seq<V>)
      requires Valid()
      modifies `lruCounter, `model, `events, `buckets, `items, entries, list1, list2
      modifies items`prevLru, items`nextLru, items`hitCount
      ensures Valid() && items == {}
      ensures multiset(fired) == LruRuns.Held(Cfg(), old(model))
      ensures model == LruModel.Clear(old(model), LruRuns.AllNotified(fired))
    {
      ghost var start := model;
      var listeners := ClearTable();
      fired := FinishClear(listeners, start);
    }

    /** `clear`.  With listeners enabled it empties the cache and notifies every cached listener once.
        With listeners disabled it does not unlink the items from the recency lists, so a cache that was
        not empty is left forgotten: its size is what it was, and every key is gone. */
    method Clear() returns (ghost fired: seq<V>)
      requires Valid()
      modifies Repr()
      ensures Valid() <==> old(isEnableListeners || model.Size() == 0)
      ensures isEnableListeners == old(isEnableListeners) && isLruTailRemove == old(isLruTailRemove)
      ensures items <= old(items)
      ensures old(isEnableListeners || model.Size() == 0) ==>
        && multiset(fired) == LruRuns.Held(Cfg(), old(model))
        && model == LruModel.Clear(old(model), LruRuns.AllNotified(fired))
      ensures !old(isEnableListeners) && old(model.Size()) > 0 ==> Forgotten() && model == old(model)
    {
      fired := [];
      if list1.size == 0 && list2.size == 0 {
        assert LruRuns.AllNotified(fired) == [];
        return;
      }
      if isEnableListeners {
        fired := ClearLoudly();
      } else {
        EmptyLists();
        ClearSilently();
      }
    }

    /** A forgotten cache still counts its items, and has one to give up. */
    lemma ForgottenSize()
      requires Forgotten()
      ensures list1.size + list2.size == model.Size() > 0
      ensures Victim(Cfg(), model).Some?
    {
    }

    /** The eviction loop of the next put, cut off after `n` rounds, on a forgotten cache.  For every `n`
        it gets through all of them if the size at the clear was at least the capacity, and through none
        otherwise: so that put hangs in the first case and only there. */
    method EvictForgotten(n: nat) returns (rounds: nat)
      requires Forgotten()
      modifies `lruCounter, `model, `events, `buckets, `items, entries, list1, list2
      modifies items`nextHash, items`prevLru, items`nextLru, items`hitCount
      ensures Forgotten() && model == EvictedForgotten(Cfg(), old(model), rounds)
      ensures rounds == if capacity <= old(model.Size()) then n else 0
    {
      hide LruCache.Valid, LruCache.Forgotten, WarnVictim, Victim, LruModel.RemoveTail;
      rounds := 0;
      while rounds < n && capacity <= list1.size + list2.size
        invariant rounds <= n && Forgotten() && items <= old(items)
        invariant model == EvictedForgotten(Cfg(), old(model), rounds)
        invariant capacity > old(model.Size()) ==> rounds == 0
      {
        ForgottenKeepsLists(Cfg(), old(model), rounds);
        ForgottenSize();
        var removed := RemoveTail();
        rounds := rounds + 1;
      }
      ForgottenKeepsLists(Cfg(), old(model), rounds);
      ForgottenSize();
    }
  }
}
