/**
 The sequential meaning of `LruCache`: two recency lists of entries, the clock of
 list updates, and the listener calls made so far.  The heap class in `LruCache`
 is proved to compute exactly these functions, and the laws a user of the cache
 relies on are proved about them in `LruLaws`, `LruRuns` and `LruOrder`.
 */
module LruModel {
  import opened Common

  /** One cached item.  `stamp` is the masked counter the code stores, `at` the
      unbounded number of list updates that had happened when it was stored. */
  datatype Entry<K, V> = Entry(key: K, value: Option<V>, stamp: int, at: nat)

  /** The calls the cache makes on the values it holds. */
  datatype Event<V> = LruEvent(v: V) | SyncRemoveEvent(v: V) | RemoveEvent(v: V)

  /** What never changes during an operation: the capacity, whether listeners are
      enabled, and which listener interfaces a value implements. */
  datatype Config<!V> = Config(
    capacity: int,
    enabled: bool,
    isCacheListener: V -> bool,
    isSyncListener: V -> bool,
    isLruListener: V -> bool)
  {
    /** Java's `/` truncates toward zero. */
    function Capacity1(): int {
      if capacity >= 0 then capacity / 2 else -(-capacity / 2)
    }

    function Timeout(): (t: nat)
      ensures t >= 1
    {
      if capacity > 32 then capacity / 32 else 1
    }

    function Limit(): (n: nat)
      ensures n >= 1 && n >= capacity
    {
      if capacity >= 1 then capacity else 1
    }

    /** The capacity is an `int`. */
    predicate Sized() {
      capacity < 0x8000_0000
    }

    function OnEvict(value: Option<V>): seq<Event<V>> {
      if value.Some? && isLruListener(value.value) then [LruEvent(value.value)] else []
    }

    function OnRemove(value: Option<V>): seq<Event<V>> {
      if !enabled || value.None? then []
      else
        (if isSyncListener(value.value) then [SyncRemoveEvent(value.value)] else []) +
        (if isCacheListener(value.value) then [RemoveEvent(value.value)] else [])
    }
  }

  /** `once` holds the items seen once, `twice` those seen more than once, both
      from most to least recently used. */
  datatype Cache<K, V> = Cache(
    once: seq<Entry<K, V>>,
    twice: seq<Entry<K, V>>,
    clock: nat,
    events: seq<Event<V>>)
  {
    function Size(): nat {
      |once| + |twice|
    }

    /** The counter field of the class. */
    function Counter(): int {
      Mask30(clock)
    }
  }

  // ----- lookup -----

  /** The first position of `k` in `s`, or `|s|`. */
  function IndexOf<K(==), V>(s: seq<Entry<K, V>>, k: K): (i: nat)
    ensures i <= |s|
    ensures i < |s| ==> s[i].key == k
    ensures forall j :: 0 <= j < i ==> s[j].key != k
  {
    if s == [] then 0
    else if s[0].key == k then 0
    else 1 + IndexOf(s[1..], k)
  }

  predicate InOnce<K(==), V>(c: Cache<K, V>, k: K) {
    IndexOf(c.once, k) < |c.once|
  }

  predicate InTwice<K(==), V>(c: Cache<K, V>, k: K) {
    IndexOf(c.twice, k) < |c.twice|
  }

  predicate Has<K(==), V>(c: Cache<K, V>, k: K) {
    InOnce(c, k) || InTwice(c, k)
  }

  /** The value `get` returns: null both for a missing key and for a stored null. */
  function ValueOf<K(==), V>(c: Cache<K, V>, k: K): Option<V> {
    if InOnce(c, k) then c.once[IndexOf(c.once, k)].value
    else if InTwice(c, k) then c.twice[IndexOf(c.twice, k)].value
    else None
  }

  // ----- list updates -----

  /** The key's item becomes the most recent of those seen more than once. */
  function Promote<K(==), V>(c: Cache<K, V>, k: K): Cache<K, V>
    requires Has(c, k)
  {
    var now := c.clock + 1;
    if InOnce(c, k) then
      var i := IndexOf(c.once, k);
      c.(once := RemoveAt(c.once, i),
         twice := [c.once[i].(stamp := Mask30(now), at := now)] + c.twice,
         clock := now)
    else
      var i := IndexOf(c.twice, k);
      c.(twice := [c.twice[i].(stamp := Mask30(now), at := now)] + RemoveAt(c.twice, i),
         clock := now)
  }

  function StampOf<K(==), V>(c: Cache<K, V>, k: K): int
    requires Has(c, k)
  {
    if InOnce(c, k) then c.once[IndexOf(c.once, k)].stamp else c.twice[IndexOf(c.twice, k)].stamp
  }

  /** A hit: recently stamped items are left where they are. */
  function Touch<V, K(==)>(cfg: Config<V>, c: Cache<K, V>, k: K): Cache<K, V>
    requires Has(c, k)
  {
    if cfg.Timeout() < Mask30(c.Counter() - StampOf(c, k)) then Promote(c, k) else c
  }

  function Insert<V, K(==)>(cfg: Config<V>, c: Cache<K, V>, k: K, v: Option<V>): Cache<K, V> {
    c.(once := [Entry(k, v, -(cfg.Timeout() + 16), c.clock + 1)] + c.once, clock := c.clock + 1)
  }

  function Drop<K(==), V>(c: Cache<K, V>, k: K): Cache<K, V>
    requires Has(c, k)
  {
    if InOnce(c, k) then
      c.(once := RemoveAt(c.once, IndexOf(c.once, k)), clock := c.clock + 1)
    else
      c.(twice := RemoveAt(c.twice, IndexOf(c.twice, k)), clock := c.clock + 1)
  }

  function SetValue<K(==), V>(c: Cache<K, V>, k: K, v: Option<V>): Cache<K, V>
    requires Has(c, k)
  {
    if InOnce(c, k) then
      var i := IndexOf(c.once, k);
      c.(once := c.once[i := c.once[i].(value := v)])
    else
      var i := IndexOf(c.twice, k);
      c.(twice := c.twice[i := c.twice[i].(value := v)])
  }

  // ----- public operations -----

  function Get<V, K(==)>(cfg: Config<V>, c: Cache<K, V>, k: K): (Cache<K, V>, Option<V>) {
    if Has(c, k) then (Touch(cfg, c, k), ValueOf(c, k)) else (c, None)
  }

  function Remove<V, K(==)>(cfg: Config<V>, c: Cache<K, V>, k: K): (Cache<K, V>, Option<V>) {
    if Has(c, k) then
      var v := ValueOf(c, k);
      (Drop(c, k).(events := c.events + cfg.OnRemove(v)), v)
    else (c, None)
  }

  /** The item `removeTail` gives up: the oldest seen once if that list has reached half
      the capacity, else the oldest seen more than once, else whatever is left. */
  function Victim<V, K>(cfg: Config<V>, c: Cache<K, V>): Option<Entry<K, V>> {
    if cfg.Capacity1() <= |c.once| && |c.once| > 0 then Some(c.once[|c.once| - 1])
    else if |c.twice| > 0 then Some(c.twice[|c.twice| - 1])
    else if |c.once| > 0 then Some(c.once[|c.once| - 1])
    else None
  }

  function LongestVictim<K, V>(c: Cache<K, V>): Option<Entry<K, V>> {
    if |c.once| <= |c.twice| then
      if |c.twice| > 0 then Some(c.twice[|c.twice| - 1]) else None
    else Some(c.once[|c.once| - 1])
  }

  function RemoveVictim<V, K(==)>(cfg: Config<V>, c: Cache<K, V>, victim: Option<Entry<K, V>>): Cache<K, V> {
    if victim.None? then c
    else Remove(cfg, c.(events := c.events + cfg.OnEvict(victim.value.value)), victim.value.key).0
  }

  function RemoveTail<V, K(==)>(cfg: Config<V>, c: Cache<K, V>): Cache<K, V> {
    RemoveVictim(cfg, c, Victim(cfg, c))
  }

  /** What is left of giving up a victim when its key is no longer in the table: only its warning. */
  function WarnVictim<V, K>(cfg: Config<V>, c: Cache<K, V>, victim: Option<Entry<K, V>>): Cache<K, V> {
    if victim.None? then c else c.(events := c.events + cfg.OnEvict(victim.value.value))
  }

  /** `n` rounds of the eviction loop when no key is in the table. */
  function EvictedForgotten<V, K>(cfg: Config<V>, c: Cache<K, V>, n: nat): Cache<K, V> {
    if n == 0 then c
    else
      var d := EvictedForgotten(cfg, c, n - 1);
      WarnVictim(cfg, d, Victim(cfg, d))
  }

  /** `removeLru`: give up tails until there is room for one more item. */
  function Evict<V, K(==)>(cfg: Config<V>, c: Cache<K, V>): Cache<K, V>
    decreases c.Size()
  {
    if cfg.capacity <= c.Size() && Victim(cfg, c).Some? then Evict(cfg, RemoveTail(cfg, c)) else c
  }

  function Store<V(==), K(==)>(cfg: Config<V>, c: Cache<K, V>, test: Option<V>, k: K, v: Option<V>, isCompare: bool)
    : (Cache<K, V>, Option<V>)
  {
    if Has(c, k) then
      var touched := Touch(cfg, c, k);
      var was := ValueOf(c, k);
      if isCompare && test != was then (touched, was)
      else
        var written := SetValue(touched, k, v);
        var left := if v == was then None else was;
        if isCompare && test != left then (written, None)
        else (written.(events := c.events + cfg.OnRemove(left)), left)
    else if isCompare && test.Some? then (c, None)
    else (Insert(cfg, c, k, v), None)
  }

  /** The private `compareAndPut`: evict first, look up afterwards. */
  function CompareAndPut<V(==), K(==)>(cfg: Config<V>, c: Cache<K, V>, test: Option<V>, k: K, v: Option<V>,
                                       isCompare: bool)
    : (Cache<K, V>, Option<V>)
  {
    Store(cfg, Evict(cfg, c), test, k, v, isCompare)
  }

  /** `clear` drops everything; `fired` are the calls it makes, in the order of the hash table. */
  function Clear<K, V>(c: Cache<K, V>, fired: seq<Event<V>>): Cache<K, V> {
    Cache([], [], c.clock + c.Size(), c.events + fired)
  }
}
