/**
 What the LRU cache promises for one operation, proved about the functions of `LruModel`
 that the heap class is shown to compute: a map semantics for every operation, what
 eviction takes, exact results, and the meaning of the 30-bit counter.
 */
module LruLaws {
  import opened Common
  import opened LruModel

  // ----- the invariant of the model -----

  ghost predicate DistinctKeys<K, V>(s: seq<Entry<K, V>>) {
    forall i, j :: 0 <= i < j < |s| ==> s[i].key != s[j].key
  }

  ghost predicate Apart<K, V>(s: seq<Entry<K, V>>, t: seq<Entry<K, V>>) {
    forall i, j :: 0 <= i < |s| && 0 <= j < |t| ==> s[i].key != t[j].key
  }

  /** A new item carries a stamp that is not a moment at all; a promoted one carries the
      masked number of the list update that stamped it. */
  ghost predicate Stamped<V, K>(cfg: Config<V>, c: Cache<K, V>) {
    && (forall i :: 0 <= i < |c.once| ==> c.once[i].stamp == -(cfg.Timeout() + 16))
    && (forall i :: 0 <= i < |c.twice| ==> c.twice[i].stamp == Mask30(c.twice[i].at) && c.twice[i].at <= c.clock)
  }

  ghost predicate WellFormed<V, K>(cfg: Config<V>, c: Cache<K, V>) {
    DistinctKeys(c.once) && DistinctKeys(c.twice) && Apart(c.once, c.twice) && Stamped(cfg, c)
  }

  // ----- lookup as a map -----

  function LookupIn<K(==), V>(s: seq<Entry<K, V>>, k: K): Option<Option<V>> {
    var i := IndexOf(s, k);
    if i < |s| then Some(s[i].value) else None
  }

  /** The cache as a partial map: `None` for a missing key, `Some(null)` for a stored null. */
  function Lookup<K(==), V>(c: Cache<K, V>, k: K): Option<Option<V>> {
    if InOnce(c, k) then LookupIn(c.once, k) else LookupIn(c.twice, k)
  }

  lemma LookupAt<K, V>(s: seq<Entry<K, V>>, i: nat)
    requires DistinctKeys(s) && i < |s|
    ensures IndexOf(s, s[i].key) == i
    ensures LookupIn(s, s[i].key) == Some(s[i].value)
  {
  }

  lemma LookupRemoveAt<K, V>(s: seq<Entry<K, V>>, i: nat, q: K)
    requires DistinctKeys(s) && i < |s|
    ensures DistinctKeys(RemoveAt(s, i))
    ensures LookupIn(RemoveAt(s, i), q) == if q == s[i].key then None else LookupIn(s, q)
  {
    var r := RemoveAt(s, i);
    var j := IndexOf(s, q);
    if j < |s| && j != i {
      var j' := if j < i then j else j - 1;
      assert r[j'] == s[j];
      LookupAt(r, j');
    } else {
      assert forall j' :: 0 <= j' < |r| ==> r[j'].key != q;
    }
  }

  lemma LookupCons<K, V>(e: Entry<K, V>, s: seq<Entry<K, V>>, q: K)
    ensures LookupIn([e] + s, q) == if q == e.key then Some(e.value) else LookupIn(s, q)
  {
    assert ([e] + s)[1..] == s;
  }

  lemma LookupUpdate<K, V>(s: seq<Entry<K, V>>, i: nat, v: Option<V>, q: K)
    requires DistinctKeys(s) && i < |s|
    ensures DistinctKeys(s[i := s[i].(value := v)])
    ensures LookupIn(s[i := s[i].(value := v)], q) == if q == s[i].key then Some(v) else LookupIn(s, q)
  {
    var r := s[i := s[i].(value := v)];
    assert forall j :: 0 <= j < |s| ==> r[j].key == s[j].key;
    var j := IndexOf(s, q);
    if j < |s| {
      LookupAt(r, j);
    }
  }

  // ----- every list update keeps the invariant and has a map meaning -----

  lemma PromoteKeeps<V, K>(cfg: Config<V>, c: Cache<K, V>, k: K)
    requires WellFormed(cfg, c) && Has(c, k)
    ensures var d := Promote(c, k); WellFormed(cfg, d) && d.Size() == c.Size()
  {
    if InOnce(c, k) {
      LookupRemoveAt(c.once, IndexOf(c.once, k), k);
    } else {
      LookupRemoveAt(c.twice, IndexOf(c.twice, k), k);
    }
  }

  lemma PromoteLookup<K, V>(c: Cache<K, V>, k: K, q: K)
    requires DistinctKeys(c.once) && DistinctKeys(c.twice) && Apart(c.once, c.twice) && Has(c, k)
    ensures Lookup(Promote(c, k), q) == Lookup(c, q)
  {
    var d := Promote(c, k);
    if InOnce(c, k) {
      LookupRemoveAt(c.once, IndexOf(c.once, k), q);
      LookupCons(d.twice[0], c.twice, q);
    } else {
      var i := IndexOf(c.twice, k);
      LookupRemoveAt(c.twice, i, q);
      LookupCons(d.twice[0], RemoveAt(c.twice, i), q);
    }
  }

  lemma TouchLaw<V, K>(cfg: Config<V>, c: Cache<K, V>, k: K, q: K)
    requires WellFormed(cfg, c) && Has(c, k)
    ensures var d := Touch(cfg, c, k); WellFormed(cfg, d) && Lookup(d, q) == Lookup(c, q) && d.Size() == c.Size()
  {
    PromoteKeeps(cfg, c, k);
    PromoteLookup(c, k, q);
  }

  /** `get` returns what is stored under the key, and changes no lookup. */
  lemma GetLaw<V, K>(cfg: Config<V>, c: Cache<K, V>, k: K, q: K)
    requires WellFormed(cfg, c)
    ensures var (d, v) := Get(cfg, c, k);
      && WellFormed(cfg, d) && d.Size() == c.Size()
      && Lookup(d, q) == Lookup(c, q)
      && v == (if Lookup(c, k).Some? then Lookup(c, k).value else None)
  {
    if Has(c, k) {
      TouchLaw(cfg, c, k, q);
    }
  }

  lemma DropLaw<V, K>(cfg: Config<V>, c: Cache<K, V>, k: K, q: K)
    requires WellFormed(cfg, c) && Has(c, k)
    ensures var d := Drop(c, k);
      WellFormed(cfg, d) && d.Size() == c.Size() - 1 &&
      Lookup(d, q) == if q == k then None else Lookup(c, q)
  {
    if InOnce(c, k) {
      LookupRemoveAt(c.once, IndexOf(c.once, k), q);
    } else {
      LookupRemoveAt(c.twice, IndexOf(c.twice, k), q);
    }
  }

  lemma InsertLaw<V, K>(cfg: Config<V>, c: Cache<K, V>, k: K, v: Option<V>, q: K)
    requires WellFormed(cfg, c) && !Has(c, k)
    ensures var d := Insert(cfg, c, k, v);
      WellFormed(cfg, d) && d.Size() == c.Size() + 1 &&
      Lookup(d, q) == if q == k then Some(v) else Lookup(c, q)
  {
    LookupCons(Insert(cfg, c, k, v).once[0], c.once, q);
  }

  lemma SetValueLaw<V, K>(cfg: Config<V>, c: Cache<K, V>, k: K, v: Option<V>, q: K)
    requires WellFormed(cfg, c) && Has(c, k)
    ensures var d := SetValue(c, k, v);
      WellFormed(cfg, d) && d.Size() == c.Size() &&
      Lookup(d, q) == if q == k then Some(v) else Lookup(c, q)
  {
    if InOnce(c, k) {
      LookupUpdate(c.once, IndexOf(c.once, k), v, q);
    } else {
      LookupUpdate(c.twice, IndexOf(c.twice, k), v, q);
    }
  }

  lemma RemoveLaw<V, K>(cfg: Config<V>, c: Cache<K, V>, k: K, q: K)
    requires WellFormed(cfg, c)
    ensures var (d, v) := Remove(cfg, c, k);
      && WellFormed(cfg, d)
      && Lookup(d, q) == (if q == k then None else Lookup(c, q))
      && v == ValueOf(c, k)
      && d.Size() == c.Size() - (if Lookup(c, k).Some? then 1 else 0)
  {
    if Has(c, k) {
      DropLaw(cfg, c, k, q);
    }
  }

  // ----- eviction -----

  /** What is notified when an evicted value leaves. */
  function EvictionEvents<V>(cfg: Config<V>, value: Option<V>): seq<Event<V>> {
    cfg.OnEvict(value) + cfg.OnRemove(value)
  }

  lemma RemoveVictimIs<V, K>(cfg: Config<V>, c: Cache<K, V>, e: Entry<K, V>)
    requires Has(c, e.key) && ValueOf(c, e.key) == e.value
    ensures RemoveVictim(cfg, c, Some(e)) == Drop(c, e.key).(events := c.events + EvictionEvents(cfg, e.value))
  {
    var c' := c.(events := c.events + cfg.OnEvict(e.value));
    assert Has(c', e.key) && ValueOf(c', e.key) == e.value;
    assert c'.events + cfg.OnRemove(e.value) == c.events + EvictionEvents(cfg, e.value);
  }

  /** Dropping the key of the last item of a list shortens just that list. */
  lemma DropLast<K, V>(c: Cache<K, V>)
    requires DistinctKeys(c.once) && DistinctKeys(c.twice) && Apart(c.once, c.twice)
    ensures |c.once| > 0 ==>
      var e := c.once[|c.once| - 1];
      Has(c, e.key) && ValueOf(c, e.key) == e.value && Lookup(c, e.key) == Some(e.value) &&
      Drop(c, e.key) == c.(once := c.once[..|c.once| - 1], clock := c.clock + 1)
    ensures |c.twice| > 0 ==>
      var e := c.twice[|c.twice| - 1];
      Has(c, e.key) && ValueOf(c, e.key) == e.value && Lookup(c, e.key) == Some(e.value) &&
      Drop(c, e.key) == c.(twice := c.twice[..|c.twice| - 1], clock := c.clock + 1)
  {
    if |c.once| > 0 {
      LookupAt(c.once, |c.once| - 1);
    }
    if |c.twice| > 0 {
      LookupAt(c.twice, |c.twice| - 1);
    }
  }

  /** Giving up the last item of list 1 shortens just that list. */
  lemma GiveUpLastOnce<V, K>(cfg: Config<V>, c: Cache<K, V>)
    requires WellFormed(cfg, c) && c.once != []
    ensures var n := |c.once| - 1; var e := c.once[n];
      var d := RemoveVictim(cfg, c, Some(e));
      && Lookup(c, e.key) == Some(e.value)
      && d == c.(once := c.once[..n], clock := c.clock + 1, events := c.events + EvictionEvents(cfg, e.value))
      && WellFormed(cfg, d)
  {
    var e := c.once[|c.once| - 1];
    DropLast(c);
    RemoveVictimIs(cfg, c, e);
    DropLaw(cfg, c, e.key, e.key);
  }

  /** Giving up the last item of list 2 shortens just that list. */
  lemma GiveUpLastTwice<V, K>(cfg: Config<V>, c: Cache<K, V>)
    requires WellFormed(cfg, c) && c.twice != []
    ensures var n := |c.twice| - 1; var e := c.twice[n];
      var d := RemoveVictim(cfg, c, Some(e));
      && Lookup(c, e.key) == Some(e.value)
      && d == c.(twice := c.twice[..n], clock := c.clock + 1, events := c.events + EvictionEvents(cfg, e.value))
      && WellFormed(cfg, d)
  {
    var e := c.twice[|c.twice| - 1];
    DropLast(c);
    RemoveVictimIs(cfg, c, e);
    DropLaw(cfg, c, e.key, e.key);
  }

  /** `removeTail` gives up the last item of one of the two lists and nothing else, so it
      lowers the size by exactly one; it fails only on an empty cache.  It is list 1 that is shortened
      when that holds half the capacity, rounded down, or when list 2 is empty. */
  lemma RemoveTailLaw<V, K>(cfg: Config<V>, c: Cache<K, V>)
    requires WellFormed(cfg, c)
    ensures Victim(cfg, c).None? <==> c.Size() == 0
    ensures var d := RemoveTail(cfg, c);
      && WellFormed(cfg, d)
      && (if c.Size() == 0 then d == c
          else if c.once != [] && (c.twice == [] || cfg.capacity <= 2 * |c.once| + 1) then
            d.twice == c.twice && d.once == c.once[..|c.once| - 1]
          else d.once == c.once && d.twice == c.twice[..|c.twice| - 1])
  {
    if c.once != [] && (c.twice == [] || cfg.Capacity1() <= |c.once|) {
      GiveUpLastOnce(cfg, c);
    } else if c.twice != [] {
      GiveUpLastTwice(cfg, c);
    }
  }

  /** `removeLongestTail` takes the last item of the longer list, of list 2 when they are equal. */
  lemma RemoveLongestTailLaw<V, K>(cfg: Config<V>, c: Cache<K, V>)
    requires WellFormed(cfg, c)
    ensures LongestVictim(c).None? <==> c.Size() == 0
    ensures var d := RemoveVictim(cfg, c, LongestVictim(c));
      && WellFormed(cfg, d)
      && (if |c.once| > |c.twice| then d.twice == c.twice && d.once == c.once[..|c.once| - 1]
          else if c.twice == [] then d == c
          else d.once == c.once && d.twice == c.twice[..|c.twice| - 1])
  {
    if |c.once| > |c.twice| {
      GiveUpLastOnce(cfg, c);
    } else if c.twice != [] {
      GiveUpLastTwice(cfg, c);
    }
  }

  lemma PrefixLookup<K, V>(c: Cache<K, V>, d: Cache<K, V>, q: K)
    requires DistinctKeys(c.once) && DistinctKeys(c.twice) && Apart(c.once, c.twice)
    requires d.once <= c.once && d.twice <= c.twice
    ensures Lookup(d, q) == Lookup(c, q) || Lookup(d, q) == None
  {
    if InOnce(d, q) {
      LookupAt(c.once, IndexOf(d.once, q));
    } else if InTwice(d, q) {
      LookupAt(c.twice, IndexOf(d.twice, q));
    }
  }

  /** The eviction loop leaves room for one more item (unless the capacity is not even one),
      takes nothing when there is room already, and only ever shortens the two lists. */
  lemma {:induction false} EvictLaw<V, K>(cfg: Config<V>, c: Cache<K, V>)
    requires WellFormed(cfg, c)
    ensures var d := Evict(cfg, c);
      && WellFormed(cfg, d)
      && d.once <= c.once && d.twice <= c.twice
      && d.Size() <= cfg.Limit() - 1
      && (c.Size() < cfg.capacity ==> d == c)
      && (c.Size() >= cfg.capacity >= 1 ==> d.Size() == cfg.capacity - 1)
    decreases c.Size()
  {
    RemoveTailLaw(cfg, c);
    if cfg.capacity <= c.Size() && Victim(cfg, c).Some? {
      EvictLaw(cfg, RemoveTail(cfg, c));
    }
  }

  // ----- the put family -----

  lemma StoreLaw<V, K>(cfg: Config<V>, e: Cache<K, V>, test: Option<V>, k: K, v: Option<V>, isCompare: bool, q: K)
    requires WellFormed(cfg, e)
    ensures var d := Store(cfg, e, test, k, v, isCompare).0;
      && WellFormed(cfg, d)
      && Lookup(d, q) == (if q == k && (isCompare ==> ValueOf(e, k) == test) then Some(v) else Lookup(e, q))
      && d.Size() <= e.Size() + 1
  {
    if Has(e, k) {
      TouchLaw(cfg, e, k, q);
      TouchLaw(cfg, e, k, k);
      var t := Touch(cfg, e, k);
      assert Lookup(t, k) == Some(ValueOf(e, k));
      assert Has(t, k);
      SetValueLaw(cfg, t, k, v, q);
    } else {
      InsertLaw(cfg, e, k, v, q);
    }
  }

  /** The map meaning of the private `compareAndPut`: eviction comes first and may already have
      dropped the key; then exactly this key changes, and only if the comparison allows it. */
  lemma CompareAndPutLaw<V, K>(cfg: Config<V>, c: Cache<K, V>, test: Option<V>, k: K, v: Option<V>, isCompare: bool,
                               q: K)
    requires WellFormed(cfg, c)
    ensures var e := Evict(cfg, c);
      var d := CompareAndPut(cfg, c, test, k, v, isCompare).0;
      && WellFormed(cfg, d)
      && Lookup(d, q) == (if q == k && (isCompare ==> ValueOf(e, k) == test) then Some(v) else Lookup(e, q))
      && d.Size() <= cfg.Limit()
  {
    EvictLaw(cfg, c);
    StoreLaw(cfg, Evict(cfg, c), test, k, v, isCompare, q);
  }

  /** `put` returns the value it displaced, and null when it displaced nothing or the same object. */
  lemma PutResult<V, K>(cfg: Config<V>, c: Cache<K, V>, k: K, v: Option<V>)
    ensures var e := Evict(cfg, c);
      CompareAndPut(cfg, c, None, k, v, false).1 == if ValueOf(e, k) == v then None else ValueOf(e, k)
  {
  }

  /** `compareAndPut` reports success exactly when the value after eviction was `test` and the
      replacement is not that same non-null object. */
  lemma CompareAndPutResult<V, K>(cfg: Config<V>, c: Cache<K, V>, test: Option<V>, k: K, v: Option<V>)
    ensures (CompareAndPut(cfg, c, test, k, v, true).1 == test) <==>
            (ValueOf(Evict(cfg, c), k) == test && !(test.Some? && v == test))
  {
  }

  function PutIfNew<V(==), K(==)>(cfg: Config<V>, c: Cache<K, V>, k: K, v: Option<V>): (Cache<K, V>, Option<V>) {
    var (d, left) := CompareAndPut(cfg, c, None, k, v, true);
    (d, if left.Some? then left else v)
  }

  /** `putIfNew` returns what a lookup finds afterwards. */
  lemma PutIfNewResult<V, K>(cfg: Config<V>, c: Cache<K, V>, k: K, v: Option<V>)
    requires WellFormed(cfg, c)
    ensures var (d, r) := PutIfNew(cfg, c, k, v); r == ValueOf(d, k)
  {
    CompareAndPutLaw(cfg, c, None, k, v, true, k);
    var d := PutIfNew(cfg, c, k, v).0;
    assert ValueOf(d, k) == if Lookup(d, k).Some? then Lookup(d, k).value else None;
  }

  /** Storing the object that is already there notifies nobody beyond the evictions. */
  lemma SameObjectFiresNothing<V, K>(cfg: Config<V>, c: Cache<K, V>, test: Option<V>, k: K, v: Option<V>,
                                     isCompare: bool)
    requires ValueOf(Evict(cfg, c), k) == v
    ensures CompareAndPut(cfg, c, test, k, v, isCompare).0.events == Evict(cfg, c).events
  {
    StoringSameFiresNothing(cfg, Evict(cfg, c), test, k, v, isCompare);
  }

  lemma StoringSameFiresNothing<V, K>(cfg: Config<V>, e: Cache<K, V>, test: Option<V>, k: K, v: Option<V>,
                                      isCompare: bool)
    requires ValueOf(e, k) == v
    ensures Store(cfg, e, test, k, v, isCompare).0.events == e.events
  {
    if Has(e, k) {
      assert Touch(cfg, e, k).events == e.events;
      assert cfg.OnRemove(None) == [];
    }
  }

  // ----- a put may evict its own key -----

  /** The guard that decides whether the eviction before a put takes the key itself: the cache is
      full and its next victim is this key. */
  predicate LosesItsKey<V, K(==)>(cfg: Config<V>, c: Cache<K, V>, k: K) {
    cfg.capacity <= c.Size() && Victim(cfg, c).Some? && Victim(cfg, c).value.key == k
  }

  /** A cache that is not over its capacity gives up at most one item before a put. */
  lemma EvictOne<V, K>(cfg: Config<V>, c: Cache<K, V>)
    requires WellFormed(cfg, c) && c.Size() <= cfg.Limit()
    ensures Evict(cfg, c) == if cfg.capacity <= c.Size() && Victim(cfg, c).Some? then RemoveTail(cfg, c) else c
  {
    RemoveTailLaw(cfg, c);
    var d := RemoveTail(cfg, c);
    RemoveTailLaw(cfg, d);
    assert cfg.capacity <= c.Size() && Victim(cfg, c).Some? ==> Evict(cfg, c) == Evict(cfg, d);
    assert cfg.capacity <= c.Size() ==> !(cfg.capacity <= d.Size() && Victim(cfg, d).Some?);
    assert !(cfg.capacity <= d.Size() && Victim(cfg, d).Some?) ==> Evict(cfg, d) == d;
  }

  /** The eviction before a put takes exactly the victim's key, if the cache is full; every other key
      keeps its value. */
  lemma EvictKeepsIff<V, K>(cfg: Config<V>, c: Cache<K, V>, k: K)
    requires WellFormed(cfg, c) && c.Size() <= cfg.Limit()
    ensures Lookup(Evict(cfg, c), k) == if LosesItsKey(cfg, c, k) then None else Lookup(c, k)
  {
    EvictOne(cfg, c);
    if cfg.capacity <= c.Size() && Victim(cfg, c).Some? {
      var e := Victim(cfg, c).value;
      RemoveLaw(cfg, c.(events := c.events + cfg.OnEvict(e.value)), e.key, k);
    }
  }

  /** A cached key survives the eviction of its own put exactly when the cache is not full or another
      key is the victim. */
  lemma SurvivesItsOwnPutIff<V, K>(cfg: Config<V>, c: Cache<K, V>, k: K)
    requires WellFormed(cfg, c) && c.Size() <= cfg.Limit() && Has(c, k)
    ensures Has(Evict(cfg, c), k) <==> !LosesItsKey(cfg, c, k)
    ensures Has(Evict(cfg, c), k) ==> ValueOf(Evict(cfg, c), k) == ValueOf(c, k)
  {
    EvictKeepsIff(cfg, c, k);
    HasIsLookup(c, k);
    HasIsLookup(Evict(cfg, c), k);
  }

  lemma HasIsLookup<K, V>(c: Cache<K, V>, k: K)
    ensures Has(c, k) <==> Lookup(c, k).Some?
    ensures ValueOf(c, k) == if Lookup(c, k).Some? then Lookup(c, k).value else None
  {
  }

  /** `put` reports the value it replaces exactly when the key survives and the object is another. */
  lemma PutReportsIff<V, K>(cfg: Config<V>, c: Cache<K, V>, k: K, v: Option<V>)
    requires WellFormed(cfg, c) && c.Size() <= cfg.Limit()
    ensures CompareAndPut(cfg, c, None, k, v, false).1 ==
            if LosesItsKey(cfg, c, k) || v == ValueOf(c, k) then None else ValueOf(c, k)
  {
    EvictKeepsIff(cfg, c, k);
    HasIsLookup(c, k);
    HasIsLookup(Evict(cfg, c), k);
    PutResult(cfg, c, k, v);
  }

  /** `compareAndPut` succeeds exactly when the value it finds is the test value and not the same
      non-null object as the replacement; it finds the current value, or none if the key is lost. */
  lemma CompareAndPutSucceedsIff<V, K>(cfg: Config<V>, c: Cache<K, V>, test: Option<V>, k: K, v: Option<V>)
    requires WellFormed(cfg, c) && c.Size() <= cfg.Limit()
    ensures var finds := if LosesItsKey(cfg, c, k) then None else ValueOf(c, k);
      && (CompareAndPut(cfg, c, test, k, v, true).1 == test <==> finds == test && !(test.Some? && v == test))
      && Lookup(CompareAndPut(cfg, c, test, k, v, true).0, k) ==
         if finds == test then Some(v) else if LosesItsKey(cfg, c, k) then None else Lookup(c, k)
  {
    EvictKeepsIff(cfg, c, k);
    HasIsLookup(c, k);
    HasIsLookup(Evict(cfg, c), k);
    CompareAndPutResult(cfg, c, test, k, v);
    CompareAndPutLaw(cfg, c, test, k, v, true, k);
  }

  /** So on every full cache there is such a key: a `put` of it reports no old value, and a
      `compareAndPut` against its current (non-null) value fails and leaves it missing. */
  lemma FullCacheEvictsItsOwnKey<V, K>(cfg: Config<V>, c: Cache<K, V>, v: Option<V>)
    requires WellFormed(cfg, c) && c.Size() == cfg.capacity >= 1
    ensures Victim(cfg, c).Some?
    ensures var victim := Victim(cfg, c).value;
      && Lookup(c, victim.key) == Some(victim.value)
      && CompareAndPut(cfg, c, None, victim.key, v, false).1 == None
      && (victim.value.Some? ==>
            Lookup(CompareAndPut(cfg, c, victim.value, victim.key, v, true).0, victim.key) == None)
  {
    RemoveTailLaw(cfg, c);
    var victim := Victim(cfg, c).value;
    DropLast(c);
    PutReportsIff(cfg, c, victim.key, v);
    CompareAndPutSucceedsIff(cfg, c, victim.value, victim.key, v);
  }

  // ----- the 30-bit counter -----

  /** A hit on an item seen more than once moves it exactly when the number of list updates
      since its stamp, as far as 30 bits can tell, exceeds the timeout. */
  lemma RestampedIff<V, K>(cfg: Config<V>, c: Cache<K, V>, k: K)
    requires WellFormed(cfg, c) && InTwice(c, k) && !InOnce(c, k)
    ensures var at := c.twice[IndexOf(c.twice, k)].at;
      && at <= c.clock
      && (Mask30(c.clock - at) > cfg.Timeout() ==> Touch(cfg, c, k) == Promote(c, k))
      && (Mask30(c.clock - at) <= cfg.Timeout() ==> Touch(cfg, c, k) == c)
  {
    var at := c.twice[IndexOf(c.twice, k)].at;
    MaskDifference(c.clock, at);
  }

  lemma MaskDifference(a: int, b: int)
    ensures Mask30(Mask30(a) - Mask30(b)) == Mask30(a - b)
  {
    var m := COUNTER_RANGE;
    var qa, qb := a / m, b / m;
    assert a - b == (a % m - b % m) + (qa - qb) * m;
    AddMultiple(a % m - b % m, qa - qb);
  }

  lemma AddMultiple(x: int, n: int)
    ensures Mask30(x + n * COUNTER_RANGE) == Mask30(x)
  {
    var m := COUNTER_RANGE;
    assert x + n * m == m * (x / m + n) + x % m;
    QuotientUnique(x + n * m, x / m + n, x % m);
  }

  lemma QuotientUnique(x: int, q: int, r: int)
    requires x == COUNTER_RANGE * q + r && 0 <= r < COUNTER_RANGE
    ensures Mask30(x) == r
  {
  }

  /** The first hit is meant always to promote.  It does, unless the counter stands in a window of
      `Timeout() + 1` values just below the point where it wraps. */
  lemma FirstHitPromotesIff<V, K>(cfg: Config<V>, c: Cache<K, V>, k: K)
    requires WellFormed(cfg, c) && cfg.Sized() && InOnce(c, k)
    ensures var window := COUNTER_RANGE - cfg.Timeout() - 16 <= c.Counter() <= COUNTER_RANGE - 16;
      && (!window ==> Touch(cfg, c, k) == Promote(c, k) && InTwice(Touch(cfg, c, k), k))
      && (window ==> Touch(cfg, c, k) == c)
  {
    var t := cfg.Timeout();
    assert t <= 0x400_0000;
    var x := c.Counter() + t + 16;
    if x < COUNTER_RANGE {
      QuotientUnique(x, 0, x);
    } else {
      QuotientUnique(x, 1, x - COUNTER_RANGE);
    }
  }
}
