/**
 What an access does to the recency lists, said of the lists themselves: when a hit moves its
 item and where to, what a put moves, and that a hit saves its key from the next eviction.
 */
module LruHits {
  import opened Common
  import opened LruLaws
  import opened LruModel
  import opened LruRuns

  /** The other entries, in order. */
  function Except<K(==), V>(s: seq<Entry<K, V>>, k: K): seq<Entry<K, V>> {
    if s == [] then []
    else if s[0].key == k then Except(s[1..], k)
    else [s[0]] + Except(s[1..], k)
  }

  lemma {:induction false} ExceptMissing<K, V>(s: seq<Entry<K, V>>, k: K)
    requires IndexOf(s, k) == |s|
    ensures Except(s, k) == s
  {
    if s != [] {
      ExceptMissing(s[1..], k);
    }
  }

  lemma {:induction false} ExceptIsRemoveAt<K, V>(s: seq<Entry<K, V>>, k: K)
    requires DistinctKeys(s) && IndexOf(s, k) < |s|
    ensures Except(s, k) == RemoveAt(s, IndexOf(s, k))
  {
    if s[0].key == k {
      assert forall j :: 0 <= j < |s[1..]| ==> s[1..][j] == s[j + 1];
      ExceptMissing(s[1..], k);
      assert RemoveAt(s, 0) == s[1..];
    } else {
      ExceptIsRemoveAt(s[1..], k);
      var i := IndexOf(s, k);
      assert i == 1 + IndexOf(s[1..], k);
      assert RemoveAt(s, i) == [s[0]] + RemoveAt(s[1..], i - 1);
    }
  }

  // ----- hits -----

  /** The interval within which repeated hits are not worth an update: a 32nd of the capacity, but at
      least one. */
  function Interval(capacity: int): int {
    if capacity / 32 >= 1 then capacity / 32 else 1
  }

  /** When a hit moves its item: an item seen once unless the counter stands just below its wrap-around,
      an item seen more than once when enough list updates have passed since it was last moved. */
  predicate HitMoves<V, K(==)>(cfg: Config<V>, c: Cache<K, V>, k: K)
    requires Has(c, k)
  {
    if InOnce(c, k) then
      !(COUNTER_RANGE - Interval(cfg.capacity) - 16 <= c.clock % COUNTER_RANGE <= COUNTER_RANGE - 16)
    else
      (c.clock - c.twice[IndexOf(c.twice, k)].at) % COUNTER_RANGE > Interval(cfg.capacity)
  }

  /** `d` is `c` with the item of `k` moved to the head of list 2; everything else keeps its place. */
  ghost predicate MovedToFront<K, V>(c: Cache<K, V>, d: Cache<K, V>, k: K) {
    && d.twice != []
    && d.twice[0].key == k && d.twice[0].value == ValueOf(c, k) && d.twice[0].at == d.clock == c.clock + 1
    && d.twice[1..] == Except(c.twice, k) && d.once == Except(c.once, k)
    && d.events == c.events
  }

  lemma PromoteMoves<V, K>(cfg: Config<V>, c: Cache<K, V>, k: K)
    requires WellFormed(cfg, c) && Has(c, k)
    ensures MovedToFront(c, Promote(c, k), k)
  {
    if InOnce(c, k) {
      var i := IndexOf(c.once, k);
      forall j | 0 <= j < |c.twice| ensures c.twice[j].key != k {
        assert c.once[i].key != c.twice[j].key;
      }
      ExceptIsRemoveAt(c.once, k);
      ExceptMissing(c.twice, k);
    } else {
      ExceptIsRemoveAt(c.twice, k);
      ExceptMissing(c.once, k);
    }
  }

  /** A hit moves its item to the head of list 2, or changes nothing; and exactly when it moves it. A miss
      changes nothing. */
  lemma HitMovesIff<V, K>(cfg: Config<V>, c: Cache<K, V>, k: K)
    requires WellFormed(cfg, c) && cfg.Sized()
    ensures var d := LruModel.Get(cfg, c, k).0;
      if Has(c, k) && HitMoves(cfg, c, k) then MovedToFront(c, d, k) else d == c
  {
    if Has(c, k) {
      PromoteMoves(cfg, c, k);
      if InOnce(c, k) {
        FirstHitPromotesIff(cfg, c, k);
      } else {
        RestampedIff(cfg, c, k);
      }
    }
  }

  // ----- puts -----

  /** Keys and moments of a list, whatever the values. */
  function Places<K, V>(s: seq<Entry<K, V>>): seq<(K, nat)> {
    seq(|s|, i requires 0 <= i < |s| => (s[i].key, s[i].at))
  }

  /** Overwriting a key moves its item as a hit does, and so does a comparison that fails; a new key
      becomes the head of list 1 and moves nothing else; a comparison that fails on a missing key
      changes nothing. */
  lemma StorePlaces<V, K>(cfg: Config<V>, c: Cache<K, V>, test: Option<V>, k: K, v: Option<V>, isCompare: bool)
    requires WellFormed(cfg, c)
    ensures var d := LruModel.Store(cfg, c, test, k, v, isCompare).0;
      if Has(c, k) then
        var g := LruModel.Get(cfg, c, k).0;
        Places(d.once) == Places(g.once) && Places(d.twice) == Places(g.twice) && d.clock == g.clock
      else if isCompare && test.Some? then d == c
      else
        && d.once != [] && d.once[0].key == k && d.once[0].value == v && d.once[0].at == d.clock == c.clock + 1
        && d.once[1..] == c.once && d.twice == c.twice && d.events == c.events
  {
    if Has(c, k) {
      TouchLaw(cfg, c, k, k);
      var t := Touch(cfg, c, k);
      assert Has(t, k) by {
        assert Lookup(t, k) == Lookup(c, k);
      }
      SetValueSpares(t, k, v);
    }
  }

  lemma SetValueSpares<K, V>(c: Cache<K, V>, k: K, v: Option<V>)
    requires Has(c, k)
    ensures var d := SetValue(c, k, v);
      Places(d.once) == Places(c.once) && Places(d.twice) == Places(c.twice) && d.clock == c.clock
  {
  }

  // ----- a hit saves its key -----

  /** The next eviction spares the key of a hit that moved exactly when there can be another victim. */
  lemma HitSavesIff<V, K>(cfg: Config<V>, c: Cache<K, V>, k: K)
    requires WellFormed(cfg, c) && cfg.Sized() && c.Size() <= cfg.Limit()
    requires Has(c, k) && HitMoves(cfg, c, k)
    ensures var d := LruModel.Get(cfg, c, k).0;
      Lookup(Evict(cfg, d), k) == if cfg.capacity >= 2 then Lookup(c, k) else None
  {
    var d := LruModel.Get(cfg, c, k).0;
    HitMovesIff(cfg, c, k);
    GetLaw(cfg, c, k, k);
    EvictKeepsIff(cfg, d, k);
    if cfg.capacity >= 2 {
      AnotherVictim(cfg, d, k);
    } else {
      OnlyVictim(cfg, d, k);
    }
  }

  lemma AnotherVictim<V, K>(cfg: Config<V>, d: Cache<K, V>, k: K)
    requires WellFormed(cfg, d) && cfg.capacity >= 2 && d.twice != [] && d.twice[0].key == k
    ensures !LosesItsKey(cfg, d, k)
  {
    if cfg.capacity <= d.Size() {
      assert (cfg.Capacity1() <= |d.once| && |d.once| > 0) || |d.twice| > 1;
    }
  }

  lemma OnlyVictim<V, K>(cfg: Config<V>, d: Cache<K, V>, k: K)
    requires WellFormed(cfg, d) && cfg.capacity < 2 && d.Size() <= 1 && d.twice != [] && d.twice[0].key == k
    ensures LosesItsKey(cfg, d, k)
  {
    assert d.once == [] && |d.twice| == 1;
  }

  /** After any run from the empty cache: a hit that moves its item saves the key from the put of another
      key that comes next, whatever that evicts. */
  lemma HitSavesItsKey<V, K>(cfg: Config<V>, ops: seq<Op<K, V>>, k: K, test: Option<V>, q: K, v: Option<V>,
                             isCompare: bool)
    requires cfg.Sized() && cfg.capacity >= 2 && q != k
    requires var c := Run(cfg, Cache<K, V>.Cache([], [], 0, []), ops); Has(c, k) && HitMoves(cfg, c, k)
    ensures var empty := Cache<K, V>.Cache([], [], 0, []);
      Lookup(Run(cfg, empty, ops + [GetOp(k), StoreOp(test, q, v, isCompare)]), k) == Lookup(Run(cfg, empty, ops), k)
  {
    hide WellFormed, HitMoves, Evict, LruModel.Store;
    var empty := Cache<K, V>.Cache([], [], 0, []);
    var next := [GetOp(k), StoreOp(test, q, v, isCompare)];
    var c := Run(cfg, empty, ops);
    EmptyIsWellFormed<V, K>(cfg);
    RunKeeps(cfg, empty, ops);
    RunConcat(cfg, empty, ops, next);
    var d := LruModel.Get(cfg, c, k).0;
    assert next[1..] == [StoreOp(test, q, v, isCompare)];
    RunOne(cfg, d, StoreOp(test, q, v, isCompare));
    GetLaw(cfg, c, k, k);
    HitSavesIff(cfg, c, k);
    CompareAndPutLaw(cfg, d, test, q, v, isCompare, k);
  }

  lemma EmptyIsWellFormed<V, K>(cfg: Config<V>)
    ensures WellFormed(cfg, Cache<K, V>.Cache([], [], 0, []))
  {
  }

  // ----- listener calls -----

  /** Which calls a value that leaves the cache gets: the synchronous one first, each exactly if listeners
      are enabled and the value is such a listener. */
  lemma LeavingCalls<V>(cfg: Config<V>, v: V)
    ensures var calls := cfg.OnRemove(Some(v));
      && |calls| <= 2
      && (cfg.enabled && cfg.isSyncListener(v) <==> SyncRemoveEvent(v) in calls)
      && (cfg.enabled && cfg.isCacheListener(v) <==> RemoveEvent(v) in calls)
      && (forall e :: e in calls ==> e == SyncRemoveEvent(v) || e == RemoveEvent(v))
      && (|calls| == 2 ==> calls == [SyncRemoveEvent(v), RemoveEvent(v)])
  {
    var calls := cfg.OnRemove(Some(v));
    if cfg.enabled && cfg.isSyncListener(v) {
      assert calls[0] == SyncRemoveEvent(v);
    }
    if cfg.enabled && cfg.isCacheListener(v) {
      assert calls[|calls| - 1] == RemoveEvent(v);
    }
  }

  /** The calls of the operations that make a value leave: `remove`, and an eviction, which warns an
      `LruListener` first, even with listeners disabled. */
  lemma RemovalCalls<V, K>(cfg: Config<V>, c: Cache<K, V>, k: K)
    requires WellFormed(cfg, c)
    ensures var d := LruModel.Remove(cfg, c, k).0;
      d.events == c.events + (if Lookup(c, k).Some? then cfg.OnRemove(Lookup(c, k).value) else [])
    ensures var victim := Victim(cfg, c);
      LruModel.RemoveTail(cfg, c).events == c.events +
        if victim.None? then []
        else
          (if victim.value.value.Some? && cfg.isLruListener(victim.value.value.value) then
             [LruEvent(victim.value.value.value)]
           else []) + cfg.OnRemove(victim.value.value)
  {
    HasIsLookup(c, k);
    var victim := Victim(cfg, c);
    if victim.Some? {
      DropLast(c);
      RemoveVictimIs(cfg, c, victim.value);
    }
  }

  /** An overwrite calls what the displaced value is owed, unless the same object is put again. */
  lemma OverwriteCalls<V, K>(cfg: Config<V>, c: Cache<K, V>, k: K, v: Option<V>)
    requires Has(c, k)
    ensures LruModel.Store(cfg, c, None, k, v, false).0.events ==
            c.events + (if ValueOf(c, k) == v then [] else cfg.OnRemove(ValueOf(c, k)))
  {
    assert Touch(cfg, c, k).events == c.events;
  }
}
