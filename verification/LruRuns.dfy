/**
 Laws of the LRU cache over whole runs: the invariant and the capacity bound after
 any sequence of operations, the conservation of listener notifications, and the
 resistance of the second list to a scan of fresh keys.
 */
module LruRuns {
  import opened Common
  import opened LruModel
  import opened LruLaws

  /** One public operation.  `clear` walks the hash table, so which listener is notified first
      depends on the hash codes; `fired` is the order it happens to use. */
  datatype Op<K, V> =
    | GetOp(key: K)
    | StoreOp(test: Option<V>, key: K, value: Option<V>, isCompare: bool)
    | RemoveOp(key: K)
    | RemoveTailOp
    | RemoveLongestTailOp
    | ClearOp(fired: seq<V>)

  // ----- the listeners among the cached values -----

  function ListenerOf<V>(cfg: Config<V>, value: Option<V>): multiset<V> {
    if value.Some? && cfg.isCacheListener(value.value) then multiset{value.value} else multiset{}
  }

  function HeldIn<V, K>(cfg: Config<V>, s: seq<Entry<K, V>>): multiset<V> {
    if s == [] then multiset{} else ListenerOf(cfg, s[0].value) + HeldIn(cfg, s[1..])
  }

  /** The cached values that want to hear of their removal, with multiplicity. */
  function Held<V, K>(cfg: Config<V>, c: Cache<K, V>): multiset<V> {
    HeldIn(cfg, c.once) + HeldIn(cfg, c.twice)
  }

  /** The values whose `removeEvent` has been called, once for each call. */
  function Notified<V>(events: seq<Event<V>>): multiset<V> {
    if events == [] then multiset{}
    else Notified(events[..|events| - 1]) +
         (match events[|events| - 1] case RemoveEvent(v) => multiset{v} case _ => multiset{})
  }

  function AllNotified<V>(fired: seq<V>): seq<Event<V>> {
    seq(|fired|, i requires 0 <= i < |fired| => RemoveEvent(fired[i]))
  }

  // ----- runs -----

  /** `clear` with listeners disabled does not produce a well-formed cache at all
      (`LruCache.Clear`), so it is not a step here. */
  ghost predicate Legal<V, K>(cfg: Config<V>, c: Cache<K, V>, op: Op<K, V>) {
    op.ClearOp? ==> cfg.enabled && multiset(op.fired) == Held(cfg, c)
  }

  function Step<V(==), K(==)>(cfg: Config<V>, c: Cache<K, V>, op: Op<K, V>): Cache<K, V> {
    match op
    case GetOp(k) => Get(cfg, c, k).0
    case StoreOp(test, k, v, isCompare) => CompareAndPut(cfg, c, test, k, v, isCompare).0
    case RemoveOp(k) => Remove(cfg, c, k).0
    case RemoveTailOp => RemoveTail(cfg, c)
    case RemoveLongestTailOp => RemoveVictim(cfg, c, LongestVictim(c))
    case ClearOp(fired) => Clear(c, AllNotified(fired))
  }

  ghost predicate LegalRun<V, K>(cfg: Config<V>, c: Cache<K, V>, ops: seq<Op<K, V>>)
    decreases |ops|
  {
    ops == [] || (Legal(cfg, c, ops[0]) && LegalRun(cfg, Step(cfg, c, ops[0]), ops[1..]))
  }

  function Run<V(==), K(==)>(cfg: Config<V>, c: Cache<K, V>, ops: seq<Op<K, V>>): Cache<K, V>
    decreases |ops|
  {
    if ops == [] then c else Run(cfg, Step(cfg, c, ops[0]), ops[1..])
  }

  lemma StepKeeps<V, K>(cfg: Config<V>, c: Cache<K, V>, op: Op<K, V>)
    requires WellFormed(cfg, c)
    ensures WellFormed(cfg, Step(cfg, c, op))
    ensures c.Size() <= cfg.Limit() ==> Step(cfg, c, op).Size() <= cfg.Limit()
  {
    match op
    case GetOp(k) => if Has(c, k) { TouchLaw(cfg, c, k, k); }
    case StoreOp(test, k, v, isCompare) => CompareAndPutLaw(cfg, c, test, k, v, isCompare, k);
    case RemoveOp(k) => RemoveLaw(cfg, c, k, k);
    case RemoveTailOp => RemoveTailLaw(cfg, c);
    case RemoveLongestTailOp => RemoveLongestTailLaw(cfg, c);
    case ClearOp(fired) =>
  }

  /** Every run from an empty cache keeps the invariant, and the size never exceeds the capacity. */
  lemma {:induction false} RunKeeps<V, K>(cfg: Config<V>, c: Cache<K, V>, ops: seq<Op<K, V>>)
    requires WellFormed(cfg, c) && c.Size() <= cfg.Limit()
    ensures WellFormed(cfg, Run(cfg, c, ops))
    ensures Run(cfg, c, ops).Size() <= cfg.Limit()
    decreases |ops|
  {
    if ops != [] {
      StepKeeps(cfg, c, ops[0]);
      RunKeeps(cfg, Step(cfg, c, ops[0]), ops[1..]);
    }
  }

  // ----- conservation of notifications -----

  lemma NotifiedConcat<V>(a: seq<Event<V>>, b: seq<Event<V>>)
    ensures Notified(a + b) == Notified(a) + Notified(b)
  {
    if b == [] {
      assert a + b == a;
    } else {
      var b' := b[..|b| - 1];
      assert (a + b)[..|a + b| - 1] == a + b';
      NotifiedConcat(a, b');
    }
  }

  lemma NotifiedOne<V>(e: Event<V>)
    ensures Notified([e]) == match e case RemoveEvent(v) => multiset{v} case _ => multiset{}
  {
    assert [e][..0] == [];
  }

  lemma NotifiedOfEvict<V>(cfg: Config<V>, value: Option<V>)
    ensures Notified(cfg.OnEvict(value)) == multiset{}
  {
    if value.Some? {
      NotifiedOne(LruEvent(value.value));
    }
  }

  lemma NotifiedOfRemove<V>(cfg: Config<V>, value: Option<V>)
    requires cfg.enabled
    ensures Notified(cfg.OnRemove(value)) == ListenerOf(cfg, value)
  {
    if value.Some? {
      var v := value.value;
      var sync := if cfg.isSyncListener(v) then [SyncRemoveEvent(v)] else [];
      var plain := if cfg.isCacheListener(v) then [RemoveEvent(v)] else [];
      NotifiedConcat(sync, plain);
      NotifiedOne(SyncRemoveEvent(v));
      NotifiedOne(RemoveEvent(v));
    }
  }

  lemma NotifiedOfAll<V>(fired: seq<V>)
    ensures Notified(AllNotified(fired)) == multiset(fired)
  {
    if fired != [] {
      var init := fired[..|fired| - 1];
      assert AllNotified(fired)[..|fired| - 1] == AllNotified(init);
      assert fired == init + [fired[|fired| - 1]];
      NotifiedOfAll(init);
    }
  }

  lemma HeldConcat<V, K>(cfg: Config<V>, s: seq<Entry<K, V>>, t: seq<Entry<K, V>>)
    ensures HeldIn(cfg, s + t) == HeldIn(cfg, s) + HeldIn(cfg, t)
  {
    if s == [] {
      assert s + t == t;
    } else {
      assert (s + t)[1..] == s[1..] + t;
    }
  }

  lemma HeldRemoveAt<V, K>(cfg: Config<V>, s: seq<Entry<K, V>>, i: nat)
    requires i < |s|
    ensures HeldIn(cfg, s) == HeldIn(cfg, RemoveAt(s, i)) + ListenerOf(cfg, s[i].value)
  {
    assert s == s[..i] + ([s[i]] + s[i + 1..]);
    HeldConcat(cfg, s[..i], [s[i]] + s[i + 1..]);
    HeldConcat(cfg, s[..i], s[i + 1..]);
  }

  lemma HeldUpdate<V, K>(cfg: Config<V>, s: seq<Entry<K, V>>, i: nat, v: Option<V>)
    requires i < |s|
    ensures HeldIn(cfg, s[i := s[i].(value := v)]) + ListenerOf(cfg, s[i].value) == HeldIn(cfg, s) + ListenerOf(cfg, v)
  {
    var t := s[i := s[i].(value := v)];
    HeldRemoveAt(cfg, s, i);
    HeldRemoveAt(cfg, t, i);
    assert RemoveAt(s, i) == RemoveAt(t, i);
  }

  lemma HeldCons<V, K>(cfg: Config<V>, e: Entry<K, V>, s: seq<Entry<K, V>>)
    ensures HeldIn(cfg, [e] + s) == ListenerOf(cfg, e.value) + HeldIn(cfg, s)
  {
    assert ([e] + s)[1..] == s;
  }

  lemma HeldTouch<V, K>(cfg: Config<V>, c: Cache<K, V>, k: K)
    requires Has(c, k)
    ensures Held(cfg, Touch(cfg, c, k)) == Held(cfg, c)
  {
    var d := Promote(c, k);
    if InOnce(c, k) {
      HeldRemoveAt(cfg, c.once, IndexOf(c.once, k));
      HeldCons(cfg, d.twice[0], c.twice);
    } else {
      var i := IndexOf(c.twice, k);
      HeldRemoveAt(cfg, c.twice, i);
      HeldCons(cfg, d.twice[0], RemoveAt(c.twice, i));
    }
  }

  lemma HeldDrop<V, K>(cfg: Config<V>, c: Cache<K, V>, k: K)
    requires Has(c, k)
    ensures Held(cfg, c) == Held(cfg, Drop(c, k)) + ListenerOf(cfg, ValueOf(c, k))
  {
    if InOnce(c, k) {
      HeldRemoveAt(cfg, c.once, IndexOf(c.once, k));
    } else {
      HeldRemoveAt(cfg, c.twice, IndexOf(c.twice, k));
    }
  }

  lemma Exchange<V>(rest: multiset<V>, a: multiset<V>, x: multiset<V>, b: multiset<V>, y: multiset<V>)
    requires a + x == b + y
    ensures (rest + a) + x == (rest + b) + y
    ensures (a + rest) + x == (b + rest) + y
    ensures a + (rest + x) == (b + rest) + y
  {
    assert (rest + a) + x == rest + (a + x);
    assert (a + rest) + x == rest + (a + x);
    assert a + (rest + x) == rest + (a + x);
  }

  lemma Cancel<V>(a: multiset<V>, b: multiset<V>, x: multiset<V>)
    requires a + x == b + x
    ensures a == b
  {
    forall v ensures a[v] == b[v] {
      assert (a + x)[v] == a[v] + x[v] && (b + x)[v] == b[v] + x[v];
    }
  }

  lemma HeldSetValue<V, K>(cfg: Config<V>, c: Cache<K, V>, k: K, v: Option<V>)
    requires Has(c, k)
    ensures Held(cfg, SetValue(c, k, v)) + ListenerOf(cfg, ValueOf(c, k)) == Held(cfg, c) + ListenerOf(cfg, v)
  {
    if InOnce(c, k) {
      var i := IndexOf(c.once, k);
      HeldUpdate(cfg, c.once, i, v);
      Exchange(HeldIn(cfg, c.twice), HeldIn(cfg, SetValue(c, k, v).once), ListenerOf(cfg, c.once[i].value),
               HeldIn(cfg, c.once), ListenerOf(cfg, v));
    } else {
      var i := IndexOf(c.twice, k);
      HeldUpdate(cfg, c.twice, i, v);
      Exchange(HeldIn(cfg, c.once), HeldIn(cfg, SetValue(c, k, v).twice), ListenerOf(cfg, c.twice[i].value),
               HeldIn(cfg, c.twice), ListenerOf(cfg, v));
    }
  }

  /** The listeners accounted for so far: those still cached and those already notified. */
  function Accounted<V, K>(cfg: Config<V>, c: Cache<K, V>): multiset<V> {
    Held(cfg, c) + Notified(c.events)
  }

  lemma RemoveAccounts<V, K>(cfg: Config<V>, c: Cache<K, V>, k: K)
    requires cfg.enabled
    ensures Accounted(cfg, Remove(cfg, c, k).0) == Accounted(cfg, c)
  {
    if Has(c, k) {
      HeldDrop(cfg, c, k);
      NotifiedOfRemove(cfg, ValueOf(c, k));
      NotifiedConcat(c.events, cfg.OnRemove(ValueOf(c, k)));
    }
  }

  lemma RemoveVictimAccounts<V, K>(cfg: Config<V>, c: Cache<K, V>, victim: Option<Entry<K, V>>)
    requires cfg.enabled
    ensures Accounted(cfg, RemoveVictim(cfg, c, victim)) == Accounted(cfg, c)
  {
    if victim.Some? {
      var value := victim.value.value;
      NotifiedOfEvict(cfg, value);
      NotifiedConcat(c.events, cfg.OnEvict(value));
      RemoveAccounts(cfg, c.(events := c.events + cfg.OnEvict(value)), victim.value.key);
    }
  }

  lemma {:induction false} EvictAccounts<V, K>(cfg: Config<V>, c: Cache<K, V>)
    requires cfg.enabled && WellFormed(cfg, c)
    ensures Accounted(cfg, Evict(cfg, c)) == Accounted(cfg, c)
    decreases c.Size()
  {
    RemoveTailLaw(cfg, c);
    if cfg.capacity <= c.Size() && Victim(cfg, c).Some? {
      RemoveVictimAccounts(cfg, c, Victim(cfg, c));
      EvictAccounts(cfg, RemoveTail(cfg, c));
    }
  }

  lemma StoreAccounts<V, K>(cfg: Config<V>, e: Cache<K, V>, test: Option<V>, k: K, v: Option<V>, isCompare: bool)
    requires cfg.enabled && WellFormed(cfg, e)
    ensures Accounted(cfg, Store(cfg, e, test, k, v, isCompare).0) ==
      Accounted(cfg, e) +
      (if (isCompare ==> ValueOf(e, k) == test) && ValueOf(e, k) != v then ListenerOf(cfg, v) else multiset{})
  {
    var was := ValueOf(e, k);
    if Has(e, k) {
      TouchLaw(cfg, e, k, k);
      HeldTouch(cfg, e, k);
      var t := Touch(cfg, e, k);
      assert Lookup(t, k) == Some(was);
      assert Has(t, k) && ValueOf(t, k) == was && t.events == e.events;
      StoreOverAccounts(cfg, e, t, test, k, v, isCompare);
    } else {
      HeldCons(cfg, Insert(cfg, e, k, v).once[0], e.once);
    }
  }

  lemma StoreOverAccounts<V, K>(cfg: Config<V>, e: Cache<K, V>, t: Cache<K, V>, test: Option<V>, k: K, v: Option<V>,
                                isCompare: bool)
    requires cfg.enabled && Has(e, k) && t == Touch(cfg, e, k)
    requires Has(t, k) && ValueOf(t, k) == ValueOf(e, k) && t.events == e.events && Held(cfg, t) == Held(cfg, e)
    ensures Accounted(cfg, Store(cfg, e, test, k, v, isCompare).0) ==
      Accounted(cfg, e) +
      (if (isCompare ==> ValueOf(e, k) == test) && ValueOf(e, k) != v then ListenerOf(cfg, v) else multiset{})
  {
    var was := ValueOf(e, k);
    if isCompare ==> was == test {
      var left := if v == was then None else was;
      assert Store(cfg, e, test, k, v, isCompare).0 == SetValue(t, k, v).(events := e.events + cfg.OnRemove(left)) by {
        assert cfg.OnRemove(None) == [];
        assert e.events + [] == e.events;
      }
      OverwriteAccounts(cfg, t, k, v);
    } else {
      assert Store(cfg, e, test, k, v, isCompare).0 == t;
    }
  }

  lemma OverwriteAccounts<V, K>(cfg: Config<V>, t: Cache<K, V>, k: K, v: Option<V>)
    requires cfg.enabled && Has(t, k)
    ensures var was := ValueOf(t, k);
      var left := if v == was then None else was;
      Accounted(cfg, SetValue(t, k, v).(events := t.events + cfg.OnRemove(left))) ==
      Accounted(cfg, t) + (if was != v then ListenerOf(cfg, v) else multiset{})
  {
    var was := ValueOf(t, k);
    var left := if v == was then None else was;
    var written := SetValue(t, k, v);
    HeldSetValue(cfg, t, k, v);
    NotifiedOfRemove(cfg, left);
    NotifiedConcat(t.events, cfg.OnRemove(left));
    if v == was {
      Cancel(Held(cfg, written), Held(cfg, t), ListenerOf(cfg, v));
    } else {
      Exchange(Notified(t.events), Held(cfg, written), ListenerOf(cfg, was), Held(cfg, t), ListenerOf(cfg, v));
    }
  }

  /** What an operation adds to the cache: a value stored where that very object was not already. */
  function Stored<V(==), K(==)>(cfg: Config<V>, c: Cache<K, V>, op: Op<K, V>): multiset<V> {
    match op
    case StoreOp(test, k, v, isCompare) =>
      var was := ValueOf(Evict(cfg, c), k);
      if ValueOf(Step(cfg, c, op), k) == v && was != v then ListenerOf(cfg, v) else multiset{}
    case _ => multiset{}
  }

  function StoredBy<V(==), K(==)>(cfg: Config<V>, c: Cache<K, V>, ops: seq<Op<K, V>>): multiset<V>
    decreases |ops|
  {
    if ops == [] then multiset{}
    else Stored(cfg, c, ops[0]) + StoredBy(cfg, Step(cfg, c, ops[0]), ops[1..])
  }

  lemma StoreStepAccounts<V, K>(cfg: Config<V>, c: Cache<K, V>, op: Op<K, V>)
    requires cfg.enabled && WellFormed(cfg, c) && op.StoreOp?
    ensures Accounted(cfg, Step(cfg, c, op)) == Accounted(cfg, c) + Stored(cfg, c, op)
  {
    var StoreOp(test, k, v, isCompare) := op;
    var e := Evict(cfg, c);
    EvictLaw(cfg, c);
    EvictAccounts(cfg, c);
    StoreAccounts(cfg, e, test, k, v, isCompare);
    StoreLaw(cfg, e, test, k, v, isCompare, k);
    LookupIsValue(Step(cfg, c, op), k);
    LookupIsValue(e, k);
  }

  lemma LookupIsValue<K, V>(c: Cache<K, V>, k: K)
    ensures ValueOf(c, k) == match Lookup(c, k) case None => None case Some(v) => v
  {
  }

  lemma GetAccounts<V, K>(cfg: Config<V>, c: Cache<K, V>, k: K)
    ensures Accounted(cfg, Get(cfg, c, k).0) == Accounted(cfg, c)
  {
    if Has(c, k) {
      HeldTouch(cfg, c, k);
      assert Touch(cfg, c, k).events == c.events;
    }
  }

  lemma ClearAccounts<V, K>(cfg: Config<V>, c: Cache<K, V>, fired: seq<V>)
    requires multiset(fired) == Held(cfg, c)
    ensures Accounted(cfg, Clear(c, AllNotified(fired))) == Accounted(cfg, c)
  {
    NotifiedOfAll(fired);
    NotifiedConcat(c.events, AllNotified(fired));
  }

  lemma StepAccounts<V, K>(cfg: Config<V>, c: Cache<K, V>, op: Op<K, V>)
    requires cfg.enabled && WellFormed(cfg, c) && Legal(cfg, c, op)
    ensures Accounted(cfg, Step(cfg, c, op)) == Accounted(cfg, c) + Stored(cfg, c, op)
  {
    if op.StoreOp? {
      StoreStepAccounts(cfg, c, op);
    } else {
      match op
      case GetOp(k) => GetAccounts(cfg, c, k);
      case RemoveOp(k) => RemoveAccounts(cfg, c, k);
      case RemoveTailOp => RemoveVictimAccounts(cfg, c, Victim(cfg, c));
      case RemoveLongestTailOp => RemoveVictimAccounts(cfg, c, LongestVictim(c));
      case ClearOp(fired) => ClearAccounts(cfg, c, fired);
      case StoreOp(_, _, _, _) => assert false;
    }
  }

  /** With listeners enabled, every listener ever stored is either still cached or has been
      notified, and nobody is notified who was not stored: stored = cached + notified. */
  lemma {:induction false} NotificationsConserved<V, K>(cfg: Config<V>, c: Cache<K, V>, ops: seq<Op<K, V>>)
    requires cfg.enabled && WellFormed(cfg, c) && LegalRun(cfg, c, ops)
    ensures Accounted(cfg, Run(cfg, c, ops)) == Accounted(cfg, c) + StoredBy(cfg, c, ops)
    decreases |ops|
  {
    if ops != [] {
      StepKeeps(cfg, c, ops[0]);
      StepAccounts(cfg, c, ops[0]);
      NotificationsConserved(cfg, Step(cfg, c, ops[0]), ops[1..]);
    }
  }

  /** In a run from the empty cache, a listener stored once is notified exactly once after it has
      left the cache and not at all while it is cached. */
  lemma NotifiedExactlyOnce<V, K>(cfg: Config<V>, ops: seq<Op<K, V>>, v: V)
    requires cfg.enabled
    requires LegalRun(cfg, Cache([], [], 0, []), ops) && StoredBy(cfg, Cache([], [], 0, []), ops)[v] == 1
    ensures var end := Run(cfg, Cache<K, V>.Cache([], [], 0, []), ops);
      Notified(end.events)[v] == (if v in Held(cfg, end) then 0 else 1)
  {
    var empty := Cache<K, V>.Cache([], [], 0, []);
    NotificationsConserved(cfg, empty, ops);
    assert Accounted(cfg, empty) == multiset{};
    assert Accounted(cfg, Run(cfg, empty, ops))[v] == 1;
  }

  // ----- scan resistance -----

  function PutAll<V, K>(puts: seq<(K, Option<V>)>): seq<Op<K, V>> {
    seq(|puts|, i requires 0 <= i < |puts| => StoreOp(None, puts[i].0, puts[i].1, false))
  }

  /** Evicting never takes list 2 below the half of the capacity that list 1 may not claim. */
  lemma {:induction false} EvictSparesTwice<V, K>(cfg: Config<V>, c: Cache<K, V>)
    requires WellFormed(cfg, c) && cfg.capacity >= 2
    ensures var d := Evict(cfg, c);
      d.twice <= c.twice &&
      (|d.twice| >= |c.twice| || |d.twice| >= cfg.capacity - cfg.Capacity1())
    decreases c.Size()
  {
    RemoveTailLaw(cfg, c);
    if cfg.capacity <= c.Size() && Victim(cfg, c).Some? {
      EvictSparesTwice(cfg, RemoveTail(cfg, c));
    }
  }

  ghost predicate Fresh<K, V>(c: Cache<K, V>, puts: seq<(K, Option<V>)>) {
    && (forall i :: 0 <= i < |puts| ==> !Has(c, puts[i].0))
    && (forall i, j :: 0 <= i < j < |puts| ==> puts[i].0 != puts[j].0)
  }

  lemma FreshPut<V, K>(cfg: Config<V>, c: Cache<K, V>, k: K, v: Option<V>, q: K)
    requires WellFormed(cfg, c) && cfg.capacity >= 2 && !Has(c, k)
    ensures var d := CompareAndPut(cfg, c, None, k, v, false).0;
      && WellFormed(cfg, d)
      && d.twice == Evict(cfg, c).twice
      && (!Has(c, q) && q != k ==> !Has(d, q))
  {
    EvictLaw(cfg, c);
    var e := Evict(cfg, c);
    PrefixLookup(c, e, k);
    PrefixLookup(c, e, q);
    InsertLaw(cfg, e, k, v, q);
  }

  lemma ScanStep<V, K>(cfg: Config<V>, c: Cache<K, V>, puts: seq<(K, Option<V>)>)
    requires WellFormed(cfg, c) && cfg.capacity >= 2 && Fresh(c, puts) && puts != []
    ensures var d := CompareAndPut(cfg, c, None, puts[0].0, puts[0].1, false).0;
      WellFormed(cfg, d) && Fresh(d, puts[1..]) && d.twice == Evict(cfg, c).twice
  {
    var (k, v) := puts[0];
    FreshPut(cfg, c, k, v, k);
    forall i | 0 <= i < |puts[1..]|
      ensures !Has(CompareAndPut(cfg, c, None, k, v, false).0, puts[1..][i].0)
    {
      FreshPut(cfg, c, k, v, puts[i + 1].0);
    }
  }

  /** A scan - puts of keys that are all new and all different - leaves list 2 a prefix of what it
      was, of at least the smaller of its old length and `capacity - capacity / 2`. */
  lemma {:induction false} ScanResistance<V, K>(cfg: Config<V>, c: Cache<K, V>, puts: seq<(K, Option<V>)>)
    requires WellFormed(cfg, c) && cfg.capacity >= 2 && Fresh(c, puts)
    ensures var d := Run(cfg, c, PutAll(puts));
      d.twice <= c.twice &&
      (|d.twice| >= |c.twice| || |d.twice| >= cfg.capacity - cfg.capacity / 2)
    decreases |puts|
  {
    if puts != [] {
      ScanStep(cfg, c, puts);
      EvictSparesTwice(cfg, c);
      ScanResistance(cfg, CompareAndPut(cfg, c, None, puts[0].0, puts[0].1, false).0, puts[1..]);
      assert PutAll(puts)[1..] == PutAll(puts[1..]);
    }
  }

  // ----- the window in which a first hit does not promote -----

  function PutOp<V, K>(k: K, v: Option<V>): Op<K, V> {
    StoreOp(None, k, v, false)
  }

  /** Putting a key, then removing it and putting it again `n` times. */
  function Churn<K, V>(k: K, v: Option<V>, n: nat): seq<Op<K, V>> {
    if n == 0 then [PutOp(k, v)] else Churn(k, v, n - 1) + [RemoveOp(k), PutOp(k, v)]
  }

  lemma {:induction false} RunConcat<V, K>(cfg: Config<V>, c: Cache<K, V>, a: seq<Op<K, V>>, b: seq<Op<K, V>>)
    ensures Run(cfg, c, a + b) == Run(cfg, Run(cfg, c, a), b)
    decreases |a|
  {
    if a == [] {
      assert a + b == b;
    } else {
      assert (a + b)[1..] == a[1..] + b;
      RunConcat(cfg, Step(cfg, c, a[0]), a[1..], b);
    }
  }

  lemma RunOne<V, K>(cfg: Config<V>, c: Cache<K, V>, op: Op<K, V>)
    ensures Run(cfg, c, [op]) == Step(cfg, c, op)
  {
    assert [op][1..] == [];
  }

  /** The cache holds just this key, seen once. */
  ghost predicate JustOnce<K, V>(c: Cache<K, V>, k: K, clock: nat) {
    |c.once| == 1 && c.once[0].key == k && c.twice == [] && c.clock == clock
  }

  lemma ChurnAgain<V, K>(cfg: Config<V>, c: Cache<K, V>, k: K, v: Option<V>, clock: nat)
    requires JustOnce(c, k, clock)
    ensures JustOnce(Run(cfg, c, [RemoveOp(k), PutOp(k, v)]), k, clock + 2)
  {
    var ops := [RemoveOp(k), PutOp(k, v)];
    var d := Step(cfg, c, RemoveOp(k));
    assert IndexOf(c.once, k) == 0 && d.once == [] && d.twice == [] && d.clock == clock + 1;
    assert Evict(cfg, d) == d;
    var e := Step(cfg, d, PutOp(k, v));
    assert JustOnce(e, k, clock + 2);
    RunOne(cfg, d, PutOp(k, v));
    assert ops[1..] == [PutOp(k, v)];
  }

  lemma {:induction false} ChurnRuns<V, K>(cfg: Config<V>, k: K, v: Option<V>, n: nat)
    ensures JustOnce(Run(cfg, Cache<K, V>.Cache([], [], 0, []), Churn(k, v, n)), k, 2 * n + 1)
  {
    var empty := Cache<K, V>.Cache([], [], 0, []);
    if n == 0 {
      assert Evict(cfg, empty) == empty;
      RunOne(cfg, empty, PutOp(k, v));
    } else {
      ChurnRuns(cfg, k, v, n - 1);
      RunConcat(cfg, empty, Churn(k, v, n - 1), [RemoveOp(k), PutOp(k, v)]);
      ChurnAgain(cfg, Run(cfg, empty, Churn(k, v, n - 1)), k, v, 2 * n - 1);
    }
  }

  /** The window is reached: on every cache and for every key there is a run after which a first hit on
      that key does not promote it. */
  lemma FirstHitCanFail<V, K>(cfg: Config<V>, k: K, v: Option<V>)
    requires cfg.Sized()
    ensures exists n: nat ::
      var c := Run(cfg, Cache<K, V>.Cache([], [], 0, []), Churn(k, v, n));
      InOnce(c, k) && Touch(cfg, c, k) == c
  {
    hide Run, Churn, WellFormed, Touch;
    var n := COUNTER_RANGE / 2 - 9;
    var empty := Cache<K, V>.Cache([], [], 0, []);
    var c := Run(cfg, empty, Churn(k, v, n));
    ChurnRuns(cfg, k, v, n);
    RunKeeps(cfg, empty, Churn(k, v, n));
    FirstHitPromotesIff(cfg, c, k);
  }
}
