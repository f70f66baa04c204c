/**
 Recency over whole runs: both lists stay ordered by the list update that put each item where
 it is, so what the cache gives up is the least recent item of its list.
 */
module LruOrder {
  import opened Common
  import opened LruLaws
  import opened LruModel
  import opened LruRuns

  /** From most to least recent. */
  ghost predicate Recent<K, V>(s: seq<Entry<K, V>>) {
    forall i, j :: 0 <= i < j < |s| ==> s[i].at > s[j].at
  }

  ghost predicate NoneAfter<K, V>(s: seq<Entry<K, V>>, clock: nat) {
    forall i :: 0 <= i < |s| ==> s[i].at <= clock
  }

  ghost predicate Ordered<K, V>(c: Cache<K, V>) {
    Recent(c.once) && Recent(c.twice) && NoneAfter(c.once, c.clock) && NoneAfter(c.twice, c.clock)
  }

  // ----- every operation keeps the order -----

  lemma RemoveAtRecent<K, V>(s: seq<Entry<K, V>>, i: nat, clock: nat)
    requires i < |s| && Recent(s) && NoneAfter(s, clock)
    ensures Recent(RemoveAt(s, i)) && NoneAfter(RemoveAt(s, i), clock)
  {
  }

  /** A promoted item becomes the most recent of list 2. */
  lemma PromoteOrdered<K, V>(c: Cache<K, V>, k: K)
    requires Ordered(c) && Has(c, k)
    ensures var d := Promote(c, k);
      Ordered(d) && d.twice[0].key == k && d.twice[0].at == d.clock == c.clock + 1
  {
    if InOnce(c, k) {
      RemoveAtRecent(c.once, IndexOf(c.once, k), c.clock);
    } else {
      RemoveAtRecent(c.twice, IndexOf(c.twice, k), c.clock);
    }
  }

  lemma DropOrdered<K, V>(c: Cache<K, V>, k: K)
    requires Ordered(c) && Has(c, k)
    ensures Ordered(Drop(c, k))
  {
    if InOnce(c, k) {
      RemoveAtRecent(c.once, IndexOf(c.once, k), c.clock);
    } else {
      RemoveAtRecent(c.twice, IndexOf(c.twice, k), c.clock);
    }
  }

  lemma RemoveOrdered<V, K>(cfg: Config<V>, c: Cache<K, V>, k: K)
    requires Ordered(c)
    ensures Ordered(LruModel.Remove(cfg, c, k).0)
  {
    if Has(c, k) {
      DropOrdered(c, k);
    }
  }

  lemma VictimOrdered<V, K>(cfg: Config<V>, c: Cache<K, V>, victim: Option<Entry<K, V>>)
    requires Ordered(c)
    ensures Ordered(RemoveVictim(cfg, c, victim))
  {
    if victim.Some? {
      RemoveOrdered(cfg, c.(events := c.events + cfg.OnEvict(victim.value.value)), victim.value.key);
    }
  }

  lemma {:induction false} EvictOrdered<V, K>(cfg: Config<V>, c: Cache<K, V>)
    requires Ordered(c)
    ensures Ordered(Evict(cfg, c))
    decreases c.Size()
  {
    if cfg.capacity <= c.Size() && Victim(cfg, c).Some? {
      VictimOrdered(cfg, c, Victim(cfg, c));
      EvictOrdered(cfg, RemoveTail(cfg, c));
    }
  }

  lemma SetValueOrdered<K, V>(c: Cache<K, V>, k: K, v: Option<V>)
    requires Ordered(c) && Has(c, k)
    ensures Ordered(SetValue(c, k, v))
  {
    var d := SetValue(c, k, v);
    assert forall i :: 0 <= i < |c.once| ==> d.once[i].at == c.once[i].at;
    assert forall i :: 0 <= i < |c.twice| ==> d.twice[i].at == c.twice[i].at;
  }

  lemma StoreOrdered<V, K>(cfg: Config<V>, c: Cache<K, V>, test: Option<V>, k: K, v: Option<V>, isCompare: bool)
    requires WellFormed(cfg, c) && Ordered(c)
    ensures Ordered(LruModel.Store(cfg, c, test, k, v, isCompare).0)
  {
    if Has(c, k) {
      PromoteOrdered(c, k);
      TouchLaw(cfg, c, k, k);
      var t := Touch(cfg, c, k);
      assert Lookup(t, k).Some?;
      SetValueOrdered(t, k, v);
    }
  }

  lemma StepOrdered<V, K>(cfg: Config<V>, c: Cache<K, V>, op: Op<K, V>)
    requires WellFormed(cfg, c) && Ordered(c)
    ensures Ordered(Step(cfg, c, op))
  {
    match op
    case GetOp(k) => if Has(c, k) { PromoteOrdered(c, k); }
    case StoreOp(test, k, v, isCompare) =>
      EvictLaw(cfg, c);
      EvictOrdered(cfg, c);
      StoreOrdered(cfg, Evict(cfg, c), test, k, v, isCompare);
    case RemoveOp(k) => RemoveOrdered(cfg, c, k);
    case RemoveTailOp => VictimOrdered(cfg, c, Victim(cfg, c));
    case RemoveLongestTailOp => VictimOrdered(cfg, c, LongestVictim(c));
    case ClearOp(fired) =>
  }

  lemma {:induction false} RunOrdered<V, K>(cfg: Config<V>, c: Cache<K, V>, ops: seq<Op<K, V>>)
    requires WellFormed(cfg, c) && Ordered(c)
    ensures Ordered(Run(cfg, c, ops))
    decreases |ops|
  {
    if ops != [] {
      StepKeeps(cfg, c, ops[0]);
      StepOrdered(cfg, c, ops[0]);
      RunOrdered(cfg, Step(cfg, c, ops[0]), ops[1..]);
    }
  }

  // ----- the victim -----

  /** Over every run from the empty cache, `removeTail` gives up the least recent item of a list:
      every other item of that list was inserted or promoted later. */
  lemma VictimIsLeastRecent<V, K>(cfg: Config<V>, ops: seq<Op<K, V>>)
    ensures var c := Run(cfg, Cache<K, V>.Cache([], [], 0, []), ops);
      var victim := Victim(cfg, c);
      victim.Some? ==>
        && (victim.value in c.once || victim.value in c.twice)
        && (victim.value in c.once ==> forall e :: e in c.once && e != victim.value ==> e.at > victim.value.at)
        && (victim.value in c.twice ==> forall e :: e in c.twice && e != victim.value ==> e.at > victim.value.at)
  {
    var empty := Cache<K, V>.Cache([], [], 0, []);
    LruRuns.RunKeeps(cfg, empty, ops);
    RunOrdered(cfg, empty, ops);
    var c := Run(cfg, empty, ops);
    LastIsLeast(c.once);
    LastIsLeast(c.twice);
    OneListOnly(cfg, c);
  }

  lemma LastIsLeast<K, V>(s: seq<Entry<K, V>>)
    requires Recent(s)
    ensures s != [] ==> forall e :: e in s && e != s[|s| - 1] ==> e.at > s[|s| - 1].at
  {
  }

  lemma OneListOnly<V, K>(cfg: Config<V>, c: Cache<K, V>)
    requires WellFormed(cfg, c)
    ensures forall e :: e in c.once ==> e !in c.twice
  {
  }
}
