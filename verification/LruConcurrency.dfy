/**
 The cache under concurrency, as a transition system with one step per critical section of
 the LRU lock and per pointer write.  Writers hold the lock of their bucket's group; readers
 take no lock while they walk a hash chain, and may later update the recency lists through an
 item that has been removed meanwhile.  Memory is sequentially consistent.
 */
module LruConcurrency {
  import opened Common

  /** Keys are only compared and hashed, so numbers stand for them. */
  type Key = nat

  /** Where an item stands with respect to its hash chain: not yet published, in the chain, or
      taken out of it at moment `died`. */
  datatype Status = Pending | Live | Dead(died: nat)

  /** An item; `next` is `_nextHash`, -1 for null. */
  datatype Node = Node(key: Key, next: int, status: Status)

  /** The hash table: `nodes` are all items ever created, in order of creation, `entries` are the
      heads of the buckets and `clock` counts the moments at which items die. */
  datatype Table = Table(home: Key -> nat, nodes: seq<Node>, entries: seq<int>, clock: nat)

  /** What the LRU lock guards: the hit counts of all items ever created, -1 once removed, and the
      two recency lists with their sizes. */
  datatype Lru = Lru(hits: seq<int>, once: seq<nat>, twice: seq<nat>, size1: int, size2: int)

  /** What a thread is about to do. */
  datatype Pc =
    | Idle
    // get: look at the node `at`; the call began at moment `since`
    | Getting(key: Key, at: int, since: nat)
    // get has found `x` and may still update the recency lists
    | Found(x: nat)
    // put: holds the lock of the key's bucket
    | Putting(key: Key)
    | Overwriting(x: nat)
    | Inserted(x: nat)
    | Linked(x: nat)
    // remove: holds the lock of the key's bucket
    | Removing(key: Key)
    | Unlinking(x: nat, prev: int)
    // clear: holds the lock of bucket `b`
    | ClearLocked(b: nat)
    | Clearing(b: nat, at: int, doomed: set<nat>)
    // any writer, done with bucket `b`
    | Releasing(b: nat)

  /** `locks[i]` is the thread that holds lock `i`, or -1. */
  datatype State = State(table: Table, lru: Lru, locks: seq<int>, threads: seq<Pc>)

  datatype Action =
    | StartGet(key: Key) | Examine | Return(update: bool)
    | LockPut(key: Key) | PutFound(x: nat) | FinishOverwrite(update: bool) | PutRefused
    | InsertLru | SetNext | Publish
    | LockRemove(key: Key) | RemoveLru(x: nat, prev: int) | RemoveMissing | Unlink
    | LockClear(b: nat) | ClearTable | ClearItem | ClearDone
    | Release

  // ----- the hash table -----

  ghost predicate IsLive(m: Table, x: int) {
    0 <= x < |m.nodes| && m.nodes[x].status.Live?
  }

  function Home(m: Table, x: int): nat
    requires 0 <= x < |m.nodes|
  {
    m.home(m.nodes[x].key)
  }

  ghost predicate LiveIn(m: Table, x: int, b: nat) {
    IsLive(m, x) && Home(m, x) == b
  }

  /** `prev` is the node before `x` in the chain of bucket `b`, or -1 if `x` comes first. */
  ghost predicate Precedes(m: Table, prev: int, x: nat, b: nat) {
    if prev < 0 then prev == -1 && b < |m.entries| && m.entries[b] == x
    else LiveIn(m, prev, b) && m.nodes[prev].next == x
  }

  ghost predicate Shape(m: Table) {
    && (forall k :: m.home(k) < |m.entries|)
    && (forall b :: 0 <= b < |m.entries| ==> -1 <= m.entries[b] < |m.nodes|)
    && (forall x :: 0 <= x < |m.nodes| ==> -1 <= m.nodes[x].next < x)
  }

  function NewNode(m: Table, key: Key): Table {
    m.(nodes := m.nodes + [Node(key, -1, Pending)])
  }

  function SetNextOf(m: Table, x: nat): Table
    requires x < |m.nodes| && Home(m, x) < |m.entries|
  {
    m.(nodes := m.nodes[x := m.nodes[x].(next := m.entries[Home(m, x)])])
  }

  function PublishNode(m: Table, x: nat): Table
    requires x < |m.nodes| && Home(m, x) < |m.entries|
  {
    m.(nodes := m.nodes[x := m.nodes[x].(status := Live)], entries := m.entries[Home(m, x) := x])
  }

  /** `x` leaves its chain: `prev`, or the table, takes over its pointer.  Its own pointer stays. */
  function UnlinkNode(m: Table, x: nat, prev: int): Table
    requires x < |m.nodes| && -1 <= prev < |m.nodes| && Home(m, x) < |m.entries|
  {
    var dead := m.nodes[x := m.nodes[x].(status := Dead(m.clock))];
    if prev < 0 then
      m.(nodes := dead, entries := m.entries[Home(m, x) := m.nodes[x].next], clock := m.clock + 1)
    else
      m.(nodes := dead[prev := dead[prev].(next := m.nodes[x].next)], clock := m.clock + 1)
  }

  ghost function LiveNodes(m: Table, b: nat): set<nat> {
    set x: nat | x < |m.nodes| && LiveIn(m, x, b)
  }

  ghost function EmptyBucket(m: Table, b: nat): Table
    requires b < |m.entries|
  {
    m.(nodes := seq(|m.nodes|, x requires 0 <= x < |m.nodes| =>
         if LiveIn(m, x, b) then m.nodes[x].(status := Dead(m.clock)) else m.nodes[x]),
       entries := m.entries[b := -1], clock := m.clock + 1)
  }

  // ----- the critical sections of the LRU lock -----

  /** `updateLruImpl` by a thread that holds a reference to `x`. */
  ghost function UpdateLru(l: Lru, x: nat): Lru
    requires x < |l.hits|
  {
    if l.hits[x] <= 0 then l
    else if l.hits[x] == 1 then
      Lru(l.hits[x := 2], Without(l.once, x), [x] + l.twice, l.size1 - 1, l.size2 + 1)
    else
      l.(hits := l.hits[x := l.hits[x] + 1], twice := [x] + Without(l.twice, x))
  }

  /** `removeLruItem`. */
  ghost function RemoveItem(l: Lru, x: nat): Lru
    requires x < |l.hits|
  {
    if l.hits[x] <= 0 then l.(hits := l.hits[x := -1])
    else if l.hits[x] == 1 then l.(hits := l.hits[x := -1], once := Without(l.once, x), size1 := l.size1 - 1)
    else l.(hits := l.hits[x := -1], twice := Without(l.twice, x), size2 := l.size2 - 1)
  }

  /** The insertion of a new item into list 1. */
  ghost function InsertItem(l: Lru): Lru {
    l.(hits := l.hits + [1], once := [|l.hits|] + l.once, size1 := l.size1 + 1)
  }

  /** The recency lists hold exactly the items with the right hit count, once each, and the size
      fields are right. */
  ghost predicate LruOK(l: Lru) {
    && NoDup(l.once) && NoDup(l.twice)
    && l.size1 == |l.once| && l.size2 == |l.twice|
    && (forall x :: x in l.once ==> x < |l.hits| && l.hits[x] == 1)
    && (forall x :: x in l.twice ==> x < |l.hits| && l.hits[x] > 1)
    && (forall x :: 0 <= x < |l.hits| && l.hits[x] == 1 ==> x in l.once)
    && (forall x :: 0 <= x < |l.hits| && l.hits[x] > 1 ==> x in l.twice)
    && (forall x :: 0 <= x < |l.hits| ==> l.hits[x] == -1 || l.hits[x] >= 1)
  }

  lemma NoDupPut(x: nat, s: seq<nat>)
    requires NoDup(s) && x !in s
    ensures NoDup([x] + s)
  {
    var r := [x] + s;
    forall i, j | 0 <= i < j < |r| ensures At(r, i) != At(r, j) {
      assert i > 0 ==> At(s, i - 1) != At(s, j - 1);
      assert s[j - 1] in s;
    }
  }

  /** What the three critical sections do to the lists: a reader's update moves an item that has not been
      removed to the head of list 2 and touches nothing else, a removal takes just its item out, and an
      insertion puts a new item at the head of list 1. */
  lemma SectionsMove(l: Lru, x: nat)
    requires LruOK(l) && x < |l.hits|
    ensures var u := UpdateLru(l, x);
      if l.hits[x] <= 0 then u == l
      else u.twice == [x] + Others(l.twice, x) && u.once == Others(l.once, x)
    ensures var r := RemoveItem(l, x);
      r.twice == Others(l.twice, x) && r.once == Others(l.once, x) && r.hits == l.hits[x := -1]
    ensures var i := InsertItem(l);
      i.twice == l.twice && i.once == [|l.hits|] + l.once && i.hits == l.hits + [1]
  {
    WithoutIsOthers(l.once, x);
    WithoutIsOthers(l.twice, x);
  }

  lemma UpdateLruKeeps(l: Lru, x: nat)
    requires LruOK(l) && x < |l.hits|
    ensures LruOK(UpdateLru(l, x))
  {
    if l.hits[x] == 1 {
      WithoutAt(l.once, x);
      NoDupPut(x, l.twice);
    } else if l.hits[x] > 1 {
      WithoutAt(l.twice, x);
      NoDupPut(x, Without(l.twice, x));
    }
  }

  lemma RemoveItemKeeps(l: Lru, x: nat)
    requires LruOK(l) && x < |l.hits|
    ensures LruOK(RemoveItem(l, x))
  {
    if l.hits[x] == 1 {
      WithoutAt(l.once, x);
    } else if l.hits[x] > 1 {
      WithoutAt(l.twice, x);
    }
  }

  lemma InsertItemKeeps(l: Lru)
    requires LruOK(l)
    ensures LruOK(InsertItem(l))
  {
    NoDupPut(|l.hits|, l.once);
  }

  // ----- steps -----

  /** The indices a thread's program counter holds are in range. */
  ghost predicate PcShape(m: Table, pc: Pc) {
    match pc
    case Getting(k, at, _) => -1 <= at < |m.nodes|
    case Found(x) => x < |m.nodes|
    case Overwriting(x) => x < |m.nodes|
    case Inserted(x) => x < |m.nodes|
    case Linked(x) => x < |m.nodes|
    case Unlinking(x, prev) => x < |m.nodes| && -1 <= prev < |m.nodes|
    case ClearLocked(b) => b < |m.entries|
    case Clearing(b, at, _) => b < |m.entries| && -1 <= at < |m.nodes|
    case Releasing(b) => b < |m.entries|
    case _ => true
  }

  ghost predicate InRange(s: State) {
    && Shape(s.table)
    && |s.lru.hits| == |s.table.nodes|
    && |s.table.entries| <= 8 * |s.locks|
    && (forall t :: 0 <= t < |s.threads| ==> PcShape(s.table, s.threads[t]))
  }

  /** The bucket whose lock a thread holds at this point. */
  function Holds(m: Table, pc: Pc): Option<nat> {
    match pc
    case Putting(k) => Some(m.home(k))
    case Removing(k) => Some(m.home(k))
    case Overwriting(x) => if x < |m.nodes| then Some(Home(m, x)) else None
    case Inserted(x) => if x < |m.nodes| then Some(Home(m, x)) else None
    case Linked(x) => if x < |m.nodes| then Some(Home(m, x)) else None
    case Unlinking(x, _) => if x < |m.nodes| then Some(Home(m, x)) else None
    case ClearLocked(b) => Some(b)
    case Clearing(b, _, _) => Some(b)
    case Releasing(b) => Some(b)
    case _ => None
  }

  ghost predicate LockFree(s: State, b: nat) {
    b / 8 < |s.locks| && s.locks[b / 8] == -1
  }

  ghost predicate KeyMissing(m: Table, key: Key) {
    forall x :: IsLive(m, x) ==> m.nodes[x].key != key
  }

  ghost predicate Enabled(s: State, t: nat, a: Action) {
    t < |s.threads| &&
    var m, pc := s.table, s.threads[t];
    match a
    case StartGet(k) => pc.Idle?
    case Examine => pc.Getting?
    case Return(_) => pc.Found?
    case LockPut(k) => pc.Idle? && LockFree(s, m.home(k))
    case PutFound(x) => pc.Putting? && IsLive(m, x) && m.nodes[x].key == pc.key
    case FinishOverwrite(_) => pc.Overwriting?
    case PutRefused => pc.Putting?
    case InsertLru => pc.Putting? && KeyMissing(m, pc.key)
    case SetNext => pc.Inserted?
    case Publish => pc.Linked?
    case LockRemove(k) => pc.Idle? && LockFree(s, m.home(k))
    case RemoveLru(x, prev) =>
      pc.Removing? && IsLive(m, x) && m.nodes[x].key == pc.key && Precedes(m, prev, x, m.home(pc.key))
    case RemoveMissing => pc.Removing? && KeyMissing(m, pc.key)
    case Unlink => pc.Unlinking?
    case LockClear(b) => pc.Idle? && b < |m.entries| && LockFree(s, b)
    case ClearTable => pc.ClearLocked?
    case ClearItem => pc.Clearing? && pc.at >= 0
    case ClearDone => pc.Clearing? && pc.at < 0
    case Release => pc.Releasing?
  }

  ghost function Goto(s: State, t: nat, pc: Pc): State
    requires t < |s.threads|
  {
    s.(threads := s.threads[t := pc])
  }

  ghost function SetLock(s: State, b: nat, owner: int): State
    requires b / 8 < |s.locks|
  {
    s.(locks := s.locks[b / 8 := owner])
  }

  ghost function Do(s: State, t: nat, a: Action): State
    requires InRange(s) && Enabled(s, t, a)
  {
    var m, pc := s.table, s.threads[t];
    assert PcShape(m, pc);
    match a
    case StartGet(k) => Goto(s, t, Getting(k, m.entries[m.home(k)], m.clock))
    case Examine =>
      if pc.at < 0 then Goto(s, t, Idle)
      else if m.nodes[pc.at].key == pc.key then Goto(s, t, Found(pc.at))
      else Goto(s, t, Getting(pc.key, m.nodes[pc.at].next, pc.since))
    case Return(update) =>
      Goto(if update then s.(lru := UpdateLru(s.lru, pc.x)) else s, t, Idle)
    case LockPut(k) => SetLock(Goto(s, t, Putting(k)), m.home(k), t)
    case PutFound(x) => Goto(s, t, Overwriting(x))
    case FinishOverwrite(update) =>
      Goto(if update then s.(lru := UpdateLru(s.lru, pc.x)) else s, t, Releasing(Home(m, pc.x)))
    case PutRefused => Goto(s, t, Releasing(m.home(pc.key)))
    case InsertLru => Goto(s.(table := NewNode(m, pc.key), lru := InsertItem(s.lru)), t, Inserted(|m.nodes|))
    case SetNext => Goto(s.(table := SetNextOf(m, pc.x)), t, Linked(pc.x))
    case Publish => Goto(s.(table := PublishNode(m, pc.x)), t, Releasing(Home(m, pc.x)))
    case LockRemove(k) => SetLock(Goto(s, t, Removing(k)), m.home(k), t)
    case RemoveLru(x, prev) => Goto(s.(lru := RemoveItem(s.lru, x)), t, Unlinking(x, prev))
    case RemoveMissing => Goto(s, t, Releasing(m.home(pc.key)))
    case Unlink => Goto(s.(table := UnlinkNode(m, pc.x, pc.prev)), t, Releasing(Home(m, pc.x)))
    case LockClear(b) => SetLock(Goto(s, t, ClearLocked(b)), b, t)
    case ClearTable =>
      Goto(s.(table := EmptyBucket(m, pc.b)), t, Clearing(pc.b, m.entries[pc.b], LiveNodes(m, pc.b)))
    case ClearItem =>
      Goto(s.(lru := RemoveItem(s.lru, pc.at)), t, Clearing(pc.b, m.nodes[pc.at].next, pc.doomed))
    case ClearDone => Goto(s, t, Releasing(pc.b))
    case Release => SetLock(Goto(s, t, Idle), pc.b, -1)
  }

  // ----- the invariant -----

  /** No live node of bucket `b` was created strictly between `lo` and `hi`. */
  ghost predicate NoLiveBetween(m: Table, lo: int, hi: int, b: nat) {
    forall y :: LiveIn(m, y, b) ==> !(lo < y < hi)
  }

  /** The pointer of a published node leads to an older published node of the same bucket, skips no
      live one, leads from a live node to a live one, and from a dead node never to one that died
      earlier. */
  ghost predicate Follows(m: Table, x: int)
    requires 0 <= x < |m.nodes| && -1 <= m.nodes[x].next < x
  {
    var n, next := m.nodes[x], m.nodes[x].next;
    && NoLiveBetween(m, next, x, Home(m, x))
    && (n.status.Dead? ==> n.status.died < m.clock)
    && (next >= 0 ==>
          var o := m.nodes[next];
          && Home(m, next) == Home(m, x)
          && !o.status.Pending?
          && (n.status.Live? ==> o.status.Live?)
          && (n.status.Dead? && o.status.Dead? ==> n.status.died <= o.status.died))
  }

  /** The table points to the youngest live node of the bucket. */
  ghost predicate EntryOK(m: Table, b: nat)
    requires b < |m.entries|
  {
    && (m.entries[b] == -1 || LiveIn(m, m.entries[b], b))
    && NoLiveBetween(m, m.entries[b], |m.nodes|, b)
  }

  ghost predicate TableOK(m: Table) {
    && Shape(m)
    && (forall x :: 0 <= x < |m.nodes| && !m.nodes[x].status.Pending? ==> Follows(m, x))
    && (forall b :: 0 <= b < |m.entries| ==> EntryOK(m, b))
    && (forall x, y :: IsLive(m, x) && IsLive(m, y) && m.nodes[x].key == m.nodes[y].key ==> x == y)
  }

  /** The node was live at moment `since` or later. */
  predicate SeenSince(status: Status, since: nat) {
    match status
    case Pending => false
    case Live => true
    case Dead(died) => since <= died
  }

  /** A new item is not published yet and is younger than everything published in its bucket. */
  ghost predicate Fresh(m: Table, x: nat)
    requires x < |m.nodes|
  {
    && m.nodes[x].status.Pending?
    && (forall y :: 0 <= y < |m.nodes| && !m.nodes[y].status.Pending? && Home(m, y) == Home(m, x) ==> y < x)
    && KeyMissing(m, m.nodes[x].key)
  }

  /** A cleared chain is closed under `next` and skips none of its nodes. */
  ghost predicate Doomed(m: Table, b: nat, doomed: set<nat>) {
    && (forall c :: c in doomed ==> c < |m.nodes| && Home(m, c) == b && m.nodes[c].status.Dead?)
    && (forall c :: c in doomed ==> m.nodes[c].next == -1 || m.nodes[c].next in doomed)
    && (forall c, d :: c in doomed && d in doomed ==> !(m.nodes[c].next < d < c))
  }

  /** What a thread's program counter says about the table. */
  ghost predicate PcTable(m: Table, pc: Pc) {
    PcShape(m, pc) &&
    match pc
    case Getting(k, at, since) =>
      since <= m.clock && (at >= 0 ==> Home(m, at) == m.home(k) && SeenSince(m.nodes[at].status, since))
    case Overwriting(x) => IsLive(m, x)
    case Inserted(x) => Fresh(m, x)
    case Linked(x) => Fresh(m, x) && Home(m, x) < |m.entries| && m.nodes[x].next == m.entries[Home(m, x)]
    case Unlinking(x, prev) => IsLive(m, x) && Precedes(m, prev, x, Home(m, x))
    case Clearing(b, at, doomed) => (at == -1 || at in doomed) && Doomed(m, b, doomed)
    case _ => true
  }

  /** What a thread's program counter says about the recency lists. */
  ghost predicate PcLru(l: Lru, pc: Pc) {
    match pc
    case Inserted(x) => x < |l.hits| && l.hits[x] >= 1
    case Linked(x) => x < |l.hits| && l.hits[x] >= 1
    case Unlinking(x, _) => x < |l.hits| && l.hits[x] == -1
    case Clearing(_, at, doomed) => forall c :: c in doomed && c > at ==> c < |l.hits| && l.hits[c] == -1
    case _ => true
  }

  /** A thread owns the lock it needs; so two threads never hold the same one. */
  ghost predicate Owns(m: Table, locks: seq<int>, pc: Pc, t: int) {
    match Holds(m, pc)
    case None => true
    case Some(b) => b / 8 < |locks| && locks[b / 8] == t
  }

  /** Why item `x` is in the recency lists but not in the table, or the other way round: the thread
      at `pc` is in the middle of moving it. */
  ghost predicate Explains(pc: Pc, x: nat) {
    match pc
    case Inserted(y) => x == y
    case Linked(y) => x == y
    case Unlinking(y, _) => x == y
    case Clearing(_, at, doomed) => x in doomed && x <= at
    case _ => false
  }

  ghost predicate Matched(m: Table, l: Lru, x: nat)
    requires x < |m.nodes| == |l.hits|
  {
    m.nodes[x].status.Live? <==> l.hits[x] >= 1
  }

  /** Outside the hands of a writer, exactly the items of the hash table are in the recency lists. */
  ghost predicate Settled(s: State, x: nat)
    requires x < |s.table.nodes| == |s.lru.hits|
  {
    Matched(s.table, s.lru, x) || exists t :: 0 <= t < |s.threads| && Explains(s.threads[t], x)
  }

  ghost predicate ThreadOK(s: State, t: nat)
    requires t < |s.threads|
  {
    PcTable(s.table, s.threads[t]) && PcLru(s.lru, s.threads[t]) && Owns(s.table, s.locks, s.threads[t], t)
  }

  ghost predicate Inv(s: State) {
    && InRange(s) && TableOK(s.table) && LruOK(s.lru)
    && (forall t :: 0 <= t < |s.threads| ==> ThreadOK(s, t))
    && (forall x :: 0 <= x < |s.table.nodes| ==> Settled(s, x))
  }

  // ----- every step keeps the invariant -----

  /** A step that changes the table, the lists or a lock as well as the program counter of `t` keeps
      the invariant if the new table and lists are all right, what the other threads rely on is left
      alone, and no item loses its explanation. */
  lemma StepKeeps(s: State, t: nat, s': State)
    requires Inv(s) && t < |s.threads| == |s'.threads| && InRange(s') && TableOK(s'.table) && LruOK(s'.lru)
    requires forall u :: 0 <= u < |s.threads| && u != t ==> s'.threads[u] == s.threads[u] && ThreadOK(s', u)
    requires ThreadOK(s', t)
    requires |s.table.nodes| <= |s'.table.nodes|
    requires forall x :: 0 <= x < |s'.table.nodes| ==>
      || Matched(s'.table, s'.lru, x) || Explains(s'.threads[t], x)
      || (x < |s.table.nodes| && !Matched(s.table, s.lru, x) && !Explains(s.threads[t], x))
    ensures Inv(s')
  {
    forall x | 0 <= x < |s'.table.nodes| ensures Settled(s', x) {
      if x < |s.table.nodes| && !Matched(s.table, s.lru, x) && !Explains(s.threads[t], x) {
        assert Settled(s, x);
        var u :| 0 <= u < |s.threads| && Explains(s.threads[u], x);
        assert Explains(s'.threads[u], x);
      }
    }
  }

  lemma GotoKeeps(s: State, t: nat, l: Lru, pc: Pc)
    requires Inv(s) && t < |s.threads| && LruOK(l) && |l.hits| == |s.lru.hits|
    requires PcTable(s.table, pc) && PcLru(l, pc) && Owns(s.table, s.locks, pc, t)
    requires forall u :: 0 <= u < |s.threads| && u != t ==> PcLru(l, s.threads[u])
    requires forall x :: 0 <= x < |l.hits| ==>
      || Matched(s.table, l, x) || Explains(pc, x)
      || (!Matched(s.table, s.lru, x) && !Explains(s.threads[t], x))
    ensures Inv(Goto(s.(lru := l), t, pc))
  {
    var s' := Goto(s.(lru := l), t, pc);
    forall u | 0 <= u < |s.threads| ensures ThreadOK(s', u) {
      assert ThreadOK(s, u);
    }
    StepKeeps(s, t, s');
  }

  /** A step that changes nothing but the program counter, to one that explains as much. */
  lemma MoveKeeps(s: State, t: nat, pc: Pc)
    requires Inv(s) && t < |s.threads|
    requires PcTable(s.table, pc) && PcLru(s.lru, pc) && Owns(s.table, s.locks, pc, t)
    requires forall x :: 0 <= x < |s.lru.hits| && Explains(s.threads[t], x) ==> Matched(s.table, s.lru, x)
    ensures Inv(Goto(s, t, pc))
  {
    forall u | 0 <= u < |s.threads| && u != t ensures PcLru(s.lru, s.threads[u]) {
      assert ThreadOK(s, u);
    }
    assert s.(lru := s.lru) == s;
    GotoKeeps(s, t, s.lru, pc);
  }

  lemma LockKeeps(s: State, t: nat, b: nat, pc: Pc)
    requires Inv(s) && t < |s.threads| && s.threads[t].Idle? && LockFree(s, b)
    requires PcTable(s.table, pc) && PcLru(s.lru, pc) && Holds(s.table, pc) == Some(b)
    ensures Inv(SetLock(Goto(s, t, pc), b, t))
  {
    var s' := SetLock(Goto(s, t, pc), b, t);
    forall u | 0 <= u < |s.threads| ensures ThreadOK(s', u) {
      assert ThreadOK(s, u);
    }
    StepKeeps(s, t, s');
  }

  lemma ReleaseKeeps(s: State, t: nat)
    requires Inv(s) && t < |s.threads| && s.threads[t].Releasing?
    ensures s.threads[t].b / 8 < |s.locks| && Inv(SetLock(Goto(s, t, Idle), s.threads[t].b, -1))
  {
    assert ThreadOK(s, t);
    var s' := SetLock(Goto(s, t, Idle), s.threads[t].b, -1);
    forall u | 0 <= u < |s.threads| ensures ThreadOK(s', u) {
      assert ThreadOK(s, u);
    }
    StepKeeps(s, t, s');
  }

  // ----- the table under each pointer write -----

  lemma NewNodeKeeps(m: Table, key: Key)
    requires TableOK(m)
    ensures TableOK(NewNode(m, key)) && Fresh(NewNode(m, key), |m.nodes|) == KeyMissing(m, key)
  {
    var m' := NewNode(m, key);
    assert forall y, b :: LiveIn(m', y, b) <==> LiveIn(m, y, b);
    forall x | 0 <= x < |m'.nodes| && !m'.nodes[x].status.Pending? ensures Follows(m', x) {
      assert Follows(m, x);
    }
    forall b | 0 <= b < |m'.entries| ensures EntryOK(m', b) {
      assert EntryOK(m, b);
    }
    assert forall y :: IsLive(m', y) <==> IsLive(m, y);
    forall y | IsLive(m, y) ensures m'.nodes[y] == m.nodes[y] {
    }
  }

  lemma NewNodeSpares(m: Table, key: Key, pc: Pc)
    requires TableOK(m) && PcTable(m, pc)
    ensures PcTable(NewNode(m, key), pc)
  {
    assert forall y :: IsLive(NewNode(m, key), y) <==> IsLive(m, y);
  }

  lemma SetNextKeeps(m: Table, x: nat)
    requires TableOK(m) && x < |m.nodes| && Fresh(m, x)
    ensures TableOK(SetNextOf(m, x))
    ensures Fresh(SetNextOf(m, x), x) && SetNextOf(m, x).nodes[x].next == m.entries[Home(m, x)]
  {
    var m' := SetNextOf(m, x);
    assert EntryOK(m, Home(m, x));
    assert forall y, b :: LiveIn(m', y, b) <==> LiveIn(m, y, b);
    forall y | 0 <= y < |m'.nodes| && !m'.nodes[y].status.Pending? ensures Follows(m', y) {
      assert Follows(m, y);
    }
    forall b | 0 <= b < |m'.entries| ensures EntryOK(m', b) {
      assert EntryOK(m, b);
    }
    assert forall y :: IsLive(m', y) <==> IsLive(m, y);
  }

  lemma SetNextSpares(m: Table, x: nat, pc: Pc)
    requires TableOK(m) && x < |m.nodes| && Fresh(m, x) && PcTable(m, pc) && Holds(m, pc) != Some(Home(m, x))
    ensures PcTable(SetNextOf(m, x), pc)
  {
    assert forall y :: IsLive(SetNextOf(m, x), y) <==> IsLive(m, y);
    match pc
    case Clearing(b, _, doomed) => SetNextSparesDoomed(m, x, b, doomed);
    case _ =>
  }

  lemma SetNextSparesDoomed(m: Table, x: nat, b: nat, doomed: set<nat>)
    requires TableOK(m) && x < |m.nodes| && Fresh(m, x) && Doomed(m, b, doomed)
    ensures Doomed(SetNextOf(m, x), b, doomed)
  {
  }

  lemma PublishKeeps(m: Table, x: nat)
    requires TableOK(m) && x < |m.nodes| && PcTable(m, Linked(x))
    ensures TableOK(PublishNode(m, x))
  {
    var m', h := PublishNode(m, x), Home(m, x);
    assert EntryOK(m, h);
    assert forall y, b :: LiveIn(m', y, b) <==> LiveIn(m, y, b) || (y == x && b == h);
    forall y | 0 <= y < |m'.nodes| && !m'.nodes[y].status.Pending? ensures Follows(m', y) {
      if y != x {
        assert Follows(m, y);
      }
    }
    forall b | 0 <= b < |m'.entries| ensures EntryOK(m', b) {
      assert EntryOK(m, b);
    }
  }

  lemma PublishSpares(m: Table, x: nat, pc: Pc)
    requires TableOK(m) && x < |m.nodes| && PcTable(m, Linked(x)) && PcTable(m, pc) && Holds(m, pc) != Some(Home(m, x))
    ensures PcTable(PublishNode(m, x), pc)
  {
    assert forall y :: IsLive(PublishNode(m, x), y) <==> IsLive(m, y) || y == x;
    match pc
    case Clearing(b, _, doomed) => PublishSparesDoomed(m, x, b, doomed);
    case _ =>
  }

  lemma PublishSparesDoomed(m: Table, x: nat, b: nat, doomed: set<nat>)
    requires TableOK(m) && x < |m.nodes| && PcTable(m, Linked(x)) && Doomed(m, b, doomed)
    ensures Doomed(PublishNode(m, x), b, doomed)
  {
  }

  /** A live node has at most one live node pointing to it. */
  lemma OnePredecessor(m: Table, x: nat, p: nat, q: nat)
    requires TableOK(m) && IsLive(m, x) && IsLive(m, p) && IsLive(m, q)
    requires m.nodes[p].next == x && m.nodes[q].next == x
    ensures p == q
  {
    assert Follows(m, p) && Follows(m, q);
    assert LiveIn(m, p, Home(m, x)) && LiveIn(m, q, Home(m, x));
  }

  lemma UnlinkLive(m: Table, x: nat, prev: int)
    requires TableOK(m) && PcTable(m, Unlinking(x, prev))
    ensures forall y :: IsLive(UnlinkNode(m, x, prev), y) <==> IsLive(m, y) && y != x
    ensures forall y :: 0 <= y < |m.nodes| ==> UnlinkNode(m, x, prev).nodes[y].key == m.nodes[y].key
  {
  }

  lemma UnlinkFollows(m: Table, x: nat, prev: int, y: nat)
    requires TableOK(m) && PcTable(m, Unlinking(x, prev)) && y < |m.nodes| && !m.nodes[y].status.Pending?
    ensures var m' := UnlinkNode(m, x, prev); m'.nodes[y].next < y && Follows(m', y)
  {
    UnlinkLive(m, x, prev);
    assert Follows(m, x) && Follows(m, y);
    var m', h := UnlinkNode(m, x, prev), Home(m, x);
    if y == prev {
      assert m'.nodes[y].next == m.nodes[x].next;
      assert forall z :: LiveIn(m', z, h) ==> LiveIn(m, z, h) && z != x;
    } else {
      assert m'.nodes[y].next == m.nodes[y].next;
      if IsLive(m, y) && m.nodes[y].next == x {
        if prev >= 0 {
          OnePredecessor(m, x, y, prev);
        } else {
          assert EntryOK(m, h) && LiveIn(m, y, h);
        }
      }
      assert forall z :: LiveIn(m', z, Home(m, y)) ==> LiveIn(m, z, Home(m, y));
    }
  }

  lemma UnlinkEntry(m: Table, x: nat, prev: int, b: nat)
    requires TableOK(m) && PcTable(m, Unlinking(x, prev)) && b < |m.entries|
    ensures EntryOK(UnlinkNode(m, x, prev), b)
  {
    UnlinkLive(m, x, prev);
    assert EntryOK(m, b) && Follows(m, x);
    var m' := UnlinkNode(m, x, prev);
    assert forall z :: LiveIn(m', z, b) <==> LiveIn(m, z, b) && z != x;
    if prev >= 0 {
      assert LiveIn(m, prev, Home(m, x));
    }
  }

  lemma UnlinkKeeps(m: Table, x: nat, prev: int)
    requires TableOK(m) && PcTable(m, Unlinking(x, prev))
    ensures TableOK(UnlinkNode(m, x, prev))
  {
    var m' := UnlinkNode(m, x, prev);
    forall y: nat | y < |m.nodes| ensures m'.nodes[y].next < y && (!m.nodes[y].status.Pending? ==> Follows(m', y)) {
      if !m.nodes[y].status.Pending? {
        UnlinkFollows(m, x, prev, y);
      }
    }
    forall b | 0 <= b < |m'.entries| ensures EntryOK(m', b) {
      UnlinkEntry(m, x, prev, b);
    }
    UnlinkLive(m, x, prev);
  }

  lemma UnlinkSpares(m: Table, x: nat, prev: int, pc: Pc)
    requires TableOK(m) && PcTable(m, Unlinking(x, prev)) && PcTable(m, pc) && Holds(m, pc) != Some(Home(m, x))
    ensures PcTable(UnlinkNode(m, x, prev), pc)
  {
    UnlinkLive(m, x, prev);
    if pc.Clearing? {
      UnlinkSparesDoomed(m, x, prev, pc.b, pc.doomed);
    } else if pc.Inserted? || pc.Linked? {
      UnlinkSparesFresh(m, x, prev, pc.x);
    }
  }

  lemma UnlinkSparesDoomed(m: Table, x: nat, prev: int, b: nat, doomed: set<nat>)
    requires TableOK(m) && PcTable(m, Unlinking(x, prev)) && Doomed(m, b, doomed)
    ensures Doomed(UnlinkNode(m, x, prev), b, doomed)
  {
    var m' := UnlinkNode(m, x, prev);
    forall c | c in doomed ensures c < |m.nodes| && m'.nodes[c] == m.nodes[c] {
    }
  }

  lemma UnlinkSparesFresh(m: Table, x: nat, prev: int, y: nat)
    requires TableOK(m) && PcTable(m, Unlinking(x, prev)) && y < |m.nodes| && Fresh(m, y)
    ensures Fresh(UnlinkNode(m, x, prev), y)
  {
    UnlinkLive(m, x, prev);
  }

  // ----- clearing a bucket -----

  lemma EmptyLive(m: Table, b: nat)
    requires b < |m.entries|
    ensures forall y :: IsLive(EmptyBucket(m, b), y) <==> IsLive(m, y) && Home(m, y) != b
    ensures forall y, h :: LiveIn(EmptyBucket(m, b), y, h) <==> LiveIn(m, y, h) && h != b
  {
  }

  lemma EmptyFollows(m: Table, b: nat, y: nat)
    requires TableOK(m) && b < |m.entries| && y < |m.nodes| && !m.nodes[y].status.Pending?
    ensures EmptyBucket(m, b).nodes[y].next < y && Follows(EmptyBucket(m, b), y)
  {
    EmptyLive(m, b);
    assert Follows(m, y);
  }

  lemma EmptyKeeps(m: Table, b: nat)
    requires TableOK(m) && b < |m.entries|
    ensures TableOK(EmptyBucket(m, b))
  {
    var m' := EmptyBucket(m, b);
    EmptyLive(m, b);
    forall y: nat | y < |m.nodes| && !m.nodes[y].status.Pending? ensures Follows(m', y) {
      EmptyFollows(m, b, y);
    }
    forall h | 0 <= h < |m'.entries| ensures EntryOK(m', h) {
      assert EntryOK(m, h);
    }
  }

  lemma EmptyDooms(m: Table, b: nat)
    requires TableOK(m) && b < |m.entries|
    ensures PcTable(EmptyBucket(m, b), Clearing(b, m.entries[b], LiveNodes(m, b)))
    ensures forall c :: c in LiveNodes(m, b) ==> c <= m.entries[b]
  {
    assert EntryOK(m, b);
    forall c | c in LiveNodes(m, b) ensures Follows(m, c) && LiveIn(m, c, b) && c <= m.entries[b] {
    }
  }

  lemma EmptySpares(m: Table, b: nat, pc: Pc)
    requires TableOK(m) && b < |m.entries| && PcTable(m, pc) && Holds(m, pc) != Some(b)
    ensures PcTable(EmptyBucket(m, b), pc)
  {
    var m' := EmptyBucket(m, b);
    EmptyLive(m, b);
    if pc.Clearing? {
      forall c | c in pc.doomed ensures c < |m.nodes| && m'.nodes[c] == m.nodes[c] {
      }
    }
  }

  // ----- the steps -----

  /** While a thread holds a bucket, no other thread does. */
  lemma OthersElsewhere(s: State, t: nat, u: nat)
    requires Inv(s) && t < |s.threads| && u < |s.threads| && u != t
    requires Holds(s.table, s.threads[t]).Some?
    ensures Holds(s.table, s.threads[u]) != Holds(s.table, s.threads[t])
  {
    assert ThreadOK(s, t) && ThreadOK(s, u);
  }

  lemma TableStepKeeps(s: State, t: nat, m: Table, pc: Pc)
    requires Inv(s) && t < |s.threads|
    requires TableOK(m) && |m.nodes| == |s.table.nodes| && |m.entries| == |s.table.entries| && m.home == s.table.home
    requires forall x :: 0 <= x < |m.nodes| ==> m.nodes[x].key == s.table.nodes[x].key
    requires forall u :: 0 <= u < |s.threads| && u != t ==> PcTable(m, s.threads[u])
    requires PcTable(m, pc) && PcLru(s.lru, pc) && Holds(m, pc) == Holds(s.table, s.threads[t])
    requires forall x :: 0 <= x < |m.nodes| ==>
      || Matched(m, s.lru, x) || Explains(pc, x)
      || (!Matched(s.table, s.lru, x) && !Explains(s.threads[t], x))
    ensures Inv(Goto(s.(table := m), t, pc))
  {
    var s' := Goto(s.(table := m), t, pc);
    forall u | 0 <= u < |s.threads| ensures ThreadOK(s', u) {
      assert ThreadOK(s, u);
    }
    StepKeeps(s, t, s');
  }

  lemma UpdateLruSpares(l: Lru, x: nat, pc: Pc)
    requires x < |l.hits| && PcLru(l, pc)
    ensures PcLru(UpdateLru(l, x), pc)
  {
  }

  lemma RemoveItemSpares(s: State, t: nat, x: nat, u: nat)
    requires Inv(s) && t < |s.threads| && u < |s.threads| && u != t && x < |s.table.nodes|
    requires Holds(s.table, s.threads[t]) == Some(Home(s.table, x)) && !s.table.nodes[x].status.Pending?
    ensures PcLru(RemoveItem(s.lru, x), s.threads[u])
  {
    assert ThreadOK(s, u);
    OthersElsewhere(s, t, u);
  }

  lemma StartGetKeeps(s: State, t: nat, k: Key)
    requires Inv(s) && Enabled(s, t, StartGet(k))
    ensures Inv(Do(s, t, StartGet(k)))
  {
    var m := s.table;
    assert EntryOK(m, m.home(k));
    MoveKeeps(s, t, Getting(k, m.entries[m.home(k)], m.clock));
  }

  lemma ExamineKeeps(s: State, t: nat)
    requires Inv(s) && Enabled(s, t, Examine)
    ensures Inv(Do(s, t, Examine))
  {
    var m, pc := s.table, s.threads[t];
    assert ThreadOK(s, t);
    if pc.at < 0 {
      MoveKeeps(s, t, Idle);
    } else if m.nodes[pc.at].key == pc.key {
      MoveKeeps(s, t, Found(pc.at));
    } else {
      assert Follows(m, pc.at);
      MoveKeeps(s, t, Getting(pc.key, m.nodes[pc.at].next, pc.since));
    }
  }

  lemma UpdateKeeps(s: State, t: nat, x: nat, pc: Pc)
    requires Inv(s) && t < |s.threads| && x < |s.lru.hits|
    requires s.threads[t].Found? || s.threads[t].Overwriting?
    requires pc.Idle? || pc.Releasing?
    requires PcTable(s.table, pc) && Owns(s.table, s.locks, pc, t)
    ensures Inv(Goto(s.(lru := UpdateLru(s.lru, x)), t, pc))
  {
    UpdateLruKeeps(s.lru, x);
    forall u | 0 <= u < |s.threads| && u != t ensures PcLru(UpdateLru(s.lru, x), s.threads[u]) {
      assert ThreadOK(s, u);
      UpdateLruSpares(s.lru, x, s.threads[u]);
    }
    forall y | 0 <= y < |s.lru.hits| ensures Matched(s.table, UpdateLru(s.lru, x), y) == Matched(s.table, s.lru, y) {
    }
    GotoKeeps(s, t, UpdateLru(s.lru, x), pc);
  }

  lemma FinishGetKeeps(s: State, t: nat, update: bool)
    requires Inv(s) && Enabled(s, t, Return(update))
    ensures Inv(Do(s, t, Return(update)))
  {
    assert ThreadOK(s, t);
    if update {
      UpdateKeeps(s, t, s.threads[t].x, Idle);
    } else {
      MoveKeeps(s, t, Idle);
    }
  }

  lemma FinishOverwriteKeeps(s: State, t: nat, update: bool)
    requires Inv(s) && Enabled(s, t, FinishOverwrite(update))
    ensures Inv(Do(s, t, FinishOverwrite(update)))
  {
    assert ThreadOK(s, t);
    var x := s.threads[t].x;
    if update {
      UpdateKeeps(s, t, x, Releasing(Home(s.table, x)));
    } else {
      MoveKeeps(s, t, Releasing(Home(s.table, x)));
    }
  }

  lemma InsertKeeps(s: State, t: nat)
    requires Inv(s) && Enabled(s, t, InsertLru)
    ensures Inv(Do(s, t, InsertLru))
  {
    hide TableOK, LruOK, Fresh, Doomed;
    var m, k, n := s.table, s.threads[t].key, |s.table.nodes|;
    var s' := Do(s, t, InsertLru);
    assert ThreadOK(s, t);
    NewNodeKeeps(m, k);
    InsertItemKeeps(s.lru);
    forall u | 0 <= u < |s.threads| ensures ThreadOK(s', u) {
      assert ThreadOK(s, u);
      if u != t {
        NewNodeSpares(m, k, s.threads[u]);
      }
    }
    StepKeeps(s, t, s');
  }

  lemma SetNextStepKeeps(s: State, t: nat)
    requires Inv(s) && Enabled(s, t, SetNext)
    ensures Inv(Do(s, t, SetNext))
  {
    var m, x := s.table, s.threads[t].x;
    assert ThreadOK(s, t);
    SetNextKeeps(m, x);
    forall u | 0 <= u < |s.threads| && u != t ensures PcTable(SetNextOf(m, x), s.threads[u]) {
      assert ThreadOK(s, u);
      OthersElsewhere(s, t, u);
      SetNextSpares(m, x, s.threads[u]);
    }
    TableStepKeeps(s, t, SetNextOf(m, x), Linked(x));
  }

  lemma PublishStepKeeps(s: State, t: nat)
    requires Inv(s) && Enabled(s, t, Publish)
    ensures Inv(Do(s, t, Publish))
  {
    var m, x := s.table, s.threads[t].x;
    assert ThreadOK(s, t);
    PublishKeeps(m, x);
    forall u | 0 <= u < |s.threads| && u != t ensures PcTable(PublishNode(m, x), s.threads[u]) {
      assert ThreadOK(s, u);
      OthersElsewhere(s, t, u);
      PublishSpares(m, x, s.threads[u]);
    }
    TableStepKeeps(s, t, PublishNode(m, x), Releasing(Home(m, x)));
  }

  lemma RemoveLruKeeps(s: State, t: nat, x: nat, prev: int)
    requires Inv(s) && Enabled(s, t, RemoveLru(x, prev))
    ensures Inv(Do(s, t, RemoveLru(x, prev)))
  {
    assert ThreadOK(s, t);
    RemoveItemKeeps(s.lru, x);
    forall u | 0 <= u < |s.threads| && u != t ensures PcLru(RemoveItem(s.lru, x), s.threads[u]) {
      RemoveItemSpares(s, t, x, u);
    }
    GotoKeeps(s, t, RemoveItem(s.lru, x), Unlinking(x, prev));
  }

  lemma UnlinkStepKeeps(s: State, t: nat)
    requires Inv(s) && Enabled(s, t, Unlink)
    ensures Inv(Do(s, t, Unlink))
  {
    var m, x, prev := s.table, s.threads[t].x, s.threads[t].prev;
    assert ThreadOK(s, t);
    UnlinkKeeps(m, x, prev);
    UnlinkLive(m, x, prev);
    forall u | 0 <= u < |s.threads| && u != t ensures PcTable(UnlinkNode(m, x, prev), s.threads[u]) {
      assert ThreadOK(s, u);
      OthersElsewhere(s, t, u);
      UnlinkSpares(m, x, prev, s.threads[u]);
    }
    forall y | 0 <= y < |m.nodes| && y != x
      ensures UnlinkNode(m, x, prev).nodes[y].status == m.nodes[y].status
    {
    }
    TableStepKeeps(s, t, UnlinkNode(m, x, prev), Releasing(Home(m, x)));
  }

  lemma ClearTableKeeps(s: State, t: nat)
    requires Inv(s) && Enabled(s, t, ClearTable)
    ensures Inv(Do(s, t, ClearTable))
  {
    var m, b := s.table, s.threads[t].b;
    assert ThreadOK(s, t);
    EmptyKeeps(m, b);
    EmptyDooms(m, b);
    forall u | 0 <= u < |s.threads| && u != t ensures PcTable(EmptyBucket(m, b), s.threads[u]) {
      assert ThreadOK(s, u);
      OthersElsewhere(s, t, u);
      EmptySpares(m, b, s.threads[u]);
    }
    TableStepKeeps(s, t, EmptyBucket(m, b), Clearing(b, m.entries[b], LiveNodes(m, b)));
  }

  lemma ClearItemKeeps(s: State, t: nat)
    requires Inv(s) && Enabled(s, t, ClearItem)
    ensures Inv(Do(s, t, ClearItem))
  {
    var m, b, at, doomed := s.table, s.threads[t].b, s.threads[t].at, s.threads[t].doomed;
    assert ThreadOK(s, t);
    RemoveItemKeeps(s.lru, at);
    forall u | 0 <= u < |s.threads| && u != t ensures PcLru(RemoveItem(s.lru, at), s.threads[u]) {
      RemoveItemSpares(s, t, at, u);
    }
    GotoKeeps(s, t, RemoveItem(s.lru, at), Clearing(b, m.nodes[at].next, doomed));
  }

  /** The steps that change nothing but a program counter and perhaps a lock. */
  lemma QuietKeeps(s: State, t: nat, a: Action)
    requires Inv(s) && Enabled(s, t, a)
    requires a.LockPut? || a.PutFound? || a.PutRefused? || a.LockRemove? || a.RemoveMissing? ||
             a.LockClear? || a.ClearDone? || a.Release?
    ensures Inv(Do(s, t, a))
  {
    hide TableOK, LruOK, Settled, Fresh, Doomed;
    assert ThreadOK(s, t);
    match a
    case LockPut(k) => LockKeeps(s, t, s.table.home(k), Putting(k));
    case PutFound(x) => MoveKeeps(s, t, Overwriting(x));
    case PutRefused => MoveKeeps(s, t, Releasing(s.table.home(s.threads[t].key)));
    case LockRemove(k) => LockKeeps(s, t, s.table.home(k), Removing(k));
    case RemoveMissing => MoveKeeps(s, t, Releasing(s.table.home(s.threads[t].key)));
    case LockClear(b) => LockKeeps(s, t, b, ClearLocked(b));
    case ClearDone => MoveKeeps(s, t, Releasing(s.threads[t].b));
    case Release => ReleaseKeeps(s, t);
  }

  /** Every step of every thread keeps the invariant. */
  lemma DoKeeps(s: State, t: nat, a: Action)
    requires Inv(s) && Enabled(s, t, a)
    ensures Inv(Do(s, t, a))
  {
    match a
    case StartGet(k) => StartGetKeeps(s, t, k);
    case Examine => ExamineKeeps(s, t);
    case Return(update) => FinishGetKeeps(s, t, update);
    case FinishOverwrite(update) => FinishOverwriteKeeps(s, t, update);
    case InsertLru => InsertKeeps(s, t);
    case SetNext => SetNextStepKeeps(s, t);
    case Publish => PublishStepKeeps(s, t);
    case RemoveLru(x, prev) => RemoveLruKeeps(s, t, x, prev);
    case Unlink => UnlinkStepKeeps(s, t);
    case ClearTable => ClearTableKeeps(s, t);
    case ClearItem => ClearItemKeeps(s, t);
    case _ => QuietKeeps(s, t, a);
  }

  // ----- whole runs -----

  /** A run: `states[i + 1]` results when thread `steps[i].0` takes step `steps[i].1`. */
  ghost predicate Run(states: seq<State>, steps: seq<(nat, Action)>) {
    && |states| == |steps| + 1
    && Inv(states[0])
    && forall i :: 0 <= i < |steps| ==> StepAt(states, steps, i)
  }

  ghost predicate StepAt(states: seq<State>, steps: seq<(nat, Action)>, i: int)
    requires 0 <= i < |steps| < |states|
  {
    && InRange(states[i]) && Enabled(states[i], steps[i].0, steps[i].1)
    && states[i + 1] == Do(states[i], steps[i].0, steps[i].1)
  }

  /** The empty cache, with any number of threads and buckets. */
  function Initial(home: Key -> nat, buckets: nat, threads: nat): State {
    State(Table(home, [], seq(buckets, _ => -1), 0), Lru([], [], [], 0, 0),
          seq(buckets / 8 + 1, _ => -1), seq(threads, _ => Idle))
  }

  lemma InitialOK(home: Key -> nat, buckets: nat, threads: nat)
    requires forall k :: home(k) < buckets
    ensures Inv(Initial(home, buckets, threads))
  {
  }

  /** The invariant holds throughout every run, whatever the interleaving. */
  lemma {:induction false} RunKeeps(states: seq<State>, steps: seq<(nat, Action)>, i: nat)
    requires Run(states, steps) && i < |states|
    ensures Inv(states[i])
  {
    if i > 0 {
      RunKeeps(states, steps, i - 1);
      assert StepAt(states, steps, i - 1);
      DoKeeps(states[i - 1], steps[i - 1].0, steps[i - 1].1);
    }
  }

  /** While no writer is at work - readers may be anywhere - the recency lists hold exactly the items
      of the hash table. */
  lemma ListsMatchTable(s: State, x: nat)
    requires Inv(s) && x < |s.table.nodes|
    requires forall t :: 0 <= t < |s.threads| ==> s.threads[t].Idle? || s.threads[t].Getting? || s.threads[t].Found?
    ensures IsLive(s.table, x) <==> x in s.lru.once || x in s.lru.twice
  {
    assert Settled(s, x);
  }

  /** Keys keep their items, and an item is published at most once and dies at most once. */
  lemma StatusSteps(s: State, t: nat, a: Action, x: nat)
    requires Inv(s) && Enabled(s, t, a) && x < |s.table.nodes|
    ensures var n, n' := s.table.nodes[x], Do(s, t, a).table.nodes[x];
      && n'.key == n.key
      && (|| n'.status == n.status
          || (n.status.Pending? && n'.status.Live?)
          || (n.status.Live? && n'.status == Dead(s.table.clock)))
    ensures s.table.clock <= Do(s, t, a).table.clock && s.table.home == Do(s, t, a).table.home
  {
    assert ThreadOK(s, t);
  }

  /** A removed item is never linked into a recency list again. */
  lemma RemovedForGood(s: State, t: nat, a: Action, x: nat)
    requires Inv(s) && Enabled(s, t, a) && x < |s.lru.hits| && s.lru.hits[x] == -1
    ensures var l := Do(s, t, a).lru; l.hits[x] == -1 && x !in l.once && x !in l.twice
  {
    assert ThreadOK(s, t);
    DoKeeps(s, t, a);
  }

  // ----- readers -----

  /** `y` can be reached from `x` along `_nextHash`. */
  ghost predicate Reaches(m: Table, x: int, y: int)
    requires Shape(m) && x < |m.nodes|
    decreases x
  {
    x >= 0 && (x == y || Reaches(m, m.nodes[x].next, y))
  }

  /** From any node ever linked into a bucket, even one removed long ago, every live node of the
      bucket that is not younger can be reached. */
  lemma {:induction false} LiveStaysReachable(m: Table, x: nat, y: nat)
    requires TableOK(m) && x < |m.nodes| && !m.nodes[x].status.Pending?
    requires LiveIn(m, y, Home(m, x)) && y <= x
    ensures Reaches(m, x, y)
    decreases x
  {
    if x != y {
      assert Follows(m, x);
      LiveStaysReachable(m, m.nodes[x].next, y);
    }
  }

  lemma {:induction false} ReachedFromLive(m: Table, x: nat, y: int, b: nat)
    requires TableOK(m) && LiveIn(m, x, b) && Reaches(m, x, y)
    ensures LiveIn(m, y, b)
    decreases x
  {
    if x != y {
      assert Follows(m, x);
      ReachedFromLive(m, m.nodes[x].next, y, b);
    }
  }

  /** The chain of a bucket consists of exactly its live nodes. */
  lemma ChainIsLive(m: Table, b: nat, y: nat)
    requires TableOK(m) && b < |m.entries|
    ensures Reaches(m, m.entries[b], y) <==> LiveIn(m, y, b)
  {
    assert EntryOK(m, b);
    if LiveIn(m, y, b) {
      LiveStaysReachable(m, m.entries[b], y);
    }
    if Reaches(m, m.entries[b], y) {
      ReachedFromLive(m, m.entries[b], y, b);
    }
  }

  /** A call of `get` for `k` by thread `t`: it starts at step `m` and is still walking the chain in
      state `n`. */
  ghost predicate Walking(states: seq<State>, steps: seq<(nat, Action)>, t: nat, k: Key, m: nat, n: nat) {
    && Run(states, steps) && m < n < |states|
    && steps[m] == (t, StartGet(k))
    && forall i :: m < i <= n ==> t < |states[i].threads| && states[i].threads[t].Getting?
  }

  /** The walk never passes a node that is live and has the key it looks for. */
  lemma NeverPasses(s: State, u: nat, a: Action, t: nat, y: nat)
    requires Inv(s) && Enabled(s, u, a) && t < |s.threads| && s.threads[t].Getting?
    requires IsLive(s.table, y) && s.table.nodes[y].key == s.threads[t].key && y <= s.threads[t].at
    ensures Do(s, u, a).threads[t].Getting? ==>
      Do(s, u, a).threads[t].key == s.threads[t].key && y <= Do(s, u, a).threads[t].at
  {
    assert ThreadOK(s, t) && ThreadOK(s, u);
    if u == t {
      assert Follows(s.table, s.threads[t].at);
      assert LiveIn(s.table, y, Home(s.table, s.threads[t].at));
    }
  }

  lemma {:induction false} WalkStaysAhead(states: seq<State>, steps: seq<(nat, Action)>, t: nat, k: Key, m: nat,
                                          n: nat, y: nat)
    requires Walking(states, steps, t, k, m, n)
    requires forall i :: m <= i <= n ==> IsLive(states[i].table, y) && states[i].table.nodes[y].key == k
    ensures states[n].threads[t].key == k && y <= states[n].threads[t].at
    decreases n
  {
    RunKeeps(states, steps, n - 1);
    assert StepAt(states, steps, n - 1);
    if n == m + 1 {
      assert EntryOK(states[m].table, states[m].table.home(k));
      assert LiveIn(states[m].table, y, states[m].table.home(k));
    } else {
      WalkStaysAhead(states, steps, t, k, m, n - 1, y);
      NeverPasses(states[n - 1], steps[n - 1].0, steps[n - 1].1, t, y);
    }
  }

  /** `get` never misses an item that stays in the table for the whole call, although it takes no
      lock and the nodes it stands on may be removed under it. */
  lemma GetNeverMisses(states: seq<State>, steps: seq<(nat, Action)>, t: nat, k: Key, m: nat, n: nat, y: nat)
    requires Walking(states, steps, t, k, m, n)
    requires states[n].threads[t].at == -1
    ensures exists i :: m <= i <= n && !(IsLive(states[i].table, y) && states[i].table.nodes[y].key == k)
  {
    if forall i :: m <= i <= n ==> IsLive(states[i].table, y) && states[i].table.nodes[y].key == k {
      WalkStaysAhead(states, steps, t, k, m, n, y);
    }
  }

  /** One step never replaces an item by another with its key: in between the key is missing. */
  lemma StaysUnlessMissing(s: State, t: nat, a: Action, y: nat)
    requires Inv(s) && Enabled(s, t, a) && IsLive(s.table, y)
    requires !KeyMissing(Do(s, t, a).table, s.table.nodes[y].key)
    ensures IsLive(Do(s, t, a).table, y)
  {
    var m, m' := s.table, Do(s, t, a).table;
    var z :| IsLive(m', z) && m'.nodes[z].key == m.nodes[y].key;
    assert ThreadOK(s, t);
    DoKeeps(s, t, a);
    if z < |m.nodes| {
      StatusSteps(s, t, a, z);
    }
    StatusSteps(s, t, a, y);
  }

  lemma {:induction false} StaysAllAlong(states: seq<State>, steps: seq<(nat, Action)>, k: Key, m: nat, n: nat, y: nat)
    requires Run(states, steps) && m <= n < |states|
    requires IsLive(states[m].table, y) && states[m].table.nodes[y].key == k
    requires forall i :: m <= i <= n ==> !KeyMissing(states[i].table, k)
    ensures forall i :: m <= i <= n ==> IsLive(states[i].table, y) && states[i].table.nodes[y].key == k
    decreases n
  {
    if m < n {
      StaysAllAlong(states, steps, k, m, n - 1, y);
      RunKeeps(states, steps, n - 1);
      assert StepAt(states, steps, n - 1);
      StaysUnlessMissing(states[n - 1], steps[n - 1].0, steps[n - 1].1, y);
      StatusSteps(states[n - 1], steps[n - 1].0, steps[n - 1].1, y);
    }
  }

  /** A miss is linearizable: when `get` finds nothing, there was a moment of the call at which no item
      of the table had the key. */
  lemma MissIsLinearizable(states: seq<State>, steps: seq<(nat, Action)>, t: nat, k: Key, m: nat, n: nat)
    requires Walking(states, steps, t, k, m, n)
    requires states[n].threads[t].at == -1
    ensures exists i :: m <= i <= n && KeyMissing(states[i].table, k)
  {
    if forall i :: m <= i <= n ==> !KeyMissing(states[i].table, k) {
      var y :| IsLive(states[m].table, y) && states[m].table.nodes[y].key == k;
      StaysAllAlong(states, steps, k, m, n, y);
      GetNeverMisses(states, steps, t, k, m, n, y);
    }
  }

  lemma {:induction false} SinceStart(states: seq<State>, steps: seq<(nat, Action)>, t: nat, k: Key, m: nat, n: nat)
    requires Walking(states, steps, t, k, m, n)
    ensures states[n].threads[t].since == states[m].table.clock && states[n].threads[t].key == k
    decreases n
  {
    assert StepAt(states, steps, n - 1);
    if n > m + 1 {
      SinceStart(states, steps, t, k, m, n - 1);
    }
  }

  /** An item dead at the end of a stretch of a run that did not die before the stretch was live
      somewhere in it. */
  lemma {:induction false} LiveBeforeDeath(states: seq<State>, steps: seq<(nat, Action)>, m: nat, n: nat, x: nat)
    requires Run(states, steps) && m <= n < |states| && x < |states[n].table.nodes|
    requires !states[n].table.nodes[x].status.Pending?
    requires states[n].table.nodes[x].status.Dead? ==> states[m].table.clock <= states[n].table.nodes[x].status.died
    ensures exists i :: m <= i <= n && IsLive(states[i].table, x)
    decreases n
  {
    RunKeeps(states, steps, n);
    DiedInThePast(states[n].table, x);
    if !IsLive(states[n].table, x) && n > m {
      RunKeeps(states, steps, n - 1);
      assert StepAt(states, steps, n - 1);
      DiesOnlyOnce(states[n - 1], steps[n - 1].0, steps[n - 1].1, x);
      LiveBeforeDeath(states, steps, m, n - 1, x);
    }
  }

  lemma DiedInThePast(m: Table, x: nat)
    requires TableOK(m) && x < |m.nodes|
    ensures m.nodes[x].status.Dead? ==> m.nodes[x].status.died < m.clock
  {
    if m.nodes[x].status.Dead? {
      assert Follows(m, x);
    }
  }

  lemma DiesOnlyOnce(s: State, t: nat, a: Action, x: nat)
    requires Inv(s) && Enabled(s, t, a)
    requires x < |Do(s, t, a).table.nodes| && Do(s, t, a).table.nodes[x].status.Dead?
    ensures x < |s.table.nodes| &&
      (IsLive(s.table, x) || s.table.nodes[x].status == Do(s, t, a).table.nodes[x].status)
  {
    if x < |s.table.nodes| {
      StatusSteps(s, t, a, x);
    }
  }

  /** What `get` finds has the key it was asked for and was in the table at some moment of the call. */
  lemma GetFindsWhatWasThere(states: seq<State>, steps: seq<(nat, Action)>, t: nat, k: Key, m: nat, n: nat)
    requires Walking(states, steps, t, k, m, n) && n < |steps| && steps[n] == (t, Examine)
    requires t < |states[n + 1].threads| && states[n + 1].threads[t].Found?
    ensures var x := states[n + 1].threads[t].x;
      && x < |states[n].table.nodes| && states[n].table.nodes[x].key == k
      && exists i :: m <= i <= n && IsLive(states[i].table, x)
  {
    RunKeeps(states, steps, n);
    assert StepAt(states, steps, n);
    SinceStart(states, steps, t, k, m, n);
    assert ThreadOK(states[n], t);
    LiveBeforeDeath(states, steps, m, n, states[n + 1].threads[t].x);
  }
}
