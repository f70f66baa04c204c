/**
 How `AbstractNSQClient` fills its pool of connections and drops dead ones.  Whether the n-th
 attempt to connect succeeds is given by `reachable(n)`; clock readings are parameters.
 */
module NsqClient {
  import opened Common
  import opened Connections

  datatype PoolAddress = PoolAddress(address: Address, poolsize: int)

  /** The largest pool size listed for an address. */
  function Largest(listed: seq<PoolAddress>, a: Address): nat {
    if listed == [] then 0
    else
      var rest := Largest(listed[..|listed| - 1], a);
      var last := listed[|listed| - 1];
      if last.address == a && last.poolsize > rest then last.poolsize else rest
  }

  lemma {:induction false} LargestListed(listed: seq<PoolAddress>, a: Address)
    ensures forall p :: p in listed && p.address == a ==> p.poolsize <= Largest(listed, a)
    ensures Largest(listed, a) > 0 ==> PoolAddress(a, Largest(listed, a)) in listed
  {
    if listed != [] {
      LargestListed(listed[..|listed| - 1], a);
      assert listed == listed[..|listed| - 1] + [listed[|listed| - 1]];
    }
  }

  function Max(x: int, y: int): int {
    if x >= y then x else y
  }

  /** How many of the attempts numbered `from` to `to` succeed. */
  function Successes(reachable: nat -> bool, from: nat, to: nat): nat
    requires from <= to
  {
    if from == to then 0 else Successes(reachable, from, to - 1) + (if reachable(to - 1) then 1 else 0)
  }

  lemma {:induction false} SuccessesBound(reachable: nat -> bool, from: nat, to: nat)
    requires from <= to
    ensures Successes(reachable, from, to) <= to - from
    ensures AllSucceed(reachable, from, to) ==> Successes(reachable, from, to) == to - from
  {
    if from < to {
      SuccessesBound(reachable, from, to - 1);
    }
  }

  lemma {:induction false} SuccessesCount(reachable: nat -> bool, from: nat, to: nat)
    requires from <= to
    ensures Successes(reachable, from, to) == |set i: nat | from <= i < to && reachable(i)|
  {
    var all := set i: nat | from <= i < to && reachable(i);
    if from < to {
      SuccessesCount(reachable, from, to - 1);
      var fewer := set i: nat | from <= i < to - 1 && reachable(i);
      assert all == if reachable(to - 1) then fewer + {to - 1} else fewer;
    }
  }

  ghost predicate AllSucceed(reachable: nat -> bool, from: nat, to: nat) {
    forall i :: from <= i < to ==> reachable(i)
  }

  /** The size of the pool for an address, within bounds after the attempts made. */
  ghost predicate PoolOK(before: seq<Connection>, after: seq<Connection>, listed: seq<PoolAddress>, allOpened: bool,
                         a: Address)
  {
    var n, most := |Of(after, a)|, Max(|Of(before, a)|, Largest(listed, a));
    |Of(before, a)| <= n <= most && (allOpened ==> n == most)
  }

  ghost predicate Filled(before: seq<Connection>, after: seq<Connection>, listed: seq<PoolAddress>, allOpened: bool) {
    forall a {:trigger Of(after, a)} :: PoolOK(before, after, listed, allOpened, a)
  }

  /** From `before` to `after` the pool of one address has grown by `n`, and no other pool has changed. */
  ghost predicate Opened(before: seq<Connection>, after: seq<Connection>, p: Address, n: nat) {
    forall a {:trigger Of(after, a)} :: |Of(after, a)| == |Of(before, a)| + if a == p then n else 0
  }

  lemma OpenedNone(list: seq<Connection>, p: Address)
    ensures Opened(list, list, p, 0)
  {
  }

  lemma FilledNone(list: seq<Connection>, allOpened: bool)
    ensures Filled(list, list, [], allOpened)
  {
    forall a ensures PoolOK(list, list, [], allOpened, a) {
      assert Largest([], a) == 0;
    }
  }

  lemma OpenedOne(before: seq<Connection>, c: Connection)
    ensures Opened(before, before + [c], c.Key(), 1)
  {
    forall a ensures |Of(before + [c], a)| == |Of(before, a)| + if a == c.Key() then 1 else 0 {
      OfAppend(before, c, a);
    }
  }

  lemma OpenedTwice(before: seq<Connection>, middle: seq<Connection>, after: seq<Connection>, p: Address, m: nat,
                    n: nat)
    requires Opened(before, middle, p, m) && Opened(middle, after, p, n)
    ensures Opened(before, after, p, m + n)
  {
    forall a ensures |Of(after, a)| == |Of(before, a)| + if a == p then m + n else 0 {
      assert |Of(middle, a)| == |Of(before, a)| + if a == p then m else 0;
    }
  }

  /** One more address has been filled. */
  lemma FilledMore(before: seq<Connection>, middle: seq<Connection>, after: seq<Connection>,
                   listed: seq<PoolAddress>, i: nat,
                   n: nat, earlierOpened: bool, allOpened: bool)
    requires i < |listed| && Filled(before, middle, listed[..i], earlierOpened)
    requires Opened(middle, after, listed[i].address, n)
    requires n <= Max(0, listed[i].poolsize - |Of(middle, listed[i].address)|)
    requires allOpened ==> earlierOpened && n == Max(0, listed[i].poolsize - |Of(middle, listed[i].address)|)
    ensures Filled(before, after, listed[..i + 1], allOpened)
  {
    var longer := listed[..i + 1];
    assert longer[..i] == listed[..i];
    forall a ensures PoolOK(before, after, longer, allOpened, a) {
      assert PoolOK(before, middle, listed[..i], earlierOpened, a);
    }
  }

  ghost predicate Enough(list: seq<Connection>, listed: seq<PoolAddress>) {
    forall i :: 0 <= i < |listed| ==> |Of(list, listed[i].address)| >= listed[i].poolsize
  }

  lemma EnoughMore(list: seq<Connection>, listed: seq<PoolAddress>, i: nat)
    requires i < |listed|
    ensures Enough(list, listed[..i + 1]) <==>
            Enough(list, listed[..i]) && |Of(list, listed[i].address)| >= listed[i].poolsize
  {
    var longer := listed[..i + 1];
    assert longer == listed[..i] + [listed[i]];
    if Enough(list, longer) {
      assert longer[i] == listed[i];
      forall k | 0 <= k < i ensures |Of(list, listed[k].address)| >= listed[k].poolsize {
        assert longer[k] == listed[k];
      }
    }
  }

  /** The connections heard of since the cutoff. */
  function Alive(list: seq<Connection>, cutoff: int): seq<Connection>
    reads list
  {
    if list == [] then []
    else
      var last := list[|list| - 1];
      Alive(list[..|list| - 1], cutoff) + (if last.lastHeartbeat < cutoff then [] else [last])
  }

  lemma {:induction false} AliveMembers(list: seq<Connection>, cutoff: int, c: Connection)
    requires c in Alive(list, cutoff)
    ensures c in list && c.lastHeartbeat >= cutoff
  {
    if list != [] {
      var last := list[|list| - 1];
      if c != last {
        AliveMembers(list[..|list| - 1], cutoff, c);
      } else if c.lastHeartbeat < cutoff {
        AliveMembers(list[..|list| - 1], cutoff, c);
      }
    }
  }

  /** The connections that stay are exactly those heard of since the cutoff. */
  lemma AliveIff(list: seq<Connection>, cutoff: int, c: Connection)
    ensures c in Alive(list, cutoff) <==> c in list && c.lastHeartbeat >= cutoff
  {
    if c in Alive(list, cutoff) {
      AliveMembers(list, cutoff, c);
    } else if c in list && c.lastHeartbeat >= cutoff {
      AliveStay(list, cutoff, c);
    }
  }

  lemma {:induction false} AliveStay(list: seq<Connection>, cutoff: int, c: Connection)
    requires c in list && c.lastHeartbeat >= cutoff
    ensures c in Alive(list, cutoff)
  {
    if c != list[|list| - 1] {
      AliveStay(list[..|list| - 1], cutoff, c);
    }
  }

  /** They stay in order: of the front of the list before of the rest. */
  lemma {:induction false} AliveJoins(front: seq<Connection>, back: seq<Connection>, cutoff: int)
    ensures Alive(front + back, cutoff) == Alive(front, cutoff) + Alive(back, cutoff)
  {
    if back == [] {
      assert front + back == front;
    } else {
      AliveJoins(front, back[..|back| - 1], cutoff);
      assert (front + back)[..|front + back| - 1] == front + back[..|back| - 1];
    }
  }

  /** When every pool could be filled, there is nothing left to open. */
  lemma FilledIsEnough(before: seq<Connection>, after: seq<Connection>, listed: seq<PoolAddress>)
    requires Filled(before, after, listed, true)
    ensures Enough(after, listed)
  {
    forall i | 0 <= i < |listed| ensures |Of(after, listed[i].address)| >= listed[i].poolsize {
      var a := listed[i].address;
      assert PoolOK(before, after, listed, true, a);
      LargestListed(listed, a);
    }
  }

  lemma {:induction false} RemoveMiddle(front: seq<Connection>, c: Connection, back: seq<Connection>)
    requires c !in front
    ensures RemoveFirst(front + [c] + back, c) == front + back
  {
    var all := front + [c] + back;
    if front == [] {
      assert all[1..] == back;
    } else {
      assert all[1..] == front[1..] + [c] + back;
      RemoveMiddle(front[1..], c, back);
      assert front + back == [front[0]] + (front[1..] + back);
    }
  }

  /** One more connection has been looked at, and removed if it is dead. */
  lemma AliveStep(list: seq<Connection>, i: nat, cutoff: int)
    requires NoDup(list) && i < |list|
    ensures var pool := Alive(list[..i], cutoff) + list[i..];
      (if list[i].lastHeartbeat < cutoff then RemoveFirst(pool, list[i]) else pool) ==
      Alive(list[..i + 1], cutoff) + list[i + 1..]
  {
    var c, front, back := list[i], Alive(list[..i], cutoff), list[i + 1..];
    assert list[..i + 1][..i] == list[..i];
    assert front + list[i..] == front + [c] + back;
    forall j | 0 <= j < i ensures list[j] != c {
      DistinctFrom(list, i, j);
    }
    if c in front {
      AliveMembers(list[..i], cutoff, c);
    }
    RemoveMiddle(front, c, back);
  }

  /** The list has kept what it was, and the rest has been heard of just now. */
  ghost predicate NewFrom(before: seq<Connection>, after: seq<Connection>, now: int)
    reads after
  {
    before <= after && forall i :: |before| <= i < |after| ==> after[i].lastHeartbeat == now
  }

  lemma NewFromItself(list: seq<Connection>, now: int)
    ensures NewFrom(list, list, now)
  {
  }

  lemma NewFromTwice(before: seq<Connection>, middle: seq<Connection>, after: seq<Connection>, now: int)
    requires NewFrom(before, middle, now) && NewFrom(middle, after, now)
    ensures NewFrom(before, after, now)
  {
  }

  class NSQClient {
    const connections: Connections
    const reachable: nat -> bool
    var attempts: nat

    constructor (reachable: nat -> bool)
      ensures connections.Valid() && fresh(connections) && connections.connectionList == [] && attempts == 0
      ensures this.reachable == reachable
    {
      connections := new Connections();
      this.reachable := reachable;
      attempts := 0;
    }

    /** `createConnection`: null when the attempt fails. */
    method CreateConnection(a: Address, now: int) returns (c: Connection?)
      modifies `attempts
      ensures attempts == old(attempts) + 1
      ensures c != null <==> reachable(old(attempts))
      ensures c != null ==> fresh(c) && c.Key() == a && c.lastHeartbeat == now
    {
      c := null;
      if reachable(attempts) {
        c := new Connection(a.host, a.port, now);
      }
      attempts := attempts + 1;
    }

    /** One attempt: the connection joins the pool if it could be opened. */
    method OpenOne(a: Address, now: int)
      requires connections.Valid()
      modifies `attempts, connections
      ensures connections.Valid() && connections.rrCount == old(connections.rrCount) && attempts == old(attempts) + 1
      ensures NewFrom(old(connections.connectionList), connections.connectionList, now)
      ensures Opened(old(connections.connectionList), connections.connectionList, a,
        if reachable(old(attempts)) then 1 else 0)
    {
      var conn := CreateConnection(a, now);
      ghost var before := connections.connectionList;
      connections.AddConnection(conn);
      if conn != null {
        assert conn !in before;
        OpenedOne(before, conn);
      } else {
        assert connections.connectionList == before;
        OpenedNone(before, a);
      }
    }

    /** The inner loop of `connect`: one attempt for each connection the address is short of. */
    method FillAddress(p: PoolAddress, now: int)
      requires connections.Valid()
      modifies `attempts, connections
      ensures connections.Valid() && connections.rrCount == old(connections.rrCount)
      ensures NewFrom(old(connections.connectionList), connections.connectionList, now)
      ensures attempts == old(attempts) + Max(0, p.poolsize - |Of(old(connections.connectionList), p.address)|)
      ensures Opened(old(connections.connectionList), connections.connectionList, p.address,
                     Successes(reachable, old(attempts), attempts))
      ensures attempts == old(attempts) ==> connections.connectionList == old(connections.connectionList)
    {
      hide Connections.Valid, Opened, NewFrom;
      var size := connections.ConnectionSize(p.address.host, p.address.port);
      var num := p.poolsize - size;
      ghost var list := connections.connectionList;
      NewFromItself(list, now);
      OpenedNone(list, p.address);
      var i := 0;
      while i < num
        invariant 0 <= i <= Max(0, num) && attempts == old(attempts) + i
        invariant connections.Valid() && connections.rrCount == old(connections.rrCount)
        invariant NewFrom(list, connections.connectionList, now) && (i == 0 ==> connections.connectionList == list)
        invariant Opened(list, connections.connectionList, p.address, Successes(reachable, old(attempts), attempts))
      {
        ghost var before, n := connections.connectionList, Successes(reachable, old(attempts), attempts);
        OpenOne(p.address, now);
        NewFromTwice(list, before, connections.connectionList, now);
        OpenedTwice(list, before, connections.connectionList, p.address, n, if reachable(attempts - 1) then 1 else 0);
        i := i + 1;
      }
    }

    /** The listed pools have been filled, from a list `before` and with the attempts made since the first `start`. */
    ghost predicate FilledSince(before: seq<Connection>, start: nat, listed: seq<PoolAddress>)
      reads `attempts, connections
    {
      && start <= attempts
      && Filled(before, connections.connectionList, listed, AllSucceed(reachable, start, attempts))
      && (attempts == start <==> Enough(before, listed))
      && (attempts == start ==> connections.connectionList == before)
    }

    lemma FilledStep(before: seq<Connection>, start: nat, middle: seq<Connection>, from: nat,
                     listed: seq<PoolAddress>, i: nat)
      requires i < |listed| && start <= from <= attempts
      requires Filled(before, middle, listed[..i], AllSucceed(reachable, start, from))
      requires from == start <==> Enough(before, listed[..i])
      requires from == start ==> middle == before
      requires attempts == from + Max(0, listed[i].poolsize - |Of(middle, listed[i].address)|)
      requires Opened(middle, connections.connectionList, listed[i].address, Successes(reachable, from, attempts))
      requires attempts == from ==> connections.connectionList == middle
      ensures FilledSince(before, start, listed[..i + 1])
    {
      SuccessesBound(reachable, from, attempts);
      EnoughMore(before, listed, i);
      FilledMore(before, middle, connections.connectionList, listed, i, Successes(reachable, from, attempts),
                 AllSucceed(reachable, start, from), AllSucceed(reachable, start, attempts));
    }

    /** One round of the outer loop of `connect`. */
    method FillNext(listed: seq<PoolAddress>, i: nat, now: int, ghost list: seq<Connection>, ghost start: nat)
      requires connections.Valid() && i < |listed|
      requires NewFrom(list, connections.connectionList, now) && FilledSince(list, start, listed[..i])
      modifies `attempts, connections
      ensures connections.Valid() && connections.rrCount == old(connections.rrCount)
      ensures NewFrom(list, connections.connectionList, now) && FilledSince(list, start, listed[..i + 1])
    {
      ghost var before, from := connections.connectionList, attempts;
      FillAddress(listed[i], now);
      NewFromTwice(list, before, connections.connectionList, now);
      FilledStep(list, start, before, from, listed, i);
    }

    /** The loops of `connect`: every listed pool is filled up. */
    method FillPools(listed: seq<PoolAddress>, now: int)
      requires connections.Valid()
      modifies `attempts, connections
      ensures connections.Valid() && connections.rrCount == old(connections.rrCount)
      ensures NewFrom(old(connections.connectionList), connections.connectionList, now)
      ensures FilledSince(old(connections.connectionList), old(attempts), listed)
    {
      ghost var list := connections.connectionList;
      assert listed[..0] == [];
      FilledNone(list, AllSucceed(reachable, attempts, attempts));
      for i := 0 to |listed|
        invariant connections.Valid() && connections.rrCount == old(connections.rrCount)
        invariant NewFrom(list, connections.connectionList, now) && FilledSince(list, old(attempts), listed[..i])
      {
        FillNext(listed, i, now, list, old(attempts));
      }
      assert listed[..|listed|] == listed;
    }

    /** `_disconnected`, which closing a connection calls. */
    method Disconnected(c: Connection)
      requires connections.Valid()
      modifies connections
      ensures connections.Valid() && connections.rrCount == old(connections.rrCount)
      ensures connections.connectionList == RemoveFirst(old(connections.connectionList), c)
      ensures c !in connections.connectionList
    {
      connections.Remove(c);
    }

    /** A dead connection is closed and removed; the second removal finds nothing. */
    method Discard(c: Connection)
      requires connections.Valid()
      modifies connections
      ensures connections.Valid() && connections.rrCount == old(connections.rrCount)
      ensures connections.connectionList == RemoveFirst(old(connections.connectionList), c)
    {
      Disconnected(c);
      NothingToRemove(connections.connectionList, c);
      connections.Remove(c);
    }

    method DropIfDead(copy: seq<Connection>, i: nat, cutoff: int)
      requires connections.Valid() && NoDup(copy) && i < |copy|
      requires connections.connectionList == Alive(copy[..i], cutoff) + copy[i..]
      modifies connections
      ensures connections.Valid() && connections.rrCount == old(connections.rrCount)
      ensures connections.connectionList == Alive(copy[..i + 1], cutoff) + copy[i + 1..]
    {
      var c := copy[i];
      AliveStep(copy, i, cutoff);
      if c.lastHeartbeat < cutoff {
        Discard(c);
      }
    }

    /** Connections not heard of for two minutes are closed and removed; the others stay, in order. */
    method CleanupOldConnections(now: int)
      requires connections.Valid()
      modifies connections
      ensures connections.Valid() && connections.rrCount == old(connections.rrCount)
      ensures connections.connectionList == Alive(old(connections.connectionList), now - 1000 * 60 * 2)
    {
      var cutoff := now - 1000 * 60 * 2;
      var copy := connections.connectionList;
      for i := 0 to |copy|
        invariant connections.Valid() && connections.rrCount == old(connections.rrCount)
        invariant NoDup(copy) && connections.connectionList == Alive(copy[..i], cutoff) + copy[i..]
      {
        DropIfDead(copy, i, cutoff);
      }
      assert copy[..|copy|] == copy;
    }

    /** `connect`: the pools are filled, then dead connections are dropped. */
    method Connect(listed: seq<PoolAddress>, now1: int, now2: int) returns (ghost filled: seq<Connection>)
      requires connections.Valid()
      modifies `attempts, connections
      ensures connections.Valid() && connections.rrCount == old(connections.rrCount)
      ensures old(connections.connectionList) <= filled && attempts >= old(attempts)
      ensures Filled(old(connections.connectionList), filled, listed, AllSucceed(reachable, old(attempts), attempts))
      ensures forall i :: |old(connections.connectionList)| <= i < |filled| ==> filled[i].lastHeartbeat == now1
      ensures connections.connectionList == Alive(filled, now2 - 1000 * 60 * 2)
    {
      FillPools(listed, now1);
      filled := connections.connectionList;
      CleanupOldConnections(now2);
    }

    /** `close`, as far as the pool: each connection is closed, and with it leaves; then all is cleared. */
    method Close()
      requires connections.Valid()
      modifies connections
      ensures connections.Valid() && connections.connectionList == [] && connections.connections == map[]
    {
      var copy := connections.connectionList;
      for i := 0 to |copy|
        invariant connections.Valid()
      {
        Disconnected(copy[i]);
      }
      connections.Clear();
    }
  }
}
