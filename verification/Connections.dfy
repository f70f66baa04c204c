/**
 The connection pool of the NSQ client: a flat list and an index by address that must agree,
 round-robin selection, and the loops that fill the pool and drop dead connections.
 */
module Connections {
  import opened Common

  /** The key `host + ":" + port`; the port has no colon, so the two parts can be told apart. */
  datatype Address = Address(host: string, port: int)

  class Connection {
    const host: string
    const port: int
    var lastHeartbeat: int

    constructor (host: string, port: int, now: int)
      ensures this.host == host && this.port == port && lastHeartbeat == now
    {
      this.host, this.port, lastHeartbeat := host, port, now;
    }

    function Key(): Address {
      Address(host, port)
    }
  }

  // ----- lists of connections -----

  /** The connections of one address, in order. */
  function Of(list: seq<Connection>, a: Address): seq<Connection> {
    if list == [] then [] else if list[0].Key() == a then [list[0]] + Of(list[1..], a) else Of(list[1..], a)
  }

  /** `List.remove(Object)`. */
  function RemoveFirst(list: seq<Connection>, c: Connection): seq<Connection> {
    if list == [] then [] else if list[0] == c then list[1..] else [list[0]] + RemoveFirst(list[1..], c)
  }

  /** `List.removeAll`. */
  function RemoveAll(list: seq<Connection>, gone: seq<Connection>): seq<Connection> {
    if list == [] then []
    else if list[0] in gone then RemoveAll(list[1..], gone)
    else [list[0]] + RemoveAll(list[1..], gone)
  }

  lemma {:induction false} OfMembers(list: seq<Connection>, a: Address, c: Connection)
    ensures c in Of(list, a) <==> c in list && c.Key() == a
  {
    if list != [] {
      OfMembers(list[1..], a, c);
    }
  }

  lemma {:induction false} OfAppend(list: seq<Connection>, c: Connection, a: Address)
    ensures Of(list + [c], a) == Of(list, a) + if c.Key() == a then [c] else []
  {
    if list == [] {
      assert [c][1..] == [];
    } else {
      assert (list + [c])[1..] == list[1..] + [c];
      OfAppend(list[1..], c, a);
    }
  }

  lemma NoDupAppend(list: seq<Connection>, c: Connection)
    requires NoDup(list) && c !in list
    ensures NoDup(list + [c])
  {
    var longer := list + [c];
    forall i, j | 0 <= i < j < |longer| ensures At(longer, i) != At(longer, j) {
      DistinctFrom(list, i, j);
    }
  }

  /** Removing a connection removes it from the list of its own address and from no other. */
  lemma {:induction false} OfRemoveFirst(list: seq<Connection>, c: Connection, a: Address)
    ensures Of(RemoveFirst(list, c), a) == if c.Key() == a then RemoveFirst(Of(list, a), c) else Of(list, a)
  {
    if list != [] && list[0] != c {
      OfRemoveFirst(list[1..], c, a);
      var rest := RemoveFirst(list[1..], c);
      assert ([list[0]] + rest)[1..] == rest;
      if list[0].Key() == a {
        assert ([list[0]] + Of(list[1..], a))[1..] == Of(list[1..], a);
      }
    } else if list != [] && c.Key() == a {
      assert ([c] + Of(list[1..], a))[1..] == Of(list[1..], a);
    }
  }

  lemma {:induction false} NoDupRemoveFirst(list: seq<Connection>, c: Connection)
    requires NoDup(list)
    ensures NoDup(RemoveFirst(list, c)) && c !in RemoveFirst(list, c)
    ensures forall x :: x in RemoveFirst(list, c) ==> x in list
    ensures forall x :: x in list && x != c ==> x in RemoveFirst(list, c)
  {
    if list != [] {
      NoDupFirst(list);
      if list[0] != c {
        NoDupRemoveFirst(list[1..], c);
        var rest := RemoveFirst(list[1..], c);
        assert ([list[0]] + rest)[1..] == rest;
        NoDupFirst([list[0]] + rest);
      }
    }
  }

  lemma {:induction false} NoDupRemoveAll(list: seq<Connection>, gone: seq<Connection>)
    requires NoDup(list)
    ensures NoDup(RemoveAll(list, gone))
    ensures forall x :: x in RemoveAll(list, gone) ==> x in list && x !in gone
    ensures forall x :: x in list && x !in gone ==> x in RemoveAll(list, gone)
  {
    if list != [] {
      NoDupFirst(list);
      NoDupRemoveAll(list[1..], gone);
      var rest := RemoveAll(list[1..], gone);
      assert ([list[0]] + rest)[1..] == rest;
      NoDupFirst([list[0]] + rest);
    }
  }

  /** Dropping the connections of one address drops that address and no other. */
  lemma {:induction false} OfRemoveAll(list: seq<Connection>, gone: seq<Connection>, dropped: Address, a: Address)
    requires forall c :: c in list ==> (c in gone <==> c.Key() == dropped)
    ensures Of(RemoveAll(list, gone), a) == if a == dropped then [] else Of(list, a)
  {
    if list != [] {
      OfRemoveAll(list[1..], gone, dropped, a);
      var rest := RemoveAll(list[1..], gone);
      assert ([list[0]] + rest)[1..] == rest;
    }
  }

  // ----- the index partitions the list -----

  /** The connections whose address is among the keys. */
  function Within(list: seq<Connection>, keys: set<Address>): seq<Connection> {
    if list == [] then []
    else if list[0].Key() in keys then [list[0]] + Within(list[1..], keys)
    else Within(list[1..], keys)
  }

  ghost function TotalSize(connections: map<Address, seq<Connection>>): nat
    decreases |connections|
  {
    if connections == map[] then 0
    else
      var a :| a in connections;
      |connections[a]| + TotalSize(connections - {a})
  }

  lemma {:induction false} WithinSplits(list: seq<Connection>, keys: set<Address>, a: Address)
    requires a in keys
    ensures |Within(list, keys)| == |Of(list, a)| + |Within(list, keys - {a})|
  {
    if list != [] {
      WithinSplits(list[1..], keys, a);
    }
  }

  lemma {:induction false} TotalIsWithin(connections: map<Address, seq<Connection>>, list: seq<Connection>)
    requires forall a :: a in connections ==> connections[a] == Of(list, a)
    ensures TotalSize(connections) == |Within(list, connections.Keys)|
    decreases |connections|
  {
    if connections == map[] {
      NoneWithin(list);
    } else {
      var a :| a in connections && TotalSize(connections) == |connections[a]| + TotalSize(connections - {a});
      TotalIsWithin(connections - {a}, list);
      WithinSplits(list, connections.Keys, a);
      assert (connections - {a}).Keys == connections.Keys - {a};
    }
  }

  lemma {:induction false} NoneWithin(list: seq<Connection>)
    ensures Within(list, {}) == []
  {
    if list != [] {
      NoneWithin(list[1..]);
    }
  }

  lemma {:induction false} AllWithin(list: seq<Connection>, keys: set<Address>)
    requires forall c :: c in list ==> c.Key() in keys
    ensures Within(list, keys) == list
  {
    if list != [] {
      AllWithin(list[1..], keys);
    }
  }

  // ----- round robin -----

  /** What `k` consecutive calls of `next` return while the list stays the same. */
  function Round(list: seq<Connection>, rrCount: nat, k: nat): seq<Connection>
    requires list != []
    decreases k
  {
    if k == 0 then [] else [list[rrCount % |list|]] + Round(list, rrCount + 1, k - 1)
  }

  lemma {:induction false} RoundMore(list: seq<Connection>, rrCount: nat, k: nat)
    requires list != []
    ensures Round(list, rrCount, k + 1) == Round(list, rrCount, k) + Round(list, rrCount + k, 1)
    decreases k
  {
    if k > 0 {
      RoundMore(list, rrCount + 1, k - 1);
    }
  }

  lemma {:induction false} RoundAt(list: seq<Connection>, rrCount: nat, k: nat, i: nat)
    requires list != [] && i < k
    ensures |Round(list, rrCount, k)| == k && Round(list, rrCount, k)[i] == list[(rrCount + i) % |list|]
    decreases k
  {
    if i == 0 {
      if k > 1 {
        RoundAt(list, rrCount + 1, k - 1, 0);
      }
    } else {
      RoundAt(list, rrCount + 1, k - 1, i - 1);
    }
  }

  lemma ModuloStep(r: nat, i: nat, n: nat, rr: nat)
    requires n > 0 && i < n && r == rr % n
    ensures (rr + i) % n == if r + i < n then r + i else r + i - n
  {
    var q := rr / n;
    assert rr == n * q + r;
    if r + i < n {
      assert rr + i == n * q + (r + i);
      Remainder(rr + i, n, q, r + i);
    } else {
      assert rr + i == n * (q + 1) + (r + i - n);
      Remainder(rr + i, n, q + 1, r + i - n);
    }
  }

  lemma Remainder(x: nat, n: nat, q: nat, r: nat)
    requires n > 0 && r < n && x == n * q + r
    ensures x % n == r
  {
    Unique(n, q, r, x / n, x % n);
  }

  lemma Unique(n: nat, q: int, r: nat, d: int, e: nat)
    requires r < n && e < n && n * q + r == n * d + e
    ensures r == e
  {
    Difference(n, q, d);
    AtLeast(n, q - d);
    Difference(n, d, q);
    AtLeast(n, d - q);
  }

  lemma Difference(n: int, q: int, d: int)
    ensures n * q - n * d == n * (q - d)
  {
  }

  lemma {:induction false} AtLeast(n: nat, k: int)
    ensures k >= 1 ==> n * k >= n
    decreases k
  {
    if k > 1 {
      AtLeast(n, k - 1);
      Difference(n, k, 1);
    }
  }

  lemma {:induction false} NoDupOnce(list: seq<Connection>, c: Connection)
    requires NoDup(list)
    ensures multiset(list)[c] == if c in list then 1 else 0
  {
    if list != [] {
      NoDupFirst(list);
      NoDupOnce(list[1..], c);
      assert list == [list[0]] + list[1..];
    }
  }

  /** As many consecutive calls of `next` as there are connections return the list turned round:
      each connection exactly once. */
  lemma RoundIsRotation(list: seq<Connection>, rrCount: nat)
    requires list != []
    ensures var r := rrCount % |list|; Round(list, rrCount, |list|) == list[r..] + list[..r]
    ensures multiset(Round(list, rrCount, |list|)) == multiset(list)
    ensures NoDup(list) ==> forall c :: c in list ==> multiset(Round(list, rrCount, |list|))[c] == 1
  {
    var n := |list|;
    var r := rrCount % n;
    var round, turned := Round(list, rrCount, n), list[r..] + list[..r];
    RoundAt(list, rrCount, n, 0);
    forall i | 0 <= i < n ensures round[i] == turned[i] {
      RoundAt(list, rrCount, n, i);
      ModuloStep(r, i, n, rrCount);
    }
    assert round == turned;
    assert list == list[..r] + list[r..];
    if NoDup(list) {
      forall c | c in list ensures multiset(list)[c] == 1 {
        NoDupOnce(list, c);
      }
    }
  }

  // ----- the class -----

  class Connections {
    var connections: map<Address, seq<Connection>>
    var connectionList: seq<Connection>
    var rrCount: nat

    /** The index groups the list by address and has no empty group; the list has no duplicates. */
    ghost predicate Valid()
      reads this
    {
      && NoDup(connectionList)
      && (forall a :: a in connections ==> connections[a] == Of(connectionList, a) && connections[a] != [])
      && (forall c :: c in connectionList ==> c.Key() in connections)
    }

    constructor ()
      ensures Valid() && connectionList == [] && rrCount == 0
    {
      connections, connectionList, rrCount := map[], [], 0;
    }

    /** An address is in the index exactly when some connection has it. */
    lemma Indexed(a: Address)
      requires Valid()
      ensures a in connections <==> Of(connectionList, a) != []
    {
      if Of(connectionList, a) != [] {
        OfMembers(connectionList, a, Of(connectionList, a)[0]);
      }
    }

    /** The groups of the index are together as long as the list. */
    lemma SizesSum()
      requires Valid()
      ensures TotalSize(connections) == |connectionList|
    {
      TotalIsWithin(connections, connectionList);
      AllWithin(connectionList, connections.Keys);
    }

    method AddConnection(connection: Connection?)
      requires Valid()
      modifies this
      ensures Valid() && rrCount == old(rrCount)
      ensures connectionList == old(connectionList) +
        (if connection == null || connection in old(connectionList) then [] else [connection])
    {
      if connection == null {
        return;
      }
      var key := connection.Key();
      if connection in connectionList {
        return;
      }
      Indexed(key);
      if key !in connections {
        connections := connections[key := []];
      }
      connections := connections[key := connections[key] + [connection]];
      NoDupAppend(connectionList, connection);
      forall a {:trigger a in connections} | a in connections
        ensures connections[a] == Of(connectionList + [connection], a)
      {
        OfAppend(connectionList, connection, a);
      }
      connectionList := connectionList + [connection];
    }

    method ContainsConnection(host: string, port: int) returns (r: bool)
      requires Valid()
      ensures r <==> exists c :: c in connectionList && c.host == host && c.port == port
    {
      r := Address(host, port) in connections;
      Indexed(Address(host, port));
      if r {
        OfMembers(connectionList, Address(host, port), Of(connectionList, Address(host, port))[0]);
      }
    }

    method ConnectionSize(host: string, port: int) returns (n: nat)
      requires Valid()
      ensures n == |Of(connectionList, Address(host, port))|
    {
      var key := Address(host, port);
      Indexed(key);
      if key !in connections {
        return 0;
      }
      return |connections[key]|;
    }

    method Size() returns (n: nat)
      ensures n == |connectionList|
    {
      n := |connectionList|;
    }

    /** `None` is the NoConnectionsException. */
    method Next() returns (r: Option<Connection>)
      modifies `rrCount
      ensures connectionList == [] ==> r == None && rrCount == old(rrCount)
      ensures connectionList != [] ==>
        r.Some? && rrCount == old(rrCount) + 1 && [r.value] == Round(connectionList, old(rrCount), 1)
    {
      if |connectionList| == 0 {
        return None;
      }
      r := Some(connectionList[rrCount % |connectionList|]);
      assert Round(connectionList, rrCount + 1, 0) == [];
      rrCount := rrCount + 1;
    }

    /** `k` consecutive calls of `next` go round the list; as many as there are connections return each
        of them once. */
    method TakeTurns(k: nat) returns (turns: seq<Connection>)
      requires connectionList != []
      modifies `rrCount
      ensures turns == Round(connectionList, old(rrCount), k) && rrCount == old(rrCount) + k
      ensures k == |connectionList| ==> multiset(turns) == multiset(connectionList)
      ensures k == |connectionList| && NoDup(connectionList) ==>
        forall c :: c in connectionList ==> multiset(turns)[c] == 1
    {
      turns := [];
      for i := 0 to k
        invariant turns == Round(connectionList, old(rrCount), i) && rrCount == old(rrCount) + i
      {
        var connection := Next();
        RoundMore(connectionList, old(rrCount), i);
        turns := turns + [connection.value];
      }
      RoundIsRotation(connectionList, old(rrCount));
    }

    method Remove(connection: Connection)
      requires Valid()
      modifies this
      ensures Valid() && connectionList == RemoveFirst(old(connectionList), connection) && rrCount == old(rrCount)
      ensures connection !in connectionList
    {
      var key := connection.Key();
      NoDupRemoveFirst(connectionList, connection);
      if connection !in connectionList {
        NothingToRemove(connectionList, connection);
        return;
      }
      var conn := RemoveFirst(connections[key], connection);
      if |conn| == 0 {
        connections := connections - {key};
      } else {
        connections := connections[key := conn];
      }
      var before := connectionList;
      connectionList := RemoveFirst(connectionList, connection);
      forall a | a in connections ensures connections[a] == Of(connectionList, a) {
        OfRemoveFirst(before, connection, a);
      }
      OfRemoveFirst(before, connection, key);
      forall c | c in connectionList ensures c.Key() in connections {
        OfMembers(connectionList, key, c);
      }
    }

    method RemoveAddress(host: string, port: int)
      requires Valid()
      modifies this
      ensures Valid() && rrCount == old(rrCount)
      ensures connectionList == RemoveAll(old(connectionList), Of(old(connectionList), Address(host, port)))
      ensures forall c :: c in connectionList ==> c in old(connectionList) && c.Key() != Address(host, port)
      ensures forall c :: c in old(connectionList) && c.Key() != Address(host, port) ==> c in connectionList
      ensures forall a :: Of(connectionList, a) == if a == Address(host, port) then [] else Of(old(connectionList), a)
    {
      var key := Address(host, port);
      Indexed(key);
      var before := connectionList;
      var conns := if key in connections then connections[key] else [];
      forall c | c in before ensures c in conns <==> c.Key() == key {
        OfMembers(before, key, c);
      }
      forall a ensures Of(RemoveAll(before, conns), a) == if a == key then [] else Of(before, a) {
        OfRemoveAll(before, conns, key, a);
      }
      if key !in connections {
        NothingToDrop(connectionList);
        return;
      }
      connections := connections - {key};
      NoDupRemoveAll(connectionList, conns);
      connectionList := RemoveAll(connectionList, conns);
    }

    method Clear()
      modifies this
      ensures Valid() && connectionList == [] && connections == map[] && rrCount == old(rrCount)
    {
      connections := map[];
      connectionList := [];
    }
  }

  lemma {:induction false} NothingToDrop(list: seq<Connection>)
    ensures RemoveAll(list, []) == list
  {
    if list != [] {
      NothingToDrop(list[1..]);
    }
  }

  lemma {:induction false} NothingToRemove(list: seq<Connection>, c: Connection)
    requires c !in list
    ensures RemoveFirst(list, c) == list
  {
    if list != [] {
      NothingToRemove(list[1..], c);
    }
  }
}
