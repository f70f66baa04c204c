/** Small pieces every other module uses: optional values and a few facts about sequences. */
module Common {

  /** A Java or JavaScript reference that may be null. */
  datatype Option<+T> = None | Some(value: T)

  /** `s[i]`, as a term to hang quantifiers on: a fact about every `At(s, i)` is used only where
      an element of `s` is spoken of in this form. */
  ghost function At<T>(s: seq<T>, i: int): T
    requires 0 <= i < |s|
  {
    s[i]
  }

  /** No element occurs twice. */
  ghost predicate NoDup<T>(s: seq<T>) {
    forall i, j {:trigger At(s, i), At(s, j)} :: 0 <= i < j < |s| ==> At(s, i) != At(s, j)
  }

  lemma DistinctFrom<T>(s: seq<T>, i: int, j: int)
    requires NoDup(s)
    ensures 0 <= i < |s| && 0 <= j < |s| && i != j ==> s[i] != s[j]
  {
    if 0 <= i < |s| && 0 <= j < |s| {
      assert i < j ==> At(s, i) != At(s, j);
      assert j < i ==> At(s, j) != At(s, i);
    }
  }

  lemma NoDupFirst<T>(s: seq<T>)
    requires s != []
    ensures NoDup(s) <==> s[0] !in s[1..] && NoDup(s[1..])
  {
    var r := s[1..];
    if NoDup(s) {
      forall i | 0 <= i < |r| ensures r[i] != s[0] {
        DistinctFrom(s, 0, i + 1);
      }
      forall i, j | 0 <= i < j < |r| ensures At(r, i) != At(r, j) {
        DistinctFrom(s, i + 1, j + 1);
      }
    }
    if s[0] !in r && NoDup(r) {
      forall i, j | 0 <= i < j < |s| ensures At(s, i) != At(s, j) {
        assert s[j] == r[j - 1];
        if i > 0 {
          DistinctFrom(r, i - 1, j - 1);
        }
      }
    }
  }

  /** `s` without its element at position `k`. */
  function RemoveAt<T>(s: seq<T>, k: nat): (r: seq<T>)
    requires k < |s|
    ensures |r| == |s| - 1
    ensures forall i :: 0 <= i < k ==> r[i] == s[i]
    ensures forall i :: k <= i < |r| ==> r[i] == s[i + 1]
  {
    s[..k] + s[k + 1..]
  }

  /** The elements of `s` from position `j` on. */
  ghost function Elements<T>(s: seq<T>, j: nat): set<T>
    requires j <= |s|
    decreases |s| - j
  {
    if j == |s| then {} else {s[j]} + Elements(s, j + 1)
  }

  lemma ElementsAre<T>(s: seq<T>, j: nat, x: T)
    requires j <= |s|
    ensures x in Elements(s, j) <==> exists k :: j <= k < |s| && s[k] == x
    decreases |s| - j
  {
    if j < |s| {
      ElementsAre(s, j + 1, x);
    }
  }

  lemma ElementsAll<T>(s: seq<T>)
    ensures forall x :: x in s ==> x in Elements(s, 0)
    ensures forall x :: x in Elements(s, 0) ==> x in s
  {
    forall x | x in Elements(s, 0) ensures x in s {
      ElementsAre(s, 0, x);
    }
    forall x | x in s ensures x in Elements(s, 0) {
      ElementsAre(s, 0, x);
    }
  }

  lemma ElementsLater<T>(s: seq<T>, j: nat)
    requires NoDup(s) && j < |s|
    ensures s[j] !in Elements(s, j + 1)
  {
    ElementsAre(s, j + 1, s[j]);
    forall k | j < k < |s| ensures s[k] != s[j] {
      DistinctFrom(s, j, k);
    }
  }

  /** A position of `x` in `s`; the only one if nothing occurs twice. */
  ghost function Position<T>(s: seq<T>, x: T): (k: nat)
    requires x in s
    ensures k < |s| && s[k] == x
  {
    var k :| 0 <= k < |s| && s[k] == x;
    k
  }

  /** `s` without `x`. */
  ghost function Without<T>(s: seq<T>, x: T): seq<T> {
    if x in s then RemoveAt(s, Position(s, x)) else s
  }

  lemma WithoutAt<T>(s: seq<T>, x: T)
    requires NoDup(s) && x in s
    ensures var k := Position(s, x); Without(s, x) == s[..k] + s[k + 1..] && NoDup(Without(s, x))
    ensures x !in Without(s, x)
    ensures forall y :: y in s && y != x ==> y in Without(s, x)
    ensures forall y :: y in Without(s, x) ==> y in s
  {
    var k, r := Position(s, x), Without(s, x);
    forall i | 0 <= i < |r| ensures r[i] == s[if i < k then i else i + 1] && r[i] != x {
      assert At(s, if i < k then i else i + 1) != At(s, k);
    }
    forall i, j | 0 <= i < j < |r| ensures At(r, i) != At(r, j) {
      assert At(s, if i < k then i else i + 1) != At(s, if j < k then j else j + 1);
    }
    forall y | y in s && y != x ensures y in r {
      var i :| 0 <= i < |s| && s[i] == y;
      assert r[if i < k then i else i - 1] == y;
    }
  }

  /** The elements other than `x`, in order. */
  function Others<T(==)>(s: seq<T>, x: T): seq<T> {
    if s == [] then [] else if s[0] == x then Others(s[1..], x) else [s[0]] + Others(s[1..], x)
  }

  lemma {:induction false} WithoutIsOthers<T>(s: seq<T>, x: T)
    requires NoDup(s)
    ensures Without(s, x) == Others(s, x)
  {
    if s != [] {
      NoDupFirst(s);
      WithoutIsOthers(s[1..], x);
      if x in s {
        WithoutAt(s, x);
        if s[0] == x {
          PositionIs(s, 0);
        } else {
          WithoutAt(s[1..], x);
          PositionIs(s, Position(s[1..], x) + 1);
          assert Without(s, x) == [s[0]] + Without(s[1..], x);
        }
      }
    }
  }

  /** The position is determined when nothing occurs twice. */
  lemma PositionIs<T>(s: seq<T>, k: nat)
    requires NoDup(s) && k < |s|
    ensures Position(s, s[k]) == k
  {
    assert At(s, k) == At(s, Position(s, s[k]));
  }

  /** The range of the counter the code masks with `0x3fffffff`. */
  const COUNTER_RANGE: int := 0x4000_0000

  /** `x & 0x3fffffff`: keeping the last 30 bits is the Euclidean remainder, for negative `x` too. */
  function Mask30(x: int): (r: int)
    ensures 0 <= r < COUNTER_RANGE
  {
    x % COUNTER_RANGE
  }

  lemma MaskNext(x: int)
    ensures Mask30(Mask30(x) + 1) == Mask30(x + 1)
  {
  }
}
