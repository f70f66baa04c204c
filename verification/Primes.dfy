/** The table sizes' prime moduli. */
module Primes {

  const PRIMES: seq<int> := [
    1, 2, 3, 7, 13, 31, 61, 127, 251, 509, 1021, 2039, 4093, 8191, 16381, 32749, 65521, 131071,
    262139, 524287, 1048573, 2097143, 4194301, 8388593, 16777213, 33554393, 67108859, 134217689,
    268435399]

  ghost predicate Ascending(s: seq<int>) {
    forall i, j :: 0 <= i < j < |s| ==> s[i] < s[j]
  }

  lemma {:induction false} StepwiseAscending(s: seq<int>)
    requires forall i :: 0 <= i < |s| - 1 ==> s[i] < s[i + 1]
    ensures Ascending(s)
  {
    if |s| > 1 {
      var n := |s| - 1;
      var init := s[..n];
      StepwiseAscending(init);
      forall i, j | 0 <= i < j < |s| ensures s[i] < s[j] {
        if j == n {
          assert s[n - 1] < s[n - 1 + 1];
          assert i < n - 1 ==> init[i] < init[n - 1];
        } else {
          assert init[i] < init[j];
        }
      }
    }
  }

  /** The scan from the large end stops at the largest entry that does not exceed `value`. */
  method BiggestAtMost(primes: seq<int>, value: int) returns (prime: int)
    requires Ascending(primes) && |primes| > 0 && primes[0] == 1
    ensures value < 1 ==> prime == 2
    ensures value >= 1 ==> prime in primes && 1 <= prime <= value
    ensures forall p :: p in primes && p <= value ==> p <= prime
  {
    var i := |primes| - 1;
    while i >= 0
      invariant -1 <= i < |primes|
      invariant forall j :: i < j < |primes| ==> primes[j] > value
    {
      if primes[i] <= value {
        return primes[i];
      }
      i := i - 1;
    }
    return 2;
  }

  lemma ThirteenBelow16(p: int)
    ensures 13 in PRIMES
    ensures p in PRIMES && 13 <= p <= 16 ==> p == 13
  {
    assert PRIMES[4] == 13;
  }

  /** `getBiggestPrime`: the bound the hash index relies on. */
  method GetBiggestPrime(value: int) returns (prime: int)
    ensures value < 1 ==> prime == 2
    ensures value >= 1 ==> prime in PRIMES && 1 <= prime <= value
    ensures forall p :: p in PRIMES && p <= value ==> p <= prime
  {
    StepwiseAscending(PRIMES);
    prime := BiggestAtMost(PRIMES, value);
  }
}
