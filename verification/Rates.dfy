/** From "every B-th next one is at least D later" to "at most B * (L / D + 1) in any interval of length L". */
module Rates {

  ghost predicate Sorted(times: seq<int>) {
    forall i, j :: 0 <= i <= j < |times| ==> times[i] <= times[j]
  }

  /** Any entry and the b-th one after it are at least d apart. */
  ghost predicate Strided(times: seq<int>, b: nat, d: int) {
    forall i :: 0 <= i < |times| - b ==> times[i + b] - times[i] >= d
  }

  /** How many entries lie in the closed interval from lo to hi. */
  function CountIn(times: seq<int>, lo: int, hi: int): (n: nat)
    ensures n <= |times|
  {
    if times == [] then 0 else
    CountIn(times[..|times| - 1], lo, hi) + if lo <= times[|times| - 1] <= hi then 1 else 0
  }

  lemma NoneInside(times: seq<int>, lo: int, hi: int)
    requires forall i :: 0 <= i < |times| ==> times[i] < lo
    ensures CountIn(times, lo, hi) == 0
  {
  }

  /** In a sorted sequence the entries of an interval are next to each other. */
  lemma {:induction false} CountIsBlock(times: seq<int>, lo: int, hi: int) returns (from: nat, to: nat)
    requires Sorted(times)
    ensures from <= to <= |times| && CountIn(times, lo, hi) == to - from
    ensures forall i :: from <= i < to ==> lo <= times[i] <= hi
    ensures forall i :: to <= i < |times| ==> times[i] > hi
    ensures forall i :: 0 <= i < from ==> times[i] < lo
  {
    if times == [] {
      from, to := 0, 0;
    } else {
      var n := |times| - 1;
      from, to := CountIsBlock(times[..n], lo, hi);
      if times[n] < lo {
        NoneInside(times, lo, hi);
        from, to := n + 1, n + 1;
      } else if times[n] <= hi {
        assert to == n;
        to := n + 1;
      }
    }
  }

  lemma {:induction false} Strides(times: seq<int>, b: nat, d: int, i: nat, k: nat)
    requires Strided(times, b, d) && i + b * k < |times|
    ensures times[i + b * k] - times[i] >= k * d
    decreases k
  {
    if k > 0 {
      assert b * k == b * (k - 1) + b;
      Strides(times, b, d, i, k - 1);
      assert times[i + b * (k - 1) + b] - times[i + b * (k - 1)] >= d;
    }
  }

  lemma PastTheEnd(length: nat, d: nat)
    requires d > 0
    ensures (length / d + 1) * d > length
  {
    assert length == d * (length / d) + length % d;
    assert (length / d + 1) * d == d * (length / d) + d;
  }

  /** k strides do not fit into an interval that is shorter than k * d. */
  lemma BlockIsShort(times: seq<int>, b: nat, d: int, lo: int, length: nat, from: nat, to: nat, k: nat)
    requires Strided(times, b, d) && from <= to <= |times| && k * d > length
    requires forall i :: from <= i < to ==> lo <= times[i] <= lo + length
    ensures to - from <= b * k
  {
    if to - from > b * k {
      Strides(times, b, d, from, k);
    }
  }

  /** The closed interval from lo to lo + length holds at most b * (length / d + 1) entries. */
  lemma RateBound(times: seq<int>, b: nat, d: int, lo: int, length: nat)
    requires Sorted(times) && b > 0 && d > 0 && Strided(times, b, d)
    ensures CountIn(times, lo, lo + length) <= b * (length / d + 1)
  {
    var from, to := CountIsBlock(times, lo, lo + length);
    var k := length / d + 1;
    PastTheEnd(length, d);
    BlockIsShort(times, b, d, lo, length, from, to, k);
  }
}
