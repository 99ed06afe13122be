/** The bounded buffer of recent results that the alert engine keeps for every target. */
module WindowBuffer {
  import opened Checker
  import opened History

  /** What one more result does to the newest `cap` results of a target. */
  lemma BucketNext(cap: nat, pushed: seq<Result>, r: Result, target: string)
    ensures var before := LastN(cap, ForTarget(pushed, target));
            LastN(cap, ForTarget(pushed + [r], target))
            == if r.target == target then LastN(cap, before + [r]) else before
  {
    ForTargetSnoc(pushed, r, target);
    LastNSnoc(cap, ForTarget(pushed, target), r);
  }

  class Window {
    const cap: nat
    var buckets: map<string, seq<Result>>
    /** Every result ever pushed, in order; the buffer itself forgets. */
    ghost var pushed: seq<Result>

    /** Each bucket holds exactly the newest `cap` results of its own target. */
    ghost predicate Valid()
      reads this
    {
      forall target: string :: Bucket(target) == LastN(cap, ForTarget(pushed, target))
    }

    function Bucket(target: string): seq<Result>
      reads this
    {
      if target in buckets then buckets[target] else []
    }

    constructor (cap: nat)
      ensures Valid() && this.cap == cap && pushed == []
    {
      this.cap := cap;
      buckets := map[];
      pushed := [];
    }

    method Push(r: Result)
      requires Valid()
      modifies this
      ensures Valid() && pushed == old(pushed) + [r]
    {
      var b := if r.target in buckets then buckets[r.target] else [];
      b := b + [r];
      if |b| > cap {
        b := b[|b| - cap..];
      }
      assert b == LastN(cap, old(Bucket(r.target)) + [r]);
      buckets := buckets[r.target := b];
      pushed := pushed + [r];
      forall target: string
        ensures Bucket(target) == LastN(cap, ForTarget(pushed, target))
      {
        BucketNext(cap, old(pushed), r, target);
        assert old(Bucket(target)) == LastN(cap, ForTarget(old(pushed), target));
      }
    }

    /** A copy in fresh storage, so that no caller can reach the buffer through it. */
    method Snapshot(target: string) returns (out: array<Result>)
      requires Valid()
      ensures fresh(out)
      ensures out[..] == LastN(cap, ForTarget(pushed, target))
    {
      var b := Bucket(target);
      out := new Result[|b|](i requires 0 <= i < |b| => b[i]);
      assert out[..] == b;
    }
  }

  /** Whatever a caller writes into one snapshot, the next snapshot still shows what was pushed. */
  method WriteThenSnapshot(w: Window, target: string, i: nat, x: Result)
    returns (first: array<Result>, second: array<Result>)
    requires w.Valid()
    ensures fresh(first) && fresh(second) && first != second
    ensures i < first.Length ==> first[i] == x
    ensures w.Valid() && w.pushed == old(w.pushed)
    ensures second[..] == LastN(w.cap, ForTarget(w.pushed, target))
  {
    first := w.Snapshot(target);
    if i < first.Length {
      first[i] := x;
    }
    second := w.Snapshot(target);
  }
}
