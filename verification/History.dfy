/** Sequences of probe results: one target's share of a stream, and its most recent entries. */
module History {
  import opened Checker

  /** The results of one target, in the order in which they arrived. */
  function ForTarget(h: seq<Result>, target: string): (r: seq<Result>)
    ensures |r| <= |h|
    ensures forall x :: x in r ==> x.target == target && x in h
  {
    if h == [] then [] else
    var front := ForTarget(h[..|h| - 1], target);
    if h[|h| - 1].target == target then front + [h[|h| - 1]] else front
  }

  /** The last n entries, or everything when there are fewer. */
  function LastN<T>(n: nat, s: seq<T>): (r: seq<T>)
    ensures |r| <= n && |r| <= |s|
  {
    if |s| <= n then s else s[|s| - n..]
  }

  lemma ForTargetSnoc(h: seq<Result>, x: Result, target: string)
    ensures ForTarget(h + [x], target)
      == if x.target == target then ForTarget(h, target) + [x] else ForTarget(h, target)
  {
    assert (h + [x])[..|h|] == h;
  }

  /** Trimming after every append loses nothing that trimming once at the end would keep. */
  lemma LastNSnoc<T>(n: nat, s: seq<T>, x: T)
    ensures LastN(n, LastN(n, s) + [x]) == LastN(n, s + [x])
  {
    if |s| <= n {
    } else {
      assert LastN(n, s) + [x] == (s + [x])[|s| - n..];
    }
  }

  /** The positions at which a target's results stand. */
  function Positions(h: seq<Result>, target: string): set<int> {
    set i | 0 <= i < |h| && h[i].target == target
  }

  lemma PositionsGrow(h: seq<Result>, r: Result, target: string)
    ensures |Positions(h + [r], target)| == |Positions(h, target)| + if r.target == target then 1 else 0
  {
    if r.target == target {
      assert Positions(h + [r], target) == Positions(h, target) + {|h|};
    } else {
      assert Positions(h + [r], target) == Positions(h, target);
    }
  }

  /** One target's share has as many entries as the stream has results of it. */
  lemma {:induction false} ForTargetCounts(h: seq<Result>, target: string)
    ensures |ForTarget(h, target)| == |Positions(h, target)|
  {
    if h == [] {
      assert Positions(h, target) == {};
    } else {
      var front, last := h[..|h| - 1], h[|h| - 1];
      ForTargetCounts(front, target);
      PositionsGrow(front, last, target);
      assert front + [last] == h;
    }
  }

  /** And each of them stands behind those that came before it. */
  lemma {:induction false} ForTargetAt(h: seq<Result>, target: string, i: nat)
    requires i < |h| && h[i].target == target
    ensures var k := |ForTarget(h[..i], target)|; k < |ForTarget(h, target)| && ForTarget(h, target)[k] == h[i]
  {
    var n := |h| - 1;
    if i < n {
      ForTargetAt(h[..n], target, i);
      assert h[..n][..i] == h[..i];
    }
  }

  /** The newest entries, in order; as many as there are, up to n. */
  lemma LastNIsNewest<T>(n: nat, s: seq<T>)
    ensures |LastN(n, s)| == if |s| <= n then |s| else n
    ensures forall k :: 0 <= k < |LastN(n, s)| ==> LastN(n, s)[k] == s[|s| - |LastN(n, s)| + k]
  {
  }
}
