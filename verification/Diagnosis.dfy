/** The statistics of a target's history that a diagnosis is built on, in one pass, one sort and one scan back. */
module Diagnosis {
  import opened Checker

  /** No time of first failure stands for the zero time. */
  datatype DiagContext = DiagContext(
    history: seq<Result>,
    errBuckets: map<string, nat>,
    latencyP50: int,
    latencyMax: int,
    firstDownAt: Option<int>,
    flapCount: nat)

  // ----- what the statistics mean -----

  predicate IsDown(r: Result) {
    r.status == STATUS_DOWN
  }

  /** How many down results have this error type; results without one count for none. */
  function DownWith(h: seq<Result>, errorType: string): (n: nat) {
    if h == [] then 0 else
    var last := h[|h| - 1];
    DownWith(h[..|h| - 1], errorType) + if IsDown(last) && last.errorType == errorType && errorType != "" then 1 else 0
  }

  /** How many down results have an error type at all. */
  function TypedDowns(h: seq<Result>): nat {
    if h == [] then 0 else
    var last := h[|h| - 1];
    TypedDowns(h[..|h| - 1]) + if IsDown(last) && last.errorType != "" then 1 else 0
  }

  function Latencies(h: seq<Result>): (lats: seq<int>)
    ensures forall x :: x in lats ==> x > 0
  {
    if h == [] then [] else
    var last := h[|h| - 1];
    if last.latency > 0 then Latencies(h[..|h| - 1]) + [last.latency] else Latencies(h[..|h| - 1])
  }

  /** Changes of status from one result to the next; a result without a status starts afresh. */
  function Flaps(h: seq<Result>): nat {
    if |h| < 2 then 0 else
    Flaps(h[..|h| - 1]) + if Flips(h[|h| - 2], h[|h| - 1]) then 1 else 0
  }

  predicate Flips(before: Result, after: Result) {
    before.status != "" && after.status != before.status
  }

  /** Where the unbroken run of down results at the end begins. */
  function TrailStart(h: seq<Result>): (k: nat)
    ensures k <= |h|
    ensures forall i :: k <= i < |h| ==> IsDown(h[i])
    ensures k > 0 ==> !IsDown(h[k - 1])
  {
    if h == [] || !IsDown(h[|h| - 1]) then |h| else TrailStart(h[..|h| - 1])
  }

  function FirstDown(h: seq<Result>): Option<int> {
    if TrailStart(h) < |h| then Some(h[TrailStart(h)].timestamp) else None
  }

  // ----- sorting, and the median of what was sorted -----

  ghost predicate Ascending(s: seq<int>) {
    forall i, j :: 0 <= i <= j < |s| ==> s[i] <= s[j]
  }

  function Insert(s: seq<int>, x: int): seq<int> {
    if s == [] || s[|s| - 1] <= x then s + [x] else Insert(s[..|s| - 1], x) + [s[|s| - 1]]
  }

  lemma {:induction false} InsertAdds(s: seq<int>, x: int)
    ensures multiset(Insert(s, x)) == multiset(s) + multiset{x}
    ensures forall y :: y in Insert(s, x) ==> y in s || y == x
  {
    if s != [] && s[|s| - 1] > x {
      InsertAdds(s[..|s| - 1], x);
      assert s == s[..|s| - 1] + [s[|s| - 1]];
    }
  }

  lemma {:induction false} InsertAscends(s: seq<int>, x: int)
    requires Ascending(s)
    ensures Ascending(Insert(s, x))
  {
    if s != [] && s[|s| - 1] > x {
      var front := s[..|s| - 1];
      InsertAscends(front, x);
      InsertAdds(front, x);
      assert forall y :: y in front ==> y <= s[|s| - 1];
      AppendAscends(Insert(front, x), s[|s| - 1]);
    } else {
      AppendAscends(s, x);
    }
  }

  lemma AppendAscends(s: seq<int>, x: int)
    requires Ascending(s) && (s == [] || s[|s| - 1] <= x || forall y :: y in s ==> y <= x)
    ensures Ascending(s + [x])
  {
    assert s != [] ==> s[|s| - 1] in s;
  }

  /** What sorting a slice leaves in it. */
  function Sort(s: seq<int>): seq<int> {
    if s == [] then [] else Insert(Sort(s[..|s| - 1]), s[|s| - 1])
  }

  lemma {:induction false} SortKeeps(s: seq<int>)
    ensures Ascending(Sort(s)) && multiset(Sort(s)) == multiset(s) && |Sort(s)| == |s|
  {
    if s != [] {
      SortKeeps(s[..|s| - 1]);
      InsertAdds(Sort(s[..|s| - 1]), s[|s| - 1]);
      InsertAscends(Sort(s[..|s| - 1]), s[|s| - 1]);
      assert s == s[..|s| - 1] + [s[|s| - 1]];
    }
    assert |multiset(Sort(s))| == |Sort(s)| && |multiset(s)| == |s|;
  }

  function CountLess(s: seq<int>, x: int): (n: nat)
    ensures n <= |s|
  {
    if s == [] then 0 else CountLess(s[..|s| - 1], x) + if s[|s| - 1] < x then 1 else 0
  }

  function CountAtMost(s: seq<int>, x: int): (n: nat)
    ensures n <= |s|
  {
    if s == [] then 0 else CountAtMost(s[..|s| - 1], x) + if s[|s| - 1] <= x then 1 else 0
  }

  /** The entry with index |s| / 2 when sorted: at most that many lie below it, and more do not lie above it. */
  predicate IsMedian(s: seq<int>, x: int) {
    x in s && CountLess(s, x) <= |s| / 2 < CountAtMost(s, x)
  }

  lemma {:induction false} CountsSplit(a: seq<int>, b: seq<int>, x: int)
    ensures CountLess(a + b, x) == CountLess(a, x) + CountLess(b, x)
    ensures CountAtMost(a + b, x) == CountAtMost(a, x) + CountAtMost(b, x)
  {
    if b == [] {
      assert a + b == a;
    } else {
      CountsSplit(a, b[..|b| - 1], x);
      assert (a + b)[..|a + b| - 1] == a + b[..|b| - 1];
    }
  }

  /** Counting with one entry taken out. */
  lemma CountsWithout(b: seq<int>, j: nat, x: int)
    requires j < |b|
    ensures CountLess(b, x) == CountLess(b[..j] + b[j + 1..], x) + if b[j] < x then 1 else 0
    ensures CountAtMost(b, x) == CountAtMost(b[..j] + b[j + 1..], x) + if b[j] <= x then 1 else 0
  {
    CountsInsert(b[..j], b[j], b[j + 1..], x);
    assert b == b[..j] + [b[j]] + b[j + 1..];
  }

  lemma CountsInsert(front: seq<int>, y: int, back: seq<int>, x: int)
    ensures CountLess(front + [y] + back, x) == CountLess(front + back, x) + if y < x then 1 else 0
    ensures CountAtMost(front + [y] + back, x) == CountAtMost(front + back, x) + if y <= x then 1 else 0
  {
    CountsSplit(front, back, x);
    CountsSplit(front + [y], back, x);
    CountsSplit(front, [y], x);
    CountsOne(y, x);
  }

  lemma CountsOne(y: int, x: int)
    ensures CountLess([y], x) == (if y < x then 1 else 0) && CountAtMost([y], x) == (if y <= x then 1 else 0)
  {
    assert [y][..0] == [];
  }

  lemma MultisetWithout(b: seq<int>, j: nat)
    requires j < |b|
    ensures multiset(b[..j] + b[j + 1..]) == multiset(b) - multiset{b[j]}
  {
    assert b == b[..j] + [b[j]] + b[j + 1..];
  }

  /** Counting does not depend on the order. */
  lemma {:induction false} CountsPermute(a: seq<int>, b: seq<int>, x: int)
    requires multiset(a) == multiset(b)
    ensures CountLess(a, x) == CountLess(b, x) && CountAtMost(a, x) == CountAtMost(b, x)
  {
    if a == [] {
      assert |multiset(b)| == 0;
    } else {
      var n := |a| - 1;
      assert a == a[..n] + [a[n]];
      assert a[n] in multiset(b);
      var j :| 0 <= j < |b| && b[j] == a[n];
      MultisetWithout(b, j);
      CountsWithout(b, j, x);
      CountsPermute(a[..n], b[..j] + b[j + 1..], x);
    }
  }

  lemma {:induction false} CountsInOrder(s: seq<int>, k: nat)
    requires Ascending(s) && k < |s|
    ensures CountLess(s, s[k]) <= k < CountAtMost(s, s[k])
  {
    var n := |s| - 1;
    if k < n {
      CountsInOrder(s[..n], k);
    } else {
      AllAtMost(s[..n], s[k]);
    }
  }

  lemma AllAtMost(s: seq<int>, x: int)
    requires forall i :: 0 <= i < |s| ==> s[i] <= x
    ensures CountAtMost(s, x) == |s|
  {
  }

  lemma MiddleIsMedian(lats: seq<int>)
    requires lats != []
    ensures |Sort(lats)| == |lats| && IsMedian(lats, Sort(lats)[|lats| / 2])
  {
    SortKeeps(lats);
    var k := |lats| / 2;
    assert Sort(lats)[k] in multiset(Sort(lats));
    CountsInOrder(Sort(lats), k);
    CountsPermute(Sort(lats), lats, Sort(lats)[k]);
  }

  lemma {:induction false} LessAboveAtMost(s: seq<int>, x: int, y: int)
    requires x < y
    ensures CountAtMost(s, x) <= CountLess(s, y)
  {
    if s != [] {
      LessAboveAtMost(s[..|s| - 1], x, y);
    }
  }

  /** There is one median, and it depends only on which values there are, not on their order. */
  lemma MedianIsUnique(a: seq<int>, b: seq<int>, x: int, y: int)
    requires multiset(a) == multiset(b) && IsMedian(a, x) && IsMedian(b, y)
    ensures x == y
  {
    assert |multiset(a)| == |a| && |multiset(b)| == |b|;
    CountsPermute(a, b, x);
    CountsPermute(a, b, y);
    if x < y {
      LessAboveAtMost(b, x, y);
    } else if y < x {
      LessAboveAtMost(b, y, x);
    }
  }

  // ----- the computation -----

  ghost predicate Buckets(buckets: map<string, nat>, h: seq<Result>) {
    && (forall e :: e in buckets <==> DownWith(h, e) > 0)
    && (forall e :: e in buckets ==> buckets[e] == DownWith(h, e))
  }

  lemma BucketsNext(buckets: map<string, nat>, h: seq<Result>, r: Result)
    requires Buckets(buckets, h)
    ensures Buckets(
      if IsDown(r) && r.errorType != ""
      then buckets[r.errorType := (if r.errorType in buckets then buckets[r.errorType] else 0) + 1] else buckets,
      h + [r])
  {
    assert (h + [r])[..|h|] == h;
  }

  ghost predicate IsMax(max: int, lats: seq<int>) {
    max >= 0 && (forall x :: x in lats ==> x <= max) && (max == 0 || max in lats)
  }

  /** The scan back from the newest result. */
  method ScanBack(hist: seq<Result>) returns (first: Option<int>)
    ensures first == FirstDown(hist)
  {
    first := None;
    var i := |hist| - 1;
    while i >= 0
      invariant -1 <= i < |hist|
      invariant forall k :: i < k < |hist| ==> IsDown(hist[k])
      invariant first == if i + 1 < |hist| then Some(hist[i + 1].timestamp) else None
    {
      if hist[i].status != STATUS_DOWN {
        break;
      }
      first := Some(hist[i].timestamp);
      i := i - 1;
    }
    TrailStartUnique(hist, i + 1);
  }

  method BuildContext(hist: seq<Result>) returns (dc: DiagContext)
    ensures dc.history == hist
    ensures Buckets(dc.errBuckets, hist)
    ensures if Latencies(hist) == [] then dc.latencyP50 == 0 else IsMedian(Latencies(hist), dc.latencyP50)
    ensures IsMax(dc.latencyMax, Latencies(hist))
    ensures dc.firstDownAt == FirstDown(hist)
    ensures dc.flapCount == Flaps(hist)
  {
    var buckets: map<string, nat> := map[];
    var lats: seq<int> := [];
    var max, p50, flaps, prev := 0, 0, 0, "";
    for i := 0 to |hist|
      invariant Buckets(buckets, hist[..i])
      invariant lats == Latencies(hist[..i]) && IsMax(max, lats)
      invariant flaps == Flaps(hist[..i]) && prev == if i == 0 then "" else hist[i - 1].status
    {
      var r := hist[i];
      assert hist[..i + 1] == hist[..i] + [r];
      BucketsNext(buckets, hist[..i], r);
      if r.status == STATUS_DOWN && r.errorType != "" {
        buckets := buckets[r.errorType := (if r.errorType in buckets then buckets[r.errorType] else 0) + 1];
      }
      if r.latency > 0 {
        lats := lats + [r.latency];
        if r.latency > max {
          max := r.latency;
        }
      }
      if prev != "" && r.status != prev {
        flaps := flaps + 1;
      }
      prev := r.status;
    }
    assert hist[..|hist|] == hist;
    if |lats| > 0 {
      MiddleIsMedian(lats);
      lats := Sort(lats);
      p50 := lats[|lats| / 2];
    }
    var first := ScanBack(hist);
    dc := DiagContext(hist, buckets, p50, max, first, flaps);
  }

  /** The start of the trailing run is determined by its being all down and not extending further back. */
  lemma TrailStartUnique(h: seq<Result>, k: nat)
    requires k <= |h| && (forall i :: k <= i < |h| ==> IsDown(h[i])) && (k > 0 ==> !IsDown(h[k - 1]))
    ensures TrailStart(h) == k
  {
  }

  // ----- buckets -----

  function SumBuckets(h: seq<Result>, types: seq<string>): nat {
    if types == [] then 0 else SumBuckets(h, types[..|types| - 1]) + DownWith(h, types[|types| - 1])
  }

  ghost predicate NoDuplicates(types: seq<string>) {
    forall i, j :: 0 <= i < j < |types| ==> types[i] != types[j]
  }

  lemma {:induction false} SumGrows(h: seq<Result>, r: Result, types: seq<string>)
    requires NoDuplicates(types)
    ensures SumBuckets(h + [r], types)
      == SumBuckets(h, types) + if IsDown(r) && r.errorType != "" && r.errorType in types then 1 else 0
  {
    if types != [] {
      SumGrows(h, r, types[..|types| - 1]);
      assert (h + [r])[..|h|] == h;
      assert types == types[..|types| - 1] + [types[|types| - 1]];
    }
  }

  /** Over any list of the error types without repetition, the buckets sum to the down results that have one. */
  lemma {:induction false} BucketsSum(h: seq<Result>, types: seq<string>)
    requires NoDuplicates(types) && forall e :: DownWith(h, e) > 0 ==> e in types
    ensures SumBuckets(h, types) == TypedDowns(h)
  {
    if h == [] {
      EmptySums(types);
    } else {
      var front, last := h[..|h| - 1], h[|h| - 1];
      BucketsSum(front, types);
      assert h == front + [last];
      assert IsDown(last) && last.errorType != "" ==> DownWith(h, last.errorType) > 0;
      SumGrows(front, last, types);
    }
  }

  lemma EmptySums(types: seq<string>)
    ensures SumBuckets([], types) == 0
  {
  }

  // ----- the direction of the history -----

  function Reverse(h: seq<Result>): (r: seq<Result>)
    ensures |r| == |h| && forall i :: 0 <= i < |h| ==> r[i] == h[|h| - 1 - i]
  {
    seq(|h|, i requires 0 <= i < |h| => h[|h| - 1 - i])
  }

  lemma {:induction false} FlapsFront(x: Result, h: seq<Result>)
    ensures Flaps([x] + h) == Flaps(h) + if h != [] && Flips(x, h[0]) then 1 else 0
  {
    if |h| >= 2 {
      FlapsFront(x, h[..|h| - 1]);
      assert ([x] + h)[..|h|] == [x] + h[..|h| - 1];
    } else if |h| == 1 {
      assert ([x] + h)[..1] == [x];
    }
  }

  function HasStatus(r: Result): nat {
    if r.status != "" then 1 else 0
  }

  /** Read backwards, the flap count changes by whether the two ends have a status. */
  lemma {:induction false} FlapsReversed(h: seq<Result>)
    ensures h != [] ==> Flaps(Reverse(h)) + HasStatus(h[0]) == Flaps(h) + HasStatus(h[|h| - 1])
  {
    if |h| >= 2 {
      var front, last := h[..|h| - 1], h[|h| - 1];
      FlapsReversed(front);
      assert Reverse(h) == [last] + Reverse(front);
      FlapsFront(last, Reverse(front));
    }
  }

  /** The flap count is the same in both directions exactly when both ends have a status, or neither. */
  lemma FlapsDirection(h: seq<Result>)
    requires h != []
    ensures Flaps(Reverse(h)) == Flaps(h) <==> HasStatus(h[0]) == HasStatus(h[|h| - 1])
  {
    FlapsReversed(h);
  }

  lemma {:induction false} BucketsReversed(h: seq<Result>, e: string)
    ensures DownWith(Reverse(h), e) == DownWith(h, e)
  {
    if h != [] {
      var front, last := h[..|h| - 1], h[|h| - 1];
      BucketsReversed(front, e);
      assert Reverse(h) == [last] + Reverse(front);
      DownWithFront(last, Reverse(front), e);
    }
  }

  lemma {:induction false} DownWithFront(x: Result, h: seq<Result>, e: string)
    ensures DownWith([x] + h, e) == DownWith([x], e) + DownWith(h, e)
  {
    if h == [] {
      assert [x] + h == [x];
    } else {
      DownWithFront(x, h[..|h| - 1], e);
      assert ([x] + h)[..|h|] == [x] + h[..|h| - 1];
    }
  }

  /** Oldest first; several results may carry the same second. */
  ghost predicate OldestFirst(h: seq<Result>) {
    forall i, j :: 0 <= i < j < |h| ==> h[i].timestamp <= h[j].timestamp
  }

  /** Oldest first, the reported time is the earliest of the maximal run of down results that lasts until now. */
  lemma FirstDownIsEarliest(h: seq<Result>)
    requires OldestFirst(h)
    ensures var k := TrailStart(h);
            && (FirstDown(h).Some? <==> h != [] && IsDown(h[|h| - 1]))
            && (FirstDown(h).Some? ==>
                  && k < |h| && FirstDown(h).value == h[k].timestamp
                  && (forall i :: k <= i < |h| ==> IsDown(h[i]) && FirstDown(h).value <= h[i].timestamp)
                  && (k == 0 || !IsDown(h[k - 1])))
  {
    var k := TrailStart(h);
    if k < |h| {
      assert IsDown(h[|h| - 1]);
      forall i | k <= i < |h|
        ensures h[k].timestamp <= h[i].timestamp
      {
        assert i == k || h[k].timestamp <= h[i].timestamp;
      }
    }
  }

  /** How many results the unbroken run of down results at the beginning has. */
  function LeadLength(h: seq<Result>): (k: nat)
    ensures k <= |h|
    ensures forall i :: 0 <= i < k ==> IsDown(h[i])
    ensures k < |h| ==> !IsDown(h[k])
  {
    if h == [] || !IsDown(h[0]) then 0 else LeadLength(h[1..]) + 1
  }

  /** Newest first, what is reported is the end of the oldest outage instead of the start of the latest. */
  lemma FirstDownReversed(h: seq<Result>)
    ensures FirstDown(Reverse(h)) == if LeadLength(h) > 0 then Some(h[LeadLength(h) - 1].timestamp) else None
  {
    TrailStartUnique(Reverse(h), |h| - LeadLength(h));
  }

  /** All results from one position to the other carry the same second. */
  ghost predicate OneMoment(h: seq<Result>, a: nat, b: nat)
    requires a < |h| && b < |h|
  {
    forall i :: a <= i <= b || b <= i <= a ==> h[i].timestamp == h[a].timestamp
  }

  lemma OneMomentByEnds(h: seq<Result>, a: nat, b: nat)
    requires OldestFirst(h) && a < |h| && b < |h|
    ensures OneMoment(h, a, b) <==> h[a].timestamp == h[b].timestamp
  {
    if h[a].timestamp == h[b].timestamp {
      forall i | a <= i <= b || b <= i <= a
        ensures h[i].timestamp == h[a].timestamp
      {
        assert a < i ==> h[a].timestamp <= h[i].timestamp;
        assert i < b ==> h[i].timestamp <= h[b].timestamp;
        assert b < i ==> h[b].timestamp <= h[i].timestamp;
        assert i < a ==> h[i].timestamp <= h[a].timestamp;
      }
    }
  }

  /**
   Newest first, as the store supplies it, the reported time is right exactly when there is no outage at either end, or
   there is one at both and all that was recorded between the oldest outage's end and the latest one's start, in
   whichever order these come, carries one second.
   */
  lemma FirstDownDirection(h: seq<Result>)
    requires OldestFirst(h)
    ensures FirstDown(Reverse(h)) == FirstDown(h)
      <==> || h == []
           || (!IsDown(h[0]) && !IsDown(h[|h| - 1]))
           || (IsDown(h[0]) && IsDown(h[|h| - 1]) && OneMoment(h, LeadLength(h) - 1, TrailStart(h)))
  {
    FirstDownReversed(h);
    if h != [] && IsDown(h[0]) && IsDown(h[|h| - 1]) {
      OneMomentByEnds(h, LeadLength(h) - 1, TrailStart(h));
    }
  }

  /** With no two results in one second it is right only for at most one result, or with no outage at either end. */
  lemma FirstDownDistinctTimes(h: seq<Result>)
    requires OldestFirst(h) && forall i, j :: 0 <= i < j < |h| ==> h[i].timestamp != h[j].timestamp
    ensures FirstDown(Reverse(h)) == FirstDown(h) <==> |h| <= 1 || (!IsDown(h[0]) && !IsDown(h[|h| - 1]))
  {
    FirstDownDirection(h);
    if |h| >= 2 && IsDown(h[0]) && IsDown(h[|h| - 1]) {
      EndsApart(h);
      OneMomentByEnds(h, LeadLength(h) - 1, TrailStart(h));
    }
  }

  /** With an outage at both ends, the end of the oldest and the start of the latest are different results. */
  lemma EndsApart(h: seq<Result>)
    requires |h| >= 2 && IsDown(h[0]) && IsDown(h[|h| - 1])
    ensures LeadLength(h) - 1 != TrailStart(h)
  {
    assert LeadLength(h) == 1 ==> !IsDown(h[1]);
  }

  // ----- the statistics, counted by position -----

  function DownAt(h: seq<Result>, errorType: string): set<int> {
    set i | 0 <= i < |h| && h[i].status == "down" && h[i].errorType == errorType
  }

  /** A bucket holds as many as there are down results with its error type, and there is none for no error type. */
  lemma {:induction false} BucketIsCount(h: seq<Result>, errorType: string)
    ensures DownWith(h, errorType) == if errorType == "" then 0 else |DownAt(h, errorType)|
  {
    if h == [] {
      assert DownAt(h, errorType) == {};
    } else {
      var n := |h| - 1;
      BucketIsCount(h[..n], errorType);
      if h[n].status == "down" && h[n].errorType == errorType {
        assert DownAt(h, errorType) == DownAt(h[..n], errorType) + {n};
      } else {
        assert DownAt(h, errorType) == DownAt(h[..n], errorType);
      }
    }
  }

  predicate ChangesAt(h: seq<Result>, i: int) {
    0 < i < |h| && h[i - 1].status != "" && h[i].status != h[i - 1].status
  }

  function FlapAt(h: seq<Result>): set<int> {
    set i | 0 < i < |h| && ChangesAt(h, i)
  }

  /** The flap count is the number of results whose status differs from a status just before. */
  lemma {:induction false} FlapsAreChanges(h: seq<Result>)
    ensures Flaps(h) == |FlapAt(h)|
  {
    if |h| < 2 {
      assert FlapAt(h) == {};
    } else {
      FlapsAreChanges(h[..|h| - 1]);
      FlapAtGrows(h);
    }
  }

  lemma FlapAtGrows(h: seq<Result>)
    requires |h| >= 2
    ensures var n := |h| - 1;
            FlapAt(h) == FlapAt(h[..n]) + (if ChangesAt(h, n) then {n} else {})
  {
    var n := |h| - 1;
    assert forall i :: 0 < i < n ==> (ChangesAt(h, i) <==> ChangesAt(h[..n], i));
  }

  /** Results that go up and down in turn flap every time. */
  lemma {:induction false} AlternatingFlaps(h: seq<Result>)
    requires h != [] && forall i :: 0 <= i < |h| ==> h[i].status == if i % 2 == 0 then "up" else "down"
    ensures Flaps(h) == |h| - 1
  {
    if |h| >= 2 {
      AlternatingFlaps(h[..|h| - 1]);
    }
  }

  function PositiveAt(h: seq<Result>): set<int> {
    set i | 0 <= i < |h| && h[i].latency > 0
  }

  /** As many latencies are sorted as are positive. */
  lemma {:induction false} LatenciesAreCounted(h: seq<Result>)
    ensures |Latencies(h)| == |PositiveAt(h)|
  {
    if h == [] {
      assert PositiveAt(h) == {};
    } else {
      var n := |h| - 1;
      LatenciesAreCounted(h[..n]);
      if h[n].latency > 0 {
        assert PositiveAt(h) == PositiveAt(h[..n]) + {n};
      } else {
        assert PositiveAt(h) == PositiveAt(h[..n]);
      }
    }
  }

  /** Every positive latency is among those that are sorted, whatever the status, and nothing else. */
  lemma {:induction false} LatenciesAreAll(h: seq<Result>)
    ensures forall i :: 0 <= i < |h| && h[i].latency > 0 ==> h[i].latency in Latencies(h)
    ensures forall x :: x in Latencies(h) ==> exists i :: 0 <= i < |h| && h[i].latency == x
  {
    if h != [] {
      var n := |h| - 1;
      LatenciesAreAll(h[..n]);
      forall i | 0 <= i < |h| && h[i].latency > 0
        ensures h[i].latency in Latencies(h)
      {
        if i < n {
          assert h[..n][i] == h[i];
        }
      }
      forall x | x in Latencies(h)
        ensures exists i :: 0 <= i < |h| && h[i].latency == x
      {
        LatencyIsShown(h, x);
      }
    }
  }

  lemma {:induction false} LatencyIsShown(h: seq<Result>, x: int)
    requires x in Latencies(h)
    ensures exists i :: 0 <= i < |h| && h[i].latency == x
  {
    var n := |h| - 1;
    if x in Latencies(h[..n]) {
      LatencyIsShown(h[..n], x);
      var i :| 0 <= i < n && h[..n][i].latency == x;
      assert h[i].latency == x;
    } else {
      assert h[n].latency == x;
    }
  }

  /** The maximum bounds every latency, and is one of them unless none is positive. */
  lemma MaxBoundsAll(h: seq<Result>, max: int)
    requires IsMax(max, Latencies(h))
    ensures forall i :: 0 <= i < |h| ==> h[i].latency <= max
    ensures max == 0 || exists i :: 0 <= i < |h| && h[i].latency == max
  {
    LatenciesAreAll(h);
    forall i | 0 <= i < |h|
      ensures h[i].latency <= max
    {
      assert h[i].latency > 0 ==> h[i].latency in Latencies(h);
    }
  }

  function Below(s: seq<int>, x: int): set<int> {
    set i | 0 <= i < |s| && s[i] < x
  }

  function NotAbove(s: seq<int>, x: int): set<int> {
    set i | 0 <= i < |s| && s[i] <= x
  }

  lemma {:induction false} BelowIsCounted(s: seq<int>, x: int)
    ensures CountLess(s, x) == |Below(s, x)|
  {
    if s == [] {
      assert Below(s, x) == {};
    } else {
      var n := |s| - 1;
      BelowIsCounted(s[..n], x);
      if s[n] < x {
        assert Below(s, x) == Below(s[..n], x) + {n};
      } else {
        assert Below(s, x) == Below(s[..n], x);
      }
    }
  }

  lemma {:induction false} NotAboveIsCounted(s: seq<int>, x: int)
    ensures CountAtMost(s, x) == |NotAbove(s, x)|
  {
    if s == [] {
      assert NotAbove(s, x) == {};
    } else {
      var n := |s| - 1;
      NotAboveIsCounted(s[..n], x);
      if s[n] <= x {
        assert NotAbove(s, x) == NotAbove(s[..n], x) + {n};
      } else {
        assert NotAbove(s, x) == NotAbove(s[..n], x);
      }
    }
  }

  /** The median is one of the values, with at most half of them below it and more than half not above it. */
  lemma MedianHalves(s: seq<int>, x: int)
    requires IsMedian(s, x)
    ensures x in s && |Below(s, x)| <= |s| / 2 < |NotAbove(s, x)|
  {
    BelowIsCounted(s, x);
    NotAboveIsCounted(s, x);
  }
}
