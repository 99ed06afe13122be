/**
 Deciding on the bounded window instead of on the whole stream: when the two agree, and when they cannot.
 A consecutive rule agrees exactly up to the window's capacity; an error-rate rule agrees exactly as long as
 the capacity covers every result inside its time window.
 */
module WindowRefinement {
  import opened Checker
  import opened History
  import opened Rules

  const WINDOW_CAP: nat := 50

  predicate IsConsecutive(rule: Rule) {
    rule.kind == CONSECUTIVE_STATUS || rule.kind == CONSECUTIVE_ERROR_TYPE
  }

  /** Oldest first. */
  ghost predicate TimeOrdered(h: seq<Result>) {
    forall i, j :: 0 <= i <= j < |h| ==> h[i].timestamp <= h[j].timestamp
  }

  function Min(a: int, b: int): int {
    if a <= b then a else b
  }

  /** The window's streak is the full streak, cut off at the window's capacity. */
  lemma {:induction false} StreakOnWindow(wanted: Wanted, h: seq<Result>, cap: nat)
    ensures Streak(wanted, LastN(cap, h)) == Min(cap, Streak(wanted, h))
  {
    if |h| > cap > 0 {
      StreakOnWindow(wanted, h[..|h| - 1], cap - 1);
      StreakEnters(wanted, h, cap);
    } else if cap == 0 {
      assert LastN(cap, h) == [];
    }
  }

  lemma StreakEnters(wanted: Wanted, h: seq<Result>, cap: nat)
    requires |h| > cap > 0
    ensures var front, w := h[..|h| - 1], LastN(cap - 1, h[..|h| - 1]);
            if Continues(wanted, h[|h| - 1])
            then Streak(wanted, h) == Streak(wanted, front) + 1
                 && Streak(wanted, LastN(cap, h)) == Streak(wanted, w) + 1
            else Streak(wanted, h) == Streak(wanted, LastN(cap, h)) == 0
  {
    var front, last := h[..|h| - 1], h[|h| - 1];
    assert h == front + [last] && LastN(cap, h) == LastN(cap - 1, front) + [last];
    StreakSnoc(wanted, front, last);
    StreakSnoc(wanted, LastN(cap - 1, front), last);
  }

  lemma StreakSnoc(wanted: Wanted, h: seq<Result>, r: Result)
    ensures Streak(wanted, h + [r]) == if Continues(wanted, r) then Streak(wanted, h) + 1 else 0
  {
    assert (h + [r])[..|h|] == h;
  }

  /** A result since the cutoff enters the window at its new end and the cut moves on by one. */
  lemma WindowSnoc(h: seq<Result>, cap: nat, cutoff: int)
    requires |h| > cap > 0 && h[|h| - 1].timestamp >= cutoff
    ensures var front, w := h[..|h| - 1], LastN(cap - 1, h[..|h| - 1]);
            var more := if h[|h| - 1].status != STATUS_UP then 1 else 0;
            && CountSince(h, cutoff) == CountSince(front, cutoff) + 1
            && CountSince(LastN(cap, h), cutoff) == CountSince(w, cutoff) + 1
            && ErrorsSince(h, cutoff) == ErrorsSince(front, cutoff) + more
            && ErrorsSince(LastN(cap, h), cutoff) == ErrorsSince(w, cutoff) + more
  {
    var front, last := h[..|h| - 1], h[|h| - 1];
    assert h == front + [last] && LastN(cap, h) == LastN(cap - 1, front) + [last];
    CountsSnoc(front, last, cutoff);
    CountsSnoc(LastN(cap - 1, front), last, cutoff);
  }

  /** On time-ordered results the window sees every result since the cutoff, up to its capacity. */
  lemma {:induction false} CountOnWindow(h: seq<Result>, cap: nat, cutoff: int)
    requires TimeOrdered(h)
    ensures CountSince(LastN(cap, h), cutoff) == Min(cap, CountSince(h, cutoff))
    ensures CountSince(h, cutoff) <= cap ==> ErrorsSince(LastN(cap, h), cutoff) == ErrorsSince(h, cutoff)
  {
    if |h| <= cap {
      assert LastN(cap, h) == h;
    } else if h[|h| - 1].timestamp < cutoff {
      AllBefore(h, cutoff);
      AllBefore(LastN(cap, h), cutoff);
    } else if cap > 0 {
      WindowSnoc(h, cap, cutoff);
      CountOnWindow(h[..|h| - 1], cap - 1, cutoff);
    } else {
      assert LastN(cap, h) == [];
    }
  }

  lemma CountsSnoc(h: seq<Result>, r: Result, cutoff: int)
    requires r.timestamp >= cutoff
    ensures CountSince(h + [r], cutoff) == CountSince(h, cutoff) + 1
    ensures ErrorsSince(h + [r], cutoff) == ErrorsSince(h, cutoff) + if r.status != STATUS_UP then 1 else 0
  {
    assert (h + [r])[..|h|] == h;
  }

  lemma AllBefore(h: seq<Result>, cutoff: int)
    requires forall i :: 0 <= i < |h| ==> h[i].timestamp < cutoff
    ensures CountSince(h, cutoff) == 0
  {
  }

  /** A consecutive rule decided on the window hits exactly when its threshold fits and the full streak reaches it. */
  lemma ConsecutiveOnWindow(rule: Rule, h: seq<Result>, now: int)
    requires IsConsecutive(rule)
    ensures Matches(rule, LastN(WINDOW_CAP, h), now) <==> rule.threshold <= WINDOW_CAP && Matches(rule, h, now)
  {
    StreakOnWindow(Status(rule.status), h, WINDOW_CAP);
    StreakOnWindow(ErrorType(rule.errorType), h, WINDOW_CAP);
  }

  /** The window decides a consecutive rule as documented on every stream exactly when its threshold is at most 50. */
  lemma ConsecutiveExact(rule: Rule)
    requires IsConsecutive(rule)
    ensures (forall h: seq<Result>, now: int :: Matches(rule, LastN(WINDOW_CAP, h), now) == Matches(rule, h, now))
      <==> rule.threshold <= WINDOW_CAP
  {
    forall h: seq<Result>, now: int
      ensures Matches(rule, LastN(WINDOW_CAP, h), now) <==> rule.threshold <= WINDOW_CAP && Matches(rule, h, now)
    {
      ConsecutiveOnWindow(rule, h, now);
    }
    if rule.threshold > WINDOW_CAP {
      var h := seq(rule.threshold, _ => Result.Result("", rule.status, 0, rule.errorType, 0));
      StreakReaches(Status(rule.status), h, rule.threshold);
      StreakReaches(ErrorType(rule.errorType), h, rule.threshold);
      assert Matches(rule, h, 0) && !Matches(rule, LastN(WINDOW_CAP, h), 0);
    }
  }

  /** An error-rate rule decided on the window agrees with the full history when the window covers the period. */
  lemma RateOnWindow(rule: Rule, h: seq<Result>, now: int)
    requires TimeOrdered(h)
    requires CountSince(h, now - rule.window) <= WINDOW_CAP
    ensures RateReached(rule, LastN(WINDOW_CAP, h), now) == RateReached(rule, h, now)
  {
    CountOnWindow(h, WINDOW_CAP, now - rule.window);
  }

  /** Results at a fixed distance in time. */
  ghost predicate Evenly(h: seq<Result>, gap: nat) {
    forall i :: 0 <= i < |h| ==> h[i].timestamp == h[0].timestamp + i * gap
  }

  lemma EvenlyIsOrdered(h: seq<Result>, gap: nat)
    requires Evenly(h, gap)
    ensures TimeOrdered(h)
  {
    forall i, j | 0 <= i <= j < |h|
      ensures h[i].timestamp <= h[j].timestamp
    {
      assert i * gap + (j - i) * gap == j * gap;
    }
  }

  /** `n` results from time 0 on, of which those from `from` to before `to` are "down" and the others "up". */
  function Series(n: nat, from: nat, to: nat, gap: nat): (h: seq<Result>)
    ensures |h| == n && forall i :: 0 <= i < n ==> h[i].timestamp == i * gap >= 0
  {
    seq(n, i => Result.Result("", if from <= i < to then STATUS_DOWN else STATUS_UP, 0, "", i * gap))
  }

  lemma {:induction false} SeriesCounts(h: seq<Result>, from: nat, to: nat, at: int)
    requires from <= to
    requires forall i :: 0 <= i < |h| ==> h[i].timestamp >= at && (h[i].status != STATUS_UP <==> from <= i < to)
    ensures CountSince(h, at) == |h|
    ensures ErrorsSince(h, at) == if |h| <= from then 0 else Min(|h|, to) - from
    decreases |h|
  {
    if h != [] {
      SeriesCounts(h[..|h| - 1], from, to, at);
    }
  }

  /** Both decisions about a series inside the time window, as arithmetic. */
  lemma SeriesDecisions(rule: Rule, n: nat, from: nat, to: nat, gap: nat)
    requires 0 < rule.threshold && 0 < rule.window
    requires n > WINDOW_CAP && from <= to <= n
    ensures var h, now := Series(n, from, to, gap), rule.window;
            && CountSince(h, now - rule.window) == n
            && (RateReached(rule, h, now) <==> (to - from) * 100 >= rule.threshold * n)
            && (RateReached(rule, LastN(WINDOW_CAP, h), now)
                <==> (if to <= n - WINDOW_CAP then 0
                      else if from <= n - WINDOW_CAP then to - (n - WINDOW_CAP) else to - from) * 100
                     >= rule.threshold * WINDOW_CAP)
  {
    var h := Series(n, from, to, gap);
    SeriesCounts(h, from, to, 0);
    var w := LastN(WINDOW_CAP, h);
    var cut := n - WINDOW_CAP;
    var from' := if from <= cut then 0 else from - cut;
    var to' := if to <= cut then 0 else to - cut;
    assert forall i :: 0 <= i < |w| ==> w[i] == h[i + cut];
    SeriesCounts(w, from', to', 0);
  }

  /** Enough errors for the window alone, too few for the whole period. */
  predicate HidesHealth(t: nat, n: nat) {
    t % 2 == 0 || t > 50 || (t > 25 && n > 51)
  }

  lemma HealthArithmetic(t: nat, n: nat)
    requires 0 < t <= 100 && n > WINDOW_CAP && HidesHealth(t, n)
    ensures (t + 1) / 2 * 100 >= t * WINDOW_CAP
    ensures (t + 1) / 2 * 100 < t * n
  {
    if t % 2 == 1 && t <= 50 {
      assert t * n >= t * 52;
    } else {
      assert t * n >= t * 51;
    }
  }

  lemma ErrorArithmetic(t: nat, n: nat)
    requires 0 < t <= 100 && n > WINDOW_CAP && !HidesHealth(t, n)
    ensures (t - 1) / 2 * 100 < t * WINDOW_CAP
    ensures (n - WINDOW_CAP + (t - 1) / 2) * 100 >= t * n
  {
    assert t * n + (100 - t) * n == 100 * n;
    if n > 51 {
      assert (100 - t) * n >= (100 - t) * 52;
    } else {
      assert (100 - t) * n == (100 - t) * 51;
    }
  }

  /** With more than 50 results in the period, whatever their distance in time, a series decided differently. */
  lemma RateDisagrees(rule: Rule, n: nat, gap: nat) returns (from: nat, to: nat)
    requires 0 < rule.threshold <= 100 && 0 < rule.window
    requires n > WINDOW_CAP
    ensures from <= to <= n
    ensures var h := Series(n, from, to, gap);
            && CountSince(h, 0) == n
            && RateReached(rule, LastN(WINDOW_CAP, h), rule.window) != RateReached(rule, h, rule.window)
  {
    var t := rule.threshold;
    var cut := n - WINDOW_CAP;
    if HidesHealth(t, n) {
      from, to := cut, cut + (t + 1) / 2;
      HealthArithmetic(t, n);
    } else {
      from, to := 0, cut + (t - 1) / 2;
      ErrorArithmetic(t, n);
    }
    SeriesDecisions(rule, n, from, to, gap);
  }

  /** The two decisions agree on every time-ordered history with n results in the period. */
  ghost predicate AgreesOnOrdered(rule: Rule, n: nat) {
    forall h: seq<Result>, now: int ::
      TimeOrdered(h) && CountSince(h, now - rule.window) == n ==>
        RateReached(rule, LastN(WINDOW_CAP, h), now) == RateReached(rule, h, now)
  }

  /** They agree on every history of results at this distance in time, none later than now, with n in the period. */
  ghost predicate AgreesOnEven(rule: Rule, n: nat, gap: nat) {
    forall h: seq<Result>, now: int ::
      Evenly(h, gap) && (h != [] ==> h[|h| - 1].timestamp <= now) && CountSince(h, now - rule.window) == n ==>
        RateReached(rule, LastN(WINDOW_CAP, h), now) == RateReached(rule, h, now)
  }

  lemma CoveredAgrees(rule: Rule, n: nat)
    requires n <= WINDOW_CAP
    ensures AgreesOnOrdered(rule, n)
  {
    forall h: seq<Result>, now: int | TimeOrdered(h) && CountSince(h, now - rule.window) == n
      ensures RateReached(rule, LastN(WINDOW_CAP, h), now) == RateReached(rule, h, now)
    {
      RateOnWindow(rule, h, now);
    }
  }

  lemma SeriesInPeriod(n: nat, from: nat, to: nat, gap: nat)
    requires n > 0
    ensures Evenly(Series(n, from, to, gap), gap)
    ensures Series(n, from, to, gap)[n - 1].timestamp == (n - 1) * gap
  {
    assert 0 * gap == 0;
  }

  /**
   The window decides an error-rate rule as documented, on every history of results at a fixed distance in time, as the
   scheduler's ticker delivers them, with n of them in the period, exactly when n is at most 50.
   */
  lemma RateExactEvenly(rule: Rule, n: nat, gap: nat)
    requires 0 < rule.threshold <= 100 && 0 < rule.window
    requires n > 0 && (n - 1) * gap <= rule.window
    ensures AgreesOnEven(rule, n, gap) <==> n <= WINDOW_CAP
  {
    if n <= WINDOW_CAP {
      CoveredAgrees(rule, n);
      forall h: seq<Result> | Evenly(h, gap)
        ensures TimeOrdered(h)
      {
        EvenlyIsOrdered(h, gap);
      }
    } else {
      var from, to := RateDisagrees(rule, n, gap);
      var h := Series(n, from, to, gap);
      SeriesInPeriod(n, from, to, gap);
      assert CountSince(h, rule.window - rule.window) == n;
    }
  }

  /** And on every time-ordered history with n results in the period exactly when n is at most 50. */
  lemma RateExact(rule: Rule, n: nat)
    requires 0 < rule.threshold <= 100 && 0 < rule.window
    ensures AgreesOnOrdered(rule, n) <==> n <= WINDOW_CAP
  {
    if n <= WINDOW_CAP {
      CoveredAgrees(rule, n);
    } else {
      var from, to := RateDisagrees(rule, n, 0);
      var h := Series(n, from, to, 0);
      SeriesInPeriod(n, from, to, 0);
      EvenlyIsOrdered(h, 0);
      assert CountSince(h, rule.window - rule.window) == n;
    }
  }
}
