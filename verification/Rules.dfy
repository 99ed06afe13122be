/** Alert rules, and what it means for a rule to match a history of results of one target. */
module Rules {
  import opened Checker
  import opened History

  const CONSECUTIVE_STATUS := "consecutive_status"
  const CONSECUTIVE_ERROR_TYPE := "consecutive_error_type"
  const ERROR_RATE_WINDOW := "error_rate_window"

  datatype Rule = Rule(
    name: string,
    target: string,
    kind: string,
    status: string,
    errorType: string,
    threshold: int,
    window: int,
    cooldown: int,
    webhook: string)

  /** A rule watches one target, or every target when its target is "*". */
  predicate AppliesTo(rule: Rule, target: string) {
    rule.target == "*" || rule.target == target
  }

  /** What a consecutive rule counts: results with one status, or with one error type. */
  datatype Wanted = Status(status: string) | ErrorType(errorType: string)

  predicate Continues(wanted: Wanted, res: Result) {
    match wanted
    case Status(status) => res.status == status
    case ErrorType(errorType) => res.errorType == errorType
  }

  /** The streak counter over a whole stream: one up on a matching result, back to zero on any other. */
  function Streak(wanted: Wanted, h: seq<Result>): (n: nat)
    ensures n <= |h|
  {
    if h == [] || !Continues(wanted, h[|h| - 1]) then 0 else Streak(wanted, h[..|h| - 1]) + 1
  }

  /** How many results are at or after the cutoff. */
  function CountSince(h: seq<Result>, cutoff: int): (n: nat)
    ensures n <= |h|
  {
    if h == [] then 0 else
    CountSince(h[..|h| - 1], cutoff) + if h[|h| - 1].timestamp >= cutoff then 1 else 0
  }

  /** How many results at or after the cutoff are not "up". */
  function ErrorsSince(h: seq<Result>, cutoff: int): (n: nat)
    ensures n <= CountSince(h, cutoff)
  {
    if h == [] then 0 else
    ErrorsSince(h[..|h| - 1], cutoff)
      + if h[|h| - 1].timestamp >= cutoff && h[|h| - 1].status != STATUS_UP then 1 else 0
  }

  /** The share of errors among the results since the cutoff is at least the threshold percentage. */
  predicate RateReached(rule: Rule, h: seq<Result>, now: int) {
    var cutoff := now - rule.window;
    && 0 < rule.threshold
    && 0 < rule.window
    && 0 < CountSince(h, cutoff)
    && ErrorsSince(h, cutoff) * 100 >= rule.threshold * CountSince(h, cutoff)
  }

  /** The documented meaning of a rule, over any history, for a decision taken at time `now`. */
  predicate Matches(rule: Rule, h: seq<Result>, now: int) {
    if rule.kind == CONSECUTIVE_STATUS then 0 < rule.threshold <= Streak(Status(rule.status), h)
    else if rule.kind == CONSECUTIVE_ERROR_TYPE then 0 < rule.threshold <= Streak(ErrorType(rule.errorType), h)
    else rule.kind == ERROR_RATE_WINDOW && RateReached(rule, h, now)
  }

  /** The counter has reached n exactly when the last n results all continue the streak. */
  lemma {:induction false} StreakReaches(wanted: Wanted, h: seq<Result>, n: nat)
    requires n <= |h|
    ensures n <= Streak(wanted, h) <==> forall i :: |h| - n <= i < |h| ==> Continues(wanted, h[i])
  {
    if n > 0 && Continues(wanted, h[|h| - 1]) {
      var front := h[..|h| - 1];
      StreakReaches(wanted, front, n - 1);
      assert (forall i :: |h| - n <= i < |h| ==> Continues(wanted, h[i]))
        <==> (forall i :: |front| - (n - 1) <= i < |front| ==> Continues(wanted, front[i])) by {
        assert forall i :: 0 <= i < |front| ==> front[i] == h[i];
      }
    }
  }

  /** The truncated percentage reaches a threshold exactly when the exact ratio does. */
  lemma PercentageIsExact(errs: nat, total: nat, threshold: int)
    requires total > 0
    ensures errs * 100 / total >= threshold <==> errs * 100 >= threshold * total
  {
    var q := errs * 100 / total;
    var rem := errs * 100 % total;
    assert errs * 100 == q * total + rem;
    if q >= threshold {
      assert q * total >= threshold * total;
    } else {
      assert (q + 1) * total <= threshold * total;
      assert (q + 1) * total == q * total + total;
    }
  }

  // ----- the meaning of a rule, read off the results themselves -----

  /** The results at or after the cutoff, by position. */
  function Since(h: seq<Result>, cutoff: int): set<int> {
    set i | 0 <= i < |h| && h[i].timestamp >= cutoff
  }

  /** Those of them that are anything but "up". */
  function NotUpSince(h: seq<Result>, cutoff: int): set<int> {
    set i | 0 <= i < |h| && h[i].timestamp >= cutoff && h[i].status != "up"
  }

  /** The last n results, n being positive, all have this status. */
  predicate LastHaveStatus(h: seq<Result>, n: int, status: string) {
    0 < n <= |h| && forall i :: |h| - n <= i < |h| ==> h[i].status == status
  }

  /** The last n results, n being positive, all have this error type. */
  predicate LastHaveErrorType(h: seq<Result>, n: int, errorType: string) {
    0 < n <= |h| && forall i :: |h| - n <= i < |h| ==> h[i].errorType == errorType
  }

  /** What the results must show for a rule of each kind; for any other kind nothing will do. */
  predicate Shows(rule: Rule, h: seq<Result>, now: int) {
    || (rule.kind == "consecutive_status" && LastHaveStatus(h, rule.threshold, rule.status))
    || (rule.kind == "consecutive_error_type" && LastHaveErrorType(h, rule.threshold, rule.errorType))
    || (rule.kind == "error_rate_window"
        && rule.threshold > 0 && rule.window > 0 && |Since(h, now - rule.window)| > 0
        && |NotUpSince(h, now - rule.window)| * 100 >= rule.threshold * |Since(h, now - rule.window)|)
  }

  lemma SinceGrows(h: seq<Result>, r: Result, cutoff: int)
    ensures |Since(h + [r], cutoff)| == |Since(h, cutoff)| + if r.timestamp >= cutoff then 1 else 0
  {
    if r.timestamp >= cutoff {
      assert Since(h + [r], cutoff) == Since(h, cutoff) + {|h|};
    } else {
      assert Since(h + [r], cutoff) == Since(h, cutoff);
    }
  }

  lemma NotUpGrows(h: seq<Result>, r: Result, cutoff: int)
    ensures |NotUpSince(h + [r], cutoff)|
      == |NotUpSince(h, cutoff)| + if r.timestamp >= cutoff && r.status != "up" then 1 else 0
  {
    if r.timestamp >= cutoff && r.status != "up" {
      assert NotUpSince(h + [r], cutoff) == NotUpSince(h, cutoff) + {|h|};
    } else {
      assert NotUpSince(h + [r], cutoff) == NotUpSince(h, cutoff);
    }
  }

  lemma {:induction false} CountsArePositions(h: seq<Result>, cutoff: int)
    ensures CountSince(h, cutoff) == |Since(h, cutoff)| && ErrorsSince(h, cutoff) == |NotUpSince(h, cutoff)|
  {
    if h == [] {
      assert Since(h, cutoff) == {} && NotUpSince(h, cutoff) == {};
    } else {
      var front, last := h[..|h| - 1], h[|h| - 1];
      CountsArePositions(front, cutoff);
      SinceGrows(front, last, cutoff);
      NotUpGrows(front, last, cutoff);
      assert front + [last] == h;
    }
  }

  lemma StreakShows(rule: Rule, h: seq<Result>)
    ensures 0 < rule.threshold <= Streak(Status(rule.status), h) <==> LastHaveStatus(h, rule.threshold, rule.status)
    ensures 0 < rule.threshold <= Streak(ErrorType(rule.errorType), h)
      <==> LastHaveErrorType(h, rule.threshold, rule.errorType)
  {
    if 0 < rule.threshold <= |h| {
      StreakReaches(Status(rule.status), h, rule.threshold);
      StreakReaches(ErrorType(rule.errorType), h, rule.threshold);
    }
  }

  /** A rule matches a history exactly when the results show what its kind asks for. */
  lemma MatchesIsShown(rule: Rule, h: seq<Result>, now: int)
    ensures Matches(rule, h, now) <==> Shows(rule, h, now)
  {
    StreakShows(rule, h);
    CountsArePositions(h, now - rule.window);
  }
}
