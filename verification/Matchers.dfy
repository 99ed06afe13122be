/** The three matchers and their dispatch, as loops over the recent results. */
module Matchers {
  import opened Checker
  import opened Rules

  method MatchConsecutiveStatus(r: Rule, recent: seq<Result>) returns (hit: bool)
    ensures hit <==> 0 < r.threshold <= Streak(Status(r.status), recent)
    ensures hit <==> LastHaveStatus(recent, r.threshold, r.status)
  {
    StreakShows(r, recent);
    if r.threshold <= 0 || |recent| < r.threshold {
      return false;
    }
    StreakReaches(Status(r.status), recent, r.threshold);
    var tail := recent[|recent| - r.threshold..];
    for i := 0 to |tail|
      invariant forall j :: 0 <= j < i ==> Continues(Status(r.status), tail[j])
    {
      if tail[i].status != r.status {
        assert !Continues(Status(r.status), recent[|recent| - r.threshold + i]);
        return false;
      }
    }
    assert forall j :: |recent| - r.threshold <= j < |recent| ==> recent[j] == tail[j - (|recent| - r.threshold)];
    return true;
  }

  method MatchConsecutiveErrorType(r: Rule, recent: seq<Result>) returns (hit: bool)
    ensures hit <==> 0 < r.threshold <= Streak(ErrorType(r.errorType), recent)
    ensures hit <==> LastHaveErrorType(recent, r.threshold, r.errorType)
  {
    StreakShows(r, recent);
    if r.threshold <= 0 || |recent| < r.threshold {
      return false;
    }
    StreakReaches(ErrorType(r.errorType), recent, r.threshold);
    var tail := recent[|recent| - r.threshold..];
    for i := 0 to |tail|
      invariant forall j :: 0 <= j < i ==> Continues(ErrorType(r.errorType), tail[j])
    {
      if tail[i].errorType != r.errorType {
        assert !Continues(ErrorType(r.errorType), recent[|recent| - r.threshold + i]);
        return false;
      }
    }
    assert forall j :: |recent| - r.threshold <= j < |recent| ==> recent[j] == tail[j - (|recent| - r.threshold)];
    return true;
  }

  method MatchErrorRateWindow(r: Rule, recent: seq<Result>, now: int) returns (hit: bool)
    ensures hit <==> RateReached(r, recent, now)
  {
    if r.threshold <= 0 || r.window <= 0 || |recent| == 0 {
      return false;
    }
    var cutoff := now - r.window;
    var total, errs := 0, 0;
    for i := 0 to |recent|
      invariant total == CountSince(recent[..i], cutoff)
      invariant errs == ErrorsSince(recent[..i], cutoff)
    {
      assert recent[..i + 1][..i] == recent[..i];
      if recent[i].timestamp < cutoff {
        continue;
      }
      total := total + 1;
      if recent[i].status != STATUS_UP {
        errs := errs + 1;
      }
    }
    assert recent[..|recent|] == recent;
    if total == 0 {
      return false;
    }
    PercentageIsExact(errs, total, r.threshold);
    var rate := errs * 100 / total;
    return rate >= r.threshold;
  }

  method Match(r: Rule, recent: seq<Result>, now: int) returns (hit: bool)
    ensures hit <==> Matches(r, recent, now)
    ensures r.kind == "consecutive_status" ==>
      (hit <==> 0 < r.threshold <= |recent|
                && forall i :: |recent| - r.threshold <= i < |recent| ==> recent[i].status == r.status)
    ensures r.kind == "consecutive_error_type" ==>
      (hit <==> 0 < r.threshold <= |recent|
                && forall i :: |recent| - r.threshold <= i < |recent| ==> recent[i].errorType == r.errorType)
    ensures r.kind == "error_rate_window" ==>
      var total := |set i | 0 <= i < |recent| && recent[i].timestamp >= now - r.window|;
      var errs := |set i | 0 <= i < |recent| && recent[i].timestamp >= now - r.window && recent[i].status != "up"|;
      (hit <==> r.threshold > 0 && r.window > 0 && total > 0 && errs * 100 >= r.threshold * total)
    ensures r.kind !in {"consecutive_status", "consecutive_error_type", "error_rate_window"} ==> !hit
  {
    MatchesIsShown(r, recent, now);
    if r.kind == CONSECUTIVE_STATUS {
      hit := MatchConsecutiveStatus(r, recent);
    } else if r.kind == CONSECUTIVE_ERROR_TYPE {
      hit := MatchConsecutiveErrorType(r, recent);
    } else if r.kind == ERROR_RATE_WINDOW {
      hit := MatchErrorRateWindow(r, recent, now);
    } else {
      hit := false;
    }
  }
}
