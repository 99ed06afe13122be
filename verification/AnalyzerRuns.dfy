/**
 Whole runs of the diagnosis limiter. The few fields it keeps decide exactly what the whole history of requests would
 decide, and the number of model calls is bounded by construction: per day, per key, and while the model keeps failing.
 */
module AnalyzerRuns {
  import opened Checker
  import opened Rates
  import opened Analyzer

  /** Time and calendar day never go back, and a failure is noticed before the next request is looked at. */
  ghost predicate InOrder(rs: seq<Request>) {
    && (forall i, j :: 0 <= i < j < |rs| ==> rs[i].now <= rs[j].now && rs[i].day <= rs[j].day)
    && (forall i :: 0 <= i < |rs| && rs[i].outcome.ModelFailed? ==> rs[i].now <= rs[i].outcome.at)
    && (forall i, j :: 0 <= i < j < |rs| && rs[i].outcome.ModelFailed? ==> rs[i].outcome.at <= rs[j].now)
  }

  lemma FrontInOrder(rs: seq<Request>)
    requires InOrder(rs) && rs != []
    ensures InOrder(rs[..|rs| - 1])
  {
  }

  // ----- what the history alone says -----

  /** How many admitted requests fall on a day. */
  function CountDay(admitted: seq<Request>, day: int): (n: nat)
    ensures n <= |admitted|
  {
    if admitted == [] then 0 else
    CountDay(admitted[..|admitted| - 1], day) + if admitted[|admitted| - 1].day == day then 1 else 0
  }

  /** The moments at which requests with a key were admitted. */
  function TimesOfKey(admitted: seq<Request>, key: string): seq<int> {
    if admitted == [] then [] else
    var front, last := TimesOfKey(admitted[..|admitted| - 1], key), admitted[|admitted| - 1];
    if KeyOf(last.event) == key then front + [last.now] else front
  }

  /** How many calls have failed since the last one that was answered. */
  function FailedInARow(calls: seq<Request>): (n: nat)
    ensures n <= |calls|
  {
    if calls == [] || !calls[|calls| - 1].outcome.ModelFailed? then 0 else FailedInARow(calls[..|calls| - 1]) + 1
  }

  /** Failures per opening of the breaker. */
  function Batch(l: Limits): (b: nat)
    ensures b > 0
  {
    if l.breakerFails > 1 then l.breakerFails else 1
  }

  /** The request is a call whose failure completes a batch of failures in a row. */
  predicate Trips(l: Limits, g: Gates, calls: seq<Request>, r: Request) {
    Admits(l, g, r) && r.outcome.ModelFailed? && FailedInARow(calls + [r]) % Batch(l) == 0
  }

  /** The moments at which the breaker was tripped. */
  function TripTimes(l: Limits, rs: seq<Request>): seq<int> {
    if rs == [] then [] else
    var front, last := rs[..|rs| - 1], rs[|rs| - 1];
    if Trips(l, GatesAfter(l, front), CallsOf(l, front), last)
    then TripTimes(l, front) + [last.outcome.at] else TripTimes(l, front)
  }

  /** The breaker was tripped less than its opening time ago. */
  ghost predicate Tripped(l: Limits, rs: seq<Request>, r: Request) {
    exists t :: t in TripTimes(l, rs) && r.now < t + l.breakerOpen
  }

  /** A request with the same key was admitted less than the cooldown ago. */
  ghost predicate KeyIsRecent(l: Limits, admitted: seq<Request>, r: Request) {
    exists t :: t in TimesOfKey(admitted, KeyOf(r.event)) && r.now - t < l.cooldown
  }

  /** The verdict on a request as the whole history before it decides. */
  ghost function SpecVerdict(l: Limits, rs: seq<Request>, r: Request): Verdict {
    if Tripped(l, rs, r) then BreakerOpen
    else if CountDay(AdmittedOf(l, rs), r.day) >= l.dailyMax then DailyMax
    else if KeyIsRecent(l, AdmittedOf(l, rs), r) then CoolingDown
    else Admitted
  }

  // ----- the fields hold what the history says -----

  ghost predicate DayHolds(g: Gates, admitted: seq<Request>) {
    match g.dayKey
    case None => admitted == []
    case Some(day) => (forall r :: r in admitted ==> r.day <= day) && g.dayCount == CountDay(admitted, day)
  }

  lemma LaterDayIsFresh(admitted: seq<Request>, day: int)
    requires forall r :: r in admitted ==> r.day < day
    ensures CountDay(admitted, day) == 0
  {
  }

  lemma CountDayAppend(admitted: seq<Request>, r: Request, day: int)
    ensures CountDay(admitted + [r], day) == CountDay(admitted, day) + if r.day == day then 1 else 0
  {
    assert (admitted + [r])[..|admitted|] == admitted;
  }

  lemma TodayIsCounted(g: Gates, admitted: seq<Request>, day: int)
    requires DayHolds(g, admitted) && (g.dayKey.Some? ==> g.dayKey.value <= day)
    ensures CountToday(g, day) == CountDay(admitted, day)
  {
    if g.dayKey != Some(day) {
      LaterDayIsFresh(admitted, day);
    }
  }

  lemma DayAfter(l: Limits, g: Gates, r: Request)
    ensures var g' := AfterHandle(l, g, r);
            if Open(g, r.now) then g'.dayKey == g.dayKey && g'.dayCount == g.dayCount
            else g'.dayKey == Some(r.day) && g'.dayCount == CountToday(g, r.day) + if Admits(l, g, r) then 1 else 0
  {
  }

  lemma DayStep(l: Limits, g: Gates, admitted: seq<Request>, r: Request)
    requires DayHolds(g, admitted) && (g.dayKey.Some? ==> g.dayKey.value <= r.day)
    ensures DayHolds(AfterHandle(l, g, r), if Admits(l, g, r) then admitted + [r] else admitted)
  {
    DayAfter(l, g, r);
    TodayIsCounted(g, admitted, r.day);
    CountDayAppend(admitted, r, r.day);
  }

  ghost predicate KeyHolds(l: Limits, g: Gates, times: seq<int>, key: string) {
    && (key in g.lastRun <==> times != [])
    && (times != [] ==> g.lastRun[key] == times[|times| - 1])
    && Sorted(times)
    && (forall i, j :: 0 <= i < j < |times| ==> times[j] - times[i] >= l.cooldown)
  }

  lemma TimesOfKeyAppend(admitted: seq<Request>, r: Request, key: string)
    ensures TimesOfKey(admitted + [r], key)
      == if KeyOf(r.event) == key then TimesOfKey(admitted, key) + [r.now] else TimesOfKey(admitted, key)
  {
    assert (admitted + [r])[..|admitted|] == admitted;
  }

  lemma LastRunAfter(l: Limits, g: Gates, r: Request)
    ensures AfterHandle(l, g, r).lastRun == if Admits(l, g, r) then g.lastRun[KeyOf(r.event) := r.now] else g.lastRun
  {
  }

  lemma KeyStep(l: Limits, g: Gates, times: seq<int>, key: string, r: Request)
    requires KeyHolds(l, g, times, key) && (times != [] ==> times[|times| - 1] <= r.now)
    ensures KeyHolds(l, AfterHandle(l, g, r),
                     if Admits(l, g, r) && KeyOf(r.event) == key then times + [r.now] else times, key)
  {
    LastRunAfter(l, g, r);
    if Admits(l, g, r) && KeyOf(r.event) == key {
      assert times != [] ==> r.now - times[|times| - 1] >= l.cooldown;
      assert forall i :: 0 <= i < |times| ==> times[i] <= times[|times| - 1];
    }
  }

  ghost predicate BreakerHolds(l: Limits, g: Gates, calls: seq<Request>, trips: seq<int>) {
    && g.failStrk == FailedInARow(calls) % Batch(l)
    && g.openUntil == (if trips == [] then None else Some(trips[|trips| - 1] + l.breakerOpen))
    && Sorted(trips)
  }

  lemma Multiple(k: int, b: int)
    requires b > 0
    ensures k >= 1 ==> k * b >= b
    ensures k <= -1 ==> k * b <= -b
  {
  }

  lemma ModUnique(x: nat, b: nat, q: nat, rem: nat)
    requires b > 0 && x == q * b + rem && rem < b
    ensures x % b == rem
  {
    var q', rem' := x / b, x % b;
    assert x == q' * b + rem';
    assert (q' - q) * b == rem - rem' by {
      assert (q' - q) * b == q' * b - q * b;
    }
    Multiple(q' - q, b);
  }

  lemma NextInBatch(x: nat, b: nat)
    requires b > 0
    ensures x % b < b
    ensures (x + 1) % b == if x % b + 1 == b then 0 else x % b + 1
  {
    var q := x / b;
    assert x == q * b + x % b;
    if x % b + 1 == b {
      assert x + 1 == (q + 1) * b;
      ModUnique(x + 1, b, q + 1, 0);
    } else {
      ModUnique(x + 1, b, q, x % b + 1);
    }
  }

  lemma CallsAppend(calls: seq<Request>, r: Request)
    ensures FailedInARow(calls + [r]) == if r.outcome.ModelFailed? then FailedInARow(calls) + 1 else 0
  {
    assert (calls + [r])[..|calls|] == calls;
  }

  /** What a failure does to the counter and the breaker, told by the number of failures in a row. */
  lemma FailCounts(l: Limits, g: Gates, failed: nat, at: int)
    requires g.failStrk == failed % Batch(l)
    ensures var g' := AfterFail(l, g, at);
            && g'.failStrk == (failed + 1) % Batch(l)
            && g'.openUntil == if (failed + 1) % Batch(l) == 0 then Some(at + l.breakerOpen) else g.openUntil
  {
    NextInBatch(failed, Batch(l));
  }

  /** The counter counts failures in a row modulo a batch, and opens the breaker exactly when a request trips it. */
  lemma CounterStep(l: Limits, g: Gates, calls: seq<Request>, r: Request)
    requires g.failStrk == FailedInARow(calls) % Batch(l)
    ensures var g' := AfterHandle(l, g, r);
            var calls' := if Admits(l, g, r) && r.outcome != NoHistory then calls + [r] else calls;
            && g'.failStrk == FailedInARow(calls') % Batch(l)
            && g'.openUntil == if Trips(l, g, calls, r) then Some(r.outcome.at + l.breakerOpen) else g.openUntil
  {
    CallsAppend(calls, r);
    var passed := AfterGate(l, g, KeyOf(r.event), r.now, r.day);
    assert passed.failStrk == g.failStrk && passed.openUntil == g.openUntil;
    if Admits(l, g, r) && r.outcome.ModelFailed? {
      FailCounts(l, passed, FailedInARow(calls), r.outcome.at);
    } else if Admits(l, g, r) && r.outcome.ModelAnswered? {
      assert 0 % Batch(l) == 0;
    }
  }

  lemma LastBeforeNext(rs: seq<Request>, r: Request)
    requires InOrder(rs + [r]) && rs != []
    ensures InOrder(rs)
    ensures var last := rs[|rs| - 1];
            last.now <= r.now && last.day <= r.day && (last.outcome.ModelFailed? ==> last.outcome.at <= r.now)
  {
    var all, n := rs + [r], |rs|;
    assert all[..n] == rs && all[n - 1] == rs[n - 1] && all[n] == r;
    FrontInOrder(all);
  }

  lemma {:induction false} TripsBefore(l: Limits, rs: seq<Request>, r: Request)
    requires InOrder(rs + [r])
    ensures forall t :: t in TripTimes(l, rs) ==> t <= r.now
    decreases |rs|
  {
    if rs != [] {
      var front, last := rs[..|rs| - 1], rs[|rs| - 1];
      assert front + [last] == rs;
      LastBeforeNext(rs, r);
      TripsBefore(l, front, last);
      OneMoreRequest(l, front, last);
    }
  }

  lemma StillBefore(times: seq<int>, last: int, now: int)
    requires (forall t :: t in times ==> t <= last) && last <= now
    ensures forall t :: t in times ==> t <= now
    ensures forall t :: t in times + [last] ==> t <= now
  {
  }

  lemma {:induction false} TimesBefore(l: Limits, rs: seq<Request>, key: string, r: Request)
    requires InOrder(rs + [r])
    ensures forall t :: t in TimesOfKey(AdmittedOf(l, rs), key) ==> t <= r.now
    decreases |rs|
  {
    if rs != [] {
      var front, last := rs[..|rs| - 1], rs[|rs| - 1];
      assert front + [last] == rs;
      LastBeforeNext(rs, r);
      TimesBefore(l, front, key, last);
      OneMoreRequest(l, front, last);
      var times := TimesOfKey(AdmittedOf(l, front), key);
      TimesOfKeyAppend(AdmittedOf(l, front), last, key);
      StillBefore(times, last.now, r.now);
    }
  }

  lemma {:induction false} DayBefore(l: Limits, rs: seq<Request>, r: Request)
    requires InOrder(rs + [r])
    ensures GatesAfter(l, rs).dayKey.Some? ==> GatesAfter(l, rs).dayKey.value <= r.day
    decreases |rs|
  {
    if rs != [] {
      var front, last := rs[..|rs| - 1], rs[|rs| - 1];
      assert front + [last] == rs;
      LastBeforeNext(rs, r);
      DayBefore(l, front, last);
      OneMoreRequest(l, front, last);
      DayAfter(l, GatesAfter(l, front), last);
    }
  }

  /** Every moment the run has recorded lies before the next request. */
  lemma RecordedBefore(l: Limits, rs: seq<Request>, key: string, r: Request)
    requires InOrder(rs + [r])
    ensures forall t :: t in TripTimes(l, rs) ==> t <= r.now
    ensures forall t :: t in TimesOfKey(AdmittedOf(l, rs), key) ==> t <= r.now
    ensures GatesAfter(l, rs).dayKey.Some? ==> GatesAfter(l, rs).dayKey.value <= r.day
  {
    TripsBefore(l, rs, r);
    TimesBefore(l, rs, key, r);
    DayBefore(l, rs, r);
  }

  ghost predicate AllHold(l: Limits, rs: seq<Request>, key: string) {
    && DayHolds(GatesAfter(l, rs), AdmittedOf(l, rs))
    && KeyHolds(l, GatesAfter(l, rs), TimesOfKey(AdmittedOf(l, rs), key), key)
    && BreakerHolds(l, GatesAfter(l, rs), CallsOf(l, rs), TripTimes(l, rs))
  }

  /** What one more request adds to every list. */
  lemma OneMoreRequest(l: Limits, rs: seq<Request>, r: Request)
    ensures var all, g := rs + [r], GatesAfter(l, rs);
            && GatesAfter(l, all) == AfterHandle(l, g, r)
            && AdmittedOf(l, all) == (if Admits(l, g, r) then AdmittedOf(l, rs) + [r] else AdmittedOf(l, rs))
            && CallsOf(l, all)
               == (if Admits(l, g, r) && r.outcome != NoHistory then CallsOf(l, rs) + [r] else CallsOf(l, rs))
            && TripTimes(l, all)
               == if Trips(l, g, CallsOf(l, rs), r) then TripTimes(l, rs) + [r.outcome.at] else TripTimes(l, rs)
  {
    assert (rs + [r])[..|rs|] == rs;
  }

  lemma DayStepHolds(l: Limits, rs: seq<Request>, r: Request)
    requires InOrder(rs + [r]) && DayHolds(GatesAfter(l, rs), AdmittedOf(l, rs))
    ensures DayHolds(GatesAfter(l, rs + [r]), AdmittedOf(l, rs + [r]))
  {
    RecordedBefore(l, rs, "", r);
    DayStep(l, GatesAfter(l, rs), AdmittedOf(l, rs), r);
    OneMoreRequest(l, rs, r);
  }

  lemma KeyStepHolds(l: Limits, rs: seq<Request>, r: Request, key: string)
    requires InOrder(rs + [r]) && KeyHolds(l, GatesAfter(l, rs), TimesOfKey(AdmittedOf(l, rs), key), key)
    ensures KeyHolds(l, GatesAfter(l, rs + [r]), TimesOfKey(AdmittedOf(l, rs + [r]), key), key)
  {
    RecordedBefore(l, rs, key, r);
    TimesOfKeyAppend(AdmittedOf(l, rs), r, key);
    LatestDecides(TimesOfKey(AdmittedOf(l, rs), key));
    KeyStep(l, GatesAfter(l, rs), TimesOfKey(AdmittedOf(l, rs), key), key, r);
    OneMoreRequest(l, rs, r);
  }

  lemma BreakerStepHolds(l: Limits, rs: seq<Request>, r: Request)
    requires InOrder(rs + [r]) && BreakerHolds(l, GatesAfter(l, rs), CallsOf(l, rs), TripTimes(l, rs))
    ensures BreakerHolds(l, GatesAfter(l, rs + [r]), CallsOf(l, rs + [r]), TripTimes(l, rs + [r]))
  {
    TripsStaySorted(l, rs, r);
    OneMoreRequest(l, rs, r);
    BreakerStep(l, GatesAfter(l, rs), CallsOf(l, rs), TripTimes(l, rs), r);
  }

  lemma BreakerStep(l: Limits, g: Gates, calls: seq<Request>, trips: seq<int>, r: Request)
    requires BreakerHolds(l, g, calls, trips) && Sorted(if Trips(l, g, calls, r) then trips + [r.outcome.at] else trips)
    ensures BreakerHolds(l, AfterHandle(l, g, r),
                         if Admits(l, g, r) && r.outcome != NoHistory then calls + [r] else calls,
                         if Trips(l, g, calls, r) then trips + [r.outcome.at] else trips)
  {
    CounterStep(l, g, calls, r);
  }

  lemma TripsStaySorted(l: Limits, rs: seq<Request>, r: Request)
    requires InOrder(rs + [r]) && Sorted(TripTimes(l, rs))
    ensures Sorted(TripTimes(l, rs + [r]))
  {
    OneMoreRequest(l, rs, r);
    TripsBefore(l, rs, r);
    FailsLater(rs, r);
    if r.outcome.ModelFailed? {
      SortedAppend(TripTimes(l, rs), r.now, r.outcome.at);
    }
  }

  lemma FailsLater(rs: seq<Request>, r: Request)
    requires InOrder(rs + [r])
    ensures r.outcome.ModelFailed? ==> r.now <= r.outcome.at
  {
    assert (rs + [r])[|rs|] == r;
  }

  lemma SortedAppend(times: seq<int>, before: int, t: int)
    requires Sorted(times) && (forall x :: x in times ==> x <= before) && before <= t
    ensures Sorted(times + [t])
  {
    assert forall i :: 0 <= i < |times| ==> times[i] in times;
  }

  lemma {:induction false} HistoryHolds(l: Limits, rs: seq<Request>, key: string)
    requires InOrder(rs)
    ensures AllHold(l, rs, key)
  {
    if rs != [] {
      var front, last := rs[..|rs| - 1], rs[|rs| - 1];
      FrontInOrder(rs);
      HistoryHolds(l, front, key);
      assert front + [last] == rs;
      DayStepHolds(l, front, last);
      KeyStepHolds(l, front, last, key);
      BreakerStepHolds(l, front, last);
    }
  }

  /** The gates decide on every request what the whole history before it decides. */
  lemma GateRefinesHistory(l: Limits, rs: seq<Request>, r: Request)
    requires InOrder(rs + [r])
    ensures GateVerdict(l, GatesAfter(l, rs), KeyOf(r.event), r.now, r.day) == SpecVerdict(l, rs, r)
  {
    var key := KeyOf(r.event);
    assert (rs + [r])[..|rs|] == rs;
    FrontInOrder(rs + [r]);
    HistoryHolds(l, rs, key);
    RecordedBefore(l, rs, key, r);
    TodayIsCounted(GatesAfter(l, rs), AdmittedOf(l, rs), r.day);
    LatestDecides(TripTimes(l, rs));
    LatestDecides(TimesOfKey(AdmittedOf(l, rs), key));
  }

  /** In a sorted sequence the last entry is the greatest. */
  lemma LatestDecides(times: seq<int>)
    requires Sorted(times)
    ensures times != [] ==> times[|times| - 1] in times && forall t :: t in times ==> t <= times[|times| - 1]
  {
  }

  // ----- bounds -----

  lemma DayCap(l: Limits, g: Gates, admitted: seq<Request>, r: Request, day: int)
    requires DayHolds(g, admitted) && (g.dayKey.Some? ==> g.dayKey.value <= r.day)
    requires CountDay(admitted, day) <= Cap(l)
    ensures Admits(l, g, r) ==> CountDay(admitted + [r], day) <= Cap(l)
  {
    TodayIsCounted(g, admitted, r.day);
    CountDayAppend(admitted, r, day);
  }

  function Cap(l: Limits): nat {
    if l.dailyMax > 0 then l.dailyMax else 0
  }

  /** On no calendar day are more requests admitted than the daily cap. */
  lemma {:induction false} DailyBound(l: Limits, rs: seq<Request>, day: int)
    requires InOrder(rs)
    ensures CountDay(AdmittedOf(l, rs), day) <= Cap(l)
  {
    if rs != [] {
      var front, r := rs[..|rs| - 1], rs[|rs| - 1];
      assert front + [r] == rs;
      FrontInOrder(rs);
      DailyBound(l, front, day);
      HistoryHolds(l, front, "");
      RecordedBefore(l, front, "", r);
      OneMoreRequest(l, front, r);
      DayCap(l, GatesAfter(l, front), AdmittedOf(l, front), r, day);
    }
  }

  /** Admissions of one key are at least the cooldown apart, so an interval holds few of them. */
  lemma KeyBound(l: Limits, rs: seq<Request>, key: string, lo: int, length: nat)
    requires InOrder(rs) && l.cooldown > 0
    ensures var times := TimesOfKey(AdmittedOf(l, rs), key);
            && (forall i, j :: 0 <= i < j < |times| ==> times[j] - times[i] >= l.cooldown)
            && CountIn(times, lo, lo + length) <= length / l.cooldown + 1
  {
    HistoryHolds(l, rs, key);
    RateBound(TimesOfKey(AdmittedOf(l, rs), key), 1, l.cooldown, lo, length);
  }

  function Times(calls: seq<Request>): (times: seq<int>)
    ensures |times| == |calls|
  {
    seq(|calls|, i requires 0 <= i < |calls| => calls[i].now)
  }

  /** The model never answers. */
  ghost predicate ModelIsDown(rs: seq<Request>) {
    forall r :: r in rs ==> !r.outcome.ModelAnswered?
  }

  lemma {:induction false} AllFailed(calls: seq<Request>)
    requires forall r :: r in calls ==> r.outcome.ModelFailed?
    ensures FailedInARow(calls) == |calls|
  {
    if calls != [] {
      AllFailed(calls[..|calls| - 1]);
    }
  }

  lemma {:induction false} OnlyCallsFail(l: Limits, rs: seq<Request>)
    requires ModelIsDown(rs)
    ensures forall r :: r in CallsOf(l, rs) ==> r.outcome.ModelFailed?
  {
    if rs != [] {
      OnlyCallsFail(l, rs[..|rs| - 1]);
    }
  }

  /** With the model down, calls come in batches, and the breaker stays open after the last full batch's last call. */
  ghost predicate Batched(l: Limits, times: seq<int>, openUntil: Option<int>) {
    var b := Batch(l);
    && Sorted(times)
    && Strided(times, b, l.breakerOpen)
    && (|times| >= b ==>
          var full := |times| - |times| % b;
          && 0 < full
          && openUntil.Some?
          && openUntil.value >= times[full - 1] + l.breakerOpen)
  }

  lemma BatchPosition(m: nat, b: nat)
    requires b > 0
    ensures m >= b ==> m - b < m - m % b
    ensures (m + 1) % b == 0 || m + 1 - (m + 1) % b == m - m % b
    ensures m < b ==> m % b == m
    ensures m + 1 == b ==> (m + 1) % b == 0
  {
    NextInBatch(m, b);
    if m < b {
      ModUnique(m, b, 0, m);
    }
  }

  /** One more call, made when the breaker is closed and failing at some later moment. */
  lemma NextCall(l: Limits, times: seq<int>, openUntil: Option<int>, now: int, at: int)
    requires Batched(l, times, openUntil) && now <= at
    requires forall t :: t in times ==> t <= now
    requires openUntil.Some? ==> openUntil.value <= now
    ensures Batched(l, times + [now],
              if (|times| + 1) % Batch(l) == 0 then Some(at + l.breakerOpen) else openUntil)
  {
    var m, b := |times|, Batch(l);
    BatchPosition(m, b);
    assert forall i :: 0 <= i < m ==> times[i] in times;
    if m >= b {
      assert times[m - b] <= times[m - m % b - 1];
    }
  }

  lemma {:induction false} CallsBefore(l: Limits, rs: seq<Request>, r: Request)
    requires InOrder(rs + [r])
    ensures forall t :: t in Times(CallsOf(l, rs)) ==> t <= r.now
  {
    forall t | t in Times(CallsOf(l, rs))
      ensures t <= r.now
    {
      var i :| 0 <= i < |CallsOf(l, rs)| && CallsOf(l, rs)[i].now == t;
      assert CallsOf(l, rs)[i] in rs;
      var k :| 0 <= k < |rs| && rs[k] == CallsOf(l, rs)[i];
      assert (rs + [r])[k] == rs[k] && (rs + [r])[|rs|] == r;
    }
  }

  /** The breaker when one more call fails after nothing but failures. */
  lemma DownStep(l: Limits, g: Gates, calls: seq<Request>, r: Request)
    requires g.failStrk == FailedInARow(calls) % Batch(l)
    requires (forall c :: c in calls ==> c.outcome.ModelFailed?) && !r.outcome.ModelAnswered?
    ensures AfterHandle(l, g, r).openUntil
      == if Admits(l, g, r) && r.outcome.ModelFailed? && (|calls| + 1) % Batch(l) == 0
         then Some(r.outcome.at + l.breakerOpen) else g.openUntil
  {
    CounterStep(l, g, calls, r);
    AllFailed(calls);
    CallsAppend(calls, r);
  }

  /** One more request with the model down, told by the calls and the breaker alone. */
  lemma BatchStep(l: Limits, g: Gates, calls: seq<Request>, r: Request)
    requires g.failStrk == FailedInARow(calls) % Batch(l)
    requires (forall c :: c in calls ==> c.outcome.ModelFailed?) && !r.outcome.ModelAnswered?
    requires r.outcome.ModelFailed? ==> r.now <= r.outcome.at
    requires Batched(l, Times(calls), g.openUntil) && forall t :: t in Times(calls) ==> t <= r.now
    ensures Batched(l, Times(if Admits(l, g, r) && r.outcome != NoHistory then calls + [r] else calls),
                    AfterHandle(l, g, r).openUntil)
  {
    DownStep(l, g, calls, r);
    if Admits(l, g, r) && r.outcome.ModelFailed? {
      NextCall(l, Times(calls), g.openUntil, r.now, r.outcome.at);
      assert Times(calls + [r]) == Times(calls) + [r.now];
    }
  }

  lemma {:induction false} DownIsBatched(l: Limits, rs: seq<Request>)
    requires InOrder(rs) && ModelIsDown(rs)
    ensures Batched(l, Times(CallsOf(l, rs)), GatesAfter(l, rs).openUntil)
  {
    if rs != [] {
      var front, last := rs[..|rs| - 1], rs[|rs| - 1];
      FrontInOrder(rs);
      DownIsBatched(l, front);
      HistoryHolds(l, front, "");
      assert front + [last] == rs;
      OnlyCallsFail(l, front);
      CallsBefore(l, front, last);
      OneMoreRequest(l, front, last);
      BatchStep(l, GatesAfter(l, front), CallsOf(l, front), last);
    }
  }

  /**
   While every model call fails, a closed interval of length L holds at most B * (L / open time + 1) calls, where B is
   the number of failures that opens the breaker, and one when that number is not positive.
   */
  lemma BreakerBound(l: Limits, rs: seq<Request>, lo: int, length: nat)
    requires InOrder(rs) && ModelIsDown(rs) && l.breakerOpen > 0
    ensures CountIn(Times(CallsOf(l, rs)), lo, lo + length) <= Batch(l) * (length / l.breakerOpen + 1)
  {
    DownIsBatched(l, rs);
    RateBound(Times(CallsOf(l, rs)), Batch(l), l.breakerOpen, lo, length);
  }
}
