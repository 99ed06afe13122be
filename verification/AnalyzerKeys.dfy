/**
 The limiter told by events instead of by keys: whom the cooldown of a diagnosis holds back, and what the gates decide,
 read off the requests admitted so far.
 */
module AnalyzerKeys {
  import opened Checker
  import opened Keys
  import opened Rates
  import opened Analyzer
  import opened AnalyzerRuns

  /** No target continues another one after the separator. */
  ghost predicate TargetsApart(rs: seq<Request>) {
    forall a, b :: a in rs && b in rs ==>
      !Extends('|', a.event.target, b.event.target) || a.event.target == b.event.target
  }

  predicate SameEvent(a: Event, b: Event) {
    a.target == b.target && a.ruleName == b.ruleName
  }

  lemma NeverExtendsItself(name: string)
    ensures !Extends('|', name, name)
  {
  }

  /** Among such targets the key is the target and the rule. */
  lemma KeyIsEvent(a: Event, b: Event)
    requires !Extends('|', a.target, b.target) || a.target == b.target
    requires !Extends('|', b.target, a.target) || a.target == b.target
    ensures KeyOf(a) == KeyOf(b) <==> SameEvent(a, b)
  {
    if KeyOf(a) == KeyOf(b) {
      JoinInjective('|', a.target, a.ruleName, b.target, b.ruleName);
      NeverExtendsItself(a.target);
    }
  }

  /** The key is the two names around a bar. */
  lemma KeyIsTargetAndRule(e: Event)
    ensures KeyOf(e) == e.target + "|" + e.ruleName
  {
  }

  /** Two events share a key exactly when they are the same, or the one's target and bar begin the other's key. */
  lemma KeysCollide(a: Event, b: Event)
    ensures KeyOf(a) == KeyOf(b) <==> a.target + "|" + a.ruleName == b.target + "|" + b.ruleName
    ensures KeyOf(a) == KeyOf(b) && a != b ==> Extends('|', a.target, b.target) || Extends('|', b.target, a.target)
  {
    KeyIsTargetAndRule(a);
    KeyIsTargetAndRule(b);
    if KeyOf(a) == KeyOf(b) {
      JoinInjective('|', a.target, a.ruleName, b.target, b.ruleName);
    }
  }

  /** Two targets are told apart by every choice of rules exactly when neither continues the other after the bar. */
  lemma TargetsToldApart(a: string, b: string)
    requires a != b
    ensures (forall r: string, s: string :: KeyOf(Event(r, a)) != KeyOf(Event(s, b)))
      <==> !Extends('|', a, b) && !Extends('|', b, a)
  {
    if Extends('|', a, b) {
      var r := b[|a| + 1..] + "|";
      assert KeyOf(Event(r, a)) == KeyOf(Event([], b));
    } else if Extends('|', b, a) {
      var s := a[|b| + 1..] + "|";
      assert KeyOf(Event([], a)) == KeyOf(Event(s, b));
    } else {
      forall r: string, s: string
        ensures KeyOf(Event(r, a)) != KeyOf(Event(s, b))
      {
        KeysCollide(Event(r, a), Event(s, b));
      }
    }
  }

  // ----- what was admitted, read off the list -----

  lemma {:induction false} TimesAreAdmissions(admitted: seq<Request>, key: string)
    ensures forall t :: t in TimesOfKey(admitted, key) <==>
      exists i :: 0 <= i < |admitted| && KeyOf(admitted[i].event) == key && admitted[i].now == t
  {
    if admitted != [] {
      var n := |admitted| - 1;
      TimesAreAdmissions(admitted[..n], key);
      assert forall i :: 0 <= i < n ==> admitted[..n][i] == admitted[i];
      forall t | t in TimesOfKey(admitted[..n], key)
        ensures exists i :: 0 <= i < |admitted| && KeyOf(admitted[i].event) == key && admitted[i].now == t
      {
        var i :| 0 <= i < n && KeyOf(admitted[..n][i].event) == key && admitted[..n][i].now == t;
        assert KeyOf(admitted[i].event) == key && admitted[i].now == t;
      }
    }
  }

  /** The admissions of a day, by position. */
  function OnDay(admitted: seq<Request>, day: int): set<int> {
    set i | 0 <= i < |admitted| && admitted[i].day == day
  }

  lemma {:induction false} DayIsCounted(admitted: seq<Request>, day: int)
    ensures CountDay(admitted, day) == |OnDay(admitted, day)|
  {
    if admitted == [] {
      assert OnDay(admitted, day) == {};
    } else {
      var n := |admitted| - 1;
      DayIsCounted(admitted[..n], day);
      if admitted[n].day == day {
        assert OnDay(admitted, day) == OnDay(admitted[..n], day) + {n};
      } else {
        assert OnDay(admitted, day) == OnDay(admitted[..n], day);
      }
    }
  }

  /** The last k calls have failed, and the one before them, if there is one, has not. */
  lemma {:induction false} FailedInARowIs(calls: seq<Request>)
    ensures var k := FailedInARow(calls);
            && (forall i :: |calls| - k <= i < |calls| ==> calls[i].outcome.ModelFailed?)
            && (k < |calls| ==> !calls[|calls| - 1 - k].outcome.ModelFailed?)
  {
    if calls != [] {
      FailedInARowIs(calls[..|calls| - 1]);
    }
  }

  /** A request for the same rule on the same target was admitted less than the cooldown ago. */
  ghost predicate Recent(l: Limits, admitted: seq<Request>, r: Request) {
    exists i :: 0 <= i < |admitted|
      && admitted[i].event.target == r.event.target && admitted[i].event.ruleName == r.event.ruleName
      && r.now - admitted[i].now < l.cooldown
  }

  lemma RecentByKey(l: Limits, admitted: seq<Request>, r: Request)
    requires TargetsApart(admitted + [r])
    ensures Recent(l, admitted, r) <==> KeyIsRecent(l, admitted, r)
  {
    var key, all := KeyOf(r.event), admitted + [r];
    TimesAreAdmissions(admitted, key);
    forall i | 0 <= i < |admitted|
      ensures KeyOf(admitted[i].event) == key <==> SameEvent(admitted[i].event, r.event)
    {
      assert all[i] in all && all[|admitted|] in all;
      KeyIsEvent(admitted[i].event, r.event);
    }
    if Recent(l, admitted, r) {
      var i :| 0 <= i < |admitted| && SameEvent(admitted[i].event, r.event) && r.now - admitted[i].now < l.cooldown;
      assert admitted[i].now in TimesOfKey(admitted, key);
    }
    if t :| t in TimesOfKey(admitted, key) && r.now - t < l.cooldown {
      var i :| 0 <= i < |admitted| && KeyOf(admitted[i].event) == key && admitted[i].now == t;
      assert SameEvent(admitted[i].event, r.event);
    }
  }

  lemma AdmittedStayApart(l: Limits, rs: seq<Request>, r: Request)
    requires TargetsApart(rs + [r])
    ensures TargetsApart(AdmittedOf(l, rs) + [r])
  {
    forall a | a in AdmittedOf(l, rs) + [r]
      ensures a in rs + [r]
    {
    }
  }

  /** The day has had its share of admissions. */
  ghost predicate DayFull(l: Limits, admitted: seq<Request>, r: Request) {
    |OnDay(admitted, r.day)| >= l.dailyMax
  }

  lemma SpecByEvents(l: Limits, rs: seq<Request>, r: Request)
    requires TargetsApart(rs + [r])
    ensures SpecVerdict(l, rs, r)
      == if Tripped(l, rs, r) then BreakerOpen
         else if DayFull(l, AdmittedOf(l, rs), r) then DailyMax
         else if Recent(l, AdmittedOf(l, rs), r) then CoolingDown
         else Admitted
  {
    var admitted := AdmittedOf(l, rs);
    DayIsCounted(admitted, r.day);
    AdmittedStayApart(l, rs, r);
    RecentByKey(l, admitted, r);
  }

  /**
   In every run, for targets that do not continue one another after the bar: a request is refused because the breaker is
   open exactly when it was tripped less than its opening time ago; else for the day exactly when the day has had its
   share of admissions; else for the cooldown exactly when the same rule on the same target was admitted less than the
   cooldown ago; and it is admitted otherwise.
   */
  lemma GateDecidesByEvents(l: Limits, rs: seq<Request>, r: Request)
    requires InOrder(rs + [r]) && TargetsApart(rs + [r])
    ensures GateVerdict(l, GatesAfter(l, rs), KeyOf(r.event), r.now, r.day)
      == if Tripped(l, rs, r) then BreakerOpen
         else if DayFull(l, AdmittedOf(l, rs), r) then DailyMax
         else if Recent(l, AdmittedOf(l, rs), r) then CoolingDown
         else Admitted
  {
    GateRefinesHistory(l, rs, r);
    SpecByEvents(l, rs, r);
  }

  /** The moments at which a rule was admitted on a target. */
  function TimesOf(admitted: seq<Request>, e: Event): seq<int> {
    if admitted == [] then [] else
    var front, last := TimesOf(admitted[..|admitted| - 1], e), admitted[|admitted| - 1];
    if last.event.target == e.target && last.event.ruleName == e.ruleName then front + [last.now] else front
  }

  lemma {:induction false} TimesByKey(admitted: seq<Request>, r: Request)
    requires TargetsApart(admitted + [r])
    ensures TimesOf(admitted, r.event) == TimesOfKey(admitted, KeyOf(r.event))
  {
    if admitted != [] {
      var n := |admitted| - 1;
      var all := admitted + [r];
      forall a | a in admitted[..n] + [r]
        ensures a in all
      {
        assert a in admitted[..n] ==> a in admitted;
      }
      TimesByKey(admitted[..n], r);
      assert all[n] in all && all[n + 1] in all;
      KeyIsEvent(admitted[n].event, r.event);
    }
  }

  /** Diagnoses of a rule on a target are a cooldown apart, so that an interval holds few of them. */
  lemma EventBound(l: Limits, rs: seq<Request>, r: Request, lo: int, length: nat)
    requires InOrder(rs) && TargetsApart(rs + [r]) && l.cooldown > 0
    ensures var times := TimesOf(AdmittedOf(l, rs), r.event);
            && (forall i, j :: 0 <= i < j < |times| ==> times[j] - times[i] >= l.cooldown)
            && CountIn(times, lo, lo + length) <= length / l.cooldown + 1
  {
    AdmittedStayApart(l, rs, r);
    TimesByKey(AdmittedOf(l, rs), r);
    KeyBound(l, rs, KeyOf(r.event), lo, length);
  }

  /** A rule on a target is held back by another one whose key is the same, although it was never admitted. */
  lemma CollisionCools(l: Limits, a: Event, b: Event)
    requires a.target + "|" + a.ruleName == b.target + "|" + b.ruleName && a != b
    requires l.cooldown > 1 && l.dailyMax > 1
    ensures var first := Request(a, 0, 0, ModelAnswered);
            && AdmittedOf(l, [first]) == [first]
            && GateVerdict(l, GatesAfter(l, [first]), KeyOf(b), 1, 0) == CoolingDown
  {
    KeyIsTargetAndRule(a);
    KeyIsTargetAndRule(b);
    var first := Request(a, 0, 0, ModelAnswered);
    assert [first][..0] == [];
    assert [] + [first] == [first];
  }

  // ----- how many failures open the breaker -----

  /** The gates after k failures in a row at one moment. */
  function Failing(l: Limits, g: Gates, k: nat, at: int): Gates {
    if k == 0 then g else AfterFail(l, Failing(l, g, k - 1, at), at)
  }

  /** From a fresh count the configured number of failures opens the breaker, or the first one if that is below one. */
  lemma {:induction false} OpensAtThreshold(l: Limits, g: Gates, k: nat, at: int)
    requires g.failStrk == 0 && 0 < k && (k == 1 || k <= l.breakerFails)
    ensures var opens := k == 1 >= l.breakerFails || k == l.breakerFails;
            && Failing(l, g, k, at).openUntil == (if opens then Some(at + l.breakerOpen) else g.openUntil)
            && Failing(l, g, k, at).failStrk == if opens then 0 else k
  {
    if k > 1 {
      OpensAtThreshold(l, g, k - 1, at);
    } else {
      assert Failing(l, g, 0, at) == g;
    }
  }
}
