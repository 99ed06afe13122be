/**
 What the alerts of a whole run mean, read off the results: no rule fires unless its target's own newest results show
 what the rule asks for, and whenever they do, the rule fires or has fired less than its cooldown ago.
 */
module AlertTruth {
  import opened Checker
  import opened History
  import opened Rules
  import opened WindowRefinement
  import opened Suppression
  import opened Evaluation
  import opened AlertRuns

  /** The newest 50 results of the target that has just reported, when the i-th result has arrived. */
  function Newest(arrivals: seq<Arrival>, i: nat): seq<Result>
    requires i < |arrivals|
  {
    LastN(50, ForTarget(Results(arrivals[..i + 1]), arrivals[i].result.target))
  }

  predicate Watches(rule: Rule, target: string) {
    rule.target == "*" || rule.target == target
  }

  /** The firing is the k-th rule's on the i-th result, which shows what the rule asks for. */
  ghost predicate Justified(rules: seq<Rule>, arrivals: seq<Arrival>, i: nat, k: nat, f: Firing)
    requires i < |arrivals| && k < |rules| && WellClocked(|rules|, arrivals)
  {
    && f.event.ruleName == rules[k].name && f.event.target == arrivals[i].result.target
    && f.reading == arrivals[i].clock[k] && f.event.fireAt == f.reading.fireAt
    && Watches(rules[k], f.event.target)
    && f.event.snapshot == Newest(arrivals, i)
    && Shows(rules[k], f.event.snapshot, f.reading.matchAt)
  }

  /** What one rule fires on some results is its own event about them, and they show what it asks for. */
  lemma RuleIsJustified(rule: Rule, target: string, recent: seq<Result>, reading: Reading, fired: map<string, int>)
    ensures forall f :: f in FiredBy(rule, target, recent, reading, fired) ==>
      && f.event == Event(rule.name, target, reading.fireAt, recent) && f.reading == reading
      && Watches(rule, target) && Shows(rule, recent, reading.matchAt)
  {
    MatchesIsShown(rule, recent, reading.matchAt);
  }

  lemma {:induction false} RulesAreJustified(
    rules: seq<Rule>, n: nat, target: string, recent: seq<Result>, clock: seq<Reading>, fired: map<string, int>)
    requires |clock| == |rules| && n <= |rules|
    ensures forall f :: f in AfterRules(rules[..n], target, recent, clock[..n], fired).1 ==>
      exists k :: 0 <= k < n && OneRuleJustifies(rules[k], target, recent, clock[k], f)
  {
    if n > 0 {
      RulesAreJustified(rules, n - 1, target, recent, clock, fired);
      AfterRulesNext(rules, n - 1, target, recent, clock, fired);
      var (m, log) := AfterRules(rules[..n - 1], target, recent, clock[..n - 1], fired);
      RuleIsJustified(rules[n - 1], target, recent, clock[n - 1], m);
      forall f | f in AfterRules(rules[..n], target, recent, clock[..n], fired).1
        ensures exists k :: 0 <= k < n && OneRuleJustifies(rules[k], target, recent, clock[k], f)
      {
        if f in log {
          var k :| 0 <= k < n - 1 && OneRuleJustifies(rules[k], target, recent, clock[k], f);
          assert OneRuleJustifies(rules[k], target, recent, clock[k], f);
        } else {
          assert OneRuleJustifies(rules[n - 1], target, recent, clock[n - 1], f);
        }
      }
    }
  }

  ghost predicate OneRuleJustifies(rule: Rule, target: string, recent: seq<Result>, reading: Reading, f: Firing) {
    && f.event == Event(rule.name, target, reading.fireAt, recent) && f.reading == reading
    && Watches(rule, target) && Shows(rule, recent, reading.matchAt)
  }

  lemma {:induction false} RunSees(rules: seq<Rule>, arrivals: seq<Arrival>)
    requires WellClocked(|rules|, arrivals)
    ensures Run(rules, arrivals).seen == Results(arrivals)
  {
    if arrivals != [] {
      RunSees(rules, arrivals[..|arrivals| - 1]);
      ResultsSnoc(arrivals);
    }
  }

  ghost predicate SomewhereJustified(rules: seq<Rule>, arrivals: seq<Arrival>, f: Firing)
    requires WellClocked(|rules|, arrivals)
  {
    exists i, k :: 0 <= i < |arrivals| && 0 <= k < |rules| && Justified(rules, arrivals, i, k, f)
  }

  lemma StaysJustified(rules: seq<Rule>, arrivals: seq<Arrival>, f: Firing)
    requires WellClocked(|rules|, arrivals) && arrivals != []
    requires SomewhereJustified(rules, arrivals[..|arrivals| - 1], f)
    ensures SomewhereJustified(rules, arrivals, f)
  {
    var front := arrivals[..|arrivals| - 1];
    var i, k :| 0 <= i < |front| && 0 <= k < |rules| && Justified(rules, front, i, k, f);
    assert front[..i + 1] == arrivals[..i + 1];
    assert Justified(rules, arrivals, i, k, f);
  }

  lemma JustifyingRule(rules: seq<Rule>, target: string, recent: seq<Result>, clock: seq<Reading>,
                       fired: map<string, int>, f: Firing) returns (k: nat)
    requires |clock| == |rules| && f in AfterRules(rules, target, recent, clock, fired).1
    ensures k < |rules| && OneRuleJustifies(rules[k], target, recent, clock[k], f)
  {
    RulesAreJustified(rules, |rules|, target, recent, clock, fired);
    assert rules[..|rules|] == rules && clock[..|rules|] == clock;
    k :| 0 <= k < |rules| && OneRuleJustifies(rules[k], target, recent, clock[k], f);
  }

  lemma NewIsJustified(rules: seq<Rule>, arrivals: seq<Arrival>, k: nat, f: Firing)
    requires WellClocked(|rules|, arrivals) && arrivals != [] && k < |rules|
    requires var n := |arrivals| - 1;
             OneRuleJustifies(rules[k], arrivals[n].result.target, Newest(arrivals, n), arrivals[n].clock[k], f)
    ensures SomewhereJustified(rules, arrivals, f)
  {
    assert Justified(rules, arrivals, |arrivals| - 1, k, f);
  }

  lemma StepLog(rules: seq<Rule>, e: Engine, a: Arrival)
    requires |a.clock| == |rules|
    ensures var recent := LastN(50, ForTarget(e.seen + [a.result], a.result.target));
            Step(rules, e, a).log == e.log + AfterRules(rules, a.result.target, recent, a.clock, e.fired).1
  {
  }

  lemma NewestOfLast(arrivals: seq<Arrival>)
    requires arrivals != []
    ensures var n := |arrivals| - 1;
            Newest(arrivals, n)
            == LastN(50, ForTarget(Results(arrivals[..n]) + [arrivals[n].result], arrivals[n].result.target))
  {
    ResultsSnoc(arrivals);
    assert arrivals[..|arrivals|] == arrivals;
  }

  /** The firings that the last result of a run adds to its log. */
  lemma LastStep(rules: seq<Rule>, arrivals: seq<Arrival>) returns (more: seq<Firing>)
    requires WellClocked(|rules|, arrivals) && arrivals != []
    ensures var n, front := |arrivals| - 1, Run(rules, arrivals[..|arrivals| - 1]);
            && Run(rules, arrivals).log == front.log + more
            && more
               == AfterRules(rules, arrivals[n].result.target, Newest(arrivals, n), arrivals[n].clock, front.fired).1
  {
    var n := |arrivals| - 1;
    var front := Run(rules, arrivals[..n]);
    RunSees(rules, arrivals[..n]);
    NewestOfLast(arrivals);
    StepLog(rules, front, arrivals[n]);
    more := AfterRules(rules, arrivals[n].result.target, Newest(arrivals, n), arrivals[n].clock, front.fired).1;
  }

  /** In every run, nothing is fired unless the target's own newest results show what the rule asks for. */
  lemma {:induction false} FiringIsJustified(rules: seq<Rule>, arrivals: seq<Arrival>, f: Firing)
    requires WellClocked(|rules|, arrivals) && f in Run(rules, arrivals).log
    ensures exists i, k :: 0 <= i < |arrivals| && 0 <= k < |rules| && Justified(rules, arrivals, i, k, f)
  {
    if arrivals != [] {
      var front := arrivals[..|arrivals| - 1];
      var more := LastStep(rules, arrivals);
      if f in Run(rules, front).log {
        FiringIsJustified(rules, front, f);
        StaysJustified(rules, arrivals, f);
      } else {
        var n := |arrivals| - 1;
        var k := JustifyingRule(rules, arrivals[n].result.target, Newest(arrivals, n), arrivals[n].clock,
                                Run(rules, front).fired, f);
        NewIsJustified(rules, arrivals, k, f);
      }
      assert SomewhereJustified(rules, arrivals, f);
    }
  }

  lemma {:induction false} FiresOfAreLogged(log: seq<Firing>, ruleName: string, target: string)
    ensures forall f :: f in FiresOf(log, ruleName, target) ==>
      f in log && f.event.ruleName == ruleName && f.event.target == target
  {
    if log != [] {
      FiresOfAreLogged(log[..|log| - 1], ruleName, target);
    }
  }

  /** The hits of a run on its last result. */
  lemma LastHit(rule: Rule, k: nat, arrivals: seq<Arrival>) returns (hit: Firing)
    requires arrivals != [] && forall a :: a in arrivals ==> k < |a.clock|
    requires var n := |arrivals| - 1;
             Watches(rule, arrivals[n].result.target)
             && Shows(rule, Newest(arrivals, n), arrivals[n].clock[k].matchAt)
    ensures var n, target := |arrivals| - 1, arrivals[|arrivals| - 1].result.target;
            && hit.reading == arrivals[n].clock[k]
            && HitsOf(rule, k, target, arrivals) == HitsOf(rule, k, target, arrivals[..n]) + [hit]
  {
    var n := |arrivals| - 1;
    var target, reading := arrivals[n].result.target, arrivals[n].clock[k];
    assert arrivals[..n + 1] == arrivals;
    MatchesIsShown(rule, Newest(arrivals, n), reading.matchAt);
    var history := ForTarget(Results(arrivals), target);
    hit := Firing(Event(rule.name, target, reading.fireAt, LastN(WINDOW_CAP, history)), reading);
    assert HitBy(rule, target, history, LastN(WINDOW_CAP, history), reading) == [hit];
    assert HitsOf(rule, k, target, arrivals) == HitsOf(rule, k, target, arrivals[..n]) + [hit];
  }

  /**
   In every run, whenever the newest results of a target that a rule watches show what it asks for, the rule fires there
   and then, or it has a cooldown and has fired on the target less than that ago.
   */
  lemma EveryHitIsAnswered(rules: seq<Rule>, k: nat, arrivals: seq<Arrival>)
    requires Separable(rules) && k < |rules| && WellClocked(|rules|, arrivals) && arrivals != []
    requires var n := |arrivals| - 1;
             Watches(rules[k], arrivals[n].result.target)
             && Shows(rules[k], Newest(arrivals, n), arrivals[n].clock[k].matchAt)
    ensures var a := arrivals[|arrivals| - 1];
            exists f :: f in Run(rules, arrivals).log
              && f.event.ruleName == rules[k].name && f.event.target == a.result.target
              && (|| f.reading == a.clock[k]
                  || (rules[k].cooldown > 0 && a.clock[k].checkAt - f.reading.markAt < rules[k].cooldown))
  {
    var n := |arrivals| - 1;
    var rule, target, reading := rules[k], arrivals[n].result.target, arrivals[n].clock[k];
    var hit := LastHit(rule, k, arrivals);
    FiresAreGreedy(rules, k, target, arrivals);
    FiresOfAreLogged(Run(rules, arrivals).log, rule.name, target);
    var taken := Greedy(HitsOf(rule, k, target, arrivals), rule.cooldown);
    GreedyNext(HitsOf(rule, k, target, arrivals[..n]), [hit], rule.cooldown);
    var last := taken[|taken| - 1];
    assert last in taken;
  }

  /** A rule for every target fires on each like a rule for that target. */
  lemma WildcardFiresLikeOwn(rules: seq<Rule>, k: nat, target: string, arrivals: seq<Arrival>)
    requires Separable(rules) && k < |rules| && WellClocked(|rules|, arrivals) && rules[k].target == "*"
    ensures var own := rules[k := rules[k].(target := target)];
            FiresOf(Run(rules, arrivals).log, rules[k].name, target)
            == FiresOf(Run(own, arrivals).log, rules[k].name, target)
  {
    var own := rules[k := rules[k].(target := target)];
    assert forall i :: 0 <= i < |rules| ==> own[i].name == rules[i].name;
    FiresAreGreedy(rules, k, target, arrivals);
    FiresAreGreedy(own, k, target, arrivals);
    WildcardHitsLikeOwn(rules[k], k, target, arrivals);
  }

  lemma {:induction false} WildcardHitsLikeOwn(rule: Rule, k: nat, target: string, arrivals: seq<Arrival>)
    requires rule.target == "*" && forall a :: a in arrivals ==> k < |a.clock|
    ensures HitsOf(rule, k, target, arrivals) == HitsOf(rule.(target := target), k, target, arrivals)
  {
    if arrivals != [] {
      var n := |arrivals| - 1;
      var history, reading := ForTarget(Results(arrivals), target), arrivals[n].clock[k];
      WildcardHitsLikeOwn(rule, k, target, arrivals[..n]);
      SameMeaning(rule, rule.(target := target), LastN(WINDOW_CAP, history), reading.matchAt);
    }
  }

  /** What a rule asks the results to show does not depend on its target. */
  lemma SameMeaning(rule: Rule, other: Rule, h: seq<Result>, now: int)
    requires other == rule.(target := other.target)
    ensures Matches(rule, h, now) == Matches(other, h, now)
  {
    MatchesIsShown(rule, h, now);
    MatchesIsShown(other, h, now);
  }

  /** A rule for another target never fires. */
  lemma OtherTargetNeverFires(rules: seq<Rule>, k: nat, target: string, arrivals: seq<Arrival>)
    requires Separable(rules) && k < |rules| && WellClocked(|rules|, arrivals)
    requires rules[k].target != "*" && rules[k].target != target
    ensures FiresOf(Run(rules, arrivals).log, rules[k].name, target) == []
  {
    FiresAreGreedy(rules, k, target, arrivals);
    NeverHits(rules[k], k, target, arrivals);
  }

  lemma {:induction false} NeverHits(rule: Rule, k: nat, target: string, arrivals: seq<Arrival>)
    requires rule.target != "*" && rule.target != target && forall a :: a in arrivals ==> k < |a.clock|
    ensures HitsOf(rule, k, target, arrivals) == []
  {
    if arrivals != [] {
      NeverHits(rule, k, target, arrivals[..|arrivals| - 1]);
    }
  }
}
