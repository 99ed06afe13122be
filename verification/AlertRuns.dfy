/**
 Whole runs of the alert engine. For every rule and target, what fires is the greedy cooldown-spaced selection
 of that rule's own hits on that target: nothing another rule or target does can change it, and no other
 cooldown-spaced selection is larger.
 */
module AlertRuns {
  import opened Checker
  import opened History
  import opened Keys
  import opened Rules
  import opened WindowRefinement
  import opened Suppression
  import opened Evaluation

  ghost predicate WellClocked(n: nat, arrivals: seq<Arrival>) {
    forall i :: 0 <= i < |arrivals| ==> |arrivals[i].clock| == n
  }

  ghost function Run(rules: seq<Rule>, arrivals: seq<Arrival>): Engine
    requires WellClocked(|rules|, arrivals)
  {
    if arrivals == [] then InitEngine() else
    Step(rules, Run(rules, arrivals[..|arrivals| - 1]), arrivals[|arrivals| - 1])
  }

  function Results(arrivals: seq<Arrival>): (h: seq<Result>)
    ensures |h| == |arrivals|
  {
    seq(|arrivals|, i requires 0 <= i < |arrivals| => arrivals[i].result)
  }

  lemma ResultsSnoc(arrivals: seq<Arrival>)
    requires arrivals != []
    ensures Results(arrivals) == Results(arrivals[..|arrivals| - 1]) + [arrivals[|arrivals| - 1].result]
  {
  }

  /** The firings of one rule on one target. */
  function FiresOf(log: seq<Firing>, ruleName: string, target: string): seq<Firing> {
    if log == [] then [] else
    var front, last := FiresOf(log[..|log| - 1], ruleName, target), log[|log| - 1];
    if last.event.ruleName == ruleName && last.event.target == target then front + [last] else front
  }

  /** A rule's firing on a target if it hits there, whatever the cooldown says. */
  function HitBy(rule: Rule, target: string, history: seq<Result>, decidedOn: seq<Result>, reading: Reading)
    : seq<Firing>
  {
    if Hits(rule, target, decidedOn, reading)
    then [Firing(Event(rule.name, target, reading.fireAt, LastN(WINDOW_CAP, history)), reading)]
    else []
  }

  /** The hits of the rule with clock index k on one target, each decided on the newest results only. */
  ghost function HitsOf(rule: Rule, k: nat, target: string, arrivals: seq<Arrival>): seq<Firing>
    requires forall a :: a in arrivals ==> k < |a.clock|
  {
    if arrivals == [] then [] else
    var front, last := arrivals[..|arrivals| - 1], arrivals[|arrivals| - 1];
    var history := ForTarget(Results(arrivals), target);
    HitsOf(rule, k, target, front)
      + if last.result.target == target
        then HitBy(rule, target, history, LastN(WINDOW_CAP, history), last.clock[k]) else []
  }

  /** The same hits, each decided on everything the target ever reported. */
  ghost function FullHitsOf(rule: Rule, k: nat, target: string, arrivals: seq<Arrival>): seq<Firing>
    requires forall a :: a in arrivals ==> k < |a.clock|
  {
    if arrivals == [] then [] else
    var front, last := arrivals[..|arrivals| - 1], arrivals[|arrivals| - 1];
    var history := ForTarget(Results(arrivals), target);
    FullHitsOf(rule, k, target, front)
      + if last.result.target == target then HitBy(rule, target, history, history, last.clock[k]) else []
  }

  /** Take every hit that is far enough from the last one taken. */
  function Greedy(hits: seq<Firing>, cooldown: int): (taken: seq<Firing>)
    ensures |taken| <= |hits|
    ensures hits != [] ==> taken != []
    ensures forall f :: f in taken ==> f in hits
  {
    if hits == [] then [] else Next(Greedy(hits[..|hits| - 1], cooldown), hits[|hits| - 1], cooldown)
  }

  function Next(taken: seq<Firing>, hit: Firing, cooldown: int): seq<Firing> {
    if cooldown <= 0 || taken == [] || hit.reading.checkAt - taken[|taken| - 1].reading.markAt >= cooldown
    then taken + [hit] else taken
  }

  // ----- one run, seen from one rule and one target -----

  /** No rule's name extends another's past the separator, and names are unique. */
  ghost predicate Separable(rules: seq<Rule>) {
    forall i, j :: 0 <= i < |rules| && 0 <= j < |rules| && i != j
      ==> rules[i].name != rules[j].name && !Extends(':', rules[i].name, rules[j].name)
  }

  function Entry(fired: map<string, int>, key: string): Option<int> {
    if key in fired then Some(fired[key]) else None
  }

  function LastMark(taken: seq<Firing>): Option<int> {
    if taken == [] then None else Some(taken[|taken| - 1].reading.markAt)
  }

  lemma {:induction false} FiresOfAppend(a: seq<Firing>, b: seq<Firing>, ruleName: string, target: string)
    ensures FiresOf(a + b, ruleName, target) == FiresOf(a, ruleName, target) + FiresOf(b, ruleName, target)
  {
    if b == [] {
      assert a + b == a;
    } else {
      assert (a + b)[..|a + b| - 1] == a + b[..|b| - 1];
      FiresOfAppend(a, b[..|b| - 1], ruleName, target);
    }
  }

  lemma OtherKey(rules: seq<Rule>, j: nat, at: string, k: nat, target: string)
    requires Separable(rules) && j < |rules| && k < |rules|
    requires j != k || at != target
    ensures Key(rules[j].name, at) != Key(rules[k].name, target)
  {
    if Key(rules[j].name, at) == Key(rules[k].name, target) {
      JoinInjective(':', rules[j].name, at, rules[k].name, target);
    }
  }

  /** One rule's own effect depends only on its own entry. */
  lemma OwnEntry(rule: Rule, target: string, recent: seq<Result>, reading: Reading,
                 m: map<string, int>, m': map<string, int>)
    requires Entry(m, Key(rule.name, target)) == Entry(m', Key(rule.name, target))
    ensures FiredBy(rule, target, recent, reading, m) == FiredBy(rule, target, recent, reading, m')
    ensures Entry(AfterRule(rule, target, recent, reading, m), Key(rule.name, target))
      == Entry(AfterRule(rule, target, recent, reading, m'), Key(rule.name, target))
  {
  }

  /** A rule leaves the entry and the firings of every other rule, and of itself on every other target, alone. */
  lemma OtherEntry(rules: seq<Rule>, j: nat, at: string, k: nat, target: string,
                   recent: seq<Result>, reading: Reading, m: map<string, int>)
    requires Separable(rules) && j < |rules| && k < |rules|
    requires j != k || at != target
    ensures Entry(AfterRule(rules[j], at, recent, reading, m), Key(rules[k].name, target))
      == Entry(m, Key(rules[k].name, target))
    ensures FiresOf(FiredBy(rules[j], at, recent, reading, m), rules[k].name, target) == []
  {
    OtherKey(rules, j, at, k, target);
  }

  lemma OwnFires(rule: Rule, target: string, recent: seq<Result>, reading: Reading, m: map<string, int>)
    ensures FiresOf(FiredBy(rule, target, recent, reading, m), rule.name, target)
      == FiredBy(rule, target, recent, reading, m)
  {
  }

  /** Of all rules run on one result, only the rule itself on the target itself touches its own entry and firings. */
  lemma {:induction false} RulesProject(rules: seq<Rule>, n: nat, k: nat, target: string,
                                        at: string, recent: seq<Result>, clock: seq<Reading>, fired: map<string, int>)
    requires Separable(rules) && |clock| == |rules| && n <= |rules| && k < |rules|
    ensures var (m, log) := AfterRules(rules[..n], at, recent, clock[..n], fired);
            var rule, key := rules[k], Key(rules[k].name, target);
            if k < n && at == target then
              && Entry(m, key) == Entry(AfterRule(rule, target, recent, clock[k], fired), key)
              && FiresOf(log, rule.name, target) == FiredBy(rule, target, recent, clock[k], fired)
            else
              Entry(m, key) == Entry(fired, key) && FiresOf(log, rule.name, target) == []
  {
    if n > 0 {
      RulesProject(rules, n - 1, k, target, at, recent, clock, fired);
      AfterRulesNext(rules, n - 1, at, recent, clock, fired);
      var (m, log) := AfterRules(rules[..n - 1], at, recent, clock[..n - 1], fired);
      OneMoreProjects(rules, n - 1, k, target, at, recent, clock[n - 1], m, log);
      if n - 1 == k && at == target {
        OwnEntry(rules[k], target, recent, clock[k], m, fired);
      }
    }
  }

  /** One rule more adds its own firings for itself, and nothing for any other rule. */
  lemma OneMoreProjects(rules: seq<Rule>, j: nat, k: nat, target: string, at: string, recent: seq<Result>,
                        reading: Reading, m: map<string, int>, log: seq<Firing>)
    requires Separable(rules) && j < |rules| && k < |rules|
    ensures var own, key := FiredBy(rules[j], at, recent, reading, m), Key(rules[k].name, target);
            && FiresOf(log + own, rules[k].name, target)
               == FiresOf(log, rules[k].name, target) + (if j == k && at == target then own else [])
            && (j != k || at != target ==> Entry(AfterRule(rules[j], at, recent, reading, m), key) == Entry(m, key))
  {
    FiresOfAppend(log, FiredBy(rules[j], at, recent, reading, m), rules[k].name, target);
    if j == k && at == target {
      OwnFires(rules[k], target, recent, reading, m);
    } else {
      OtherEntry(rules, j, at, k, target, recent, reading, m);
    }
  }

  /** The engine's state agrees with the greedy selection for one rule and target. */
  ghost predicate Agrees(e: Engine, rule: Rule, target: string, taken: seq<Firing>) {
    && FiresOf(e.log, rule.name, target) == taken
    && (rule.cooldown > 0 ==> Entry(e.fired, Key(rule.name, target)) == LastMark(taken))
  }

  /** On its own target, a rule fires what the greedy selection takes next, and marks what it took last. */
  lemma OwnStep(rule: Rule, target: string, history: seq<Result>, reading: Reading,
                fired: map<string, int>, hits: seq<Firing>)
    requires rule.cooldown > 0 ==> Entry(fired, Key(rule.name, target)) == LastMark(Greedy(hits, rule.cooldown))
    ensures var recent := LastN(WINDOW_CAP, history);
            var taken := Greedy(hits + HitBy(rule, target, history, recent, reading), rule.cooldown);
            && taken == Greedy(hits, rule.cooldown) + FiredBy(rule, target, recent, reading, fired)
            && (rule.cooldown > 0 ==>
                  Entry(AfterRule(rule, target, recent, reading, fired), Key(rule.name, target)) == LastMark(taken))
  {
    GreedyNext(hits, HitBy(rule, target, history, LastN(WINDOW_CAP, history), reading), rule.cooldown);
  }

  /** One result moves the engine and the greedy selection together. */
  lemma StepProjects(rules: seq<Rule>, k: nat, target: string, e: Engine, a: Arrival, hits: seq<Firing>)
    requires Separable(rules) && k < |rules| && |a.clock| == |rules|
    requires Agrees(e, rules[k], target, Greedy(hits, rules[k].cooldown))
    ensures var history := ForTarget(e.seen + [a.result], target);
            var more := if a.result.target == target
              then HitBy(rules[k], target, history, LastN(WINDOW_CAP, history), a.clock[k]) else [];
            Agrees(Step(rules, e, a), rules[k], target, Greedy(hits + more, rules[k].cooldown))
  {
    var rule, at := rules[k], a.result.target;
    var history := ForTarget(e.seen + [a.result], at);
    var recent := LastN(WINDOW_CAP, history);
    var after := AfterRules(rules, at, recent, a.clock, e.fired);
    assert rules[..|rules|] == rules && a.clock[..|rules|] == a.clock;
    RulesProject(rules, |rules|, k, target, at, recent, a.clock, e.fired);
    FiresOfAppend(e.log, after.1, rule.name, target);
    assert Step(rules, e, a) == Engine(e.seen + [a.result], after.0, e.log + after.1);
    if at == target {
      OwnStep(rule, target, history, a.clock[k], e.fired, hits);
    } else {
      assert hits + [] == hits;
    }
  }

  lemma {:induction false} RunProjects(rules: seq<Rule>, k: nat, target: string, arrivals: seq<Arrival>)
    requires Separable(rules) && k < |rules| && WellClocked(|rules|, arrivals)
    ensures Run(rules, arrivals).seen == Results(arrivals)
    ensures Agrees(Run(rules, arrivals), rules[k], target,
                   Greedy(HitsOf(rules[k], k, target, arrivals), rules[k].cooldown))
  {
    if arrivals != [] {
      var front, last := arrivals[..|arrivals| - 1], arrivals[|arrivals| - 1];
      RunProjects(rules, k, target, front);
      ResultsSnoc(arrivals);
      StepProjects(rules, k, target, Run(rules, front), last, HitsOf(rules[k], k, target, front));
    }
  }

  lemma GreedyNext(hits: seq<Firing>, more: seq<Firing>, cooldown: int)
    requires |more| <= 1
    ensures Greedy(hits + more, cooldown)
      == if more == [] then Greedy(hits, cooldown) else Next(Greedy(hits, cooldown), more[0], cooldown)
  {
    if more == [] {
      assert hits + more == hits;
    } else {
      assert (hits + more)[..|hits|] == hits;
      assert more == [more[0]];
    }
  }

  /** What one rule fires on one target in any run is the greedy selection of its own hits there. */
  lemma FiresAreGreedy(rules: seq<Rule>, k: nat, target: string, arrivals: seq<Arrival>)
    requires Separable(rules) && k < |rules| && WellClocked(|rules|, arrivals)
    ensures FiresOf(Run(rules, arrivals).log, rules[k].name, target)
      == Greedy(HitsOf(rules[k], k, target, arrivals), rules[k].cooldown)
  {
    RunProjects(rules, k, target, arrivals);
  }

  // ----- the greedy selection is spaced, and no spaced selection is larger -----

  /** The clock never goes back: each call marks no earlier than it checks, and the next call checks no earlier. */
  ghost predicate Ordered(hits: seq<Firing>) {
    && (forall i :: 0 <= i < |hits| ==> hits[i].reading.checkAt <= hits[i].reading.markAt)
    && (forall i, j :: 0 <= i < j < |hits| ==> hits[i].reading.markAt <= hits[j].reading.checkAt)
  }

  ghost predicate Spaced(fs: seq<Firing>, cooldown: int) {
    forall i, j :: 0 <= i < j < |fs| ==> fs[j].reading.checkAt - fs[i].reading.markAt >= cooldown
  }

  /** The hits chosen by a mask, in order. */
  function Chosen(hits: seq<Firing>, mask: seq<bool>): (chosen: seq<Firing>)
    requires |mask| == |hits|
  {
    if hits == [] then [] else
    var n := |hits| - 1;
    Chosen(hits[..n], mask[..n]) + if mask[n] then [hits[n]] else []
  }

  /** Every earlier hit is marked before the last one is checked. */
  lemma AllBeforeLast(hits: seq<Firing>)
    requires hits != [] && Ordered(hits)
    ensures Ordered(hits[..|hits| - 1])
    ensures forall f :: f in hits[..|hits| - 1] ==> f.reading.markAt <= hits[|hits| - 1].reading.checkAt
  {
    var n := |hits| - 1;
    forall f | f in hits[..n]
      ensures f.reading.markAt <= hits[n].reading.checkAt
    {
      var i :| 0 <= i < n && hits[i] == f;
    }
  }

  lemma NextKeeps(taken: seq<Firing>, hit: Firing, cooldown: int)
    requires Ordered(taken) && Spaced(taken, cooldown) && hit.reading.checkAt <= hit.reading.markAt
    requires forall f :: f in taken ==> f.reading.markAt <= hit.reading.checkAt
    ensures Ordered(Next(taken, hit, cooldown)) && Spaced(Next(taken, hit, cooldown), cooldown)
  {
    forall i | 0 <= i < |taken|
      ensures taken[i].reading.markAt <= hit.reading.checkAt
      ensures taken[i].reading.markAt <= taken[|taken| - 1].reading.markAt
    {
      assert taken[i] in taken;
      if i < |taken| - 1 {
        assert taken[i].reading.markAt <= taken[|taken| - 1].reading.checkAt;
      }
    }
  }

  lemma {:induction false} GreedyIsSpaced(hits: seq<Firing>, cooldown: int)
    requires Ordered(hits)
    ensures Ordered(Greedy(hits, cooldown)) && Spaced(Greedy(hits, cooldown), cooldown)
  {
    if hits != [] {
      var n := |hits| - 1;
      AllBeforeLast(hits);
      GreedyIsSpaced(hits[..n], cooldown);
      NextKeeps(Greedy(hits[..n], cooldown), hits[n], cooldown);
    }
  }

  lemma {:induction false} GreedyIsChoice(hits: seq<Firing>, cooldown: int) returns (mask: seq<bool>)
    ensures |mask| == |hits| && Chosen(hits, mask) == Greedy(hits, cooldown)
  {
    if hits == [] {
      mask := [];
    } else {
      var n := |hits| - 1;
      var front := GreedyIsChoice(hits[..n], cooldown);
      var taken := Greedy(hits[..n], cooldown);
      mask := front + [Next(taken, hits[n], cooldown) != taken];
      assert mask[..n] == front;
      assert taken + [] == taken;
    }
  }

  /** The greedy selection is a choice among the hits, and a spaced one. */
  lemma GreedyIsSpacedChoice(hits: seq<Firing>, cooldown: int) returns (mask: seq<bool>)
    requires Ordered(hits)
    ensures |mask| == |hits| && Chosen(hits, mask) == Greedy(hits, cooldown)
    ensures Spaced(Greedy(hits, cooldown), cooldown)
  {
    mask := GreedyIsChoice(hits, cooldown);
    GreedyIsSpaced(hits, cooldown);
  }

  lemma TakenBefore(hits: seq<Firing>, cooldown: int)
    requires hits != [] && Ordered(hits)
    ensures var n := |hits| - 1;
            var taken := Greedy(hits[..n], cooldown);
            taken != [] ==> taken[|taken| - 1].reading.markAt <= hits[n].reading.checkAt
  {
    var taken := Greedy(hits[..|hits| - 1], cooldown);
    AllBeforeLast(hits);
    if taken != [] {
      assert taken[|taken| - 1] in taken;
    }
  }

  lemma ChosenFront(hits: seq<Firing>, mask: seq<bool>, cooldown: int)
    requires |mask| == |hits| > 0 && Spaced(Chosen(hits, mask), cooldown)
    ensures var n := |hits| - 1;
            var front := Chosen(hits[..n], mask[..n]);
            && Spaced(front, cooldown)
            && (mask[n] && front != [] ==>
                  hits[n].reading.checkAt - front[|front| - 1].reading.markAt >= cooldown)
  {
    var n := |hits| - 1;
    var front, chosen := Chosen(hits[..n], mask[..n]), Chosen(hits, mask);
    assert forall i :: 0 <= i < |front| ==> front[i] == chosen[i];
    if mask[n] && front != [] {
      assert chosen[|front|] == hits[n];
      assert chosen[|front| - 1] == front[|front| - 1];
    }
  }

  /** At least as many taken as chosen, and with equally many the last one taken is no later. */
  ghost predicate Ahead(taken: seq<Firing>, chosen: seq<Firing>) {
    && |chosen| <= |taken|
    && (0 < |chosen| == |taken| ==> taken[|taken| - 1].reading.markAt <= chosen[|chosen| - 1].reading.markAt)
  }

  lemma AheadByOneMore(taken: seq<Firing>, chosen: seq<Firing>, hit: Firing, cooldown: int, picked: bool)
    requires Ahead(taken, chosen)
    requires hit.reading.checkAt <= hit.reading.markAt
    requires taken != [] ==> taken[|taken| - 1].reading.markAt <= hit.reading.checkAt
    requires picked && chosen != [] ==> hit.reading.checkAt - chosen[|chosen| - 1].reading.markAt >= cooldown
    ensures Ahead(Next(taken, hit, cooldown), chosen + if picked then [hit] else [])
  {
    assert chosen + [] == chosen;
  }

  /** No spaced choice among the hits gets ahead of the greedy selection. */
  lemma {:induction false} GreedyStaysAhead(hits: seq<Firing>, mask: seq<bool>, cooldown: int)
    requires |mask| == |hits| && Ordered(hits) && Spaced(Chosen(hits, mask), cooldown)
    ensures Ahead(Greedy(hits, cooldown), Chosen(hits, mask))
  {
    if hits != [] {
      var n := |hits| - 1;
      ChosenFront(hits, mask, cooldown);
      TakenBefore(hits, cooldown);
      GreedyStaysAhead(hits[..n], mask[..n], cooldown);
      AheadByOneMore(Greedy(hits[..n], cooldown), Chosen(hits[..n], mask[..n]), hits[n], cooldown, mask[n]);
    }
  }

  ghost predicate ClockOrdered(arrivals: seq<Arrival>, k: nat)
    requires forall a :: a in arrivals ==> k < |a.clock|
  {
    && (forall i :: 0 <= i < |arrivals| ==> arrivals[i].clock[k].checkAt <= arrivals[i].clock[k].markAt)
    && (forall i, j :: 0 <= i < j < |arrivals| ==> arrivals[i].clock[k].markAt <= arrivals[j].clock[k].checkAt)
  }

  lemma {:induction false} HitsOrdered(rule: Rule, k: nat, target: string, arrivals: seq<Arrival>)
    requires forall a :: a in arrivals ==> k < |a.clock|
    requires ClockOrdered(arrivals, k)
    ensures Ordered(HitsOf(rule, k, target, arrivals))
    ensures forall f :: f in HitsOf(rule, k, target, arrivals)
              ==> exists i :: 0 <= i < |arrivals| && arrivals[i].clock[k] == f.reading
  {
    if arrivals != [] {
      var n := |arrivals| - 1;
      HitsOrdered(rule, k, target, arrivals[..n]);
      var front := HitsOf(rule, k, target, arrivals[..n]);
      forall f | f in front
        ensures exists i :: 0 <= i < |arrivals| && arrivals[i].clock[k] == f.reading
        ensures f.reading.markAt <= arrivals[n].clock[k].checkAt
      {
        var i :| 0 <= i < |arrivals[..n]| && arrivals[..n][i].clock[k] == f.reading;
        assert arrivals[i].clock[k] == f.reading;
      }
    }
  }

  /**
   In any run, the firings of a rule on a target are at least the cooldown apart, and no choice of that rule's
   hits there with the same spacing is larger.
   */
  lemma FiresAreSpacedAndMost(rules: seq<Rule>, k: nat, target: string, arrivals: seq<Arrival>, mask: seq<bool>)
    requires Separable(rules) && k < |rules| && WellClocked(|rules|, arrivals) && ClockOrdered(arrivals, k)
    ensures Spaced(FiresOf(Run(rules, arrivals).log, rules[k].name, target), rules[k].cooldown)
    ensures var hits := HitsOf(rules[k], k, target, arrivals);
            |mask| == |hits| && Spaced(Chosen(hits, mask), rules[k].cooldown)
            ==> |Chosen(hits, mask)| <= |FiresOf(Run(rules, arrivals).log, rules[k].name, target)|
  {
    var rule := rules[k];
    var hits := HitsOf(rule, k, target, arrivals);
    FiresAreGreedy(rules, k, target, arrivals);
    HitsOrdered(rule, k, target, arrivals);
    var greedy := GreedyIsSpacedChoice(hits, rule.cooldown);
    if |mask| == |hits| && Spaced(Chosen(hits, mask), rule.cooldown) {
      GreedyStaysAhead(hits, mask, rule.cooldown);
    }
  }

  // ----- the bounded window takes the decisions of the whole stream -----

  /** The window is large enough for this rule's decision on this history. */
  ghost predicate WindowCovers(rule: Rule, history: seq<Result>, now: int) {
    || rule.threshold <= 0
    || (IsConsecutive(rule) && rule.threshold <= WINDOW_CAP)
    || (rule.kind == ERROR_RATE_WINDOW && TimeOrdered(history) && CountSince(history, now - rule.window) <= WINDOW_CAP)
  }

  ghost predicate AlwaysCovers(rule: Rule, k: nat, target: string, arrivals: seq<Arrival>)
    requires forall a :: a in arrivals ==> k < |a.clock|
  {
    forall n :: 0 <= n < |arrivals| && arrivals[n].result.target == target
      ==> WindowCovers(rule, ForTarget(Results(arrivals[..n + 1]), target), arrivals[n].clock[k].matchAt)
  }

  lemma DecisionCovered(rule: Rule, history: seq<Result>, now: int)
    requires WindowCovers(rule, history, now)
    ensures Matches(rule, LastN(WINDOW_CAP, history), now) == Matches(rule, history, now)
  {
    if IsConsecutive(rule) {
      ConsecutiveOnWindow(rule, history, now);
    } else if rule.kind == ERROR_RATE_WINDOW && rule.threshold > 0 {
      RateOnWindow(rule, history, now);
    }
  }

  lemma FrontIsCovered(rule: Rule, k: nat, target: string, arrivals: seq<Arrival>)
    requires forall a :: a in arrivals ==> k < |a.clock|
    requires arrivals != [] && AlwaysCovers(rule, k, target, arrivals)
    ensures AlwaysCovers(rule, k, target, arrivals[..|arrivals| - 1])
  {
    var front := arrivals[..|arrivals| - 1];
    forall i | 0 <= i < |front| && front[i].result.target == target
      ensures WindowCovers(rule, ForTarget(Results(front[..i + 1]), target), front[i].clock[k].matchAt)
    {
      assert front[..i + 1] == arrivals[..i + 1];
    }
  }

  lemma {:induction false} HitsAreFullHits(rule: Rule, k: nat, target: string, arrivals: seq<Arrival>)
    requires forall a :: a in arrivals ==> k < |a.clock|
    requires AlwaysCovers(rule, k, target, arrivals)
    ensures HitsOf(rule, k, target, arrivals) == FullHitsOf(rule, k, target, arrivals)
  {
    if arrivals != [] {
      var n := |arrivals| - 1;
      FrontIsCovered(rule, k, target, arrivals);
      HitsAreFullHits(rule, k, target, arrivals[..n]);
      assert arrivals[..n + 1] == arrivals;
      if arrivals[n].result.target == target {
        DecisionCovered(rule, ForTarget(Results(arrivals), target), arrivals[n].clock[k].matchAt);
      }
    }
  }

  /**
   The engine, which remembers 50 results and one time per key, fires exactly what a specification fires that
   decides every hit on the whole stream and selects among all hits so far.
   */
  lemma FiresRefineFullHistory(rules: seq<Rule>, k: nat, target: string, arrivals: seq<Arrival>)
    requires Separable(rules) && k < |rules| && WellClocked(|rules|, arrivals)
    requires AlwaysCovers(rules[k], k, target, arrivals)
    ensures FiresOf(Run(rules, arrivals).log, rules[k].name, target)
      == Greedy(FullHitsOf(rules[k], k, target, arrivals), rules[k].cooldown)
  {
    FiresAreGreedy(rules, k, target, arrivals);
    HitsAreFullHits(rules[k], k, target, arrivals);
  }

  // ----- no interference between rules or between targets -----

  /** The run as it would be with this rule and this target alone, on the same clock readings. */
  function Alone(k: nat, target: string, arrivals: seq<Arrival>): (own: seq<Arrival>)
    requires forall a :: a in arrivals ==> k < |a.clock|
    ensures forall i :: 0 <= i < |own| ==> |own[i].clock| == 1
  {
    if arrivals == [] then [] else
    var front, last := arrivals[..|arrivals| - 1], arrivals[|arrivals| - 1];
    Alone(k, target, front) + if last.result.target == target then [Arrival(last.result, [last.clock[k]])] else []
  }

  lemma {:induction false} AloneKeepsHits(rule: Rule, k: nat, target: string, arrivals: seq<Arrival>)
    requires forall a :: a in arrivals ==> k < |a.clock|
    ensures Results(Alone(k, target, arrivals)) == ForTarget(Results(arrivals), target)
    ensures ForTarget(Results(Alone(k, target, arrivals)), target) == ForTarget(Results(arrivals), target)
    ensures HitsOf(rule, 0, target, Alone(k, target, arrivals)) == HitsOf(rule, k, target, arrivals)
  {
    if arrivals != [] {
      var front, last := arrivals[..|arrivals| - 1], arrivals[|arrivals| - 1];
      AloneKeepsHits(rule, k, target, front);
      ResultsSnoc(arrivals);
      ForTargetSnoc(Results(front), last.result, target);
      var own := Alone(k, target, arrivals);
      if last.result.target == target {
        assert own[..|own| - 1] == Alone(k, target, front);
        ResultsSnoc(own);
        ForTargetSnoc(Results(own[..|own| - 1]), last.result, target);
      } else {
        assert own == Alone(k, target, front);
      }
    }
  }

  /** Deleting every other rule and every other target's results leaves a rule's firings on a target unchanged. */
  lemma NonInterference(rules: seq<Rule>, k: nat, target: string, arrivals: seq<Arrival>)
    requires Separable(rules) && k < |rules| && WellClocked(|rules|, arrivals)
    ensures FiresOf(Run(rules, arrivals).log, rules[k].name, target)
      == FiresOf(Run([rules[k]], Alone(k, target, arrivals)).log, rules[k].name, target)
  {
    var own := Alone(k, target, arrivals);
    FiresAreGreedy(rules, k, target, arrivals);
    FiresAreGreedy([rules[k]], 0, target, own);
    AloneKeepsHits(rules[k], k, target, arrivals);
  }
}
