/** Exactly which rule names keep the rules' cooldowns apart, given that a name and a target share one key. */
module AlertNames {
  import opened Checker
  import opened History
  import opened Keys
  import opened Rules
  import opened WindowRefinement
  import opened Suppression
  import opened Evaluation
  import opened AlertRuns

  /** A rule fires on a target exactly the greedy selection of its own hits. */
  ghost predicate Exact(rules: seq<Rule>, k: nat, target: string, arrivals: seq<Arrival>)
    requires k < |rules| && WellClocked(|rules|, arrivals)
  {
    FiresOf(Run(rules, arrivals).log, rules[k].name, target)
    == Greedy(HitsOf(rules[k], k, target, arrivals), rules[k].cooldown)
  }

  predicate Named(rules: seq<Rule>, names: seq<string>) {
    |rules| == |names| && forall i :: 0 <= i < |rules| ==> rules[i].name == names[i]
  }

  /** Whatever the rules of these names are, every one of them is exact on every target in every run. */
  ghost predicate KeptApart(names: seq<string>) {
    forall rules: seq<Rule>, k: nat, target: string, arrivals: seq<Arrival> ::
      Named(rules, names) && k < |rules| && WellClocked(|rules|, arrivals) ==> Exact(rules, k, target, arrivals)
  }

  predicate Distinct(names: seq<string>) {
    forall i, j :: 0 <= i < j < |names| ==> names[i] != names[j]
  }

  /** No name continues another one after a colon. */
  predicate NoneExtends(names: seq<string>) {
    forall i, j :: 0 <= i < |names| && 0 <= j < |names| && i != j ==> !Extends(':', names[i], names[j])
  }

  const CLOCK := Reading(0, 0, 0, 0, 0)

  function DownRule(name: string, target: string): Rule {
    Rule.Rule(name, target, CONSECUTIVE_STATUS, STATUS_DOWN, "", 1, 0, 1, "hook")
  }

  function DownResult(target: string): Result {
    Result.Result(target, STATUS_DOWN, 0, "", 0)
  }

  function Clock(n: nat): (clock: seq<Reading>)
    ensures |clock| == n && forall i :: 0 <= i < n ==> clock[i] == CLOCK
  {
    seq(n, _ => CLOCK)
  }

  function Down(n: nat, target: string): Arrival {
    Arrival(DownResult(target), Clock(n))
  }

  function FirstFiring(name: string, at: string): Firing {
    Firing(Event(name, at, 0, [DownResult(at)]), CLOCK)
  }

  // ----- one rule at a time -----

  /** Of all rules, only this one applies to the target. */
  predicate OnlyApplies(rules: seq<Rule>, k: nat, at: string) {
    forall i :: 0 <= i < |rules| && i != k ==> !AppliesTo(rules[i], at)
  }

  /** When only one rule applies, what all the rules do is what that one does. */
  lemma {:induction false} OnlyOneActs(
    rules: seq<Rule>, n: nat, k: nat, at: string, recent: seq<Result>, fired: map<string, int>)
    requires n <= |rules| && k < |rules| && OnlyApplies(rules, k, at)
    ensures AfterRules(rules[..n], at, recent, Clock(|rules|)[..n], fired)
      == if k < n then (AfterRule(rules[k], at, recent, CLOCK, fired), FiredBy(rules[k], at, recent, CLOCK, fired))
         else (fired, [])
  {
    if n > 0 {
      OnlyOneActs(rules, n - 1, k, at, recent, fired);
      AfterRulesNext(rules, n - 1, at, recent, Clock(|rules|), fired);
      OneMoreActs(rules[n - 1], n - 1 == k, at, recent, fired, FiredBy(rules[k], at, recent, CLOCK, fired));
    }
  }

  lemma OneMoreActs(rule: Rule, acts: bool, at: string, recent: seq<Result>, m: map<string, int>, log: seq<Firing>)
    requires acts || !AppliesTo(rule, at)
    ensures [] + FiredBy(rule, at, recent, CLOCK, m) == FiredBy(rule, at, recent, CLOCK, m)
    ensures !acts ==> forall m' :: AfterRule(rule, at, recent, CLOCK, m') == m'
    ensures !acts ==> forall m' :: FiredBy(rule, at, recent, CLOCK, m') == []
    ensures log + [] == log
  {
  }

  lemma DownHits(name: string, at: string)
    ensures Hits(DownRule(name, at), at, [DownResult(at)], CLOCK)
  {
    assert [DownResult(at)][..0] == [];
  }

  /** A rule for down results fires and is marked when its key is new, and is held back when it is marked at 0. */
  lemma DownRuleActs(rule: Rule, at: string, fired: map<string, int>)
    requires rule == DownRule(rule.name, at)
    ensures var key, recent := Key(rule.name, at), [DownResult(at)];
            && (key !in fired ==>
                  && AfterRule(rule, at, recent, CLOCK, fired) == fired[key := 0]
                  && FiredBy(rule, at, recent, CLOCK, fired) == [FirstFiring(rule.name, at)])
            && (key in fired && fired[key] == 0 ==> FiredBy(rule, at, recent, CLOCK, fired) == [])
  {
    DownHits(rule.name, at);
  }

  /** One down result on a target that has reported nothing yet. */
  lemma StepOnFresh(rules: seq<Rule>, k: nat, at: string, e: Engine)
    requires k < |rules| && rules[k] == DownRule(rules[k].name, at) && OnlyApplies(rules, k, at)
    requires ForTarget(e.seen + [DownResult(at)], at) == [DownResult(at)]
    ensures var next, recent := Step(rules, e, Down(|rules|, at)), [DownResult(at)];
            && next.seen == e.seen + recent
            && next.fired == AfterRule(rules[k], at, recent, CLOCK, e.fired)
            && next.log == e.log + FiredBy(rules[k], at, recent, CLOCK, e.fired)
  {
    OnlyOneActs(rules, |rules|, k, at, [DownResult(at)], e.fired);
    assert rules[..|rules|] == rules && Clock(|rules|)[..|rules|] == Clock(|rules|);
  }

  // ----- one rule's firing silences another's first hit -----

  /** The engine after the first down result, on which the rule with index i has fired. */
  function AfterFirst(name: string, x: string): Engine {
    Engine([DownResult(x)], map[Key(name, x) := 0], [FirstFiring(name, x)])
  }

  lemma FirstStep(rules: seq<Rule>, i: nat, x: string)
    requires i < |rules| && rules[i] == DownRule(rules[i].name, x) && OnlyApplies(rules, i, x)
    ensures Step(rules, InitEngine(), Down(|rules|, x)) == AfterFirst(rules[i].name, x)
  {
    FreshHistory(x);
    StepOnFresh(rules, i, x, InitEngine());
    DownRuleActs(rules[i], x, map[]);
  }

  lemma SecondStep(rules: seq<Rule>, j: nat, name: string, x: string)
    requires j < |rules| && rules[j] == DownRule(rules[j].name, "t") && OnlyApplies(rules, j, "t")
    requires x != "t" && Key(name, x) == Key(rules[j].name, "t")
    ensures Step(rules, AfterFirst(name, x), Down(|rules|, "t")).log == [FirstFiring(name, x)]
  {
    SecondHistory(x);
    StepOnFresh(rules, j, "t", AfterFirst(name, x));
    DownRuleActs(rules[j], "t", AfterFirst(name, x).fired);
    assert AfterFirst(name, x).log + [] == AfterFirst(name, x).log;
  }

  lemma FreshHistory(x: string)
    ensures [] + [DownResult(x)] == [DownResult(x)]
    ensures ForTarget([DownResult(x)], x) == [DownResult(x)]
  {
    assert [] + [DownResult(x)] == [DownResult(x)];
    ForTargetSnoc([], DownResult(x), x);
  }

  lemma SecondHistory(x: string)
    requires x != "t"
    ensures ForTarget([DownResult(x)] + [DownResult("t")], "t") == [DownResult("t")]
  {
    assert [] + [DownResult(x)] == [DownResult(x)];
    ForTargetSnoc([], DownResult(x), "t");
    ForTargetSnoc([DownResult(x)], DownResult("t"), "t");
  }

  lemma RunOfTwo(rules: seq<Rule>, a: Arrival, b: Arrival)
    requires |a.clock| == |b.clock| == |rules|
    ensures Run(rules, [a, b]) == Step(rules, Step(rules, InitEngine(), a), b)
  {
    RunOfOne(rules, a);
    assert [a, b][..1] == [a];
  }

  lemma RunOfOne(rules: seq<Rule>, a: Arrival)
    requires |a.clock| == |rules|
    ensures Run(rules, [a]) == Step(rules, InitEngine(), a)
  {
    assert [a][..0] == [];
  }

  lemma FiresElsewhere(f: Firing, name: string, target: string)
    requires f.event.target != target
    ensures FiresOf([f], name, target) == []
  {
    assert [f][..0] == [];
  }

  /** The second rule's hits: none on the first result, one on the second. */
  lemma HitsOnce(rule: Rule, n: nat, k: nat, x: string)
    requires k < n && x != "t" && rule == DownRule(rule.name, "t")
    ensures HitsOf(rule, k, "t", [Down(n, x), Down(n, "t")]) == [FirstFiring(rule.name, "t")]
  {
    var both := [Down(n, x), Down(n, "t")];
    assert both[..1] == [Down(n, x)];
    NoHitElsewhere(rule, n, k, x);
    SecondHistory(x);
    assert Results(both) == [DownResult(x)] + [DownResult("t")];
    HitOnSecond(rule, [DownResult("t")]);
  }

  lemma NoHitElsewhere(rule: Rule, n: nat, k: nat, x: string)
    requires k < n && x != "t"
    ensures HitsOf(rule, k, "t", [Down(n, x)]) == []
  {
    assert [Down(n, x)][..0] == [];
  }

  lemma HitOnSecond(rule: Rule, history: seq<Result>)
    requires rule == DownRule(rule.name, "t") && history == [DownResult("t")]
    ensures HitBy(rule, "t", history, LastN(WINDOW_CAP, history), CLOCK) == [FirstFiring(rule.name, "t")]
  {
    DownHits(rule.name, "t");
  }

  lemma LogOfTwo(rules: seq<Rule>, i: nat, j: nat, x: string)
    requires i < |rules| && j < |rules| && x != "t"
    requires rules[i] == DownRule(rules[i].name, x) && OnlyApplies(rules, i, x)
    requires rules[j] == DownRule(rules[j].name, "t") && OnlyApplies(rules, j, "t")
    requires Key(rules[i].name, x) == Key(rules[j].name, "t")
    ensures Run(rules, [Down(|rules|, x), Down(|rules|, "t")]).log == [FirstFiring(rules[i].name, x)]
  {
    RunOfTwo(rules, Down(|rules|, x), Down(|rules|, "t"));
    FirstStep(rules, i, x);
    SecondStep(rules, j, rules[i].name, x);
  }

  /** One rule fires on x, and then another rule hits on "t" for the first time, and no more is fired. */
  lemma Silenced(rules: seq<Rule>, i: nat, j: nat, x: string) returns (arrivals: seq<Arrival>)
    requires i < |rules| && j < |rules| && x != "t"
    requires rules[i] == DownRule(rules[i].name, x) && OnlyApplies(rules, i, x)
    requires rules[j] == DownRule(rules[j].name, "t") && OnlyApplies(rules, j, "t")
    requires Key(rules[i].name, x) == Key(rules[j].name, "t")
    ensures WellClocked(|rules|, arrivals)
    ensures HitsOf(rules[j], j, "t", arrivals) == [FirstFiring(rules[j].name, "t")]
    ensures Run(rules, arrivals).log == [FirstFiring(rules[i].name, x)]
  {
    arrivals := [Down(|rules|, x), Down(|rules|, "t")];
    HitsOnce(rules[j], |rules|, j, x);
    LogOfTwo(rules, i, j, x);
  }

  lemma SharedKey(a: string, b: string) returns (x: string)
    requires Extends(':', a, b)
    ensures Key(a, x) == Key(b, "t") && x != "t" && x != "*" && |x| >= 2
  {
    x := b[|a| + 1..] + ":t";
    assert b == a + ":" + b[|a| + 1..];
  }

  /** A rule of each name: one watches x, one watches "t", and the others watch neither. */
  function RulesFor(names: seq<string>, i: nat, j: nat, x: string): (rules: seq<Rule>)
    requires i < |names| && j < |names| && i != j
    ensures Named(rules, names)
    ensures rules[i] == DownRule(names[i], x) && rules[j] == DownRule(names[j], "t")
    ensures forall k :: 0 <= k < |rules| && k != i && k != j ==> rules[k] == DownRule(names[k], "t" + x)
  {
    seq(|names|, k requires 0 <= k < |names| =>
      DownRule(names[k], if k == i then x else if k == j then "t" else "t" + x))
  }

  lemma EachAlone(names: seq<string>, i: nat, j: nat, x: string)
    requires i < |names| && j < |names| && i != j && x != "t" && x != "*" && |x| >= 2
    ensures OnlyApplies(RulesFor(names, i, j, x), i, x) && OnlyApplies(RulesFor(names, i, j, x), j, "t")
  {
    assert |"t" + x| > |x| && |"t" + x| > 1;
  }

  /**
   When one name continues another one after a colon, there are rules of these names and a run in which the one's firing
   on its target silences the other's first hit on "t": it hits, and it never fires.
   */
  lemma CollisionSilences(names: seq<string>, i: nat, j: nat) returns (rules: seq<Rule>, arrivals: seq<Arrival>)
    requires i < |names| && j < |names| && i != j && Extends(':', names[i], names[j])
    ensures Named(rules, names) && WellClocked(|rules|, arrivals)
    ensures HitsOf(rules[j], j, "t", arrivals) == [FirstFiring(names[j], "t")]
    ensures FiresOf(Run(rules, arrivals).log, names[j], "t") == []
  {
    var x := SharedKey(names[i], names[j]);
    rules := RulesFor(names, i, j, x);
    EachAlone(names, i, j, x);
    arrivals := Silenced(rules, i, j, x);
    FiresElsewhere(FirstFiring(names[i], x), names[j], "t");
  }

  lemma NotExact(rules: seq<Rule>, k: nat, target: string, arrivals: seq<Arrival>)
    requires k < |rules| && WellClocked(|rules|, arrivals)
    requires HitsOf(rules[k], k, target, arrivals) != []
    requires FiresOf(Run(rules, arrivals).log, rules[k].name, target) == []
    ensures !Exact(rules, k, target, arrivals)
  {
  }

  lemma CollidingNotKeptApart(names: seq<string>, i: nat, j: nat)
    requires i < |names| && j < |names| && i != j && Extends(':', names[i], names[j])
    ensures !KeptApart(names)
  {
    var rules, arrivals := CollisionSilences(names, i, j);
    NotExact(rules, j, "t", arrivals);
  }

  /** Distinct rule names are kept apart in every run exactly when none continues another one after a colon. */
  lemma NamesExact(names: seq<string>)
    requires Distinct(names)
    ensures KeptApart(names) <==> NoneExtends(names)
  {
    if NoneExtends(names) {
      forall rules: seq<Rule>, k: nat, target: string, arrivals: seq<Arrival> |
        Named(rules, names) && k < |rules| && WellClocked(|rules|, arrivals)
        ensures Exact(rules, k, target, arrivals)
      {
        NamesSeparate(rules, names);
        FiresAreGreedy(rules, k, target, arrivals);
      }
    } else {
      var i, j :| 0 <= i < |names| && 0 <= j < |names| && i != j && Extends(':', names[i], names[j]);
      CollidingNotKeptApart(names, i, j);
    }
  }

  lemma NamesSeparate(rules: seq<Rule>, names: seq<string>)
    requires Named(rules, names) && Distinct(names) && NoneExtends(names)
    ensures Separable(rules)
  {
  }
}
