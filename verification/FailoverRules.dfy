/** The cooldown across changes of leader, told for a rule on a target instead of for a suppressor key. */
module FailoverRules {
  import opened Checker
  import opened Keys
  import opened Rules
  import opened Suppression
  import opened Failover
  import AlertRuns

  /** The cooldowns of one rule's keys on these targets. */
  function OwnCooldowns(rule: Rule, targets: set<string>): map<string, int> {
    map key | key in KeysOf(rule, targets) :: rule.cooldown
  }

  function KeysOf(rule: Rule, targets: set<string>): set<string> {
    set target | target in targets :: Key(rule.name, target)
  }

  /** The cooldown behind every key that the rules can have on these targets. */
  function CooldownsOf(rules: seq<Rule>, targets: set<string>): map<string, int> {
    if rules == [] then map[] else
    CooldownsOf(rules[..|rules| - 1], targets) + OwnCooldowns(rules[|rules| - 1], targets)
  }

  lemma SeparableFront(rules: seq<Rule>)
    requires AlertRuns.Separable(rules) && rules != []
    ensures AlertRuns.Separable(rules[..|rules| - 1])
  {
  }

  /** With separable names every key has the cooldown of its own rule. */
  lemma {:induction false} OwnCooldown(rules: seq<Rule>, targets: set<string>, k: nat, target: string)
    requires AlertRuns.Separable(rules) && k < |rules| && target in targets
    ensures var key := Key(rules[k].name, target);
            key in CooldownsOf(rules, targets) && CooldownsOf(rules, targets)[key] == rules[k].cooldown
  {
    var n := |rules| - 1;
    if k < n {
      SeparableFront(rules);
      OwnCooldown(rules[..n], targets, k, target);
      forall t | t in targets
        ensures Key(rules[n].name, t) != Key(rules[k].name, target)
      {
        AlertRuns.OtherKey(rules, n, t, k, target);
      }
    }
  }

  /** The firing is this rule's on this target. */
  predicate IsOf(f: Fire, rule: Rule, target: string) {
    f.key == Key(rule.name, target)
  }

  /** No firing is two rules' or on two targets. */
  lemma OneRuleEach(rules: seq<Rule>, f: Fire, j: nat, at: string, k: nat, target: string)
    requires AlertRuns.Separable(rules) && j < |rules| && k < |rules|
    requires IsOf(f, rules[j], at) && IsOf(f, rules[k], target)
    ensures j == k && at == target
  {
    if j != k || at != target {
      AlertRuns.OtherKey(rules, j, at, k, target);
    }
  }

  /**
   With rule names that can be told apart, in every run of the cluster that rules out enough: all firings of a rule on a
   target, by whichever nodes, are at least the rule's cooldown apart, and each of them is of no other rule and target.
   */
  lemma RuleCooldownSurvives(n: nat, rules: seq<Rule>, targets: set<string>, events: seq<Event>,
                             k: nat, target: string, faults: set<Fault>)
    requires AlertRuns.Separable(rules) && k < |rules| && target in targets && rules[k].cooldown > 0
    requires Failover.History(n, CooldownsOf(rules, targets), events, Key(rules[k].name, target), faults)
    requires Suffices(faults)
    ensures var w := State(n, CooldownsOf(rules, targets), events, Key(rules[k].name, target), faults);
            && (forall i, j :: 0 <= i < j < |w.fires|
                  && IsOf(w.fires[i], rules[k], target) && IsOf(w.fires[j], rules[k], target)
                  ==> w.fires[j].checkAt - w.fires[i].markAt >= rules[k].cooldown)
            && (forall f, j, at :: f in w.fires && 0 <= j < |rules|
                  && IsOf(f, rules[k], target) && IsOf(f, rules[j], at)
                  ==> j == k && at == target)
  {
    var key := Key(rules[k].name, target);
    var w := State(n, CooldownsOf(rules, targets), events, key, faults);
    OwnCooldown(rules, targets, k, target);
    CooldownSurvives(n, CooldownsOf(rules, targets), events, key, faults);
    forall f, j, at | f in w.fires && 0 <= j < |rules| && IsOf(f, rules[k], target) && IsOf(f, rules[j], at)
      ensures j == k && at == target
    {
      OneRuleEach(rules, f, j, at, k, target);
    }
  }
}
