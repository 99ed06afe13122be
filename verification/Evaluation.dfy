/** Window, matching and suppression put together: what one probe result makes the alert engine fire. */
module Evaluation {
  import opened Checker
  import opened History
  import opened WindowBuffer
  import opened Rules
  import opened Matchers
  import opened WindowRefinement
  import opened Suppression

  datatype Event = Event(ruleName: string, target: string, fireAt: int, snapshot: seq<Result>)

  /** The clock as one rule reads it in one call: to match, check and mark the cooldown, stamp the Put, and fire. */
  datatype Reading = Reading(matchAt: int, checkAt: int, markAt: int, stampAt: int, fireAt: int)

  /** A probe result together with the clock readings of every rule. */
  datatype Arrival = Arrival(result: Result, clock: seq<Reading>)

  /** One event, with the clock readings of the call that could fire it. */
  datatype Firing = Firing(event: Event, reading: Reading)

  /** What the engine has seen, holds in its cooldown map, and has fired so far. */
  datatype Engine = Engine(seen: seq<Result>, fired: map<string, int>, log: seq<Firing>)

  function InitEngine(): Engine {
    Engine([], map[], [])
  }

  /** Does this rule hit on this target, given the recent results? */
  predicate Hits(rule: Rule, target: string, recent: seq<Result>, reading: Reading) {
    AppliesTo(rule, target) && Matches(rule, recent, reading.matchAt)
  }

  function AfterRule(rule: Rule, target: string, recent: seq<Result>, reading: Reading, fired: map<string, int>)
    : map<string, int>
  {
    if Hits(rule, target, recent, reading)
    then AfterAllow(fired, Key(rule.name, target), rule.cooldown, reading.checkAt, reading.markAt)
    else fired
  }

  function FiredBy(rule: Rule, target: string, recent: seq<Result>, reading: Reading, fired: map<string, int>)
    : seq<Firing>
  {
    if Hits(rule, target, recent, reading) && MayFire(fired, Key(rule.name, target), rule.cooldown, reading.checkAt)
    then [Firing(Event(rule.name, target, reading.fireAt, recent), reading)]
    else []
  }

  /** The write that is started for each firing when there is a client. */
  function PutFor(f: Firing): Put {
    Put(KEY_PREFIX + Key(f.event.ruleName, f.event.target), f.reading.stampAt)
  }

  function PutsFor(fs: seq<Firing>): seq<Put> {
    if fs == [] then [] else PutsFor(fs[..|fs| - 1]) + [PutFor(fs[|fs| - 1])]
  }

  /** The rules one after the other, on the same recent results and one shared cooldown map. */
  function AfterRules(
    rules: seq<Rule>, target: string, recent: seq<Result>, clock: seq<Reading>, fired: map<string, int>)
    : (map<string, int>, seq<Firing>)
    requires |rules| == |clock|
  {
    if rules == [] then (fired, []) else
    var n := |rules| - 1;
    var (m, events) := AfterRules(rules[..n], target, recent, clock[..n], fired);
    (AfterRule(rules[n], target, recent, clock[n], m), events + FiredBy(rules[n], target, recent, clock[n], m))
  }

  /** Running one rule more. */
  lemma AfterRulesNext(
    rules: seq<Rule>, i: nat, target: string, recent: seq<Result>, clock: seq<Reading>, fired: map<string, int>)
    requires |rules| == |clock| && i < |rules|
    ensures var (m, log) := AfterRules(rules[..i], target, recent, clock[..i], fired);
            AfterRules(rules[..i + 1], target, recent, clock[..i + 1], fired)
            == (AfterRule(rules[i], target, recent, clock[i], m), log + FiredBy(rules[i], target, recent, clock[i], m))
  {
    assert rules[..i + 1][..i] == rules[..i] && clock[..i + 1][..i] == clock[..i];
  }

  /** One result: the whole stream is remembered, but rules see only its newest entries. */
  function Step(rules: seq<Rule>, e: Engine, a: Arrival): Engine
    requires |a.clock| == |rules|
  {
    var seen := e.seen + [a.result];
    var recent := LastN(WINDOW_CAP, ForTarget(seen, a.result.target));
    var (fired, events) := AfterRules(rules, a.result.target, recent, a.clock, e.fired);
    Engine(seen, fired, e.log + events)
  }

  class Evaluator {
    const rules: seq<Rule>
    const window: Window
    const suppressor: Suppressor
    const hasClient: bool

    ghost predicate Valid()
      reads this, window, suppressor
    {
      window.cap == WINDOW_CAP && window.Valid()
    }

    constructor (rules: seq<Rule>, hasClient: bool)
      ensures Valid() && fresh(window) && fresh(suppressor)
      ensures this.rules == rules && this.hasClient == hasClient
      ensures window.pushed == [] && suppressor.lastFired == map[]
    {
      this.rules := rules;
      this.hasClient := hasClient;
      this.window := new Window(WINDOW_CAP);
      this.suppressor := new Suppressor();
    }

    /** The loop body of OnResult: one rule against the target's recent results. */
    method ApplyRule(rule: Rule, target: string, reading: Reading) returns (firing: Option<Firing>, put: Option<Put>)
      requires Valid()
      modifies suppressor
      ensures var recent := LastN(WINDOW_CAP, ForTarget(window.pushed, target));
              && suppressor.lastFired == AfterRule(rule, target, recent, reading, old(suppressor.lastFired))
              && FiredBy(rule, target, recent, reading, old(suppressor.lastFired))
                 == (if firing.Some? then [firing.value] else [])
      ensures put == if hasClient && firing.Some? then Some(PutFor(firing.value)) else None
    {
      if rule.target != "*" && rule.target != target {
        return None, None;
      }
      var snapshot := window.Snapshot(target);
      var hit := Match(rule, snapshot[..], reading.matchAt);
      if !hit {
        return None, None;
      }
      var allowed;
      allowed, put := suppressor.AllowAndPersist(
        hasClient, rule.name, target, rule.cooldown, reading.checkAt, reading.markAt, reading.stampAt);
      firing := if allowed then Some(Firing(Event(rule.name, target, reading.fireAt, snapshot[..]), reading)) else None;
    }

    /** The loop of OnResult: every rule in turn. */
    method ApplyRules(target: string, clock: seq<Reading>) returns (launched: seq<Firing>, puts: seq<Put>)
      requires Valid() && |clock| == |rules|
      modifies suppressor
      ensures (suppressor.lastFired, launched)
        == AfterRules(rules, target, LastN(WINDOW_CAP, ForTarget(window.pushed, target)), clock,
                      old(suppressor.lastFired))
      ensures puts == if hasClient then PutsFor(launched) else []
    {
      launched, puts := [], [];
      ghost var recent := LastN(WINDOW_CAP, ForTarget(window.pushed, target));
      for i := 0 to |rules|
        invariant (suppressor.lastFired, launched)
          == AfterRules(rules[..i], target, recent, clock[..i], old(suppressor.lastFired))
        invariant puts == if hasClient then PutsFor(launched) else []
      {
        AfterRulesNext(rules, i, target, recent, clock, old(suppressor.lastFired));
        ghost var m, log := suppressor.lastFired, launched;
        assert AfterRules(rules[..i + 1], target, recent, clock[..i + 1], old(suppressor.lastFired))
          == (AfterRule(rules[i], target, recent, clock[i], m), log + FiredBy(rules[i], target, recent, clock[i], m));
        var firing, put := ApplyRule(rules[i], target, clock[i]);
        if firing.Some? {
          assert (launched + [firing.value])[..|launched|] == launched;
          launched := launched + [firing.value];
        }
        assert launched == log + FiredBy(rules[i], target, recent, clock[i], m);
        assert suppressor.lastFired == AfterRule(rules[i], target, recent, clock[i], m);
        if put.Some? {
          puts := puts + [put.value];
        }
      }
      assert rules[..|rules|] == rules && clock[..|rules|] == clock;
    }

    /** Returns the events whose notification has been started, and the background writes to etcd. */
    method OnResult(r: Result, clock: seq<Reading>) returns (launched: seq<Firing>, puts: seq<Put>)
      requires Valid() && |clock| == |rules|
      modifies window, suppressor
      ensures Valid()
      ensures Engine(window.pushed, suppressor.lastFired, launched)
        == Step(rules, Engine(old(window.pushed), old(suppressor.lastFired), []), Arrival(r, clock))
      ensures puts == if hasClient then PutsFor(launched) else []
    {
      window.Push(r);
      launched, puts := ApplyRules(r.target, clock);
    }

    /** Without a client there is nothing to load; otherwise memory takes over what etcd returned. */
    method LoadSuppressorFromEtcd(response: Option<seq<Kv>>) returns (ok: bool)
      requires response.Some? ==> forall kv :: kv in response.value ==> KEY_PREFIX <= kv.key
      modifies suppressor
      ensures ok == (!hasClient || response.Some?)
      ensures suppressor.lastFired
        == if hasClient && response.Some? then Loaded(old(suppressor.lastFired), response.value)
           else old(suppressor.lastFired)
    {
      if !hasClient {
        return true;
      }
      ok := suppressor.LoadFromEtcd(response);
    }
  }
}
