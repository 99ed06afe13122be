/**
 The evaluator inside the world of several nodes: what one result makes it fire and write is what a list of evaluations
 does to the node's memory, to the firings of the cluster, and to the writes under way.
 */
module EvaluatorWorld {
  import opened Checker
  import opened History
  import opened Rules
  import opened WindowRefinement
  import opened Suppression
  import opened Evaluation
  import opened F = Failover

  /** One evaluation for every rule that hits, in the order of the rules. */
  function Evaluations(i: nat, rules: seq<Rule>, target: string, recent: seq<Result>, clock: seq<Reading>)
    : (events: seq<F.Event>)
    requires |rules| == |clock|
  {
    if rules == [] then [] else
    var n := |rules| - 1;
    Evaluations(i, rules[..n], target, recent, clock[..n])
      + if Hits(rules[n], target, recent, clock[n]) then [EvaluationOf(i, rules[n], target, clock[n])] else []
  }

  function EvaluationOf(i: nat, rule: Rule, target: string, reading: Reading): F.Event {
    Evaluate(i, rule.name + ":" + target, reading.checkAt, reading.markAt, reading.stampAt)
  }

  ghost predicate CanAll(w: World, events: seq<F.Event>)
    requires WellFormed(w)
    decreases |events|, 0
  {
    events == [] ||
    (var front, last := events[..|events| - 1], events[|events| - 1];
     CanAll(w, front) && CanHappen(NextAll(w, front), last))
  }

  ghost function NextAll(w: World, events: seq<F.Event>): (w': World)
    requires WellFormed(w) && CanAll(w, events)
    ensures WellFormed(w')
    decreases |events|, 1
  {
    if events == [] then w else F.Next(NextAll(w, events[..|events| - 1]), events[|events| - 1])
  }

  lemma OneMore(w: World, events: seq<F.Event>, e: F.Event)
    requires WellFormed(w) && CanAll(w, events) && CanHappen(NextAll(w, events), e)
    ensures CanAll(w, events + [e]) && NextAll(w, events + [e]) == F.Next(NextAll(w, events), e)
  {
    assert (events + [e])[..|events|] == events;
  }

  /** A firing as the cluster sees it: who, what, and the two readings around the decision. */
  function FireOf(i: nat, f: Firing): Fire {
    Fire(i, f.event.ruleName + ":" + f.event.target, f.reading.checkAt, f.reading.markAt)
  }

  function FiresOf(i: nat, fs: seq<Firing>): (fires: seq<Fire>)
    ensures |fires| == |fs|
  {
    seq(|fs|, k requires 0 <= k < |fs| => FireOf(i, fs[k]))
  }

  /** A write for every firing, in the same order, of its own key and of the clock's reading after its mark. */
  lemma {:induction false} PutsAreFirings(fs: seq<Firing>)
    ensures |PutsFor(fs)| == |fs|
    ensures forall k :: 0 <= k < |fs| ==>
      PutsFor(fs)[k]
      == Put("/gowatch/suppressor/" + (fs[k].event.ruleName + ":" + fs[k].event.target), fs[k].reading.stampAt)
  {
    if fs != [] {
      PutsAreFirings(fs[..|fs| - 1]);
    }
  }

  /** The world after the evaluator of node i has fired these and has this memory. */
  function Fired(w: World, i: nat, mem: map<string, int>, fs: seq<Firing>): World
    requires i < |w.mems|
  {
    w.(mems := w.mems[i := mem], fires := w.fires + FiresOf(i, fs), pending := w.pending + PutsFor(fs))
  }

  lemma KeyIsJoin(name: string, target: string)
    ensures Key(name, target) == name + ":" + target
  {
  }

  /** One rule that hits is one evaluation. */
  lemma RuleEvaluates(w: World, i: nat, rule: Rule, target: string, recent: seq<Result>, reading: Reading)
    requires WellFormed(w) && i < |w.mems| && Evaluating(w, i) && Hits(rule, target, recent, reading)
    requires Key(rule.name, target) in w.cooldowns && w.cooldowns[Key(rule.name, target)] == rule.cooldown
    requires reading.checkAt <= reading.markAt <= reading.stampAt
    ensures CanHappen(w, EvaluationOf(i, rule, target, reading))
    ensures F.Next(w, EvaluationOf(i, rule, target, reading))
      == Fired(w, i, AfterRule(rule, target, recent, reading, w.mems[i]),
               FiredBy(rule, target, recent, reading, w.mems[i]))
  {
    KeyIsJoin(rule.name, target);
    PutsAreFirings(FiredBy(rule, target, recent, reading, w.mems[i]));
    var fs := FiredBy(rule, target, recent, reading, w.mems[i]);
    if fs == [] {
      assert w.fires + FiresOf(i, fs) == w.fires && w.pending + PutsFor(fs) == w.pending;
    } else {
      assert FiresOf(i, fs) == [FireOf(i, fs[0])];
      assert PutsFor(fs) == [PutsFor(fs)[0]];
    }
  }

  /** A rule that does not hit does nothing. */
  lemma MissDoesNothing(w: World, i: nat, rule: Rule, target: string, recent: seq<Result>, reading: Reading)
    requires i < |w.mems| && !Hits(rule, target, recent, reading)
    ensures Fired(w, i, AfterRule(rule, target, recent, reading, w.mems[i]),
                  FiredBy(rule, target, recent, reading, w.mems[i])) == w
  {
    assert w.mems[i := w.mems[i]] == w.mems;
    assert FiresOf(i, []) == [] && w.fires + [] == w.fires && w.pending + [] == w.pending;
  }

  lemma {:induction false} PutsForAppend(a: seq<Firing>, b: seq<Firing>)
    ensures PutsFor(a + b) == PutsFor(a) + PutsFor(b)
  {
    if b == [] {
      assert a + b == a;
    } else {
      assert (a + b)[..|a + b| - 1] == a + b[..|b| - 1];
      PutsForAppend(a, b[..|b| - 1]);
    }
  }

  lemma FiredOnTop(w: World, i: nat, mem: map<string, int>, fs: seq<Firing>, mem': map<string, int>, more: seq<Firing>)
    requires i < |w.mems|
    ensures Fired(Fired(w, i, mem, fs), i, mem', more) == Fired(w, i, mem', fs + more)
  {
    PutsForAppend(fs, more);
    assert FiresOf(i, fs + more) == FiresOf(i, fs) + FiresOf(i, more);
    assert w.fires + FiresOf(i, fs) + FiresOf(i, more) == w.fires + (FiresOf(i, fs) + FiresOf(i, more));
    assert w.pending + PutsFor(fs) + PutsFor(more) == w.pending + (PutsFor(fs) + PutsFor(more));
    assert w.mems[i := mem][i := mem'] == w.mems[i := mem'];
  }

  /** Every rule's key has the rule's cooldown, and no rule's clock goes back during a call. */
  ghost predicate Fits(w: World, rules: seq<Rule>, target: string, clock: seq<Reading>) {
    && |clock| == |rules|
    && (forall k :: 0 <= k < |rules| ==>
          Key(rules[k].name, target) in w.cooldowns && w.cooldowns[Key(rules[k].name, target)] == rules[k].cooldown)
    && (forall k :: 0 <= k < |clock| ==> clock[k].checkAt <= clock[k].markAt <= clock[k].stampAt)
  }

  /** The first n rules on one result are their evaluations, one after the other. */
  lemma {:induction false} RulesEvaluate(
    w: World, i: nat, rules: seq<Rule>, n: nat, target: string, recent: seq<Result>, clock: seq<Reading>)
    requires WellFormed(w) && i < |w.mems| && Evaluating(w, i) && Fits(w, rules, target, clock) && n <= |rules|
    ensures var events := Evaluations(i, rules[..n], target, recent, clock[..n]);
            var (mem, fs) := AfterRules(rules[..n], target, recent, clock[..n], w.mems[i]);
            CanAll(w, events) && NextAll(w, events) == Fired(w, i, mem, fs)
  {
    if n == 0 {
      assert w.mems[i := w.mems[i]] == w.mems;
      assert FiresOf(i, []) == [] && w.fires + [] == w.fires && w.pending + [] == w.pending;
    } else {
      var k := n - 1;
      RulesEvaluate(w, i, rules, k, target, recent, clock);
      var events := Evaluations(i, rules[..k], target, recent, clock[..k]);
      var (mem, fs) := AfterRules(rules[..k], target, recent, clock[..k], w.mems[i]);
      OneRuleMore(w, i, rules, k, target, recent, clock, events, mem, fs);
    }
  }

  lemma OneRuleMore(w: World, i: nat, rules: seq<Rule>, k: nat, target: string, recent: seq<Result>,
                    clock: seq<Reading>, events: seq<F.Event>, mem: map<string, int>, fs: seq<Firing>)
    requires WellFormed(w) && i < |w.mems| && Evaluating(w, i) && Fits(w, rules, target, clock) && k < |rules|
    requires events == Evaluations(i, rules[..k], target, recent, clock[..k])
    requires (mem, fs) == AfterRules(rules[..k], target, recent, clock[..k], w.mems[i])
    requires CanAll(w, events) && NextAll(w, events) == Fired(w, i, mem, fs)
    ensures var events' := Evaluations(i, rules[..k + 1], target, recent, clock[..k + 1]);
            var (mem', fs') := AfterRules(rules[..k + 1], target, recent, clock[..k + 1], w.mems[i]);
            CanAll(w, events') && NextAll(w, events') == Fired(w, i, mem', fs')
  {
    var rule, reading, now := rules[k], clock[k], Fired(w, i, mem, fs);
    AfterRulesNext(rules, k, target, recent, clock, w.mems[i]);
    EvaluationsNext(i, rules, k, target, recent, clock);
    var mem', more := AfterRule(rule, target, recent, reading, mem), FiredBy(rule, target, recent, reading, mem);
    FiredOnTop(w, i, mem, fs, mem', more);
    if Hits(rule, target, recent, reading) {
      RuleEvaluates(now, i, rule, target, recent, reading);
      OneMore(w, events, EvaluationOf(i, rule, target, reading));
    } else {
      MissDoesNothing(now, i, rule, target, recent, reading);
      assert events + [] == events;
    }
  }

  lemma EvaluationsNext(i: nat, rules: seq<Rule>, k: nat, target: string, recent: seq<Result>, clock: seq<Reading>)
    requires |rules| == |clock| && k < |rules|
    ensures Evaluations(i, rules[..k + 1], target, recent, clock[..k + 1])
      == Evaluations(i, rules[..k], target, recent, clock[..k])
         + if Hits(rules[k], target, recent, clock[k]) then [EvaluationOf(i, rules[k], target, clock[k])] else []
  {
    assert rules[..k + 1][..k] == rules[..k] && clock[..k + 1][..k] == clock[..k];
  }

  /** What a whole result makes the evaluator do is a run of evaluations on its node. */
  lemma ResultEvaluates(w: World, i: nat, rules: seq<Rule>, e: Engine, a: Arrival)
    requires WellFormed(w) && i < |w.mems| && Evaluating(w, i) && Fits(w, rules, a.result.target, a.clock)
    requires e.fired == w.mems[i] && e.log == []
    ensures var target, recent := a.result.target, LastN(WINDOW_CAP, ForTarget(e.seen + [a.result], a.result.target));
            var events := Evaluations(i, rules, target, recent, a.clock);
            && CanAll(w, events)
            && NextAll(w, events) == Fired(w, i, Step(rules, e, a).fired, Step(rules, e, a).log)
  {
    var target, recent := a.result.target, LastN(WINDOW_CAP, ForTarget(e.seen + [a.result], a.result.target));
    RulesEvaluate(w, i, rules, |rules|, target, recent, a.clock);
    assert rules[..|rules|] == rules && a.clock[..|rules|] == a.clock;
    var fs := AfterRules(rules, target, recent, a.clock, e.fired).1;
    assert [] + fs == fs;
  }

  lemma {:induction false} ReadingsOfRules(
    rules: seq<Rule>, target: string, recent: seq<Result>, clock: seq<Reading>, fired: map<string, int>)
    requires |rules| == |clock|
    ensures forall f :: f in AfterRules(rules, target, recent, clock, fired).1 ==> f.reading in clock
  {
    if rules != [] {
      ReadingsOfRules(rules[..|rules| - 1], target, recent, clock[..|rules| - 1], fired);
    }
  }

  /** The world after a result has been evaluated on node i, from its memory and the results it has seen. */
  lemma WorldAfter(w: World, i: nat, rules: seq<Rule>, e: Engine, a: Arrival)
    returns (w': World, events: seq<F.Event>)
    requires WellFormed(w) && i < |w.mems| && Evaluating(w, i) && Fits(w, rules, a.result.target, a.clock)
    requires e.fired == w.mems[i] && e.log == []
    ensures CanAll(w, events) && w' == NextAll(w, events)
    ensures var e' := Step(rules, e, a);
            && w' == Fired(w, i, e'.fired, e'.log)
            && (forall k :: 0 <= k < |e'.log| ==> e'.log[k].reading.markAt <= e'.log[k].reading.stampAt)
  {
    var target, recent := a.result.target, LastN(WINDOW_CAP, ForTarget(e.seen + [a.result], a.result.target));
    ResultEvaluates(w, i, rules, e, a);
    events := Evaluations(i, rules, target, recent, a.clock);
    w' := NextAll(w, events);
    ReadingsOfRules(rules, target, recent, a.clock, e.fired);
    var log := Step(rules, e, a).log;
    assert log == AfterRules(rules, target, recent, a.clock, e.fired).1;
    forall k | 0 <= k < |log|
      ensures log[k].reading.markAt <= log[k].reading.stampAt
    {
      assert log[k] in log;
    }
  }

  /** The method, run on a node of the world with a client: its memory and its writes are those of the evaluations. */
  method OnResultInWorld(ev: Evaluator, r: Result, clock: seq<Reading>, ghost w: World, ghost i: nat)
    returns (launched: seq<Firing>, puts: seq<Put>, ghost w': World, ghost events: seq<F.Event>)
    requires ev.Valid() && ev.hasClient
    requires WellFormed(w) && i < |w.mems| && Evaluating(w, i) && Fits(w, ev.rules, r.target, clock)
    requires ev.suppressor.lastFired == w.mems[i]
    modifies ev.window, ev.suppressor
    ensures ev.Valid() && CanAll(w, events) && w' == NextAll(w, events)
    ensures |w'.mems| == |w.mems| && ev.suppressor.lastFired == w'.mems[i]
    ensures w'.fires == w.fires + FiresOf(i, launched) && w'.pending == w.pending + puts
    ensures w' == w.(mems := w'.mems, fires := w'.fires, pending := w'.pending)
    ensures forall j :: 0 <= j < |w.mems| && j != i ==> w'.mems[j] == w.mems[j]
    ensures |puts| == |launched| && forall k :: 0 <= k < |puts| ==>
      && puts[k].key == "/gowatch/suppressor/" + (launched[k].event.ruleName + ":" + launched[k].event.target)
      && puts[k].value == launched[k].reading.stampAt >= launched[k].reading.markAt
  {
    w', events := WorldAfter(w, i, ev.rules, Engine(ev.window.pushed, ev.suppressor.lastFired, []), Arrival(r, clock));
    launched, puts := ev.OnResult(r, clock);
    PutsAreFirings(launched);
  }
}
