/** What the pool probes: the targets of the last configuration, all in the first round and again at every tick. */
module PoolRounds {
  import opened Checker
  import opened PoolRun
  import opened Scheduler
  import opened PoolProofs

  // ----- a whole round -----

  /** n sends of a round, with no other step in between: the first of its targets that fit become jobs. */
  lemma {:induction false} SendsEnqueue(p: PoolRun.Pool, n: nat) returns (q: PoolRun.Pool)
    requires p.main.Dispatching? && n <= |p.main.todo| && |p.jobs| <= p.cap
    ensures Runs(p, seq(n, _ => Dispatch)) && q == Exec(p, seq(n, _ => Dispatch))
    ensures q.main == Dispatching(p.main.todo[n..]) && q.cap == p.cap
    ensures |q.jobs| == |p.jobs| + Min(n, p.cap - |p.jobs|)
    ensures q.enqueued == p.enqueued + p.main.todo[..Min(n, p.cap - |p.jobs|)]
  {
    if n == 0 {
      q := p;
      assert p.enqueued + [] == p.enqueued;
    } else {
      var before := SendsEnqueue(p, n - 1);
      OneSendEnqueues(before);
      q := Next(before, Dispatch);
      assert seq(n, _ => Dispatch)[..n - 1] == seq(n - 1, _ => Dispatch);
      OneMoreFits(p.enqueued, p.main.todo, n, p.cap - |p.jobs|);
    }
  }

  lemma OneSendEnqueues(p: PoolRun.Pool)
    requires p.main.Dispatching? && p.main.todo != [] && |p.jobs| <= p.cap
    ensures Can(p, Dispatch)
    ensures var q := Next(p, Dispatch);
            && q.main == Dispatching(p.main.todo[1..]) && q.cap == p.cap
            && |q.jobs| == |p.jobs| + (if |p.jobs| < p.cap then 1 else 0)
            && q.enqueued == p.enqueued + (if |p.jobs| < p.cap then [p.main.todo[0]] else [])
  {
    assert p.enqueued + [] == p.enqueued;
  }

  lemma OneMoreFits(before: seq<Target>, todo: seq<Target>, n: nat, room: nat)
    requires 0 < n <= |todo|
    ensures before + todo[..Min(n - 1, room)] + (if n - 1 < room then [todo[n - 1]] else [])
      == before + todo[..Min(n, room)]
  {
    if n - 1 < room {
      assert todo[..n] == todo[..n - 1] + [todo[n - 1]];
      assert before + todo[..n - 1] + [todo[n - 1]] == before + (todo[..n - 1] + [todo[n - 1]]);
    } else {
      assert before + todo[..room] + [] == before + todo[..room];
    }
  }

  /** Whatever workers and collector do in between, a round goes on where it was, and only its sends make jobs. */
  lemma RoundGoesOn(p: PoolRun.Pool, s: Step)
    requires p.main.Dispatching? && Can(p, s) && s != Dispatch
    ensures Next(p, s).main == p.main && Next(p, s).enqueued == p.enqueued
  {
  }

  /** A tick and the sends of its round. */
  function Round(n: nat): seq<Step> {
    [Tick] + seq(n, _ => Dispatch)
  }

  lemma {:induction false} RunsAfter(p: PoolRun.Pool, first: Step, steps: seq<Step>)
    requires Can(p, first) && Runs(Next(p, first), steps)
    ensures Runs(p, [first] + steps) && Exec(p, [first] + steps) == Exec(Next(p, first), steps)
    decreases |steps|
  {
    var all := [first] + steps;
    if steps == [] {
      assert all == [first] && all[..0] == [];
    } else {
      RunsAfter(p, first, steps[..|steps| - 1]);
      assert all[..|all| - 1] == [first] + steps[..|steps| - 1];
    }
  }

  /** A tick makes jobs of the pool's current targets, as many as fit, in order. */
  lemma TickDispatchesTargets(p: PoolRun.Pool)
    requires Can(p, Tick) && |p.jobs| <= p.cap
    ensures Runs(p, Round(|p.targets|))
    ensures Exec(p, Round(|p.targets|)).enqueued == p.enqueued + p.targets[..Min(|p.targets|, p.cap - |p.jobs|)]
    ensures Exec(p, Round(|p.targets|)).main == Dispatching([])
  {
    var q := SendsEnqueue(Next(p, Tick), |p.targets|);
    RunsAfter(p, Tick, seq(|p.targets|, _ => Dispatch));
  }

  /** And a run begins with a round in which every target of its configuration becomes a job. */
  lemma FirstRoundDispatchesAll(targets: seq<Target>, workers: nat, hasEvaluator: bool)
    ensures var p, steps := Start(targets, workers, hasEvaluator), seq(|targets|, _ => Dispatch);
            && Runs(p, steps) && Exec(p, steps).enqueued == targets && Exec(p, steps).main == Dispatching([])
            && |p.workers| == workers && forall i :: 0 <= i < workers ==> p.workers[i] == Idle
  {
    var p := Start(targets, workers, hasEvaluator);
    var q := SendsEnqueue(p, |targets|);
    assert [] + targets[..|targets|] == targets;
  }

  // ----- the last configuration -----

  /** The configuration received last, or the one the run began with. */
  function LastConfig(first: seq<Target>, steps: seq<Step>): seq<Target> {
    if steps == [] then first
    else if steps[|steps| - 1].Reload? then steps[|steps| - 1].targets
    else LastConfig(first, steps[..|steps| - 1])
  }

  lemma OnlyReloadConfigures(p: PoolRun.Pool, s: Step)
    requires Can(p, s)
    ensures if s.Reload? then Next(p, s).targets == s.targets && Next(p, s).checkers == CheckerNames(s.targets)
            else Next(p, s).targets == p.targets && Next(p, s).checkers == p.checkers
    ensures Next(p, s).cap == p.cap
  {
  }

  /**
   In every run the targets and the checkers are those of the last configuration, while the channels stay as large as
   the first one.
   */
  lemma {:induction false} ConfiguredByLast(targets: seq<Target>, workers: nat, hasEvaluator: bool, steps: seq<Step>)
    requires Runs(Start(targets, workers, hasEvaluator), steps)
    ensures var p, config := Exec(Start(targets, workers, hasEvaluator), steps), LastConfig(targets, steps);
            p.targets == config && p.checkers == CheckerNames(config) && p.cap == |targets|
  {
    if steps != [] {
      var front, last := steps[..|steps| - 1], steps[|steps| - 1];
      ConfiguredByLast(targets, workers, hasEvaluator, front);
      OnlyReloadConfigures(Exec(Start(targets, workers, hasEvaluator), front), last);
    }
  }

  /** The configuration has a target of this name that can be probed. */
  predicate HasProbe(config: seq<Target>, name: string) {
    exists t :: t in config && t.name == name && (t.kind == "http" || t.kind == "tcp" || t.kind == "cert")
  }

  lemma CheckerNamesAreProbes(config: seq<Target>, name: string)
    ensures name in CheckerNames(config) <==> HasProbe(config, name)
  {
  }

  /**
   In every run, when a worker looks up its job's checker, the job is skipped exactly when the last configuration has no
   target of that name and a known kind; otherwise it is checked.
   */
  lemma SkippedExactly(targets: seq<Target>, workers: nat, hasEvaluator: bool, steps: seq<Step>, i: nat)
    requires Runs(Start(targets, workers, hasEvaluator), steps)
    requires Can(Exec(Start(targets, workers, hasEvaluator), steps), LookUp(i))
    ensures var p := Exec(Start(targets, workers, hasEvaluator), steps);
            var q, job := Next(p, LookUp(i)), p.workers[i].job;
            if HasProbe(LastConfig(targets, steps), job.what.name)
            then q.skipped == p.skipped && q.workers[i] == Checking(job)
            else q.skipped == p.skipped + [job] && q.workers[i] == Idle
  {
    var p := Exec(Start(targets, workers, hasEvaluator), steps);
    ConfiguredByLast(targets, workers, hasEvaluator, steps);
    CheckerNamesAreProbes(LastConfig(targets, steps), p.workers[i].job.what.name);
  }

  /**
   In every run, a tick makes jobs of the targets of the last configuration, in order, as many as fit into channels made
   for the first one.
   */
  lemma TickDispatchesLastConfig(targets: seq<Target>, workers: nat, hasEvaluator: bool, steps: seq<Step>)
    requires Runs(Start(targets, workers, hasEvaluator), steps)
    requires Can(Exec(Start(targets, workers, hasEvaluator), steps), Tick)
    ensures var p, config := Exec(Start(targets, workers, hasEvaluator), steps), LastConfig(targets, steps);
            && |p.jobs| <= |targets| && Runs(p, Round(|config|))
            && Exec(p, Round(|config|)).enqueued == p.enqueued + config[..Min(|config|, |targets| - |p.jobs|)]
  {
    var p0 := Start(targets, workers, hasEvaluator);
    StartIsGood(targets, workers, hasEvaluator);
    RunKeepsInv(p0, steps);
    ConfiguredByLast(targets, workers, hasEvaluator, steps);
    TickDispatchesTargets(Exec(p0, steps));
  }
}
