/**
 One run of the worker pool, as steps of its dispatcher, workers and collector over two bounded channels. Any order of
 steps is a run. A configuration may be received at any moment at which the main loop selects.
 */
module PoolRun {
  import opened Checker

  datatype Target = Target(name: string, kind: string, certWarnDays: int)

  /** What travels through a channel; the id numbers the dispatches that were not skipped for a full one. */
  datatype Numbered<T> = Numbered(id: nat, what: T)

  /** One dispatched target. */
  type Job = Numbered<Target>

  /** The outcome of the job with the same id. */
  type Finished = Numbered<Result>

  datatype Worker =
    | Idle
    | Taken(job: Job)      // received, checker not yet looked up
    | Checking(job: Job)
    | Sending(item: Finished)
    | Exited

  datatype Collector =
    | Waiting
    | Received(item: Finished)
    | Stored(item: Finished)  // saved, not yet evaluated
    | Stopped

  datatype Main =
    | Dispatching(todo: seq<Target>)
    | Selecting
    | AwaitWorkers      // jobs closed
    | AwaitCollector    // results closed
    | Returned

  datatype Pool = Pool(
    main: Main,
    ctxDone: bool,
    targets: seq<Target>,
    checkers: set<string>,     // names with a checker
    cap: nat,                  // of both channels
    jobs: seq<Job>, jobsClosed: bool,
    results: seq<Finished>, resultsClosed: bool,
    workers: seq<Worker>,
    collector: Collector,
    hasEvaluator: bool,
    enqueued: seq<Target>,     // by job id
    skipped: seq<Job>,         // no checker any more
    saved: seq<Finished>,
    evaluated: seq<Finished>,
    reloads: nat)

  datatype Step =
    | Cancel | Tick | Reload(targets: seq<Target>) | Dispatch | Shutdown | WorkersDone | CollectorDone
    | Receive(i: nat) | LookUp(i: nat) | CheckDone(i: nat, result: Result) | Send(i: nat) | Exit(i: nat)
    | Collect | Save | Evaluate | Stop

  const KINDS: set<string> := {"http", "tcp", "cert"}

  /** The names for which a configuration yields a checker. */
  function CheckerNames(targets: seq<Target>): set<string> {
    set t | t in targets && t.kind in KINDS :: t.name
  }

  /** A fresh run: the channels are as large as the number of targets, and a first round is dispatched at once. */
  function Start(targets: seq<Target>, workers: nat, hasEvaluator: bool): Pool {
    Pool(Dispatching(targets), false, targets, CheckerNames(targets), |targets|,
         [], false, [], false, seq(workers, _ => Idle), Waiting, hasEvaluator, [], [], [], [], 0)
  }

  predicate Can(p: Pool, s: Step) {
    match s
    case Cancel => !p.ctxDone
    case Tick => p.main.Selecting?
    case Reload(_) => p.main.Selecting?
    case Dispatch => p.main.Dispatching?
    case Shutdown => p.main.Selecting? && p.ctxDone
    case WorkersDone => p.main.AwaitWorkers? && forall i :: 0 <= i < |p.workers| ==> p.workers[i].Exited?
    case CollectorDone => p.main.AwaitCollector? && p.collector.Stopped?
    case Receive(i) => i < |p.workers| && p.workers[i].Idle? && p.jobs != []
    case LookUp(i) => i < |p.workers| && p.workers[i].Taken?
    case CheckDone(i, result) =>
      i < |p.workers| && p.workers[i].Checking? && result.target == p.workers[i].job.what.name
    case Send(i) => i < |p.workers| && p.workers[i].Sending? && |p.results| < p.cap
    case Exit(i) => i < |p.workers| && p.workers[i].Idle? && p.jobs == [] && p.jobsClosed
    case Collect => p.collector.Waiting? && p.results != []
    case Save => p.collector.Received?
    case Evaluate => p.collector.Stored?
    case Stop => p.collector.Waiting? && p.results == [] && p.resultsClosed
  }

  function Next(p: Pool, s: Step): Pool
    requires Can(p, s)
  {
    match s
    case Cancel => p.(ctxDone := true)
    case Tick => p.(main := Dispatching(p.targets))
    case Reload(targets) => p.(targets := targets, checkers := CheckerNames(targets), reloads := p.reloads + 1)
    case Dispatch =>
      if p.main.todo == [] then p.(main := Selecting) else
      var rest := p.(main := Dispatching(p.main.todo[1..]));
      if |p.jobs| >= p.cap then rest else
      rest.(jobs := p.jobs + [Numbered(|p.enqueued|, p.main.todo[0])], enqueued := p.enqueued + [p.main.todo[0]])
    case Shutdown => p.(main := AwaitWorkers, jobsClosed := true)
    case WorkersDone => p.(main := AwaitCollector, resultsClosed := true)
    case CollectorDone => p.(main := Returned)
    case Receive(i) => p.(workers := p.workers[i := Taken(p.jobs[0])], jobs := p.jobs[1..])
    case LookUp(i) =>
      var job := p.workers[i].job;
      if job.what.name in p.checkers then p.(workers := p.workers[i := Checking(job)])
      else p.(workers := p.workers[i := Idle], skipped := p.skipped + [job])
    case CheckDone(i, result) => p.(workers := p.workers[i := Sending(Numbered(p.workers[i].job.id, result))])
    case Send(i) => p.(workers := p.workers[i := Idle], results := p.results + [p.workers[i].item])
    case Exit(i) => p.(workers := p.workers[i := Exited])
    case Collect => p.(collector := Received(p.results[0]), results := p.results[1..])
    case Save => p.(collector := Stored(p.collector.item), saved := p.saved + [p.collector.item])
    case Evaluate =>
      p.(collector := Waiting, evaluated := if p.hasEvaluator then p.evaluated + [p.collector.item] else p.evaluated)
    case Stop => p.(collector := Stopped)
  }

  ghost predicate Runs(p: Pool, steps: seq<Step>)
    decreases |steps|, 0
  {
    steps == [] || (Runs(p, steps[..|steps| - 1]) && Can(Exec(p, steps[..|steps| - 1]), steps[|steps| - 1]))
  }

  ghost function Exec(p: Pool, steps: seq<Step>): Pool
    requires Runs(p, steps)
    decreases |steps|, 1
  {
    if steps == [] then p else Next(Exec(p, steps[..|steps| - 1]), steps[|steps| - 1])
  }
}
