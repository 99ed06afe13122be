/** What every run of the pool keeps: nothing is lost or doubled, nothing deadlocks, and shutdown comes to an end. */
module PoolProofs {
  import opened Checker
  import opened PoolRun

  // ----- conservation: every dispatched job is in exactly one place -----

  /** How often an id occurs in a list. */
  function Count<T>(items: seq<Numbered<T>>, id: nat): nat {
    if items == [] then 0 else Count(items[..|items| - 1], id) + if items[|items| - 1].id == id then 1 else 0
  }

  function Holds(w: Worker, id: nat): nat {
    match w
    case Taken(job) => if job.id == id then 1 else 0
    case Checking(job) => if job.id == id then 1 else 0
    case Sending(item) => if item.id == id then 1 else 0
    case _ => 0
  }

  function InFlight(workers: seq<Worker>, id: nat): nat {
    if workers == [] then 0 else InFlight(workers[..|workers| - 1], id) + Holds(workers[|workers| - 1], id)
  }

  function Unsaved(c: Collector, id: nat): nat {
    if c.Received? && c.item.id == id then 1 else 0
  }

  /** How often a job is queued, in flight, skipped, buffered, received or saved, all together. */
  function Places(p: Pool, id: nat): nat {
    Count(p.jobs, id) + InFlight(p.workers, id) + Count(p.skipped, id)
      + Count(p.results, id) + Unsaved(p.collector, id) + Count(p.saved, id)
  }

  /** Every job ever enqueued is in exactly one place, and nothing else is anywhere. */
  ghost predicate Conserved(p: Pool) {
    forall id: nat :: Places(p, id) == if id < |p.enqueued| then 1 else 0
  }

  /** What was saved has been evaluated, in the same order, but for at most the last. */
  ghost predicate EvaluatedInOrder(p: Pool) {
    p.evaluated ==
      if !p.hasEvaluator then [] else if p.collector.Stored? && p.saved != [] then p.saved[..|p.saved| - 1] else p.saved
  }

  ghost predicate JobKnown(p: Pool, job: Job) {
    job.id < |p.enqueued| && p.enqueued[job.id] == job.what
  }

  /** A result belongs to the target whose job it answers. */
  ghost predicate ItemKnown(p: Pool, item: Finished) {
    item.id < |p.enqueued| && item.what.target == p.enqueued[item.id].name
  }

  ghost predicate WorkerKnown(p: Pool, w: Worker) {
    match w
    case Taken(job) => JobKnown(p, job)
    case Checking(job) => JobKnown(p, job)
    case Sending(item) => ItemKnown(p, item)
    case _ => true
  }

  ghost predicate AllKnown(p: Pool) {
    && (forall job :: job in p.jobs || job in p.skipped ==> JobKnown(p, job))
    && (forall item :: item in p.results || item in p.saved ==> ItemKnown(p, item))
    && (forall i :: 0 <= i < |p.workers| ==> WorkerKnown(p, p.workers[i]))
    && (p.collector.Received? || p.collector.Stored? ==> ItemKnown(p, p.collector.item))
  }

  /** The order of shutdown: a channel is closed only when nobody is left to send on it. */
  ghost predicate InPhase(p: Pool) {
    && |p.results| <= p.cap && |p.jobs| <= p.cap
    && (p.jobsClosed <==> p.main.AwaitWorkers? || p.main.AwaitCollector? || p.main.Returned?)
    && (p.resultsClosed <==> p.main.AwaitCollector? || p.main.Returned?)
    && (p.jobsClosed ==> p.ctxDone)
    && (forall i :: 0 <= i < |p.workers| && p.workers[i].Exited? ==> p.jobsClosed && p.jobs == [])
    && (p.resultsClosed ==> forall i :: 0 <= i < |p.workers| ==> p.workers[i].Exited?)
    && (p.collector.Stopped? ==> p.resultsClosed && p.results == [])
    && (p.main.Returned? ==> p.collector.Stopped?)
    && (p.collector.Stored? ==> p.saved != [] && p.saved[|p.saved| - 1] == p.collector.item)
  }

  /** As long as no configuration has been received, everything dispatched has a checker. */
  ghost predicate NothingSkipped(p: Pool) {
    p.reloads == 0 ==>
      && p.skipped == []
      && (forall t :: t in p.targets ==> t.name in p.checkers)
      && (forall t :: t in p.enqueued ==> t.name in p.checkers)
      && (p.main.Dispatching? ==> forall t :: t in p.main.todo ==> t.name in p.checkers)
  }

  ghost predicate Inv(p: Pool) {
    Conserved(p) && EvaluatedInOrder(p) && AllKnown(p) && InPhase(p)
  }

  lemma CountAppend<T>(items: seq<Numbered<T>>, item: Numbered<T>, id: nat)
    ensures Count(items + [item], id) == Count(items, id) + if item.id == id then 1 else 0
  {
    assert (items + [item])[..|items|] == items;
  }

  lemma {:induction false} CountFirst<T>(items: seq<Numbered<T>>, id: nat)
    requires items != []
    ensures Count(items, id) == Count(items[1..], id) + if items[0].id == id then 1 else 0
  {
    if |items| > 1 {
      CountFirst(items[..|items| - 1], id);
      assert items[..|items| - 1][1..] == items[1..][..|items| - 2];
    }
  }

  lemma {:induction false} InFlightUpdate(workers: seq<Worker>, i: nat, w: Worker, id: nat)
    requires i < |workers|
    ensures InFlight(workers[i := w], id) == InFlight(workers, id) - Holds(workers[i], id) + Holds(w, id)
  {
    var n := |workers| - 1;
    if i == n {
      assert workers[i := w][..n] == workers[..n];
    } else {
      InFlightUpdate(workers[..n], i, w, id);
      assert workers[i := w][..n] == workers[..n][i := w];
    }
  }

  lemma ReceiveMoves(p: Pool, i: nat, id: nat)
    requires Can(p, Receive(i))
    ensures Places(Next(p, Receive(i)), id) == Places(p, id)
  {
    CountFirst(p.jobs, id);
    InFlightUpdate(p.workers, i, Taken(p.jobs[0]), id);
  }

  lemma LookUpMoves(p: Pool, i: nat, id: nat)
    requires Can(p, LookUp(i))
    ensures Places(Next(p, LookUp(i)), id) == Places(p, id)
  {
    var job := p.workers[i].job;
    if job.what.name in p.checkers {
      InFlightUpdate(p.workers, i, Checking(job), id);
    } else {
      InFlightUpdate(p.workers, i, Idle, id);
      CountAppend(p.skipped, job, id);
    }
  }

  lemma CheckMoves(p: Pool, i: nat, result: Result, id: nat)
    requires Can(p, CheckDone(i, result))
    ensures Places(Next(p, CheckDone(i, result)), id) == Places(p, id)
  {
    InFlightUpdate(p.workers, i, Sending(Numbered(p.workers[i].job.id, result)), id);
  }

  lemma SendMoves(p: Pool, i: nat, id: nat)
    requires Can(p, Send(i))
    ensures Places(Next(p, Send(i)), id) == Places(p, id)
  {
    InFlightUpdate(p.workers, i, Idle, id);
    CountAppend(p.results, p.workers[i].item, id);
  }

  lemma ExitMoves(p: Pool, i: nat, id: nat)
    requires Can(p, Exit(i))
    ensures Places(Next(p, Exit(i)), id) == Places(p, id)
  {
    InFlightUpdate(p.workers, i, Exited, id);
  }

  lemma DispatchMoves(p: Pool, id: nat)
    requires Can(p, Dispatch)
    ensures Places(Next(p, Dispatch), id)
      == Places(p, id) + if |Next(p, Dispatch).enqueued| > |p.enqueued| && id == |p.enqueued| then 1 else 0
  {
    if p.main.todo != [] && |p.jobs| < p.cap {
      CountAppend(p.jobs, Numbered(|p.enqueued|, p.main.todo[0]), id);
    }
  }

  lemma CollectorMoves(p: Pool, s: Step, id: nat)
    requires Can(p, s) && s in {Collect, Save, Evaluate, Stop}
    ensures Places(Next(p, s), id) == Places(p, id)
  {
    if s.Collect? {
      CountFirst(p.results, id);
    } else if s.Save? {
      CountAppend(p.saved, p.collector.item, id);
    }
  }

  /** One step moves a job from one place to the next, or brings a new one in. */
  lemma StepMoves(p: Pool, s: Step, id: nat)
    requires Can(p, s)
    ensures Places(Next(p, s), id)
      == Places(p, id) + if |Next(p, s).enqueued| > |p.enqueued| && id == |p.enqueued| then 1 else 0
  {
    match s
    case Dispatch => DispatchMoves(p, id);
    case Receive(i) => ReceiveMoves(p, i, id);
    case LookUp(i) => LookUpMoves(p, i, id);
    case CheckDone(i, result) => CheckMoves(p, i, result, id);
    case Send(i) => SendMoves(p, i, id);
    case Exit(i) => ExitMoves(p, i, id);
    case Collect => CollectorMoves(p, s, id);
    case Save => CollectorMoves(p, s, id);
    case Evaluate => CollectorMoves(p, s, id);
    case Stop => CollectorMoves(p, s, id);
    case _ =>
  }

  lemma StepConserves(p: Pool, s: Step)
    requires Conserved(p) && Can(p, s)
    ensures Conserved(Next(p, s))
  {
    forall id: nat
      ensures Places(Next(p, s), id) == if id < |Next(p, s).enqueued| then 1 else 0
    {
      StepMoves(p, s, id);
    }
  }

  /** Enqueueing more forgets nothing about earlier jobs. */
  lemma StillKnown(p: Pool, s: Step)
    requires Can(p, s)
    ensures forall job :: JobKnown(p, job) ==> JobKnown(Next(p, s), job)
    ensures forall item :: ItemKnown(p, item) ==> ItemKnown(Next(p, s), item)
  {
    EnqueuedGrows(p, s);
  }

  lemma EnqueuedGrows(p: Pool, s: Step)
    requires Can(p, s)
    ensures p.enqueued <= Next(p, s).enqueued
  {
    if !s.Dispatch? {
      assert Next(p, s).enqueued == p.enqueued;
    }
  }

  lemma QueueKnown(p: Pool, s: Step)
    requires AllKnown(p) && Can(p, s)
    ensures forall job :: job in Next(p, s).jobs ==> JobKnown(Next(p, s), job)
  {
    StillKnown(p, s);
    if s.Receive? {
      assert forall job :: job in p.jobs[1..] ==> job in p.jobs;
    } else if !s.Dispatch? {
      assert Next(p, s).jobs == p.jobs;
    }
  }

  lemma SkippedKnown(p: Pool, s: Step)
    requires AllKnown(p) && Can(p, s)
    ensures forall job :: job in Next(p, s).skipped ==> JobKnown(Next(p, s), job)
  {
    StillKnown(p, s);
    if s.LookUp? {
      assert WorkerKnown(p, p.workers[s.i]);
    } else {
      assert Next(p, s).skipped == p.skipped;
    }
  }

  lemma ResultsKnown(p: Pool, s: Step)
    requires AllKnown(p) && Can(p, s)
    ensures forall item :: item in Next(p, s).results ==> ItemKnown(Next(p, s), item)
  {
    StillKnown(p, s);
    if s.Send? {
      assert WorkerKnown(p, p.workers[s.i]);
    } else if s.Collect? {
      assert forall item :: item in p.results[1..] ==> item in p.results;
    } else {
      assert Next(p, s).results == p.results;
    }
  }

  lemma SavedKnown(p: Pool, s: Step)
    requires AllKnown(p) && Can(p, s)
    ensures forall item :: item in Next(p, s).saved ==> ItemKnown(Next(p, s), item)
  {
    StillKnown(p, s);
    if !s.Save? {
      assert Next(p, s).saved == p.saved;
    }
  }

  predicate WorkerStep(s: Step) {
    s.Receive? || s.LookUp? || s.CheckDone? || s.Send? || s.Exit?
  }

  predicate CollectorStep(s: Step) {
    s in {Collect, Save, Evaluate, Stop}
  }

  /** What becomes of the worker that acts. */
  function WorkerAfter(p: Pool, s: Step): Worker
    requires Can(p, s) && WorkerStep(s)
  {
    match s
    case Receive(_) => Taken(p.jobs[0])
    case LookUp(i) => if p.workers[i].job.what.name in p.checkers then Checking(p.workers[i].job) else Idle
    case CheckDone(i, result) => Sending(Numbered(p.workers[i].job.id, result))
    case Send(_) => Idle
    case Exit(_) => Exited
  }

  lemma OneWorkerActs(p: Pool, s: Step)
    requires Can(p, s)
    ensures WorkerStep(s) ==> s.i < |p.workers| && Next(p, s).workers == p.workers[s.i := WorkerAfter(p, s)]
    ensures !WorkerStep(s) ==> Next(p, s).workers == p.workers
  {
  }

  lemma ActingWorkerKnown(p: Pool, s: Step)
    requires AllKnown(p) && Can(p, s) && WorkerStep(s)
    ensures WorkerKnown(p, WorkerAfter(p, s))
  {
    assert WorkerKnown(p, p.workers[s.i]);
    if s.Receive? {
      assert p.jobs[0] in p.jobs;
    }
  }

  lemma WorkersKnown(p: Pool, s: Step)
    requires AllKnown(p) && Can(p, s)
    ensures forall i :: 0 <= i < |Next(p, s).workers| ==> WorkerKnown(Next(p, s), Next(p, s).workers[i])
  {
    StillKnown(p, s);
    OneWorkerActs(p, s);
    if WorkerStep(s) {
      ActingWorkerKnown(p, s);
    }
    var p' := Next(p, s);
    forall i | 0 <= i < |p'.workers|
      ensures WorkerKnown(p', p'.workers[i])
    {
      assert WorkerKnown(p, p.workers[i]);
    }
  }

  lemma CollectorKnown(p: Pool, s: Step)
    requires AllKnown(p) && Can(p, s)
    ensures var c := Next(p, s).collector; c.Received? || c.Stored? ==> ItemKnown(Next(p, s), c.item)
  {
    StillKnown(p, s);
    if s.Collect? {
      assert p.results[0] in p.results;
    } else if !CollectorStep(s) {
      assert Next(p, s).collector == p.collector;
    }
  }

  lemma StepKnows(p: Pool, s: Step)
    requires AllKnown(p) && Can(p, s)
    ensures AllKnown(Next(p, s))
  {
    QueueKnown(p, s);
    SkippedKnown(p, s);
    ResultsKnown(p, s);
    SavedKnown(p, s);
    WorkersKnown(p, s);
    CollectorKnown(p, s);
  }

  lemma StepEvaluates(p: Pool, s: Step)
    requires EvaluatedInOrder(p) && InPhase(p) && Can(p, s)
    ensures EvaluatedInOrder(Next(p, s))
  {
    if !CollectorStep(s) {
      var q := Next(p, s);
      assert q.evaluated == p.evaluated && q.saved == p.saved && q.collector == p.collector;
      assert q.hasEvaluator == p.hasEvaluator;
    }
  }

  lemma WorkerKeepsPhase(p: Pool, s: Step)
    requires InPhase(p) && Can(p, s) && WorkerStep(s)
    ensures InPhase(Next(p, s))
  {
    var q := Next(p, s);
    OneWorkerActs(p, s);
    assert q.main == p.main && q.collector == p.collector && q.saved == p.saved;
    forall i | 0 <= i < |q.workers| && q.workers[i].Exited?
      ensures q.jobsClosed && q.jobs == []
    {
      assert i != s.i ==> p.workers[i].Exited?;
    }
  }

  lemma CollectorKeepsPhase(p: Pool, s: Step)
    requires InPhase(p) && Can(p, s) && CollectorStep(s)
    ensures InPhase(Next(p, s))
  {
  }

  lemma StepKeepsPhase(p: Pool, s: Step)
    requires InPhase(p) && Can(p, s)
    ensures InPhase(Next(p, s))
  {
    if WorkerStep(s) {
      WorkerKeepsPhase(p, s);
    } else if CollectorStep(s) {
      CollectorKeepsPhase(p, s);
    }
  }

  lemma LookUpSkipsNothing(p: Pool, i: nat)
    requires AllKnown(p) && NothingSkipped(p) && Can(p, LookUp(i)) && p.reloads == 0
    ensures p.workers[i].job.what.name in p.checkers
  {
    assert WorkerKnown(p, p.workers[i]);
    assert p.enqueued[p.workers[i].job.id] in p.enqueued;
  }

  lemma MainSkipsNothing(p: Pool, s: Step)
    requires NothingSkipped(p) && Can(p, s) && !WorkerStep(s) && !CollectorStep(s)
    ensures NothingSkipped(Next(p, s))
  {
    if s.Dispatch? {
      DispatchSkipsNothing(p);
    }
  }

  lemma DispatchSkipsNothing(p: Pool)
    requires NothingSkipped(p) && Can(p, Dispatch)
    ensures NothingSkipped(Next(p, Dispatch))
  {
  }

  lemma StepSkipsNothing(p: Pool, s: Step)
    requires AllKnown(p) && NothingSkipped(p) && Can(p, s)
    ensures NothingSkipped(Next(p, s))
  {
    if s.LookUp? && p.reloads == 0 {
      LookUpSkipsNothing(p, s.i);
    }
    if WorkerStep(s) || CollectorStep(s) {
      var q := Next(p, s);
      assert q.targets == p.targets && q.checkers == p.checkers && q.reloads == p.reloads;
      assert q.main == p.main && q.enqueued == p.enqueued;
    } else {
      MainSkipsNothing(p, s);
    }
  }

  lemma StepKeepsInv(p: Pool, s: Step)
    requires Inv(p) && Can(p, s)
    ensures Inv(Next(p, s))
  {
    StepConserves(p, s);
    StepKnows(p, s);
    StepEvaluates(p, s);
    StepKeepsPhase(p, s);
  }

  lemma {:induction false} NoneInFlight(workers: seq<Worker>, id: nat)
    requires forall i :: 0 <= i < |workers| ==> workers[i].Idle? || workers[i].Exited?
    ensures InFlight(workers, id) == 0
  {
    if workers != [] {
      NoneInFlight(workers[..|workers| - 1], id);
    }
  }

  lemma StartIsGood(targets: seq<Target>, workers: nat, hasEvaluator: bool)
    ensures Inv(Start(targets, workers, hasEvaluator))
  {
    forall id: nat
      ensures Places(Start(targets, workers, hasEvaluator), id) == 0
    {
      NoneInFlight(Start(targets, workers, hasEvaluator).workers, id);
    }
  }

  lemma {:induction false} RunKeepsInv(p: Pool, steps: seq<Step>)
    requires Runs(p, steps) && Inv(p)
    ensures Inv(Exec(p, steps))
  {
    if steps != [] {
      RunKeepsInv(p, steps[..|steps| - 1]);
      StepKeepsInv(Exec(p, steps[..|steps| - 1]), steps[|steps| - 1]);
    }
  }

  lemma {:induction false} RunSkipsNothing(p: Pool, steps: seq<Step>)
    requires Runs(p, steps) && Inv(p) && NothingSkipped(p)
    ensures NothingSkipped(Exec(p, steps))
  {
    if steps != [] {
      RunSkipsNothing(p, steps[..|steps| - 1]);
      RunKeepsInv(p, steps[..|steps| - 1]);
      StepSkipsNothing(Exec(p, steps[..|steps| - 1]), steps[|steps| - 1]);
    }
  }

  lemma StepKeepsShape(p: Pool, s: Step)
    requires Can(p, s)
    ensures Next(p, s).cap == p.cap && Next(p, s).hasEvaluator == p.hasEvaluator
    ensures |Next(p, s).workers| == |p.workers|
  {
    OneWorkerActs(p, s);
  }

  lemma {:induction false} RunKeepsShape(p: Pool, steps: seq<Step>)
    requires Runs(p, steps)
    ensures var q := Exec(p, steps);
            |q.workers| == |p.workers| && q.cap == p.cap && q.hasEvaluator == p.hasEvaluator
  {
    if steps != [] {
      RunKeepsShape(p, steps[..|steps| - 1]);
      StepKeepsShape(Exec(p, steps[..|steps| - 1]), steps[|steps| - 1]);
    }
  }

  lemma ReturnedIsEmpty(p: Pool, id: nat)
    requires InPhase(p) && p.main.Returned? && p.workers != []
    ensures Places(p, id) == Count(p.skipped, id) + Count(p.saved, id)
  {
    assert p.workers[0].Exited?;
    NoneInFlight(p.workers, id);
  }

  /**
   In every interleaving, every enqueued job is in exactly one place. When the run has returned, each has been skipped
   for want of a checker or saved, exactly once; what is saved answers its own job's target, and has been evaluated,
   in the order of saving, when there is an evaluator.
   */
  lemma NothingLostOrDoubled(targets: seq<Target>, workers: nat, hasEvaluator: bool, steps: seq<Step>, id: nat)
    requires workers > 0 && Runs(Start(targets, workers, hasEvaluator), steps)
    ensures var p := Exec(Start(targets, workers, hasEvaluator), steps);
            && Places(p, id) == (if id < |p.enqueued| then 1 else 0)
            && (p.main.Returned? ==>
                  && Count(p.skipped, id) + Count(p.saved, id) == (if id < |p.enqueued| then 1 else 0)
                  && p.evaluated == if hasEvaluator then p.saved else [])
            && (forall item :: item in p.saved ==>
                  item.id < |p.enqueued| && item.what.target == p.enqueued[item.id].name)
  {
    var p0 := Start(targets, workers, hasEvaluator);
    var p := Exec(p0, steps);
    StartIsGood(targets, workers, hasEvaluator);
    RunKeepsInv(p0, steps);
    RunKeepsShape(p0, steps);
    if p.main.Returned? {
      ReturnedIsEmpty(p, id);
    }
  }

  /** With a validated configuration and no reload nothing is skipped: at the return every job is saved exactly once. */
  lemma WithoutReloadAllSaved(targets: seq<Target>, workers: nat, hasEvaluator: bool, steps: seq<Step>, id: nat)
    requires workers > 0 && Runs(Start(targets, workers, hasEvaluator), steps)
    requires forall t :: t in targets ==> t.kind in KINDS
    ensures var p := Exec(Start(targets, workers, hasEvaluator), steps);
            p.reloads == 0 ==> p.skipped == [] && (p.main.Returned? && id < |p.enqueued| ==> Count(p.saved, id) == 1)
  {
    var p0 := Start(targets, workers, hasEvaluator);
    StartIsGood(targets, workers, hasEvaluator);
    RunSkipsNothing(p0, steps);
    NothingLostOrDoubled(targets, workers, hasEvaluator, steps, id);
  }

  /** Nothing is ever sent on a closed channel. */
  lemma NoSendOnClosed(targets: seq<Target>, workers: nat, hasEvaluator: bool, steps: seq<Step>)
    requires Runs(Start(targets, workers, hasEvaluator), steps)
    ensures var p := Exec(Start(targets, workers, hasEvaluator), steps);
            && (p.main.Dispatching? ==> !p.jobsClosed)
            && (forall i :: 0 <= i < |p.workers| && p.workers[i].Sending? ==> !p.resultsClosed)
  {
    StartIsGood(targets, workers, hasEvaluator);
    RunKeepsInv(Start(targets, workers, hasEvaluator), steps);
  }

  // ----- no deadlock, and an end to every shutdown -----

  /** A worker that has not exited can act, or waits for room that the collector can make. */
  lemma WorkerOrCollectorCanAct(p: Pool, i: nat) returns (s: Step)
    requires InPhase(p) && p.cap > 0 && i < |p.workers| && !p.workers[i].Exited? && p.jobsClosed
    ensures Can(p, s) && !Outside(s) && s != Cancel
  {
    match p.workers[i]
    case Idle => s := if p.jobs == [] then Exit(i) else Receive(i);
    case Taken(job) => s := LookUp(i);
    case Checking(job) => s := CheckDone(i, Result.Result(job.what.name, STATUS_DOWN, 0, "", 0));
    case Sending(item) =>
      s := if |p.results| < p.cap then Send(i)
           else if p.collector.Waiting? then Collect else if p.collector.Received? then Save else Evaluate;
  }

  lemma CollectorCanAct(p: Pool) returns (s: Step)
    requires InPhase(p) && p.main.AwaitCollector?
    ensures Can(p, s) && !Outside(s) && s != Cancel
  {
    s := match p.collector
      case Waiting => if p.results == [] then Stop else Collect
      case Received(_) => Save
      case Stored(_) => Evaluate
      case Stopped => CollectorDone;
  }

  /** Ticks and reloads come from outside; every other step after the end of the context brings the end nearer. */
  predicate Outside(s: Step) {
    s.Tick? || s.Reload?
  }

  /** Some step of the pool itself is possible until it has returned, even with the results channel full. */
  lemma NoDeadlock(p: Pool) returns (s: Step)
    requires InPhase(p) && p.cap > 0 && p.ctxDone && !p.main.Returned?
    ensures Can(p, s) && !Outside(s)
  {
    match p.main
    case Dispatching(_) => s := Dispatch;
    case Selecting => s := Shutdown;
    case AwaitCollector => s := CollectorCanAct(p);
    case AwaitWorkers =>
      if i :| 0 <= i < |p.workers| && !p.workers[i].Exited? {
        s := WorkerOrCollectorCanAct(p, i);
      } else {
        s := WorkersDone;
      }
  }

  /** The same while the context lives: at the latest, the next tick comes. */
  lemma NeverStuck(p: Pool) returns (s: Step)
    requires InPhase(p) && p.cap > 0 && !p.main.Returned?
    ensures Can(p, s) && s != Cancel
  {
    if p.ctxDone {
      s := NoDeadlock(p);
    } else {
      s := if p.main.Dispatching? then Dispatch else Tick;
    }
  }

  function WorkerLoad(w: Worker): nat {
    match w
    case Exited => 0
    case Idle => 1
    case Sending(_) => 5
    case Checking(_) => 6
    case Taken(_) => 7
  }

  function WorkersLoad(workers: seq<Worker>): nat {
    if workers == [] then 0 else WorkersLoad(workers[..|workers| - 1]) + WorkerLoad(workers[|workers| - 1])
  }

  function CollectorLoad(c: Collector): nat {
    match c
    case Stopped => 0
    case Waiting => 1
    case Stored(_) => 2
    case Received(_) => 3
  }

  /** What workers and collector still have to do. */
  function Work(p: Pool): nat {
    7 * |p.jobs| + WorkersLoad(p.workers) + 3 * |p.results| + CollectorLoad(p.collector)
  }

  /** What the main loop still has to do: every target of a round may become a job. */
  function MainLoad(m: Main): nat {
    match m
    case Returned => 0
    case AwaitCollector => 1
    case AwaitWorkers => 2
    case Selecting => 3
    case Dispatching(todo) => 4 + 8 * |todo|
  }

  /** The steps that remain once the context has ended, at most, unless ticks or reloads come in between. */
  function Remaining(p: Pool): nat {
    Work(p) + MainLoad(p.main)
  }

  /** What a tick or a reload adds, its own step included. */
  function Adds(p: Pool, s: Step): nat {
    if s.Tick? then 2 + 8 * |p.targets| else if s.Reload? then 1 else 0
  }

  /** What all the ticks and reloads of a run add. */
  ghost function Added(p: Pool, steps: seq<Step>): nat
    requires Runs(p, steps)
  {
    if steps == [] then 0 else
    Added(p, steps[..|steps| - 1]) + Adds(Exec(p, steps[..|steps| - 1]), steps[|steps| - 1])
  }

  lemma {:induction false} LoadUpdate(workers: seq<Worker>, i: nat, w: Worker)
    requires i < |workers|
    ensures WorkersLoad(workers[i := w]) == WorkersLoad(workers) - WorkerLoad(workers[i]) + WorkerLoad(w)
  {
    var n := |workers| - 1;
    if i == n {
      assert workers[i := w][..n] == workers[..n];
    } else {
      LoadUpdate(workers[..n], i, w);
      assert workers[i := w][..n] == workers[..n][i := w];
    }
  }

  lemma WorkerLowersWork(p: Pool, s: Step)
    requires Can(p, s) && WorkerStep(s)
    ensures Work(Next(p, s)) < Work(p)
  {
    OneWorkerActs(p, s);
    LoadUpdate(p.workers, s.i, WorkerAfter(p, s));
  }

  lemma CollectorLowersWork(p: Pool, s: Step)
    requires Can(p, s) && CollectorStep(s)
    ensures Work(Next(p, s)) < Work(p)
  {
  }

  /** Every step of a worker or of the collector, at any time, lowers the work that is left. */
  lemma StepLowersWork(p: Pool, s: Step)
    requires Can(p, s) && (WorkerStep(s) || CollectorStep(s))
    ensures Work(Next(p, s)) < Work(p)
  {
    if WorkerStep(s) {
      WorkerLowersWork(p, s);
    } else {
      CollectorLowersWork(p, s);
    }
  }

  lemma MainLowersRemaining(p: Pool, s: Step)
    requires p.ctxDone && Can(p, s) && !WorkerStep(s) && !CollectorStep(s)
    ensures Remaining(Next(p, s)) + 1 <= Remaining(p) + Adds(p, s)
  {
    if s.Dispatch? {
      DispatchLowersRemaining(p);
    }
  }

  lemma DispatchLowersRemaining(p: Pool)
    requires Can(p, Dispatch)
    ensures Remaining(Next(p, Dispatch)) < Remaining(p)
  {
    var q := Next(p, Dispatch);
    assert q.workers == p.workers && q.results == p.results && q.collector == p.collector;
    if p.main.todo == [] {
      assert q.main == Selecting && q.jobs == p.jobs;
    } else {
      assert q.main == Dispatching(p.main.todo[1..]) && |q.jobs| <= |p.jobs| + 1;
    }
  }

  /** Once the context has ended, every step lowers what remains, but for what ticks and reloads add. */
  lemma StepLowersRemaining(p: Pool, s: Step)
    requires p.ctxDone && Can(p, s)
    ensures Next(p, s).ctxDone
    ensures Remaining(Next(p, s)) + 1 <= Remaining(p) + Adds(p, s)
  {
    if WorkerStep(s) || CollectorStep(s) {
      StepLowersWork(p, s);
      assert Next(p, s).main == p.main;
    } else {
      MainLowersRemaining(p, s);
    }
  }

  /** However the goroutines interleave, from the end of the context on a run is as long as the measure allows. */
  lemma {:induction false} ShutdownIsBounded(p: Pool, steps: seq<Step>)
    requires p.ctxDone && Runs(p, steps)
    ensures Exec(p, steps).ctxDone
    ensures |steps| + Remaining(Exec(p, steps)) <= Remaining(p) + Added(p, steps)
  {
    if steps != [] {
      var front, last := steps[..|steps| - 1], steps[|steps| - 1];
      ShutdownIsBounded(p, front);
      StepLowersRemaining(Exec(p, front), last);
    }
  }

  lemma {:induction false} NothingAdded(p: Pool, steps: seq<Step>)
    requires Runs(p, steps) && forall s :: s in steps ==> !Outside(s)
    ensures Added(p, steps) == 0
  {
    if steps != [] {
      NothingAdded(p, steps[..|steps| - 1]);
      assert steps[|steps| - 1] in steps;
    }
  }

  lemma NothingAfterReturn(p: Pool, s: Step)
    requires InPhase(p) && p.main.Returned?
    ensures !Can(p, s)
  {
  }

  /**
   From the end of the context on: ticks and reloads apart, a run takes at most as many steps as the measure says, each
   tick and each reload prolongs it by a fixed amount, and it gets stuck, but for ticks and reloads, exactly where it
   has returned.
   */
  lemma ShutdownReturns(targets: seq<Target>, workers: nat, hasEvaluator: bool, before: seq<Step>, after: seq<Step>)
    requires targets != [] && Runs(Start(targets, workers, hasEvaluator), before)
    requires Exec(Start(targets, workers, hasEvaluator), before).ctxDone
    requires Runs(Exec(Start(targets, workers, hasEvaluator), before), after)
    ensures var p := Exec(Start(targets, workers, hasEvaluator), before);
            && |after| <= Remaining(p) + Added(p, after)
            && ((forall s :: s in after ==> !Outside(s)) ==> |after| <= Remaining(p))
            && ((forall s :: Can(Exec(p, after), s) ==> Outside(s)) <==> Exec(p, after).main.Returned?)
  {
    var p0 := Start(targets, workers, hasEvaluator);
    var p := Exec(p0, before);
    StartIsGood(targets, workers, hasEvaluator);
    RunKeepsInv(p0, before);
    RunKeepsInv(p, after);
    RunKeepsShape(p0, before);
    RunKeepsShape(p, after);
    ShutdownIsBounded(p, after);
    if forall s :: s in after ==> !Outside(s) {
      NothingAdded(p, after);
    }
    var q := Exec(p, after);
    if !q.main.Returned? {
      var s := NoDeadlock(q);
    } else {
      forall s
        ensures Can(q, s) ==> Outside(s)
      {
        NothingAfterReturn(q, s);
      }
    }
  }
}
