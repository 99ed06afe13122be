# GoWatch: a verified model of its stateful core

GoWatch probes HTTP, TCP and certificate targets, stores the results, raises alerts on them, and asks a language model
for a diagnosis when an alert fires. Several nodes can run it; etcd elects the one that probes. This project models the
parts of it that are state machines and proves what they guarantee over whole runs, for all inputs and all
interleavings. `dafny verify dfyconfig.toml` checks all files together. Nothing of GoWatch itself is executed here.

## How the model is laid out

| files | part of GoWatch |
|---|---|
| `Checker`, `History` | a probe result; one target's share of a stream and its newest entries |
| `Backoff`, `Leadership` | one node's program to become and stop being leader, as actions and as the method `Leader.Run` |
| `Election`, `Exclusion` | N nodes against one etcd; who leads, and when at most one does |
| `Failover`, `FailoverExact`, `FailoverRules` | cooldowns across a change of leader: late and lost writes, reading the store and laying it over memory |
| `Window`, `Rules`, `Matchers`, `WindowRefinement` | the bounded window, the three kinds of rule, and when 50 results decide like the full history |
| `Keys`, `Suppression`, `Evaluation`, `AlertRuns`, `AlertTruth`, `AlertNames` | the cooldown map, the evaluator, whole runs of the alert engine, and what its alerts say about the results |
| `EvaluatorWorld` | the evaluator as a node of the failover world |
| `PoolRun`, `PoolProofs`, `PoolRounds`, `Scheduler`, `ReloadSlot` | the worker pool under every interleaving, what its rounds dispatch, its own fields, and its one-slot reload channel |
| `Rates`, `Analyzer`, `AnalyzerRuns`, `AnalyzerKeys` | the three gates before the language model, told by keys and by events, and the bounds on its use |
| `Diagnosis` | the statistics that a diagnosis is built on |

Objects whose methods update their fields are classes here too (`Window`, `Suppressor`, `Evaluator`, `Backoff`, `Leader`,
`Pool`, `Analyzer`). Each method is proved against a function of the old state, and the theorems are about runs of those
functions. Goroutines that share channels or etcd are state machines: a run is any list of steps, each of which is
possible in the state that the steps before it lead to. Where a class and a machine describe the same code, they are
tied: `Leader.Run` records an action of the node program for every assignment it makes, `OnResultInWorld` reads a result
on one node as events of the failover world, and `DispatchAlone` reads a round of dispatching as steps of the machine.

## What is assumed

* Time is an integer. Every reading of the clock that the code takes is a parameter of its own; theorems that need a
  clock that does not go back say so. The failover theorems compare readings and need no agreement between the clocks
  of different nodes. The calendar day of the daily cap is a number that does not go back either.
* etcd is reduced to leases and election keys. A key lives exactly as long as its lease, and a lease can be lost at any
  moment. A campaign returns without error only when no key created earlier is left; like etcd's client, it does not
  look again at its own key. A session's end may be reported at any time. Closing a session asks for its lease to be
  revoked; the lease goes in a step of its own, so a revocation may also be late. A key that is deleted while its lease
  lives on is treated as the loss of the lease.
* A load is two steps: etcd answers, and later the answer is laid over memory under the lock
  (`internal/alert/suppressor.go:47-61`). In between anybody may fire, writes may arrive and leaders may change. A
  callback whose context has ended asks no more, but may still lay over an answer it had received.
* A write of a cooldown is started in the background. It may arrive late, in any order, or never. The last is an
  ordinary event: the context that the write uses is cancelled as soon as the evaluator has its answer
  (`internal/alert/evaluator.go:59-61`, `internal/alert/suppressor.go:76-87`).
* A process that stops, crashes or hangs is a node that makes no further moves; its lease goes and its writes under way
  are lost or arrive. A process that is started again is a node of its own, with an empty memory.
* One collector at a time feeds an evaluator: a result is pushed and all rules are applied to it before the next one is
  pushed. When a callback was abandoned, the old run's collector and the new one's share the evaluator and this can fail;
  what survives then is that the firings of a rule on a target are spaced (`InterleavedCallsAreSpaced`; loads in between
  are the subject of `Failover`).
* The pool starts with at least one target, as every validated configuration has (`internal/config/config.go:32`), and,
  where a theorem says so, with at least one worker. A check is an arbitrary result that carries its target's name.

## Where the code and its documentation differ

The model follows the code. These are theorems, not remarks:

* An error-rate rule is documented as deciding on all results inside its period (`docs/architecture.md:185`). It
  decides on the newest 50. The two agree on every history with n results in the period exactly when n is at most 50
  (`RateExact`).
* A consecutive rule with a threshold above 50 passes validation and can never hit (`ConsecutiveExact`).
* Cooldowns are documented as independent per rule and target (`docs/architecture.md:146`). The key is one string, so a
  rule whose name continues another rule's name after a colon can be silenced by it; exactly those names interfere
  (`NamesExact`).
* The cooldown of a diagnosis is documented per target in one place (`README.md:144`) and per target and rule in another
  (`docs/aiops.md:78`). The code does the latter, but its key is one string again, of the target, a bar and the rule. It
  is per target and rule as long as no target continues another one after a bar (`GateDecidesByEvents`,
  `TargetsToldApart`); otherwise one event can hold back a different one (`CollisionCools`).
* "At any moment only the leader probes" (`README.md:135`) is guaranteed exactly when three lapses of the election are
  ruled out (`ExclusionExact`). One of them is easy to overlook: a lease that expires while its node is still campaigning,
  after which the campaign is won without a key (`ExpiryWhileCampaigning`).
* "Cooldown is not reset by a change of leader" (`README.md:136`) holds, with leases lost at any moment and leaders
  failing, stopping or running on, when a key's writes are not lost, do not overtake each other and are not under way at
  a read, when nobody fires who is not the last to have loaded, and when nobody lays over memory what a firing since the
  read has outdated. Each of these five is needed. The last is guaranteed by exclusive leadership, the one before by
  exclusive leadership and successful loads, and neither by less (`FailoverIsExact`).
* The history handed to the diagnosis is documented as oldest first (`internal/aiops/context.go:16`), but the store
  returns it newest first (`internal/storage/sqlite.go:141`), with times in whole seconds
  (`internal/storage/sqlite.go:35`). `FirstDownDirection` and `FlapsDirection` say exactly which results that leaves
  right, ties included.

## Model

| member | source | states |
|---|---|---|
| `BackoffDelays.Backoff.Wait` | internal/cluster/leader.go:25-34 | the time waited is the current delay, or the time until the context ends if that is shorter, and the delay doubles up to its cap in either case |
| `BackoffDelays.Backoff.Reset` | internal/cluster/leader.go:36-38 | the delay is one second again, the cap unchanged |
| `BackoffDelays.DelayClosedForm` | internal/cluster/leader.go:73 | after k waits the delay is min(2^k, 30) seconds |
| `BackoffDelays.TotalClosedForm` | internal/cluster/leader.go:25-38 | k completed waits in a row take 2^k - 1 seconds up to five, then 30 seconds more each |
| `Leadership.NodeStep` | internal/cluster/leader.go:72-133 | every line of the loop keeps flag, published session, open session, callback, key and backoff in step with the control point |
| `Leadership.EveryNodeRun` | internal/cluster/leader.go:72-133 | in every run of a node sessions are opened and closed strictly in turn, callbacks alive never exceed one while leading plus the timeouts taken, and a node that has returned is not flagged and has no session |
| `Leadership.ReturnsWhenDone` | internal/cluster/leader.go:74-132 | the loop ends exactly when some reading of the context finds it done; no failure of etcd and no lost session ends it |
| `Leadership.BacksOff` | internal/cluster/leader.go:73-96 | the next wait depends only on the attempts that have failed since the last term of leadership, as min(2^k, 30) seconds |
| `Leadership.ReturnsExactly` | internal/cluster/leader.go:74-132 | told by the script alone: the loop returns exactly when a reading of the context finds it done at the top, after a failed campaign, or around the end of a term |
| `Leadership.TurnsCount` | internal/cluster/leader.go:79-127 | while the context lives, each session opened by the script is opened and closed once, and the abandoned callbacks are the terms that ended in a timeout |
| `Leadership.WaitedSinceTerm` | internal/cluster/leader.go:25-38 | while the context lives, the loop has waited since its last term 2^k - 1 seconds for k failed attempts up to five, then 30 seconds more each |
| `Leadership.FirstWaitAfterTerm` | internal/cluster/leader.go:131 | the first wait after a term of leadership is one second |
| `Leadership.CutWait` | internal/cluster/leader.go:25-34 | a context that ends d into a wait of min(2^k, 30) seconds ends the wait at d |
| `Leadership.Leader.Campaign` | internal/cluster/leader.go:84-88 | a session is published and logged as opened; a campaign that is won holds a key, and one that fails may have created one |
| `Leadership.Leader.GiveUp` | internal/cluster/leader.go:88-97 | a failed campaign leaves no session open or published, and returns only when the context is done |
| `Leadership.Leader.Lead` | internal/cluster/leader.go:100-117 | the flag is up before the callback runs, and the wait ends with the session's or the context's end |
| `Leadership.Leader.AwaitExit` | internal/cluster/leader.go:118-123 | the callback has ended, or one more callback is abandoned and one more timeout counted |
| `Leadership.Leader.StepDown` | internal/cluster/leader.go:124-131 | flag down, session forgotten and closed, and the backoff reset exactly when the loop goes on |
| `Leadership.Leader.WaitBackoff` | internal/cluster/leader.go:25-34 | the time waited after k waits is min(2^k, 30) seconds, or the time until the context ends if that is shorter |
| `Leadership.Leader.TakeTurn` | internal/cluster/leader.go:74-131 | the body of the loop as one transition of the node: it returns, or waits once, exactly when its answers say so |
| `Leadership.Leader.Term` | internal/cluster/leader.go:98-131 | a whole term of leadership closes exactly the session it began with, counts its timeout, and ends the loop exactly when the context is seen done |
| `Leadership.Leader.Serve` | internal/cluster/leader.go:84-131 | one turn of the loop after its session is open, as one transition of the node; it waits exactly when the campaign fails and the context lives, for min(2^k, 30) seconds or until the context ends |
| `Leadership.Leader.Run` | internal/cluster/leader.go:72-133 | the imperative loop performs a run of the node program, its turns add up to the big-step meaning of its environment's answers, it returns exactly when the context is seen done, and it has waited what `WaitsOf` lists: min(2^k, 30) seconds, or up to the context's end, for each failed attempt |
| `Election.OwnMoveKeepsLink` | internal/cluster/leader.go:78-88 | a node's own step keeps its key alive exactly as long as its lease, and once its campaign is won no live key is older than its own |
| `Election.RunKeepsInv` | internal/cluster/leader.go:72-133 | every node's invariant, its link to etcd and the distinctness of keys and sessions hold in every reachable state of N nodes, with leases lost at any moment |
| `Election.FlaggedOwnsOrLost` | internal/cluster/leader.go:98-127 | a flagged node owns the earliest live key or has lost its lease, so of two flagged nodes at least one has lost its lease |
| `Election.DemotionPending` | internal/cluster/leader.go:110-124 | in every run, whatever the other nodes and etcd do, a node stays flagged for fewer than four actions of its own program, each of which brings it nearer to lowering the flag |
| `Election.CanStepDown` | internal/cluster/leader.go:110-124 | a flagged node can always go on by itself, without touching any key, whatever has become of its lease |
| `Exclusion.RunKeepsHolding` | internal/cluster/leader.go:98-127 | without lapses every node in charge holds its lease and no callback is abandoned |
| `Exclusion.AtMostOneLeader` | internal/cluster/leader.go:98-127 | without lapses at most one node of the cluster is flagged and at most one callback runs, in every reachable state |
| `Exclusion.ExpiryInCharge` | internal/cluster/leader.go:110-112 | a run with two nodes in office in which only a leader's lease expires |
| `Exclusion.CallbackOutlivesTimeout` | internal/cluster/leader.go:118-127 | a run with a callback alive beside a new leader in which only the five-second wait is given up |
| `Exclusion.ExpiryWhileCampaigning` | internal/cluster/leader.go:88-100 | a run with two nodes in office in which only a campaign is won after its own key is gone |
| `Exclusion.ExclusionExact` | internal/cluster/leader.go:98-127 | avoiding a set of lapses makes leadership exclusive in all runs if and only if the set is all three |
| `Failover.ClusterRuns` | cmd/gowatch/main.go:178-186 | every run with suppressors, store and writes is, seen from the election alone, a run of the election |
| `Failover.PutKeepsGood` | internal/alert/suppressor.go:76-87 | a write that overtakes none of its key keeps the newest firing covered by the store or by a write under way |
| `Failover.ReadKeepsGood` | internal/alert/suppressor.go:47-50 | an answer of etcd given when nothing of the key is under way covers every firing so far |
| `Failover.OverlayKeepsGood` | internal/alert/suppressor.go:51-61 | laid over memory before the key is fired again, the answer makes the loader know of every firing, although it overwrites memory |
| `Failover.HistoryKeepsGood` | internal/alert/suppressor.go:30-89 | with leases lost at any moment, whoever loaded last knows of every firing of the key, and so does every answer that no firing has outdated |
| `Failover.CooldownSurvivesFailover` | cmd/gowatch/main.go:178-185 | whatever happens to leases, leaders, callbacks and clocks, when a key's writes arrive in order and before the next read, only the last to have loaded fires it, and no answer is laid over that its firing has outdated, all its firings across all nodes are at least the cooldown apart |
| `Failover.ExclusiveLoadsUndisturbed` | internal/cluster/leader.go:98-127 | with exclusive leaders nothing is fired between a read and its overlay |
| `Failover.OrderlyIsNeverStale` | internal/cluster/leader.go:98-127 | with exclusive leaders that all load successfully, whoever fires is the last to have loaded |
| `Failover.CooldownSurvivesHandover` | cmd/gowatch/main.go:178-185 | so under exclusive leadership and successful loads the cooldown rests on the writes alone |
| `FailoverExact.HandoverFiresTwice` | internal/alert/suppressor.go:46-87 | a lost write, a write under way at the read, or a failed load is each enough, in an orderly handover, to fire twice within the cooldown |
| `FailoverExact.ReorderedFiresTwice` | internal/alert/suppressor.go:76-87 | two writes that arrive in the wrong order before an orderly handover are enough to fire twice within the cooldown |
| `FailoverExact.LeadingFiresTwice` | internal/cluster/leader.go:98-127 | each of the three lapses of the election is enough to let somebody fire on an outdated memory, twice within the cooldown |
| `FailoverExact.LoadingFiresTwice` | internal/alert/suppressor.go:47-61 | with each of the three lapses, a firing between a read and its overlay is enough to fire twice within the cooldown, although every write arrives and whoever fires is the last to have loaded |
| `FailoverExact.ExpiryIsCovered` | internal/cluster/leader.go:110-112 | a leader whose lease expires in charge and who goes on believing that it leads is inside the theorem, and its successor fires again one cooldown later |
| `FailoverExact.FailoverIsExact` | internal/alert/suppressor.go:30-89 | of all sets of the nine faults, exactly those keep the cooldown in every run when ruled out that hold the three of writing, stale firing or else failed loads and all three lapses, and firing during a load or else all three lapses |
| `FailoverRules.OwnCooldown` | internal/alert/suppressor.go:34 | with rule names that can be told apart, the key of a rule and a target carries that rule's own cooldown |
| `FailoverRules.RuleCooldownSurvives` | cmd/gowatch/main.go:178-185 | for any such list of rules, all firings of a rule on a target across all nodes are at least the rule's cooldown apart, and each firing is of one rule on one target |
| `History.LastNSnoc` | internal/alert/window.go:27-30 | trimming after every append keeps what trimming once at the end would keep |
| `History.ForTargetCounts` | internal/alert/window.go:23-24 | a target's history has as many results as the stream has with its name |
| `History.ForTargetAt` | internal/alert/window.go:23-24 | each result of a target is in its history, right behind those of the target that came before it |
| `History.LastNIsNewest` | internal/alert/window.go:27-30 | trimming keeps the newest results, all of them if they fit |
| `WindowBuffer.Window.Push` | internal/alert/window.go:23-32 | after any pushes over any targets, each bucket is the newest entries of its own target's results, in order |
| `WindowBuffer.Window.Snapshot` | internal/alert/window.go:35-42 | the newest results of the target, in storage that no one else holds |
| `WindowBuffer.WriteThenSnapshot` | internal/alert/window.go:35-42 | writing into one snapshot changes no later snapshot |
| `Rules.StreakReaches` | internal/alert/matchers.go:15-20 | the last n results all match exactly when a counter, reset on every mismatch, has reached n |
| `Rules.PercentageIsExact` | internal/alert/matchers.go:58-59 | the truncated integer percentage reaches the threshold exactly when the exact ratio does |
| `Rules.MatchesIsShown` | internal/alert/rule.go:32-43 | the meaning of each kind of rule, in streaks and counts, is what the results show by position |
| `Matchers.MatchConsecutiveStatus` | internal/alert/matchers.go:11-22 | a hit exactly when the streak of that status is at least a positive threshold |
| `Matchers.MatchConsecutiveErrorType` | internal/alert/matchers.go:25-36 | a hit exactly when the streak of that error type is at least a positive threshold |
| `Matchers.MatchErrorRateWindow` | internal/alert/matchers.go:40-63 | a hit exactly when the exact share of errors since the cutoff reaches the threshold, and never with nothing to count |
| `Matchers.Match` | internal/alert/rule.go:32-43 | for each kind what the results must show, by position: the last threshold-many results all carry the status or error type, or the exact share of results that are not up since the cutoff reaches the threshold; no hit for an unknown kind |
| `WindowRefinement.ConsecutiveOnWindow` | internal/alert/evaluator.go:36 | on 50 results a consecutive rule hits exactly when its threshold fits and the full-history streak reaches it |
| `WindowRefinement.ConsecutiveExact` | internal/alert/matchers.go:11-36 | window and full history agree on every stream if and only if the threshold is at most 50 |
| `WindowRefinement.RateOnWindow` | internal/alert/matchers.go:40-63 | with at most 50 time-ordered results in the period, the window decides like the full history |
| `WindowRefinement.RateDisagrees` | internal/alert/window.go:27-30 | for every threshold, every n above 50 and every distance in time between results, a history with n results in the period on which the two decisions differ |
| `WindowRefinement.RateExactEvenly` | internal/alert/matchers.go:40-63 | on all histories of results at a fixed distance in time, as a ticker delivers them, with n in the period and none later than now, the two decisions agree if and only if n is at most 50 |
| `WindowRefinement.RateExact` | docs/architecture.md:185 | for every threshold from 1 to 100, the two decisions agree on all time-ordered histories with n results in the period if and only if n is at most 50 |
| `Keys.JoinInjective` | internal/alert/suppressor.go:34 | equal keys come from equal pairs unless one first name continues the other after the separator |
| `Keys.JoinCollides` | internal/alert/suppressor.go:34 | two first names can share a key for some second names if and only if one continues the other after the separator |
| `Suppression.Suppressor.Allow` | internal/alert/suppressor.go:30-43 | allowed exactly when no cooldown applies, the key is new or its age reaches the cooldown; only an allowed call with a cooldown marks the key, with the second clock reading |
| `Suppression.Suppressor.AllowAndPersist` | internal/alert/suppressor.go:68-89 | decides like Allow, and starts one write exactly when allowed and with a client |
| `Suppression.Suppressor.LoadFromEtcd` | internal/alert/suppressor.go:46-64 | memory overlaid by every entry that decodes, or untouched when the read fails |
| `Suppression.LoadOverlays` | internal/alert/suppressor.go:53-61 | after laying over a whole answer, a stored key has the stored value even if memory was newer, and every other entry is as before |
| `Suppression.LastDecodedWins` | internal/alert/suppressor.go:53-61 | of any response, the last entry of a key that decodes decides, and without one the memory of the key stays |
| `Suppression.InterleavedCallsAreSpaced` | internal/alert/suppressor.go:35-41 | however several callers interleave their calls of one suppressor, the allowed calls for a key are at least its cooldown apart |
| `Evaluation.Evaluator.ApplyRule` | internal/alert/evaluator.go:50-73 | one rule's effect on the cooldown map and its firing, from the target's newest 50 results |
| `Evaluation.Evaluator.ApplyRules` | internal/alert/evaluator.go:50-74 | all rules in order on one shared cooldown map, with one write per firing when there is a client |
| `Evaluation.Evaluator.OnResult` | internal/alert/evaluator.go:48-75 | one step of the abstract engine, which remembers everything it has seen; with a client one write per firing |
| `Evaluation.Evaluator.LoadSuppressorFromEtcd` | internal/alert/evaluator.go:101-106 | without a client nothing is loaded and that is no error |
| `EvaluatorWorld.PutsAreFirings` | internal/alert/suppressor.go:76-87 | as many writes as firings, the k-th of the k-th firing's key under the store's prefix, with the clock's reading at the write |
| `EvaluatorWorld.ResultEvaluates` | internal/alert/evaluator.go:48-75 | what one result makes the evaluator remember, fire and write is exactly what one evaluation per rule that hits does to the node's memory, the cluster's firings and the writes under way in the failover world |
| `EvaluatorWorld.OnResultInWorld` | internal/alert/evaluator.go:48-75 | the method run on a node of the failover world: its memory and writes are the world's after those evaluations, and every write is of its firing's key and no earlier than the mark left in memory |
| `AlertRuns.RulesProject` | internal/alert/evaluator.go:50-74 | of all rules applied to a result, only the rule itself on the target itself touches its own entry and firings |
| `AlertRuns.FiresAreGreedy` | internal/alert/evaluator.go:48-75 | in every run, what a rule fires on a target is the greedy cooldown-spaced selection of its own hits there |
| `AlertRuns.GreedyIsSpacedChoice` | internal/alert/suppressor.go:38-42 | the greedy selection is itself a choice among the hits with the required spacing |
| `AlertRuns.GreedyStaysAhead` | internal/alert/suppressor.go:38-39 | no spaced choice among the hits gets ahead of the greedy selection, with two clock readings per call |
| `AlertRuns.FiresAreSpacedAndMost` | internal/alert/suppressor.go:30-43 | in every run the firings are at least the cooldown apart and as many as any such choice among the hits can have |
| `AlertRuns.FiresRefineFullHistory` | internal/alert/evaluator.go:48-75 | the engine with 50 results and one time per key fires exactly what a specification fires that sees the whole stream, as long as the window covers each decision |
| `AlertRuns.NonInterference` | internal/alert/evaluator.go:48-75 | deleting all other rules and all other targets' results leaves a rule's firings on a target unchanged |
| `AlertTruth.FiringIsJustified` | internal/alert/evaluator.go:50-73 | in every run, each firing is of a rule that watches the target which has just reported, and the snapshot it carries is that target's newest 50 results and shows what the rule asks for |
| `AlertTruth.EveryHitIsAnswered` | internal/alert/evaluator.go:50-73 | in every run, when a watched target's newest 50 results show what a rule asks for, the rule fires there and then, or has fired there less than its cooldown ago |
| `AlertTruth.WildcardFiresLikeOwn` | internal/alert/evaluator.go:51 | a rule for all targets fires on each target like a rule for that target |
| `AlertTruth.OtherTargetNeverFires` | internal/alert/evaluator.go:51 | a rule for another target never fires |
| `AlertNames.NamesExact` | docs/architecture.md:146 | any list of distinct rule names is kept apart, every rule exact on every target in every run, if and only if no name continues another one after a colon |
| `AlertNames.CollisionSilences` | internal/alert/suppressor.go:34 | for any list of names of which one continues another after a colon, rules of these names and a run in which one rule hits exactly once and never fires, silenced by the other's firing |
| `PoolProofs.StepMoves` | internal/scheduler/pool.go:81-166 | a step moves a job from one place to exactly one other, or brings in one new job |
| `PoolProofs.NothingLostOrDoubled` | internal/scheduler/pool.go:81-166 | in every interleaving each enqueued job is in exactly one place; at the return each was skipped or saved once, under its own target's name, and all saved ones were evaluated in order |
| `PoolProofs.WithoutReloadAllSaved` | internal/scheduler/pool.go:44-65 | with a validated configuration and no reload nothing is skipped, and at the return every enqueued job is saved exactly once |
| `PoolProofs.NoSendOnClosed` | internal/scheduler/pool.go:114-120 | the dispatcher never sends on closed jobs and no worker on closed results |
| `PoolProofs.NeverStuck` | internal/scheduler/pool.go:112-129 | in every state that the order of shutdown allows and that has not returned, a step other than the end of the context is possible |
| `PoolProofs.NoDeadlock` | internal/scheduler/pool.go:114-120 | once the context has ended, the pool can always go on by itself until it has returned, also with the results channel full |
| `PoolProofs.StepLowersWork` | internal/scheduler/pool.go:145-166 | every step of a worker or the collector lowers the work that is queued, in flight and buffered |
| `PoolProofs.StepLowersRemaining` | internal/scheduler/pool.go:112-166 | once the context has ended, every step of dispatcher, workers and collector lowers one measure, and a tick or reload adds a fixed amount to it |
| `PoolProofs.ShutdownIsBounded` | internal/scheduler/pool.go:112-120 | from the end of the context on, the length of a run is bounded by the measure it starts with plus what its ticks and reloads add, however the goroutines interleave |
| `PoolProofs.ShutdownReturns` | internal/scheduler/pool.go:112-120 | for every pool and every run until the context ends, what follows is bounded, without ticks and reloads by the measure alone, and it gets stuck but for ticks and reloads exactly where it has returned |
| `PoolRounds.FirstRoundDispatchesAll` | internal/scheduler/pool.go:82-110 | a run begins with a round in which every target becomes a job |
| `PoolRounds.TickDispatchesLastConfig` | internal/scheduler/pool.go:121-143 | in every run, a tick's round makes jobs of the targets of the last configuration, in order, as many as fit into a channel made for the first one |
| `PoolRounds.RoundGoesOn` | internal/scheduler/pool.go:131-143 | whatever else happens during a round, only its sends make jobs and the round goes on where it was |
| `PoolRounds.ConfiguredByLast` | internal/scheduler/pool.go:121-127 | in every run, targets and checkers are those of the last reload, or the first ones without a reload, and the channels keep their first size |
| `PoolRounds.SkippedExactly` | internal/scheduler/pool.go:147-155 | in every run, a job is skipped exactly when the last configuration has no target of its name that is of kind http, tcp or cert |
| `Scheduler.Pool.ApplyConfig` | internal/scheduler/pool.go:44-65 | the fields hold the new targets and exactly the checkers made for them, none of the old ones |
| `Scheduler.CheckerFound` | internal/scheduler/pool.go:147-155 | a worker finds a checker exactly for names with a known kind, and with unique names it is the one of the job's own target |
| `Scheduler.ProbeOfKind` | internal/scheduler/pool.go:51-62 | each kind has its own probe, an unknown one has none, and a certificate warns 14 days ahead unless the target says otherwise |
| `Scheduler.LastOfNameDecides` | internal/scheduler/pool.go:44-65 | of several targets with one name and a known kind the last one's checker is used |
| `Scheduler.Pool.Reload` | internal/scheduler/pool.go:68-78 | whether or not a run receives the old configuration in between, the call returns with exactly the newest one in the slot |
| `Scheduler.Pool.DispatchJobs` | internal/scheduler/pool.go:131-143 | a round of sends between which workers receive any number of jobs each, a target being skipped exactly when the channel is full at its turn |
| `Scheduler.RoundKeeps` | internal/scheduler/pool.go:131-143 | in such a round nothing queued before is lost or overtaken, and what is queued behind it are targets of the round in their order |
| `Scheduler.RoundAlone` | internal/scheduler/pool.go:131-143 | with nobody receiving in between, the first targets that fit are queued and the others skipped |
| `Scheduler.DispatchAlone` | internal/scheduler/pool.go:131-143 | the machine's dispatch steps in a row queue what the method queues when nobody receives in between |
| `ReloadSlot.LatestWins` | internal/scheduler/pool.go:68-78 | in every interleaving over successive runs Reload is never blocked, applied configurations are a subsequence of those submitted, a waiting one is newer than every applied one, and when idle the last applied is the last submitted |
| `Rates.RateBound` | docs/aiops.md:14 | times of which any b-th next ones are d apart number at most b * (L / d + 1) in any closed interval of length L |
| `Analyzer.Analyzer.Submit` | internal/aiops/analyzer.go:49-56 | never blocks; the newest event is dropped when 16 wait |
| `Analyzer.Analyzer.Gate` | internal/aiops/analyzer.go:104-127 | breaker before daily cap before cooldown; only an admitted event is counted and marked, and the day is noted even on a refusal after the breaker |
| `Analyzer.Analyzer.OnFail` | internal/aiops/analyzer.go:129-138 | one failure more, or the breaker opens and the count starts anew |
| `Analyzer.Analyzer.Handle` | internal/aiops/analyzer.go:70-102 | the fields stay what the gates make of everything handled, and the model has been called once for each admitted event whose history could be read |
| `Analyzer.Analyzer.Run` | internal/aiops/analyzer.go:59-68 | the loop, with submissions arriving at any moment and the context ending at any moment, as a run of handled and waiting events |
| `Analyzer.AcceptedAreHandled` | internal/aiops/analyzer.go:49-68 | every accepted event is handled once and in the order of submission, or still waits, and at most 16 wait |
| `Analyzer.NothingAfterEnd` | internal/aiops/analyzer.go:59-68 | once the loop has seen the end of its context, nothing more is handled |
| `AnalyzerRuns.CounterStep` | internal/aiops/analyzer.go:129-140 | the counter is the number of failures since the last answer modulo the batch, and the breaker opens exactly when a failure completes a batch |
| `AnalyzerRuns.GateRefinesHistory` | internal/aiops/analyzer.go:104-127 | five fields decide on every request exactly what the whole history of requests decides, the cooldown by key |
| `AnalyzerRuns.DailyBound` | internal/aiops/analyzer.go:112-125 | on no calendar day are more events admitted than the daily cap |
| `AnalyzerRuns.KeyBound` | internal/aiops/analyzer.go:120-124 | admissions of one key are a cooldown apart, so an interval of length L holds at most L / cooldown + 1 |
| `AnalyzerKeys.KeyIsEvent` | internal/aiops/analyzer.go:120 | for targets of which neither continues the other after a bar, the key is the rule and the target |
| `AnalyzerKeys.TargetsToldApart` | internal/aiops/analyzer.go:120 | two targets have different keys for all rules if and only if neither continues the other after a bar |
| `AnalyzerKeys.GateDecidesByEvents` | internal/aiops/analyzer.go:104-127 | in every run over such targets: refused while the breaker is tripped, else when the day's admissions number the cap, else exactly when the same rule on the same target was admitted less than the cooldown ago |
| `AnalyzerKeys.EventBound` | internal/aiops/analyzer.go:120-124 | diagnoses of one rule on one target are a cooldown apart, and an interval of length L holds at most L / cooldown + 1 |
| `AnalyzerKeys.CollisionCools` | internal/aiops/analyzer.go:120 | for any two different events with one key, and a cooldown and daily cap above one, the first holds back the second, which was never admitted |
| `AnalyzerKeys.FailedInARowIs` | internal/aiops/analyzer.go:129-140 | the failures in a row are the last calls, all failed, up to one that did not |
| `AnalyzerKeys.OpensAtThreshold` | internal/aiops/analyzer.go:129-138 | from a fresh count exactly the configured number of failures opens the breaker, or the first one if that number is below one |
| `AnalyzerRuns.DownIsBatched` | internal/aiops/analyzer.go:107-138 | while every call fails, calls come in batches, and the breaker is closed only a full opening time after the last full batch |
| `AnalyzerRuns.BreakerBound` | docs/aiops.md:14 | while every call fails, a closed interval of length L holds at most B * (L / open time + 1) calls, B being the failures that open the breaker, at least one |
| `Diagnosis.ScanBack` | internal/aiops/context.go:49-54 | the time of the first result of the maximal run of down results that the history ends with |
| `Diagnosis.BuildContext` | internal/aiops/context.go:24-56 | buckets count exactly the typed down results, the median and maximum are those of the positive latencies, the flips and the trailing outage those of the history |
| `Diagnosis.MiddleIsMedian` | internal/aiops/context.go:44-47 | the middle of the sorted latencies has at most n / 2 values below it and more than n / 2 not above it |
| `Diagnosis.MedianIsUnique` | internal/aiops/context.go:44-47 | there is one such value, and it is the same for every order of the latencies |
| `Diagnosis.MedianHalves` | internal/aiops/context.go:44-47 | by position: at most half of the values lie below the median and more than half not above it |
| `Diagnosis.LatenciesAreCounted` | internal/aiops/context.go:32-37 | as many latencies are sorted as results have a positive one |
| `Diagnosis.LatenciesAreAll` | internal/aiops/context.go:32-37 | every positive latency counts, whatever the status of its result, and nothing else |
| `Diagnosis.MaxBoundsAll` | internal/aiops/context.go:32-37 | the maximum bounds every latency and is one of them unless none is positive |
| `Diagnosis.BucketIsCount` | internal/aiops/context.go:29-31 | a bucket holds the number of positions with a down result of its error type |
| `Diagnosis.FlapsAreChanges` | internal/aiops/context.go:39-42 | the flip count is the number of positions whose status differs from a status just before |
| `Diagnosis.AlternatingFlaps` | internal/aiops/context.go:39-42 | n results that go up and down in turn flip n - 1 times |
| `Diagnosis.BucketsSum` | internal/aiops/context.go:29-31 | the buckets together count every down result with an error type exactly once |
| `Diagnosis.BucketsReversed` | internal/storage/sqlite.go:138-144 | the buckets do not depend on the direction of the history |
| `Diagnosis.FlapsReversed` | internal/aiops/context.go:39-42 | reading backwards changes the flip count only by whether the two ends have a status |
| `Diagnosis.FlapsDirection` | internal/storage/sqlite.go:138-144 | the flip count is the same in both directions if and only if both ends have a status or neither has |
| `Diagnosis.FirstDownIsEarliest` | internal/aiops/context.go:20 | oldest first, ties allowed, the reported time is the earliest of the maximal outage that lasts until now, and there is one exactly when the newest result is down |
| `Diagnosis.FirstDownDirection` | internal/storage/sqlite.go:138-144 | newest first, ties allowed, the reported time is right if and only if neither end is down, or both are and everything recorded between the oldest outage's end and the latest one's start carries one second |
| `Diagnosis.FirstDownDistinctTimes` | internal/aiops/context.go:16 | without ties that leaves only histories of at most one result, and those with no outage at either end |

## Left out

- Leadership.Leader.Run: a loop over a finite script, of any length, of what its environment answers; the callback is the interval from its start to its end, and its work is in `PoolRun` and `Failover`.
- Analyzer.Analyzer.Run: a loop over a finite script, of any length, of what arrives, of the moments at which it takes the next event, and of the end of the context.
- Scheduler.Pool.DispatchJobs: the workers' receives come between the sends as numbers; the workers themselves, and every interleaving with them, are in `PoolRun`.
- Suppression.Suppressor.LoadFromEtcd: entries that do not decode are skipped here; the failover model holds only entries that the program itself wrote.
- WindowRefinement.RateOnWindow: assumes results in time order, which the pool does not guarantee when two checks of a target overlap.
- PoolProofs.ShutdownReturns: needs a first configuration with a target, because channels without capacity hand over differently from the bounded ones modelled here.
- The pool's run, its workers and its collector are steps of `PoolRun` rather than methods, because what matters about them is how they interleave; a method would fix one order.
- Two runs of the pool that overlap because a callback was abandoned share one set of fields in the program; the pool model has one run.
- More than one caller of Reload at a time: there is one watcher.
- How Go's select chooses between an ended context and a tick: a run that takes ticks for ever instead of the shutdown branch is not excluded, and each tick counts in the bound.
- Sorting is the function `Sort` on values, not the library's algorithm on the slice.
- The notifier map, webhook retries, the order of notification goroutines and the drop on a full emit channel: delivery is not promised by the code; the model ends with the decision to fire.
- The reason text of a match, the prompt text, log lines, metrics and certificate days: formatting without effect on decisions.
- Persisting alerts and diagnoses, and SQLite behind it: saving a result is an append to a list. The store's query does not select the error type, so in production the error buckets of a diagnosis stay empty; the model takes any history.
- HTTP, TCP and certificate probes, the language model's client and the notifier are network calls; their outcomes are parameters.
- Stored times as JSON and Go's monotonic clock: a time is one integer and survives storage.
- Overflow of 64-bit durations and counters: integers are unbounded here.
- Configuration parsing and validation: its guarantees (unique names, known kinds, percentages up to 100) are hypotheses where a theorem needs them.
- The HTTP interface, the file watcher, flags and process start-up.
