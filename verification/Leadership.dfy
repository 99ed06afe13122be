/**
 The program that one node runs to become and stop being leader: its control points in source order, one action
 per line that matters, and the same program as a method over a script of its environment's answers.
 */
module Leadership {
  import opened Checker
  import opened BackoffDelays

  datatype Pc =
    | AtTop           // is the context done?
    | AtOpen          // open a session
    | AtCampaign      // create the election key, then wait to be first
    | AtCloseFailed   // campaign failed: close the session,
    | AtForget        // forget it,
    | AtCheckFailed   // and look at the context
    | AtBackoff       // wait before the next attempt
    | AtElected       // the campaign has returned without error
    | AtStart         // flagged leader, callback not yet started
    | AtLeading       // wait for the session's end or the context's
    | AtCancelled     // callback told to stop; wait for it, for five seconds at most
    | AtClearFlag
    | AtClearSession
    | AtCloseSession
    | AtCheckDemoted  // look at the context
    | AtReturned

  datatype SessionEvent = Opened(lease: nat) | Closed(lease: nat)

  datatype Node = Node(
    pc: Pc,
    ctxDone: bool,
    isLeader: bool,
    curSess: Option<nat>,  // the published session
    sess: Option<nat>,     // the session that is really open
    key: Option<nat>,      // creation revision of this campaign's election key
    callback: bool,        // the current callback is running
    abandoned: nat,        // running callbacks nobody waits for any more
    timeouts: nat,
    delay: int,
    waits: nat,            // waits since the last reset
    log: seq<SessionEvent>)

  datatype Action =
    | Cancel | CallbackEnds | AbandonedEnds  // these three happen to the node
    | CheckTop | OpenOk(lease: nat) | OpenFail
    | Register(rev: nat) | CampaignOk | CampaignErr
    | CloseFailed | Forget | CheckFailed | Wait
    | SetFlag | StartCallback | SessionDone | ContextDone
    | Done | Timeout
    | ClearFlag | ClearSession | CloseSession | CheckDemoted

  const INIT_NODE := Node(AtTop, false, false, None, None, None, false, 0, 0, SECOND, 0, [])

  predicate Enabled(n: Node, a: Action) {
    match a
    case Cancel => !n.ctxDone
    case CallbackEnds => n.callback
    case AbandonedEnds => n.abandoned > 0
    case CheckTop => n.pc == AtTop
    case OpenOk(_) => n.pc == AtOpen
    case OpenFail => n.pc == AtOpen
    case Register(_) => n.pc == AtCampaign && n.key.None?
    case CampaignOk => n.pc == AtCampaign && n.key.Some?
    case CampaignErr => n.pc == AtCampaign
    case CloseFailed => n.pc == AtCloseFailed && n.sess.Some?
    case Forget => n.pc == AtForget
    case CheckFailed => n.pc == AtCheckFailed
    case Wait => n.pc == AtBackoff
    case SetFlag => n.pc == AtElected
    case StartCallback => n.pc == AtStart
    case SessionDone => n.pc == AtLeading
    case ContextDone => n.pc == AtLeading && n.ctxDone
    case Done => n.pc == AtCancelled && !n.callback
    case Timeout => n.pc == AtCancelled
    case ClearFlag => n.pc == AtClearFlag
    case ClearSession => n.pc == AtClearSession
    case CloseSession => n.pc == AtCloseSession && n.sess.Some?
    case CheckDemoted => n.pc == AtCheckDemoted
  }

  function Apply(n: Node, a: Action): Node
    requires Enabled(n, a)
  {
    match a
    case Cancel => n.(ctxDone := true)
    case CallbackEnds => n.(callback := false)
    case AbandonedEnds => n.(abandoned := n.abandoned - 1)
    case CheckTop => n.(pc := if n.ctxDone then AtReturned else AtOpen)
    case OpenOk(lease) =>
      n.(pc := AtCampaign, curSess := Some(lease), sess := Some(lease), key := None, log := n.log + [Opened(lease)])
    case OpenFail => n.(pc := AtBackoff)
    case Register(rev) => n.(key := Some(rev))
    case CampaignOk => n.(pc := AtElected)
    case CampaignErr => n.(pc := AtCloseFailed)
    case CloseFailed => n.(pc := AtForget, sess := None, log := n.log + [Closed(n.sess.value)])
    case Forget => n.(pc := AtCheckFailed, curSess := None)
    case CheckFailed => n.(pc := if n.ctxDone then AtReturned else AtBackoff)
    case Wait => n.(pc := AtTop, delay := Doubled(n.delay, MAX_DELAY), waits := n.waits + 1)
    case SetFlag => n.(pc := AtStart, isLeader := true)
    case StartCallback => n.(pc := AtLeading, callback := true)
    case SessionDone => n.(pc := AtCancelled)
    case ContextDone => n.(pc := AtCancelled)
    case Done => n.(pc := AtClearFlag)
    case Timeout =>
      n.(pc := AtClearFlag, callback := false, timeouts := n.timeouts + 1,
         abandoned := if n.callback then n.abandoned + 1 else n.abandoned)
    case ClearFlag => n.(pc := AtClearSession, isLeader := false)
    case ClearSession => n.(pc := AtCloseSession, curSess := None)
    case CloseSession => n.(pc := AtCheckDemoted, sess := None, log := n.log + [Closed(n.sess.value)])
    case CheckDemoted =>
      if n.ctxDone then n.(pc := AtReturned) else n.(pc := AtTop, delay := SECOND, waits := 0)
  }

  /** A run of one node, as the list of its actions. */
  ghost predicate NodeRuns(actions: seq<Action>)
    decreases |actions|, 0
  {
    actions == [] ||
    (var front, last := actions[..|actions| - 1], actions[|actions| - 1];
     NodeRuns(front) && Enabled(NodeExec(front), last))
  }

  ghost function NodeExec(actions: seq<Action>): Node
    requires NodeRuns(actions)
    decreases |actions|, 1
  {
    if actions == [] then INIT_NODE else Apply(NodeExec(actions[..|actions| - 1]), actions[|actions| - 1])
  }

  /** The state that a run leads to. */
  ghost predicate Reached(actions: seq<Action>, n: Node) {
    NodeRuns(actions) && n == NodeExec(actions)
  }

  lemma ReachedNext(actions: seq<Action>, n: Node, a: Action)
    requires Reached(actions, n) && Enabled(n, a)
    ensures Reached(actions + [a], Apply(n, a))
  {
    assert (actions + [a])[..|actions|] == actions;
  }

  // ----- what every run keeps -----

  predicate SessionOpen(pc: Pc) {
    pc in {AtCampaign, AtCloseFailed, AtElected, AtStart, AtLeading, AtCancelled,
           AtClearFlag, AtClearSession, AtCloseSession}
  }

  /** From the store of the flag to its clearing. */
  predicate Flagged(pc: Pc) {
    pc in {AtStart, AtLeading, AtCancelled, AtClearFlag}
  }

  /** Between starting the callback and giving up waiting for it. */
  predicate CallbackPhase(pc: Pc) {
    pc == AtLeading || pc == AtCancelled
  }

  function LiveCallbacks(n: Node): nat {
    n.abandoned + if n.callback then 1 else 0
  }

  /** Every session is closed before the next is opened, and nothing is closed twice. */
  ghost predicate Alternates(log: seq<SessionEvent>, open: Option<nat>) {
    && (forall i :: 0 <= i < |log| && i % 2 == 0 ==> log[i].Opened?)
    && (forall i :: 0 <= i < |log| && i % 2 == 1 ==> log[i] == Closed(log[i - 1].lease))
    && (open.None? <==> |log| % 2 == 0)
    && (open.Some? ==> log[|log| - 1] == Opened(open.value))
  }

  ghost predicate NodeInv(n: Node) {
    && Alternates(n.log, n.sess)
    && (n.sess.Some? <==> SessionOpen(n.pc))
    && (n.isLeader <==> Flagged(n.pc))
    && (n.curSess == if n.pc == AtCloseSession then None else if n.pc == AtForget then n.curSess else n.sess)
    && (n.callback ==> CallbackPhase(n.pc))
    && n.abandoned <= n.timeouts
    && n.delay == DelayAfter(n.waits)
    && (n.pc == AtElected || Flagged(n.pc) || n.pc == AtClearSession || n.pc == AtCloseSession ==> n.key.Some?)
    && (n.pc == AtReturned ==> n.ctxDone)
  }

  lemma SessionsAlternate(n: Node, a: Action)
    requires NodeInv(n) && Enabled(n, a)
    ensures Alternates(Apply(n, a).log, Apply(n, a).sess)
  {
  }

  lemma NodeStep(n: Node, a: Action)
    requires NodeInv(n) && Enabled(n, a)
    ensures NodeInv(Apply(n, a))
  {
    SessionsAlternate(n, a);
  }

  lemma {:induction false} RunKeepsNodeInv(actions: seq<Action>)
    requires NodeRuns(actions)
    ensures NodeInv(NodeExec(actions))
  {
    if actions != [] {
      RunKeepsNodeInv(actions[..|actions| - 1]);
      NodeStep(NodeExec(actions[..|actions| - 1]), actions[|actions| - 1]);
    }
  }

  /**
   In every run of one node: sessions open and close strictly in turn; live callbacks are at most one, and that only
   while leading, plus one per timeout taken; a returned node is not flagged, publishes no session and has none open.
   */
  lemma EveryNodeRun(actions: seq<Action>)
    requires NodeRuns(actions)
    ensures var n := NodeExec(actions);
            && Alternates(n.log, n.sess)
            && LiveCallbacks(n) <= (if CallbackPhase(n.pc) then 1 else 0) + n.timeouts
            && (n.pc == AtReturned ==>
                  !n.isLeader && n.curSess == None && n.sess == None && |n.log| % 2 == 0 && n.ctxDone)
            && n.delay == if Pow2(n.waits) <= 30 then Pow2(n.waits) * SECOND else MAX_DELAY
  {
    RunKeepsNodeInv(actions);
    DelayClosedForm(NodeExec(actions).waits);
  }

  // ----- the program itself -----

  /** A campaign can fail before or after its election key has been created. */
  datatype Campaigned = Won(rev: nat) | Failed(registered: Option<nat>)
  datatype Signal = SessionLost | ContextEnded
  datatype Exit = ExitedCleanly | TimedOut

  /** What the environment answers during one turn of the loop; `done0..2` are the readings of the context. */
  datatype Round = Round(
    done0: bool, session: Option<nat>, campaign: Campaigned, done1: bool,
    signal: Signal, exit: Exit, done2: bool,
    cutShort: Option<nat>)  // after how much of a backoff the context ends, if it does

  /** The node after one failed attempt has been waited for. */
  function Waited(n: Node): Node {
    n.(pc := AtTop, delay := Doubled(n.delay, MAX_DELAY), waits := n.waits + 1)
  }

  function Returned(n: Node): Node {
    n.(pc := AtReturned, ctxDone := true)
  }

  /** One whole turn of the loop: what is left of it when the loop is back at its top, or has returned. */
  function Turn(n: Node, r: Round): Node {
    if r.done0 then Returned(n)
    else if r.session.None? then Waited(n)
    else
      var served := n.(curSess := None, sess := None,
                       log := n.log + [Opened(r.session.value)] + [Closed(r.session.value)]);
      match r.campaign
      case Failed(registered) =>
        if r.done1 then Returned(served.(key := registered)) else Waited(served.(key := registered))
      case Won(rev) =>
        var late := if r.exit == TimedOut then 1 else 0;
        var led := served.(key := Some(rev), timeouts := n.timeouts + late, abandoned := n.abandoned + late);
        if r.signal == ContextEnded || r.done2 then Returned(led) else led.(delay := SECOND, waits := 0)
  }

  /** All turns, up to the one that returns. */
  function Turns(rounds: seq<Round>): (n: Node)
    ensures n.pc == AtReturned || (n.pc == AtTop && !n.ctxDone)
    ensures !n.isLeader && !n.callback && n.curSess == None && n.sess == None && |n.log| % 2 == 0
  {
    if rounds == [] then INIT_NODE else
    var before := Turns(rounds[..|rounds| - 1]);
    if before.pc == AtReturned then before else Turn(before, rounds[|rounds| - 1])
  }

  /** The context is seen done somewhere in this turn. */
  predicate SeesDone(r: Round) {
    r.done0 || (r.session.Some? && if r.campaign.Failed? then r.done1 else r.signal == ContextEnded || r.done2)
  }

  /** The loop returns exactly when some turn sees the context done: no failure of etcd and no lost session ends it. */
  lemma {:induction false} ReturnsWhenDone(rounds: seq<Round>)
    ensures Turns(rounds).pc == AtReturned <==> exists i :: 0 <= i < |rounds| && SeesDone(rounds[i])
  {
    if rounds != [] {
      var front := rounds[..|rounds| - 1];
      ReturnsWhenDone(front);
      if i :| 0 <= i < |front| && SeesDone(front[i]) {
        assert SeesDone(rounds[i]);
      }
    }
  }

  lemma OneMoreTurn(rounds: seq<Round>, i: nat)
    requires i < |rounds| && Turns(rounds[..i]).pc == AtTop
    ensures Turns(rounds[..i + 1]) == Turn(Turns(rounds[..i]), rounds[i])
  {
    assert rounds[..i + 1][..i] == rounds[..i];
  }

  /** A loop that has returned stays where it is. */
  lemma {:induction false} ReturnsAt(rounds: seq<Round>, i: nat)
    requires i < |rounds| && Turns(rounds[..i]).pc == AtTop && SeesDone(rounds[i])
    ensures Turns(rounds) == Turns(rounds[..i + 1]) && Turns(rounds).pc == AtReturned
    decreases |rounds|
  {
    if i == |rounds| - 1 {
      assert rounds[..i + 1] == rounds;
      OneMoreTurn(rounds, i);
    } else {
      var front := rounds[..|rounds| - 1];
      assert front[..i] == rounds[..i] && front[..i + 1] == rounds[..i + 1];
      ReturnsAt(front, i);
    }
  }

  /** How many attempts have failed since the loop began or a term of leadership ended. */
  function FailedAttempts(rounds: seq<Round>): nat {
    if rounds == [] then 0 else
    var last := rounds[|rounds| - 1];
    if last.session.Some? && last.campaign.Won? then 0 else FailedAttempts(rounds[..|rounds| - 1]) + 1
  }

  /** As long as the context is not done, the next wait is min(2^k, 30) seconds after k failed attempts in a row. */
  lemma {:induction false} BacksOff(rounds: seq<Round>)
    requires forall i :: 0 <= i < |rounds| ==> !SeesDone(rounds[i])
    ensures var n, k := Turns(rounds), FailedAttempts(rounds);
            n.pc == AtTop && n.waits == k && n.delay == if Pow2(k) <= 30 then Pow2(k) * SECOND else MAX_DELAY
  {
    WaitsCount(rounds);
    DelayClosedForm(FailedAttempts(rounds));
  }

  lemma {:induction false} WaitsCount(rounds: seq<Round>)
    requires forall i :: 0 <= i < |rounds| ==> !SeesDone(rounds[i])
    ensures var n := Turns(rounds);
            n.pc == AtTop && n.waits == FailedAttempts(rounds) && n.delay == DelayAfter(n.waits)
  {
    if rounds != [] {
      WaitsCount(rounds[..|rounds| - 1]);
      assert !SeesDone(rounds[|rounds| - 1]);
    }
  }

  /** The loop's end in terms of the script: the readings of the context and the signal, and nothing else, decide it. */
  lemma ReturnsExactly(rounds: seq<Round>)
    ensures Turns(rounds).pc == AtReturned <==>
      exists i :: 0 <= i < |rounds| &&
        (|| rounds[i].done0
         || (rounds[i].session.Some? && rounds[i].campaign.Failed? && rounds[i].done1)
         || (rounds[i].session.Some? && rounds[i].campaign.Won?
             && (rounds[i].signal == ContextEnded || rounds[i].done2)))
  {
    ReturnsWhenDone(rounds);
    assert forall i :: 0 <= i < |rounds| ==>
      (SeesDone(rounds[i]) <==>
        (|| rounds[i].done0
         || (rounds[i].session.Some? && rounds[i].campaign.Failed? && rounds[i].done1)
         || (rounds[i].session.Some? && rounds[i].campaign.Won?
             && (rounds[i].signal == ContextEnded || rounds[i].done2))));
  }

  /** The rounds in which a session is opened. */
  function Opening(rounds: seq<Round>): set<int> {
    set i | 0 <= i < |rounds| && rounds[i].session.Some?
  }

  /** The rounds in which the node leads and then gives up waiting for its callback. */
  function Late(rounds: seq<Round>): set<int> {
    set i | 0 <= i < |rounds| && rounds[i].session.Some? && rounds[i].campaign.Won? && rounds[i].exit == TimedOut
  }

  lemma OpeningGrows(front: seq<Round>, r: Round)
    ensures |Opening(front + [r])| == |Opening(front)| + if r.session.Some? then 1 else 0
  {
    if r.session.Some? {
      assert Opening(front + [r]) == Opening(front) + {|front|};
    } else {
      assert Opening(front + [r]) == Opening(front);
    }
  }

  lemma LateGrows(front: seq<Round>, r: Round)
    ensures |Late(front + [r])|
      == |Late(front)| + if r.session.Some? && r.campaign.Won? && r.exit == TimedOut then 1 else 0
  {
    if r.session.Some? && r.campaign.Won? && r.exit == TimedOut {
      assert Late(front + [r]) == Late(front) + {|front|};
    } else {
      assert Late(front + [r]) == Late(front);
    }
  }

  /** While the context lives, every session is opened and closed once, and every abandoned callback is a timeout. */
  lemma {:induction false} TurnsCount(rounds: seq<Round>)
    requires forall i :: 0 <= i < |rounds| ==> !SeesDone(rounds[i])
    ensures |Turns(rounds).log| == 2 * |Opening(rounds)|
    ensures Turns(rounds).timeouts == Turns(rounds).abandoned == |Late(rounds)|
  {
    if rounds != [] {
      var front, last := rounds[..|rounds| - 1], rounds[|rounds| - 1];
      TurnsCount(front);
      OpeningGrows(front, last);
      LateGrows(front, last);
      assert front + [last] == rounds;
      WaitsCount(front);
      assert !SeesDone(last);
    } else {
      assert Opening(rounds) == {} && Late(rounds) == {};
    }
  }

  // ----- how long the loop waits -----

  /** min(2^k, 30) seconds. */
  function PowDelay(k: nat): nat {
    if Pow2(k) <= 30 then Pow2(k) * 1_000_000_000 else 30 * 1_000_000_000
  }

  /** The attempt fails, and the loop goes on. */
  predicate Fails(r: Round) {
    !r.done0 && (r.session.None? || (r.campaign.Failed? && !r.done1))
  }

  function Cut(cutShort: Option<nat>, full: nat): nat {
    if cutShort.Some? && cutShort.value < full then cutShort.value else full
  }

  /** How long is waited after each failed attempt, in order. */
  function WaitsOf(rounds: seq<Round>): seq<nat> {
    if rounds == [] then [] else
    var front, last := rounds[..|rounds| - 1], rounds[|rounds| - 1];
    if Turns(front).pc == AtTop && Fails(last)
    then WaitsOf(front) + [Cut(last.cutShort, PowDelay(FailedAttempts(front)))] else WaitsOf(front)
  }

  lemma {:induction false} WaitsAt(rounds: seq<Round>, i: nat)
    requires i < |rounds| && Turns(rounds[..i]).pc == AtTop && SeesDone(rounds[i])
    ensures WaitsOf(rounds) == WaitsOf(rounds[..i])
    decreases |rounds|
  {
    var front := rounds[..|rounds| - 1];
    if i == |rounds| - 1 {
      assert front == rounds[..i];
    } else {
      assert front[..i] == rounds[..i];
      WaitsAt(front, i);
      ReturnsAt(front, i);
    }
  }

  lemma OneMoreWait(rounds: seq<Round>, i: nat)
    requires i < |rounds| && Turns(rounds[..i]).pc == AtTop
    ensures WaitsOf(rounds[..i + 1])
      == if Fails(rounds[i])
         then WaitsOf(rounds[..i]) + [Cut(rounds[i].cutShort, PowDelay(FailedAttempts(rounds[..i])))]
         else WaitsOf(rounds[..i])
  {
    assert rounds[..i + 1][..i] == rounds[..i];
  }

  /** The number of waits is the number of failed attempts since the last term. */
  lemma CountedWaits(rounds: seq<Round>)
    requires Turns(rounds).pc == AtTop
    ensures Turns(rounds).waits == FailedAttempts(rounds)
  {
    ReturnsWhenDone(rounds);
    WaitsCount(rounds);
  }

  /** What one more round of the script adds, as long as the loop has not returned. */
  lemma RoundAhead(rounds: seq<Round>, i: nat)
    requires i < |rounds| && Turns(rounds[..i]).pc == AtTop
    ensures var n, r := Turns(rounds[..i]), rounds[i];
            && Turns(rounds[..i + 1]) == Turn(n, r)
            && WaitsOf(rounds[..i + 1])
               == WaitsOf(rounds[..i]) + (if Fails(r) then [Cut(r.cutShort, PowDelay(n.waits))] else [])
            && (SeesDone(r) ==> Turns(rounds) == Turn(n, r) && WaitsOf(rounds) == WaitsOf(rounds[..i]))
            && (exists j :: 0 <= j < |rounds| && SeesDone(rounds[j])) == (Turns(rounds).pc == AtReturned)
  {
    OneMoreTurn(rounds, i);
    OneMoreWait(rounds, i);
    CountedWaits(rounds[..i]);
    ReturnsWhenDone(rounds);
    if SeesDone(rounds[i]) {
      ReturnsAt(rounds, i);
      WaitsAt(rounds, i);
    }
  }

  function Sum(waits: seq<nat>): nat {
    if waits == [] then 0 else Sum(waits[..|waits| - 1]) + waits[|waits| - 1]
  }

  /** The waits since the last term of leadership. */
  function SinceTerm(waits: seq<nat>, k: nat): seq<nat>
    requires k <= |waits|
  {
    waits[|waits| - k..]
  }

  lemma DelayIsPow(k: nat)
    ensures PowDelay(k) == DelayAfter(k)
  {
    DelayClosedForm(k);
  }

  /** One more failed attempt, told by the waits alone. */
  lemma OneMoreFails(rounds: seq<Round>, r: Round)
    requires (forall i :: 0 <= i < |rounds| ==> !SeesDone(rounds[i])) && Fails(r) && r.cutShort == None
    ensures WaitsOf(rounds + [r]) == WaitsOf(rounds) + [PowDelay(FailedAttempts(rounds))]
    ensures FailedAttempts(rounds + [r]) == FailedAttempts(rounds) + 1
  {
    ReturnsWhenDone(rounds);
    assert (rounds + [r])[..|rounds|] == rounds;
  }

  lemma {:induction false} SumSinceTerm(rounds: seq<Round>)
    requires forall i :: 0 <= i < |rounds| ==> !SeesDone(rounds[i]) && rounds[i].cutShort == None
    ensures FailedAttempts(rounds) <= |WaitsOf(rounds)|
    ensures Sum(SinceTerm(WaitsOf(rounds), FailedAttempts(rounds))) == TotalOf(FailedAttempts(rounds))
  {
    if rounds != [] {
      var front, last := rounds[..|rounds| - 1], rounds[|rounds| - 1];
      SumSinceTerm(front);
      assert !SeesDone(last);
      if Fails(last) {
        assert front + [last] == rounds;
        OneMoreFails(front, last);
        DelayIsPow(FailedAttempts(front));
        LastWaits(WaitsOf(front), FailedAttempts(front), PowDelay(FailedAttempts(front)));
      }
    }
  }

  /**
   While the context lives, the loop has waited once for every attempt that failed, and since the last term of
   leadership 2^k - 1 seconds for up to five attempts and 30 seconds more for each further one.
   */
  lemma WaitedSinceTerm(rounds: seq<Round>)
    requires forall i :: 0 <= i < |rounds| ==> !SeesDone(rounds[i]) && rounds[i].cutShort == None
    ensures var waits, k := WaitsOf(rounds), FailedAttempts(rounds);
            && k <= |waits|
            && Sum(SinceTerm(waits, k)) == (if k <= 5 then Pow2(k) - 1 else 31 + 30 * (k - 5)) * 1_000_000_000
  {
    SumSinceTerm(rounds);
    TotalClosedForm(FailedAttempts(rounds));
  }

  /** After a term of leadership the first wait is one second again. */
  lemma FirstWaitAfterTerm(rounds: seq<Round>, won: Round, r: Round)
    requires (forall i :: 0 <= i < |rounds| ==> !SeesDone(rounds[i])) && !SeesDone(won)
    requires won.session.Some? && won.campaign.Won? && Fails(r) && r.cutShort == None
    ensures WaitsOf(rounds + [won] + [r]) == WaitsOf(rounds + [won]) + [1_000_000_000]
  {
    var all := rounds + [won];
    assert forall i :: 0 <= i < |all| ==> !SeesDone(all[i]);
    assert all[|all| - 1] == won;
    OneMoreFails(all, r);
  }

  /** A context that ends during a wait cuts it short there. */
  lemma CutWait(rounds: seq<Round>, r: Round, d: nat)
    requires (forall i :: 0 <= i < |rounds| ==> !SeesDone(rounds[i])) && Fails(r) && r.cutShort == Some(d)
    requires d < PowDelay(FailedAttempts(rounds))
    ensures WaitsOf(rounds + [r]) == WaitsOf(rounds) + [d]
  {
    ReturnsWhenDone(rounds);
    assert (rounds + [r])[..|rounds|] == rounds;
  }

  lemma LastWaits(waits: seq<nat>, k: nat, wait: nat)
    requires k <= |waits|
    ensures Sum(SinceTerm(waits + [wait], k + 1)) == Sum(SinceTerm(waits, k)) + wait
  {
    var tail := SinceTerm(waits + [wait], k + 1);
    assert tail[..|tail| - 1] == SinceTerm(waits, k);
  }

  class Leader {
    var isLeader: bool
    var curSess: Option<nat>
    /** The actions performed so far, and the state they lead to. */
    ghost var actions: seq<Action>
    ghost var node: Node

    /** The fields are those of the node program after the actions performed. */
    ghost predicate Valid()
      reads this
    {
      Tracing() && isLeader == node.isLeader && curSess == node.curSess
    }

    ghost predicate Tracing()
      reads this
    {
      Reached(actions, node)
    }

    constructor ()
      ensures Valid() && node == INIT_NODE
    {
      isLeader, curSess := false, None;
      actions, node := [], INIT_NODE;
    }

    ghost method Do(a: Action)
      requires Tracing() && Enabled(node, a)
      modifies this`actions, this`node
      ensures Tracing() && node == Apply(old(node), a)
    {
      ReachedNext(actions, node, a);
      actions, node := actions + [a], Apply(node, a);
    }

    /** A reading of the context; once done, it stays done. */
    method ContextDoneNow(reading: bool, before: bool) returns (done: bool)
      requires Valid() && node.ctxDone == before
      modifies this`actions, this`node
      ensures Valid() && done == (before || reading)
      ensures node == old(node).(ctxDone := done)
    {
      done := before || reading;
      if done && !before {
        Do(Cancel);
      }
    }

    /** The campaign has failed: close, forget, look at the context. */
    method GiveUp(reading: bool) returns (done: bool)
      requires Valid() && node.pc == AtCampaign && node.sess.Some? && !node.ctxDone
      modifies this
      ensures Valid() && done == reading
      ensures var served := old(node).(curSess := None, sess := None,
                                       log := old(node).log + [Closed(old(node).sess.value)]);
              node == if done then Returned(served) else served.(pc := AtBackoff)
    {
      Do(CampaignErr);
      Do(CloseFailed);
      curSess := None;
      Do(Forget);
      done := ContextDoneNow(reading, false);
      Do(CheckFailed);
    }

    /** Ask for the lead, with a session open: true when the campaign is won. */
    method Campaign(session: nat, campaign: Campaigned) returns (won: bool)
      requires Valid() && node.pc == AtOpen
      modifies this
      ensures Valid() && won == campaign.Won?
      ensures node == old(node).(pc := if won then AtElected else AtCampaign,
                                 key := if won then Some(campaign.rev) else campaign.registered,
                                 curSess := Some(session), sess := Some(session),
                                 log := old(node).log + [Opened(session)])
    {
      curSess := Some(session);
      Do(OpenOk(session));
      if campaign.Failed? {
        if campaign.registered.Some? {
          Do(Register(campaign.registered.value));
        }
        return false;
      }
      Do(Register(campaign.rev));
      Do(CampaignOk);
      return true;
    }

    /** The campaign is won: raise the flag, start the callback, wait until the session or the context ends. */
    method Lead(signal: Signal) returns (done: bool)
      requires Valid() && node.pc == AtElected && !node.ctxDone
      modifies this
      ensures Valid() && done == (signal == ContextEnded)
      ensures node == old(node).(pc := AtCancelled, isLeader := true, callback := true, ctxDone := done)
    {
      isLeader := true;
      Do(SetFlag);
      Do(StartCallback);
      done := false;
      if signal == ContextEnded {
        done := ContextDoneNow(true, false);
        Do(ContextDone);
      } else {
        Do(SessionDone);
      }
    }

    /** The callback has been told to stop: wait for it, or give up after five seconds. */
    method AwaitExit(exit: Exit)
      requires Valid() && node.pc == AtCancelled && node.callback
      modifies this
      ensures Valid()
      ensures var late := if exit == TimedOut then 1 else 0;
              node == old(node).(pc := AtClearFlag, callback := false,
                                 timeouts := old(node).timeouts + late, abandoned := old(node).abandoned + late)
    {
      if exit == ExitedCleanly {
        Do(CallbackEnds);
        Do(Done);
      } else {
        Do(Timeout);
      }
    }

    /** Lower the flag first, forget and close the session last. */
    method LowerFlag()
      requires Valid() && node.pc == AtClearFlag && node.sess.Some?
      modifies this
      ensures Valid()
      ensures node == old(node).(pc := AtCheckDemoted, isLeader := false, curSess := None, sess := None,
                                 log := old(node).log + [Closed(old(node).sess.value)])
    {
      isLeader := false;
      Do(ClearFlag);
      curSess := None;
      Do(ClearSession);
      Do(CloseSession);
    }

    /** Step down; the backoff starts anew unless the context is done. */
    method StepDown(reading: bool, before: bool, bo: Backoff) returns (done: bool)
      requires Valid() && node.pc == AtClearFlag && node.sess.Some? && node.ctxDone == before
      requires bo.cur == node.delay && bo.max == MAX_DELAY
      modifies this, bo
      ensures Valid() && done == (before || reading) && bo.cur == node.delay && bo.max == MAX_DELAY
      ensures var served := old(node).(isLeader := false, curSess := None, sess := None,
                                       log := old(node).log + [Closed(old(node).sess.value)]);
              node == if done then Returned(served) else served.(pc := AtTop, delay := SECOND, waits := 0)
    {
      LowerFlag();
      done := ContextDoneNow(reading, before);
      Do(CheckDemoted);
      if !done {
        bo.Reset();
      }
    }

    /** A whole term of leadership, from winning the campaign to having stepped down. */
    method Term(round: Round, bo: Backoff) returns (done: bool)
      requires Valid() && node.pc == AtElected && !node.ctxDone && !node.isLeader && !node.callback && node.sess.Some?
      requires bo.cur == node.delay && bo.max == MAX_DELAY
      modifies this, bo
      ensures Valid() && bo.cur == node.delay && bo.max == MAX_DELAY
      ensures done == (round.signal == ContextEnded || round.done2)
      ensures var late := if round.exit == TimedOut then 1 else 0;
              var led := old(node).(curSess := None, sess := None, timeouts := old(node).timeouts + late,
                                    abandoned := old(node).abandoned + late,
                                    log := old(node).log + [Closed(old(node).sess.value)]);
              node == if done then Returned(led) else led.(pc := AtTop, delay := SECOND, waits := 0)
    {
      done := Lead(round.signal);
      AwaitExit(round.exit);
      done := StepDown(round.done2, done, bo);
    }

    /** Waits min(2^k, 30) seconds after k waits, or until the context ends if that is sooner. */
    method WaitBackoff(bo: Backoff, cutShort: Option<nat>) returns (waited: nat)
      requires Valid() && node.pc == AtBackoff && bo.cur == node.delay && bo.max == MAX_DELAY
      modifies this, bo
      ensures Valid() && bo.cur == node.delay && bo.max == MAX_DELAY
      ensures node == Waited(old(node)) && waited == Cut(cutShort, PowDelay(old(node).waits))
    {
      RunKeepsNodeInv(actions);
      DelayClosedForm(node.waits);
      waited := bo.Wait(cutShort);
      Do(Wait);
    }

    /** The session could be opened: campaign with it, and either give up or lead and step down. */
    method Serve(round: Round, session: nat, bo: Backoff) returns (done: bool, waited: Option<nat>)
      requires Valid() && node.pc == AtOpen && !node.ctxDone && !node.isLeader && !node.callback
      requires round.session == Some(session) && !round.done0
      requires bo.cur == node.delay && bo.max == MAX_DELAY
      modifies this, bo
      ensures Valid() && bo.cur == node.delay && bo.max == MAX_DELAY
      ensures node == Turn(old(node).(pc := AtTop), round) && done == SeesDone(round)
      ensures waited == if Fails(round) then Some(Cut(round.cutShort, PowDelay(old(node).waits))) else None
    {
      waited := None;
      var won := Campaign(session, round.campaign);
      if !won {
        done := GiveUp(round.done1);
        if !done {
          var time := WaitBackoff(bo, round.cutShort);
          waited := Some(time);
        }
        return;
      }
      done := Term(round, bo);
    }

    /** The body of the loop: return if the context is done, open a session or wait, and serve with it. */
    method TakeTurn(round: Round, bo: Backoff) returns (done: bool, waited: Option<nat>)
      requires Valid() && node.pc == AtTop && !node.ctxDone && !node.isLeader && !node.callback
      requires node.curSess == None && node.sess == None
      requires bo.cur == node.delay && bo.max == MAX_DELAY
      modifies this, bo
      ensures Valid() && bo.max == MAX_DELAY && (done || bo.cur == node.delay)
      ensures node == Turn(old(node), round) && done == SeesDone(round)
      ensures waited == if Fails(round) then Some(Cut(round.cutShort, PowDelay(old(node).waits))) else None
    {
      waited := None;
      done := ContextDoneNow(round.done0, false);
      Do(CheckTop);
      if done {
        return;
      }
      if round.session.None? {
        Do(OpenFail);
        var time := WaitBackoff(bo, round.cutShort);
        return false, Some(time);
      }
      done, waited := Serve(round, round.session.value, bo);
    }

    /**
     The loop, for as many turns as the script has. Every assignment it makes is an action of the node program, so
     all that holds of the program's runs holds of this method's; and the turns add up to what the script says.
     */
    method Run(rounds: seq<Round>) returns (returned: bool, waited: seq<nat>)
      requires Valid() && node == INIT_NODE
      modifies this
      ensures Valid() && node == Turns(rounds)
      ensures returned <==> exists i :: 0 <= i < |rounds| && SeesDone(rounds[i])
      ensures returned == (node.pc == AtReturned) && !isLeader && curSess == None
      ensures waited == WaitsOf(rounds)
    {
      waited := [];
      var bo := new Backoff(SECOND, MAX_DELAY);
      for i := 0 to |rounds|
        invariant Valid() && node == Turns(rounds[..i]) && node.pc == AtTop && waited == WaitsOf(rounds[..i])
        invariant bo.cur == node.delay && bo.max == MAX_DELAY && fresh(bo)
      {
        RoundAhead(rounds, i);
        var done, time := TakeTurn(rounds[i], bo);
        if done {
          return true, waited;
        }
        waited := waited + if time.Some? then [time.value] else [];
      }
      assert rounds[..|rounds|] == rounds;
      ReturnsWhenDone(rounds);
      return false, waited;
    }
  }
}
