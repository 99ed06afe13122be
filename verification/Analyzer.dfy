/** The diagnosis limiter: breaker, daily cap and per-key cooldown over one shared state, and the loop that uses it. */
module Analyzer {
  import opened Checker
  import opened Keys

  datatype Limits = Limits(cooldown: int, dailyMax: int, breakerFails: int, breakerOpen: int)

  /** No day and no opening yet are the zero values the fields start with. */
  datatype Gates = Gates(
    lastRun: map<string, int>,
    failStrk: nat,
    openUntil: Option<int>,
    dayKey: Option<int>,
    dayCount: nat)

  datatype Verdict = Admitted | BreakerOpen | DailyMax | CoolingDown

  /** What happens to an admitted event: its history cannot be read, or the model fails or answers some time later. */
  datatype Outcome = NoHistory | ModelFailed(at: int) | ModelAnswered

  datatype Event = Event(ruleName: string, target: string)

  /** An event with the moment and the calendar day at which it meets the gates, and what would become of it. */
  datatype Request = Request(event: Event, now: int, day: int, outcome: Outcome)

  const INIT_GATES := Gates(map[], 0, None, None, 0)

  const BUFFER: nat := 16

  function KeyOf(e: Event): string {
    Join('|', e.target, e.ruleName)
  }

  predicate Open(g: Gates, now: int) {
    g.openUntil.Some? && now < g.openUntil.value
  }

  /** How many admissions the current day already has. */
  function CountToday(g: Gates, day: int): nat {
    if g.dayKey == Some(day) then g.dayCount else 0
  }

  function GateVerdict(l: Limits, g: Gates, key: string, now: int, day: int): Verdict {
    if Open(g, now) then BreakerOpen
    else if CountToday(g, day) >= l.dailyMax then DailyMax
    else if key in g.lastRun && now - g.lastRun[key] < l.cooldown then CoolingDown
    else Admitted
  }

  /** Past an open breaker the day is noted even when the event is then turned away. */
  function AfterGate(l: Limits, g: Gates, key: string, now: int, day: int): Gates {
    match GateVerdict(l, g, key, now, day)
    case BreakerOpen => g
    case Admitted => g.(lastRun := g.lastRun[key := now], dayKey := Some(day), dayCount := CountToday(g, day) + 1)
    case _ => g.(dayKey := Some(day), dayCount := CountToday(g, day))
  }

  function AfterFail(l: Limits, g: Gates, at: int): Gates {
    if g.failStrk + 1 >= l.breakerFails then g.(failStrk := 0, openUntil := Some(at + l.breakerOpen))
    else g.(failStrk := g.failStrk + 1)
  }

  function AfterHandle(l: Limits, g: Gates, r: Request): Gates {
    var g' := AfterGate(l, g, KeyOf(r.event), r.now, r.day);
    if !Admits(l, g, r) then g' else
    match r.outcome
    case NoHistory => g'
    case ModelFailed(at) => AfterFail(l, g', at)
    case ModelAnswered => g'.(failStrk := 0)
  }

  /** The gates after a whole list of requests. */
  function GatesAfter(l: Limits, rs: seq<Request>): Gates {
    if rs == [] then INIT_GATES else AfterHandle(l, GatesAfter(l, rs[..|rs| - 1]), rs[|rs| - 1])
  }

  predicate Admits(l: Limits, g: Gates, r: Request) {
    GateVerdict(l, g, KeyOf(r.event), r.now, r.day) == Admitted
  }

  /** Those of the requests that pass the gates. */
  function AdmittedOf(l: Limits, rs: seq<Request>): (admitted: seq<Request>)
    ensures forall r :: r in admitted ==> r in rs
  {
    if rs == [] then [] else
    var front, last := rs[..|rs| - 1], rs[|rs| - 1];
    if Admits(l, GatesAfter(l, front), last) then AdmittedOf(l, front) + [last] else AdmittedOf(l, front)
  }

  /** Those of the requests that reach the model. */
  function CallsOf(l: Limits, rs: seq<Request>): (calls: seq<Request>)
    ensures |calls| <= |AdmittedOf(l, rs)|
    ensures forall r :: r in calls ==> r in rs
  {
    if rs == [] then [] else
    var front, last := rs[..|rs| - 1], rs[|rs| - 1];
    if Admits(l, GatesAfter(l, front), last) && last.outcome != NoHistory
    then CallsOf(l, front) + [last] else CallsOf(l, front)
  }

  lemma OneMore(l: Limits, rs: seq<Request>, r: Request)
    ensures GatesAfter(l, rs + [r]) == AfterHandle(l, GatesAfter(l, rs), r)
    ensures |CallsOf(l, rs + [r])|
      == |CallsOf(l, rs)| + if Admits(l, GatesAfter(l, rs), r) && r.outcome != NoHistory then 1 else 0
  {
    assert (rs + [r])[..|rs|] == rs;
  }

  class Analyzer {
    const limits: Limits
    const hasModel: bool
    var ch: seq<Event>
    var lastRun: map<string, int>
    var failStrk: nat
    var openUntil: Option<int>
    var dayKey: Option<int>
    var dayCount: nat
    /** Everything handled so far, and how often the model has been called. */
    ghost var handled: seq<Request>
    ghost var calls: nat

    /** The fields are what the gates make of everything handled. */
    ghost predicate Valid()
      reads this
    {
      if !hasModel then State() == INIT_GATES && calls == 0
      else State() == GatesAfter(limits, handled) && calls == |CallsOf(limits, handled)|
    }

    constructor (limits: Limits, hasModel: bool)
      ensures Valid() && State() == INIT_GATES && ch == [] && handled == []
      ensures this.limits == limits && this.hasModel == hasModel
    {
      this.limits, this.hasModel := limits, hasModel;
      ch := [];
      lastRun, failStrk, openUntil, dayKey, dayCount := map[], 0, None, None, 0;
      handled, calls := [], 0;
    }

    function State(): Gates
      reads this
    {
      Gates(lastRun, failStrk, openUntil, dayKey, dayCount)
    }

    /** Never blocks: a full buffer keeps what it has and drops the new event. */
    method Submit(e: Event) returns (taken: bool)
      modifies this`ch
      ensures taken == (|old(ch)| < 16)
      ensures ch == if taken then old(ch) + [e] else old(ch)
    {
      taken := |ch| < BUFFER;
      if taken {
        ch := ch + [e];
      }
    }

    method Gate(e: Event, now: int, day: int) returns (verdict: Verdict)
      modifies this`lastRun, this`dayKey, this`dayCount
      ensures verdict == GateVerdict(limits, old(State()), KeyOf(e), now, day)
      ensures State() == AfterGate(limits, old(State()), KeyOf(e), now, day)
    {
      if openUntil.Some? && now < openUntil.value {
        return BreakerOpen;
      }
      if Some(day) != dayKey {
        dayKey, dayCount := Some(day), 0;
      }
      if dayCount >= limits.dailyMax {
        return DailyMax;
      }
      var key := e.target + "|" + e.ruleName;
      if key in lastRun && now - lastRun[key] < limits.cooldown {
        return CoolingDown;
      }
      lastRun := lastRun[key := now];
      dayCount := dayCount + 1;
      return Admitted;
    }

    method OnFail(at: int)
      modifies this`failStrk, this`openUntil
      ensures State() == AfterFail(limits, old(State()), at)
    {
      failStrk := failStrk + 1;
      if failStrk >= limits.breakerFails {
        openUntil := Some(at + limits.breakerOpen);
        failStrk := 0;
      }
    }

    method OnOK()
      modifies this`failStrk
      ensures State() == old(State()).(failStrk := 0)
    {
      failStrk := 0;
    }

    /** One event: past the gates, its history is read and the model called; says whether it was. */
    method Consider(r: Request) returns (called: bool)
      modifies this`lastRun, this`dayKey, this`dayCount, this`failStrk, this`openUntil
      ensures State() == if hasModel then AfterHandle(limits, old(State()), r) else old(State())
      ensures called <==> hasModel && r.outcome != NoHistory
                          && Admits(limits, old(State()), r)
    {
      if !hasModel {
        return false;
      }
      var verdict := Gate(r.event, r.now, r.day);
      if verdict != Admitted {
        return false;
      }
      match r.outcome
      case NoHistory => return false;
      case ModelFailed(at) =>
        OnFail(at);
        return true;
      case ModelAnswered =>
        OnOK();
        return true;
    }

    method Handle(r: Request)
      requires Valid()
      modifies this
      ensures Valid() && ch == old(ch) && handled == old(handled) + [r]
    {
      OneMore(limits, handled, r);
      var called := Consider(r);
      calls := calls + if called then 1 else 0;
      handled := handled + [r];
    }

    /** The loop, while events go on being submitted: buffered ones are handled one by one until the context ends. */
    method Run(script: seq<Happening>) returns (stopped: bool)
      requires Valid()
      modifies this
      ensures Valid()
      ensures Loop(ch, handled, stopped) == LoopRun(script, Loop(old(ch), old(handled), false))
      ensures stopped <==> Ended in script
    {
      StopsWhenEnded(script, Loop(ch, handled, false));
      for i := 0 to |script|
        invariant Valid() && Loop(ch, handled, false) == LoopRun(script[..i], Loop(old(ch), old(handled), false))
      {
        OneMoreHappens(script, i, Loop(old(ch), old(handled), false));
        match script[i]
        case Submitted(e) =>
          var _ := Submit(e);
        case Ready(now, day, outcome) =>
          if ch != [] {
            var e := ch[0];
            ch := ch[1..];
            Handle(Request(e, now, day, outcome));
          }
        case Ended =>
          StaysStopped(script, i, Loop(old(ch), old(handled), false));
          return true;
      }
      assert script[..|script|] == script;
      return false;
    }
  }

  // ----- the loop and those who submit -----

  /** An event arrives; the loop is ready for the next one, handled in that moment; or the context ends. */
  datatype Happening = Submitted(event: Event) | Ready(now: int, day: int, outcome: Outcome) | Ended

  datatype Loop = Loop(waiting: seq<Event>, handled: seq<Request>, stopped: bool)

  function LoopStep(s: Loop, h: Happening): Loop {
    match h
    case Submitted(e) => if |s.waiting| < BUFFER then s.(waiting := s.waiting + [e]) else s
    case Ready(now, day, outcome) =>
      if s.waiting == [] then s else
      s.(waiting := s.waiting[1..], handled := s.handled + [Request(s.waiting[0], now, day, outcome)])
    case Ended => s.(stopped := true)
  }

  function LoopRun(script: seq<Happening>, s: Loop): Loop {
    if script == [] then s else
    var before := LoopRun(script[..|script| - 1], s);
    if before.stopped then before else LoopStep(before, script[|script| - 1])
  }

  lemma OneMoreHappens(script: seq<Happening>, i: nat, s: Loop)
    requires i < |script|
    ensures LoopRun(script[..i + 1], s)
      == if LoopRun(script[..i], s).stopped then LoopRun(script[..i], s)
         else LoopStep(LoopRun(script[..i], s), script[i])
  {
    assert script[..i + 1][..i] == script[..i];
  }

  lemma {:induction false} StaysStopped(script: seq<Happening>, i: nat, s: Loop)
    requires i < |script| && LoopRun(script[..i + 1], s).stopped
    ensures LoopRun(script, s) == LoopRun(script[..i + 1], s)
    decreases |script|
  {
    if i == |script| - 1 {
      assert script[..i + 1] == script;
    } else {
      var front := script[..|script| - 1];
      assert front[..i + 1] == script[..i + 1];
      StaysStopped(front, i, s);
    }
  }

  /** The loop stops when the context has ended, and never otherwise. */
  lemma {:induction false} StopsWhenEnded(script: seq<Happening>, s: Loop)
    requires !s.stopped
    ensures LoopRun(script, s).stopped <==> Ended in script
  {
    if script != [] {
      var front, last := script[..|script| - 1], script[|script| - 1];
      StopsWhenEnded(front, s);
      assert forall h :: h in script <==> h in front || h == last;
    }
  }

  /** Nothing is handled after the end of the context. */
  lemma NothingAfterEnd(script: seq<Happening>, i: nat, s: Loop)
    requires !s.stopped && i < |script| && script[i] == Ended && Ended !in script[..i]
    ensures LoopRun(script, s) == LoopRun(script[..i], s).(stopped := true)
  {
    StopsWhenEnded(script[..i], s);
    OneMoreHappens(script, i, s);
    StaysStopped(script, i, s);
  }

  function EventsOf(rs: seq<Request>): (events: seq<Event>)
    ensures |events| == |rs|
  {
    seq(|rs|, i requires 0 <= i < |rs| => rs[i].event)
  }

  /** The submissions for which there was room. */
  function Accepted(script: seq<Happening>, s: Loop): seq<Event> {
    if script == [] then [] else
    var front, last := script[..|script| - 1], script[|script| - 1];
    var before := LoopRun(front, s);
    if last.Submitted? && !before.stopped && |before.waiting| < BUFFER
    then Accepted(front, s) + [last.event] else Accepted(front, s)
  }

  lemma StepKeepsEvents(s: Loop, h: Happening)
    ensures EventsOf(LoopStep(s, h).handled) + LoopStep(s, h).waiting
      == EventsOf(s.handled) + s.waiting + if h.Submitted? && |s.waiting| < BUFFER then [h.event] else []
  {
    if h.Ready? && s.waiting != [] {
      assert s.waiting == [s.waiting[0]] + s.waiting[1..];
      assert EventsOf(LoopStep(s, h).handled) == EventsOf(s.handled) + [s.waiting[0]];
    }
  }

  /**
   Every accepted event is handled exactly once and in the order of submission, or still waits; at most 16 wait; and
   what has been handled stays so.
   */
  lemma {:induction false} AcceptedAreHandled(script: seq<Happening>, s: Loop)
    requires |s.waiting| <= BUFFER
    ensures var s' := LoopRun(script, s);
            && EventsOf(s'.handled) + s'.waiting == EventsOf(s.handled) + s.waiting + Accepted(script, s)
            && s.handled <= s'.handled && |s'.waiting| <= BUFFER
  {
    if script == [] {
      assert EventsOf(s.handled) + s.waiting + [] == EventsOf(s.handled) + s.waiting;
    } else {
      var front, last := script[..|script| - 1], script[|script| - 1];
      AcceptedAreHandled(front, s);
      AcceptedOneMore(front, last, s);
    }
  }

  lemma AcceptedOneMore(front: seq<Happening>, last: Happening, s: Loop)
    requires var before := LoopRun(front, s);
             EventsOf(before.handled) + before.waiting == EventsOf(s.handled) + s.waiting + Accepted(front, s)
    ensures var before := LoopRun(front, s);
            var after := if before.stopped then before else LoopStep(before, last);
            EventsOf(after.handled) + after.waiting
            == EventsOf(s.handled) + s.waiting
               + if last.Submitted? && !before.stopped && |before.waiting| < BUFFER
                 then Accepted(front, s) + [last.event] else Accepted(front, s)
  {
    StepKeepsEvents(LoopRun(front, s), last);
  }
}
