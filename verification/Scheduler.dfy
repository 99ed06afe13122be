/** The pool's own fields, and the operations on them: applying a configuration, handing one over, dispatching. */
module Scheduler {
  import opened Checker
  import opened PoolRun

  datatype Probe = Http(target: Target) | Tcp(target: Target) | Cert(target: Target, warnDays: int)

  const DEFAULT_WARN_DAYS := 14

  /** The checker a target gets, if its kind is known. */
  function ProbeFor(t: Target): Option<Probe> {
    if t.kind == "http" then Some(Http(t))
    else if t.kind == "tcp" then Some(Tcp(t))
    else if t.kind == "cert" then Some(Cert(t, if t.certWarnDays == 0 then DEFAULT_WARN_DAYS else t.certWarnDays))
    else None
  }

  /** Each known kind has its own checker, for the target itself; a certificate without a warning time gets 14 days. */
  lemma ProbeOfKind(t: Target)
    ensures t.kind == "http" ==> ProbeFor(t) == Some(Http(t))
    ensures t.kind == "tcp" ==> ProbeFor(t) == Some(Tcp(t))
    ensures t.kind == "cert" && t.certWarnDays == 0 ==> ProbeFor(t) == Some(Cert(t, 14))
    ensures t.kind == "cert" && t.certWarnDays != 0 ==> ProbeFor(t) == Some(Cert(t, t.certWarnDays))
    ensures t.kind !in {"http", "tcp", "cert"} ==> ProbeFor(t) == None
  {
  }

  /** The checkers of a configuration, by name. */
  function CheckersOf(cfg: seq<Target>): map<string, Probe> {
    if cfg == [] then map[] else
    var front, last := CheckersOf(cfg[..|cfg| - 1]), cfg[|cfg| - 1];
    match ProbeFor(last)
    case Some(probe) => front[last.name := probe]
    case None => front
  }

  lemma {:induction false} CheckersByName(cfg: seq<Target>)
    ensures CheckersOf(cfg).Keys == CheckerNames(cfg)
  {
    if cfg != [] {
      var n := |cfg| - 1;
      CheckersByName(cfg[..n]);
      NamesOneMore(cfg[..n], cfg[n]);
      assert cfg == cfg[..n] + [cfg[n]];
    }
  }

  lemma NamesOneMore(cfg: seq<Target>, t: Target)
    ensures CheckerNames(cfg + [t]) == CheckerNames(cfg) + if t.kind in KINDS then {t.name} else {}
  {
    assert forall x :: x in cfg + [t] <==> x in cfg || x == t;
  }

  predicate UniqueNames(cfg: seq<Target>) {
    forall i, j :: 0 <= i < j < |cfg| ==> cfg[i].name != cfg[j].name
  }

  lemma {:induction false} OwnChecker(cfg: seq<Target>, k: nat)
    requires UniqueNames(cfg) && k < |cfg| && cfg[k].kind in KINDS
    ensures cfg[k].name in CheckersOf(cfg) && Some(CheckersOf(cfg)[cfg[k].name]) == ProbeFor(cfg[k])
  {
    var n := |cfg| - 1;
    if k < n {
      OwnChecker(cfg[..n], k);
    }
  }

  /** Of several targets of one name, the last one of a known kind decides. */
  lemma {:induction false} LastOfNameDecides(cfg: seq<Target>, k: nat)
    requires k < |cfg| && cfg[k].kind in {"http", "tcp", "cert"}
    requires forall i :: k < i < |cfg| && cfg[i].name == cfg[k].name ==> cfg[i].kind !in {"http", "tcp", "cert"}
    ensures cfg[k].name in CheckersOf(cfg) && Some(CheckersOf(cfg)[cfg[k].name]) == ProbeFor(cfg[k])
  {
    var n := |cfg| - 1;
    ProbeOfKind(cfg[n]);
    if k < n {
      LastOfNameDecides(cfg[..n], k);
    }
  }

  /**
   A worker finds a checker for a job exactly when the configuration has a target of that name and a known kind; with
   the unique names of a validated configuration, it is the checker made for the job's own target.
   */
  lemma CheckerFound(cfg: seq<Target>, t: Target)
    ensures CheckersOf(cfg).Keys == CheckerNames(cfg)
    ensures t in cfg && t.kind in KINDS && UniqueNames(cfg)
      ==> t.name in CheckersOf(cfg) && Some(CheckersOf(cfg)[t.name]) == ProbeFor(t)
  {
    CheckersByName(cfg);
    if t in cfg && t.kind in KINDS && UniqueNames(cfg) {
      var k :| 0 <= k < |cfg| && cfg[k] == t;
      OwnChecker(cfg, k);
    }
  }

  /** A bounded channel without receivers of its own. */
  class Channel<T> {
    const cap: nat
    var buf: seq<T>

    constructor (cap: nat)
      ensures this.cap == cap && buf == []
    {
      this.cap := cap;
      buf := [];
    }

    /** A receive that gives up when the buffer is empty. */
    method TryReceive() returns (x: Option<T>)
      modifies this
      ensures x == if old(buf) == [] then None else Some(old(buf)[0])
      ensures buf == if old(buf) == [] then [] else old(buf)[1..]
    {
      if buf == [] {
        return None;
      }
      x := Some(buf[0]);
      buf := buf[1..];
    }

    /** A send that gives up when the buffer is full. */
    method TrySend(x: T) returns (sent: bool)
      modifies this
      ensures sent == (|old(buf)| < cap)
      ensures buf == if sent then old(buf) + [x] else old(buf)
    {
      sent := |buf| < cap;
      if sent {
        buf := buf + [x];
      }
    }
  }

  class Pool {
    var targets: seq<Target>
    var checkers: map<string, Probe>
    const reloadCh: Channel<seq<Target>>

    constructor (cfg: seq<Target>)
      ensures targets == cfg && checkers == CheckersOf(cfg)
      ensures fresh(reloadCh) && reloadCh.cap == 1 && reloadCh.buf == []
    {
      targets, checkers := [], map[];
      reloadCh := new Channel<seq<Target>>(1);
      new;
      ApplyConfig(cfg);
    }

    method ApplyConfig(cfg: seq<Target>)
      modifies this
      ensures targets == cfg && checkers == CheckersOf(cfg)
    {
      targets := cfg;
      checkers := map[];
      for n := 0 to |cfg|
        invariant targets == cfg && checkers == CheckersOf(cfg[..n])
      {
        var t := cfg[n];
        assert cfg[..n + 1][..n] == cfg[..n];
        if t.kind == "http" {
          checkers := checkers[t.name := Http(t)];
        } else if t.kind == "tcp" {
          checkers := checkers[t.name := Tcp(t)];
        } else if t.kind == "cert" {
          var warn := t.certWarnDays;
          if warn == 0 {
            warn := DEFAULT_WARN_DAYS;
          }
          checkers := checkers[t.name := Cert(t, warn)];
        }
      }
      assert cfg[..|cfg|] == cfg;
    }

    /**
     A run of the pool may receive the old configuration between the first, failed send and the drain; nowhere else
     would that change the outcome. Either way the slot then holds the new configuration, and only that.
     */
    method Reload(cfg: seq<Target>, takenMeanwhile: bool) returns (taken: Option<seq<Target>>)
      requires reloadCh.cap == 1 && |reloadCh.buf| <= 1
      modifies reloadCh
      ensures reloadCh.buf == [cfg]
      ensures taken == if old(reloadCh.buf) != [] && takenMeanwhile then Some(old(reloadCh.buf)[0]) else None
    {
      taken := None;
      var sent := reloadCh.TrySend(cfg);
      if !sent {
        if takenMeanwhile {
          taken := reloadCh.TryReceive();
        }
        var _ := reloadCh.TryReceive();
        sent := reloadCh.TrySend(cfg);
      }
    }

    /** Before each send the workers may receive some jobs; a target is queued when there is room at its turn. */
    method DispatchJobs(jobs: Channel<Target>, receives: seq<nat>) returns (received: seq<Target>)
      requires |jobs.buf| <= jobs.cap && |receives| == |targets|
      modifies jobs
      ensures Queue(jobs.buf, received) == Round(targets, receives, jobs.cap, Queue(old(jobs.buf), []))
    {
      received := [];
      for i := 0 to |targets|
        invariant Queue(jobs.buf, received) == Round(targets[..i], receives[..i], jobs.cap, Queue(old(jobs.buf), []))
      {
        var n := Min(receives[i], |jobs.buf|);
        assert targets[..i + 1][..i] == targets[..i] && receives[..i + 1][..i] == receives[..i];
        received := received + jobs.buf[..n];
        jobs.buf := jobs.buf[n..];
        var _ := jobs.TrySend(targets[i]);
      }
      assert targets[..|targets|] == targets && receives[..|targets|] == receives;
    }
  }

  // ----- a round of dispatching -----

  function Min(a: nat, b: nat): nat {
    if a <= b then a else b
  }

  /** What is waiting in the channel, and what the workers have received during the round. */
  datatype Queue = Queue(waiting: seq<Target>, received: seq<Target>)

  function SendOne(q: Queue, t: Target, receives: nat, cap: nat): Queue {
    var n := Min(receives, |q.waiting|);
    var rest := q.waiting[n..];
    Queue(if |rest| < cap then rest + [t] else rest, q.received + q.waiting[..n])
  }

  function Round(targets: seq<Target>, receives: seq<nat>, cap: nat, q: Queue): Queue
    requires |receives| == |targets|
  {
    if targets == [] then q else
    var n := |targets| - 1;
    SendOne(Round(targets[..n], receives[..n], cap, q), targets[n], receives[n], cap)
  }

  /** Those of the targets that were sent, in order. */
  function Sent(targets: seq<Target>, sent: seq<bool>): seq<Target>
    requires |sent| == |targets|
  {
    if targets == [] then [] else
    var n := |targets| - 1;
    Sent(targets[..n], sent[..n]) + if sent[n] then [targets[n]] else []
  }

  lemma Regroup(a: seq<Target>, b: seq<Target>, c: seq<Target>, d: seq<Target>)
    ensures (a + b) + (c + d) == a + (b + c) + d
  {
  }

  lemma OneSendKeeps(q: Queue, t: Target, receives: nat, cap: nat) returns (more: seq<Target>)
    requires |q.waiting| <= cap
    ensures more == if |q.waiting| - Min(receives, |q.waiting|) < cap then [t] else []
    ensures var q' := SendOne(q, t, receives, cap);
            |q'.waiting| <= cap && q'.received + q'.waiting == q.received + q.waiting + more
  {
    var n := Min(receives, |q.waiting|);
    var rest := q.waiting[n..];
    more := if |rest| < cap then [t] else [];
    assert SendOne(q, t, receives, cap).waiting == rest + more;
    Regroup(q.received, q.waiting[..n], rest, more);
    assert q.waiting[..n] + rest == q.waiting;
  }

  /**
   However many jobs the workers receive between the sends of a round: nothing that was queued is lost or overtaken, and
   what is queued behind it are targets of the round, in their order.
   */
  lemma {:induction false} RoundKeeps(targets: seq<Target>, receives: seq<nat>, cap: nat, q: Queue)
    returns (sent: seq<bool>)
    requires |receives| == |targets| && |q.waiting| <= cap
    ensures |sent| == |targets|
    ensures var q' := Round(targets, receives, cap, q);
            |q'.waiting| <= cap && q'.received + q'.waiting == q.received + q.waiting + Sent(targets, sent)
  {
    if targets == [] {
      sent := [];
      assert q.received + q.waiting + [] == q.received + q.waiting;
    } else {
      var n := |targets| - 1;
      var front := RoundKeeps(targets[..n], receives[..n], cap, q);
      var more := OneSendKeeps(Round(targets[..n], receives[..n], cap, q), targets[n], receives[n], cap);
      sent := front + [more != []];
      assert sent[..n] == front;
      SentOneMore(q.received + q.waiting, targets, sent, more);
    }
  }

  lemma SentOneMore(before: seq<Target>, targets: seq<Target>, sent: seq<bool>, more: seq<Target>)
    requires targets != [] && |sent| == |targets|
    requires more == if sent[|sent| - 1] then [targets[|targets| - 1]] else []
    ensures before + Sent(targets[..|targets| - 1], sent[..|sent| - 1]) + more == before + Sent(targets, sent)
  {
    Assoc(before, Sent(targets[..|targets| - 1], sent[..|sent| - 1]), more);
  }

  lemma Assoc(a: seq<Target>, b: seq<Target>, c: seq<Target>)
    ensures a + b + c == a + (b + c)
  {
  }

  /** With nobody receiving in between, the first targets that fit are queued. */
  lemma {:induction false} RoundAlone(targets: seq<Target>, receives: seq<nat>, cap: nat, waiting: seq<Target>)
    requires |receives| == |targets| && |waiting| <= cap
    requires forall i :: 0 <= i < |receives| ==> receives[i] == 0
    ensures Round(targets, receives, cap, Queue(waiting, []))
      == Queue(waiting + targets[..Min(|targets|, cap - |waiting|)], [])
  {
    if targets == [] {
      assert waiting + [] == waiting;
    } else {
      var n := |targets| - 1;
      RoundAlone(targets[..n], receives[..n], cap, waiting);
      var before := waiting + targets[..n][..Min(n, cap - |waiting|)];
      assert before[0..] == before;
      if n < cap - |waiting| {
        assert before + [targets[n]] == waiting + targets[..n + 1];
      }
    }
  }

  function TargetsOf(jobs: seq<Job>): (targets: seq<Target>)
    ensures |targets| == |jobs|
  {
    seq(|jobs|, i requires 0 <= i < |jobs| => jobs[i].what)
  }

  /** One dispatch step, seen as the list of targets in the queue. */
  lemma DispatchOne(p: PoolRun.Pool)
    requires p.main.Dispatching? && p.main.todo != [] && |p.jobs| <= p.cap
    ensures Can(p, Dispatch)
    ensures var q := Next(p, Dispatch);
            && q.main == Dispatching(p.main.todo[1..]) && q.cap == p.cap && |q.jobs| <= q.cap
            && TargetsOf(q.jobs) == if |p.jobs| < p.cap then TargetsOf(p.jobs) + [p.main.todo[0]] else TargetsOf(p.jobs)
  {
  }

  /** Dispatch steps with no other step in between queue what the method queues when nobody receives in between. */
  lemma {:induction false} DispatchAlone(p: PoolRun.Pool, n: nat) returns (q: PoolRun.Pool)
    requires p.main.Dispatching? && n <= |p.main.todo| && |p.jobs| <= p.cap
    ensures Runs(p, seq(n, _ => Dispatch)) && q == Exec(p, seq(n, _ => Dispatch))
    ensures q.main == Dispatching(p.main.todo[n..]) && q.cap == p.cap && |q.jobs| <= q.cap
    ensures TargetsOf(q.jobs) == TargetsOf(p.jobs) + p.main.todo[..Min(n, p.cap - |p.jobs|)]
  {
    if n == 0 {
      q := p;
    } else {
      var before := DispatchAlone(p, n - 1);
      DispatchOne(before);
      q := Next(before, Dispatch);
      assert seq(n, _ => Dispatch)[..n - 1] == seq(n - 1, _ => Dispatch);
    }
  }
}
