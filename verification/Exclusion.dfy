/**
 When at most one node leads. Three lapses can break it: a lease lost while its node is in charge, a callback abandoned
 while it still runs, and a campaign won without the winner's own key. Exclusion holds exactly when all three are
 avoided; it rests on the order in which the flag is cleared and the session closed only after the callback has ended.
 */
module Exclusion {
  import opened Checker
  import opened Leadership
  import opened Election

  datatype Lapse = LostInCharge | AbandonedAlive | WonWithoutKey

  const ALL_LAPSES: set<Lapse> := {LostInCharge, AbandonedAlive, WonWithoutKey}

  /** From the campaign's return to the clearing of the flag. */
  predicate InCharge(pc: Pc) {
    pc == AtElected || Flagged(pc)
  }

  predicate IsLapse(c: Cluster, m: Move, lapse: Lapse)
    requires CanMove(c, m)
  {
    match lapse
    case LostInCharge =>
      m.LoseLease? && exists i :: 0 <= i < |c.nodes| && InCharge(c.nodes[i].pc) && c.nodes[i].sess == Some(m.lease)
    case AbandonedAlive => m.NodeMove? && m.action == Timeout && c.nodes[m.i].callback
    case WonWithoutKey => m.NodeMove? && m.action == CampaignOk && c.nodes[m.i].key.value !in c.keys
  }

  /** A run in which none of these lapses happens. */
  ghost predicate RunsAvoiding(n: nat, moves: seq<Move>, lapses: set<Lapse>) {
    && Runs(n, moves)
    && (moves == [] ||
        (var front, last := moves[..|moves| - 1], moves[|moves| - 1];
         && RunsAvoiding(n, front, lapses)
         && forall lapse :: lapse in lapses ==> !IsLapse(Exec(n, front), last, lapse)))
  }

  /** Flagged leader, or with a callback still running. */
  predicate Active(n: Node) {
    n.isLeader || LiveCallbacks(n) > 0
  }

  ghost predicate Exclusive(c: Cluster) {
    forall i, j :: 0 <= i < j < |c.nodes| ==> !Active(c.nodes[i]) || !Active(c.nodes[j])
  }

  /** The invariant of a run without lapses: whoever is in charge holds its lease, and no callback is abandoned. */
  ghost predicate Holding(c: Cluster) {
    && (forall i :: 0 <= i < |c.nodes| && InCharge(c.nodes[i].pc) ==> LeaseLive(c, i))
    && (forall i :: 0 <= i < |c.nodes| ==> c.nodes[i].abandoned == 0)
  }

  /** A node comes into charge by winning its campaign only, and keeps its session as long as it is in charge. */
  lemma StaysInCharge(n: Node, a: Action)
    requires Enabled(n, a) && a != CampaignOk
    ensures InCharge(Apply(n, a).pc) ==> InCharge(n.pc) && Apply(n, a).sess == n.sess
  {
  }

  lemma OwnMoveKeepsHolding(c: Cluster, i: nat, a: Action)
    requires CanMove(c, NodeMove(i, a))
    requires Linked(c, c.nodes[i]) && c.nodes[i].abandoned == 0
    requires InCharge(c.nodes[i].pc) ==> LeaseLive(c, i)
    requires !IsLapse(c, NodeMove(i, a), AbandonedAlive) && !IsLapse(c, NodeMove(i, a), WonWithoutKey)
    requires c.nodes[i].pc == AtCampaign ==> c.nodes[i].sess.Some?
    ensures var c' := After(c, NodeMove(i, a));
            (InCharge(c'.nodes[i].pc) ==> LeaseLive(c', i)) && c'.nodes[i].abandoned == 0
  {
    var c' := After(c, NodeMove(i, a));
    if a == CampaignOk {
      assert c.nodes[i].key.value in c.keys;
      assert LeaseLive(c', i);
    } else {
      StaysInCharge(c.nodes[i], a);
    }
  }

  lemma MoveKeepsHolding(c: Cluster, m: Move)
    requires Inv(c) && Holding(c) && CanMove(c, m)
    requires forall lapse :: lapse in ALL_LAPSES ==> !IsLapse(c, m, lapse)
    ensures Holding(After(c, m))
  {
    var c' := After(c, m);
    assert !IsLapse(c, m, LostInCharge) && !IsLapse(c, m, AbandonedAlive) && !IsLapse(c, m, WonWithoutKey);
    forall i | 0 <= i < |c'.nodes|
      ensures InCharge(c'.nodes[i].pc) ==> LeaseLive(c', i)
      ensures c'.nodes[i].abandoned == 0
    {
      assert Linked(c, c.nodes[i]) && NodeInv(c.nodes[i]);
      if m.NodeMove? && m.i == i {
        OwnMoveKeepsHolding(c, i, m.action);
      }
    }
  }

  lemma {:induction false} RunKeepsHolding(n: nat, moves: seq<Move>)
    requires RunsAvoiding(n, moves, ALL_LAPSES)
    ensures Inv(Exec(n, moves)) && Holding(Exec(n, moves))
  {
    RunKeepsInv(n, moves);
    if moves != [] {
      var front, last := moves[..|moves| - 1], moves[|moves| - 1];
      RunKeepsHolding(n, front);
      MoveKeepsHolding(Exec(n, front), last);
    }
  }

  lemma ActiveOwns(c: Cluster, i: nat)
    requires Inv(c) && Holding(c) && i < |c.nodes| && Active(c.nodes[i])
    ensures OwnsEarliestKey(c, i)
  {
    assert NodeInv(c.nodes[i]) && Linked(c, c.nodes[i]);
  }

  lemma HoldingIsExclusive(c: Cluster)
    requires Inv(c) && Holding(c)
    ensures Exclusive(c)
  {
    forall i, j | 0 <= i < j < |c.nodes|
      ensures !Active(c.nodes[i]) || !Active(c.nodes[j])
    {
      if Active(c.nodes[i]) {
        ActiveOwns(c, i);
      }
      if Active(c.nodes[j]) {
        ActiveOwns(c, j);
      }
    }
  }

  function FlagCount(nodes: seq<Node>): nat {
    if nodes == [] then 0 else FlagCount(nodes[..|nodes| - 1]) + if nodes[|nodes| - 1].isLeader then 1 else 0
  }

  function CallbackCount(nodes: seq<Node>): nat {
    if nodes == [] then 0 else CallbackCount(nodes[..|nodes| - 1]) + LiveCallbacks(nodes[|nodes| - 1])
  }

  lemma {:induction false} CountsFromPairs(nodes: seq<Node>)
    requires forall i, j :: 0 <= i < j < |nodes| ==> !Active(nodes[i]) || !Active(nodes[j])
    requires forall i :: 0 <= i < |nodes| ==> LiveCallbacks(nodes[i]) <= 1
    ensures FlagCount(nodes) <= 1 && CallbackCount(nodes) <= 1
    ensures (forall i :: 0 <= i < |nodes| ==> !Active(nodes[i])) ==> FlagCount(nodes) == 0 && CallbackCount(nodes) == 0
  {
    if nodes != [] {
      CountsFromPairs(nodes[..|nodes| - 1]);
      assert nodes[|nodes| - 1] == nodes[|nodes| - 1];
    }
  }

  /** Without lapses, in every reachable state of the cluster at most one node is flagged and one callback runs. */
  lemma AtMostOneLeader(n: nat, moves: seq<Move>)
    requires RunsAvoiding(n, moves, ALL_LAPSES)
    ensures var c := Exec(n, moves);
            Exclusive(c) && FlagCount(c.nodes) <= 1 && CallbackCount(c.nodes) <= 1
  {
    RunKeepsHolding(n, moves);
    var c := Exec(n, moves);
    HoldingIsExclusive(c);
    CountsFromPairs(c.nodes);
  }

  // ----- each lapse alone breaks it -----

  lemma Extend(n: nat, moves: seq<Move>, m: Move, lapses: set<Lapse>) returns (moves': seq<Move>)
    requires RunsAvoiding(n, moves, lapses) && CanMove(Exec(n, moves), m)
    requires forall lapse :: lapse in lapses ==> !IsLapse(Exec(n, moves), m, lapse)
    ensures moves' == moves + [m]
    ensures RunsAvoiding(n, moves', lapses) && Exec(n, moves') == After(Exec(n, moves), m)
  {
    moves' := moves + [m];
    RunsOn(n, moves, m);
    assert moves'[..|moves|] == moves;
  }

  /** Extending by a node's move that can be no lapse. */
  lemma Proceed(n: nat, moves: seq<Move>, i: nat, a: Action, lapses: set<Lapse>) returns (moves': seq<Move>)
    requires RunsAvoiding(n, moves, lapses) && CanMove(Exec(n, moves), NodeMove(i, a))
    requires a != Timeout && a != CampaignOk
    ensures moves <= moves'
    ensures RunsAvoiding(n, moves', lapses) && Exec(n, moves') == After(Exec(n, moves), NodeMove(i, a))
  {
    moves' := Extend(n, moves, NodeMove(i, a), lapses);
  }

  /** What three moves make of the cluster when an idle node opens a session and creates its key. */
  lemma CandidateState(c: Cluster, i: nat)
    requires i < |c.nodes| && c.nodes[i] == INIT_NODE
    ensures CanMove(c, NodeMove(i, CheckTop))
    ensures var c1 := After(c, NodeMove(i, CheckTop));
            && CanMove(c1, NodeMove(i, OpenOk(c.nextLease)))
            && var c2 := After(c1, NodeMove(i, OpenOk(c.nextLease)));
            && CanMove(c2, NodeMove(i, Register(c.nextRev)))
            && var c3 := After(c2, NodeMove(i, Register(c.nextRev)));
            c3 == IsCandidate(c, i)
  {
    var c1 := After(c, NodeMove(i, CheckTop));
    var c2 := After(c1, NodeMove(i, OpenOk(c.nextLease)));
    var c3 := After(c2, NodeMove(i, Register(c.nextRev)));
    assert c3.nodes == IsCandidate(c, i).nodes;
  }

  function IsCandidate(c: Cluster, i: nat): Cluster
    requires i < |c.nodes|
  {
    var n := INIT_NODE.(pc := AtCampaign, curSess := Some(c.nextLease), sess := Some(c.nextLease),
                        key := Some(c.nextRev), log := [] + [Opened(c.nextLease)]);
    Cluster(c.nodes[i := n], c.leases + {c.nextLease}, c.keys[c.nextRev := c.nextLease], c.nextLease + 1, c.nextRev + 1)
  }

  /** An idle node opens a session and creates its key. */
  lemma BecomeCandidate(n: nat, moves: seq<Move>, i: nat, lapses: set<Lapse>) returns (moves': seq<Move>)
    requires RunsAvoiding(n, moves, lapses) && i < n && Exec(n, moves).nodes[i] == INIT_NODE
    ensures moves <= moves'
    ensures RunsAvoiding(n, moves', lapses) && Exec(n, moves') == IsCandidate(Exec(n, moves), i)
  {
    var c := Exec(n, moves);
    CandidateState(c, i);
    moves' := Proceed(n, moves, i, CheckTop, lapses);
    moves' := Proceed(n, moves', i, OpenOk(c.nextLease), lapses);
    moves' := Proceed(n, moves', i, Register(c.nextRev), lapses);
  }

  /** A candidate with no earlier key alive wins and raises its flag. */
  lemma TakeOffice(n: nat, moves: seq<Move>, i: nat, lapses: set<Lapse>) returns (moves': seq<Move>)
    requires RunsAvoiding(n, moves, lapses) && i < n && Exec(n, moves).nodes[i].pc == AtCampaign
    requires Exec(n, moves).nodes[i].key.Some?
    requires forall rev :: rev in Exec(n, moves).keys ==> Exec(n, moves).nodes[i].key.value <= rev
    requires WonWithoutKey in lapses ==> Exec(n, moves).nodes[i].key.value in Exec(n, moves).keys
    ensures moves <= moves'
    ensures RunsAvoiding(n, moves', lapses)
    ensures var c, c' := Exec(n, moves), Exec(n, moves');
            && c' == c.(nodes := c.nodes[i := c'.nodes[i]])
            && c'.nodes[i] == c.nodes[i].(pc := AtStart, isLeader := true)
  {
    moves' := Extend(n, moves, NodeMove(i, CampaignOk), lapses);
    moves' := Proceed(n, moves', i, SetFlag, lapses);
  }

  /** Two nodes that can both be running a callback. */
  predicate BothMayRun(c: Cluster) {
    && |c.nodes| >= 2
    && ((c.nodes[0].pc == AtStart && c.nodes[0].isLeader) || c.nodes[0].abandoned > 0)
    && c.nodes[1].pc == AtStart && c.nodes[1].isLeader
  }

  lemma BothAreActive(c: Cluster)
    requires BothMayRun(c)
    ensures !Exclusive(c)
  {
    assert Active(c.nodes[0]) && Active(c.nodes[1]);
  }

  lemma ExpiryWhileCampaigning(n: nat) returns (moves: seq<Move>)
    requires n >= 2
    ensures RunsAvoiding(n, moves, ALL_LAPSES - {WonWithoutKey})
    ensures BothMayRun(Exec(n, moves)) && Exec(n, moves).nodes[0].pc == AtStart
  {
    var lapses := ALL_LAPSES - {WonWithoutKey};
    moves := BecomeCandidate(n, [], 0, lapses);
    moves := BecomeCandidate(n, moves, 1, lapses);
    var c := Exec(n, moves);
    assert forall i :: 0 <= i < n ==> !InCharge(c.nodes[i].pc);
    moves := Extend(n, moves, LoseLease(0), lapses);
    moves := TakeOffice(n, moves, 0, lapses);
    moves := TakeOffice(n, moves, 1, lapses);
  }

  lemma ExpiryInCharge(n: nat) returns (moves: seq<Move>)
    requires n >= 2
    ensures RunsAvoiding(n, moves, ALL_LAPSES - {LostInCharge})
    ensures BothMayRun(Exec(n, moves)) && Exec(n, moves).nodes[0].pc == AtStart
  {
    var lapses := ALL_LAPSES - {LostInCharge};
    moves := BecomeCandidate(n, [], 0, lapses);
    moves := TakeOffice(n, moves, 0, lapses);
    moves := BecomeCandidate(n, moves, 1, lapses);
    moves := Extend(n, moves, LoseLease(0), lapses);
    moves := TakeOffice(n, moves, 1, lapses);
  }

  /** A move of a node that leaves etcd alone changes nothing but that node. */
  lemma LocalMove(n: nat, moves: seq<Move>, i: nat, a: Action, lapses: set<Lapse>) returns (moves': seq<Move>)
    requires RunsAvoiding(n, moves, lapses) && i < n && Enabled(Exec(n, moves).nodes[i], a)
    requires !a.OpenOk? && !a.Register? && a != CampaignOk
    requires a == Timeout ==> AbandonedAlive !in lapses
    ensures moves <= moves'
    ensures RunsAvoiding(n, moves', lapses)
    ensures var c := Exec(n, moves); Exec(n, moves') == c.(nodes := c.nodes[i := Apply(c.nodes[i], a)])
  {
    moves' := Extend(n, moves, NodeMove(i, a), lapses);
  }

  /** A flagged node starts its callback, is told to stop, times out and lowers its flag; the callback runs on. */
  lemma AbandonCallback(n: nat, moves: seq<Move>, i: nat, lapses: set<Lapse>) returns (moves': seq<Move>)
    requires RunsAvoiding(n, moves, lapses) && i < n && Exec(n, moves).nodes[i].pc == AtStart
    requires AbandonedAlive !in lapses
    ensures moves <= moves'
    ensures RunsAvoiding(n, moves', lapses)
    ensures var c, c' := Exec(n, moves), Exec(n, moves');
            && c' == c.(nodes := c.nodes[i := c'.nodes[i]])
            && c'.nodes[i].pc == AtClearSession && c'.nodes[i].abandoned > 0
  {
    moves' := LocalMove(n, moves, i, StartCallback, lapses);
    moves' := LocalMove(n, moves', i, SessionDone, lapses);
    moves' := LocalMove(n, moves', i, Timeout, lapses);
    moves' := LocalMove(n, moves', i, ClearFlag, lapses);
  }

  /** With nobody in charge and only node 0's lease live, that lease goes and node 1 takes office. */
  lemma Succeed(n: nat, moves: seq<Move>, lapses: set<Lapse>) returns (moves': seq<Move>)
    requires n >= 2 && RunsAvoiding(n, moves, lapses)
    requires var c := Exec(n, moves);
             && c.leases == {0} && c.keys == map[0 := 0] && c.nextLease == c.nextRev == 1
             && c.nodes[1] == INIT_NODE && forall i :: 0 <= i < n ==> !InCharge(c.nodes[i].pc)
    ensures moves <= moves' && RunsAvoiding(n, moves', lapses)
    ensures var c, c' := Exec(n, moves), Exec(n, moves');
            && c'.nodes == c.nodes[1 := c'.nodes[1]]
            && c'.nodes[1].pc == AtStart && c'.nodes[1].isLeader && !c'.nodes[1].callback
  {
    moves' := BecomeCandidate(n, moves, 1, lapses);
    var c := Exec(n, moves');
    assert forall i :: 0 <= i < n ==> !InCharge(c.nodes[i].pc);
    moves' := Extend(n, moves', LoseLease(0), lapses);
    moves' := TakeOffice(n, moves', 1, lapses);
  }

  lemma CallbackOutlivesTimeout(n: nat) returns (moves: seq<Move>)
    requires n >= 2
    ensures RunsAvoiding(n, moves, ALL_LAPSES - {AbandonedAlive})
    ensures BothMayRun(Exec(n, moves))
  {
    var lapses := ALL_LAPSES - {AbandonedAlive};
    moves := BecomeCandidate(n, [], 0, lapses);
    moves := TakeOffice(n, moves, 0, lapses);
    moves := AbandonCallback(n, moves, 0, lapses);
    moves := Succeed(n, moves, lapses);
  }

  lemma {:induction false} AvoidingFewer(n: nat, moves: seq<Move>, more: set<Lapse>, fewer: set<Lapse>)
    requires RunsAvoiding(n, moves, more) && fewer <= more
    ensures RunsAvoiding(n, moves, fewer)
  {
    if moves != [] {
      AvoidingFewer(n, moves[..|moves| - 1], more, fewer);
    }
  }

  lemma OnlyThree(lapses: set<Lapse>)
    ensures lapses <= ALL_LAPSES
  {
    forall lapse | lapse in lapses
      ensures lapse in ALL_LAPSES
    {
      match lapse
      case LostInCharge =>
      case AbandonedAlive =>
      case WonWithoutKey =>
    }
  }

  /** Avoiding a set of lapses keeps leadership exclusive in every run exactly when all three are avoided. */
  lemma ExclusionExact(n: nat, lapses: set<Lapse>)
    requires n >= 2
    ensures (forall moves :: RunsAvoiding(n, moves, lapses) ==> Exclusive(Exec(n, moves))) <==> lapses == ALL_LAPSES
  {
    if LostInCharge !in lapses {
      var moves := ExpiryInCharge(n);
      BothAreActive(Exec(n, moves));
      OnlyThree(lapses);
      AvoidingFewer(n, moves, ALL_LAPSES - {LostInCharge}, lapses);
      assert RunsAvoiding(n, moves, lapses) && !Exclusive(Exec(n, moves));
    } else if AbandonedAlive !in lapses {
      var moves := CallbackOutlivesTimeout(n);
      BothAreActive(Exec(n, moves));
      OnlyThree(lapses);
      AvoidingFewer(n, moves, ALL_LAPSES - {AbandonedAlive}, lapses);
      assert RunsAvoiding(n, moves, lapses) && !Exclusive(Exec(n, moves));
    } else if WonWithoutKey !in lapses {
      var moves := ExpiryWhileCampaigning(n);
      BothAreActive(Exec(n, moves));
      OnlyThree(lapses);
      AvoidingFewer(n, moves, ALL_LAPSES - {WonWithoutKey}, lapses);
      assert RunsAvoiding(n, moves, lapses) && !Exclusive(Exec(n, moves));
    } else {
      OnlyThree(lapses);
      assert lapses == ALL_LAPSES;
      forall moves | RunsAvoiding(n, moves, lapses)
        ensures Exclusive(Exec(n, moves))
      {
        AtMostOneLeader(n, moves);
      }
    }
  }
}
