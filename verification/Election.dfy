/**
 N nodes running the leader program against one etcd. etcd is reduced to what the program relies on: leases, each of
 which can be lost at any moment, and election keys in creation order, each living exactly as long as its lease. A
 campaign returns without error only when no key created earlier is left; like etcd's, it does not look at its own key.
 */
module Election {
  import opened Checker
  import opened Leadership

  datatype Cluster = Cluster(
    nodes: seq<Node>,
    leases: set<nat>,      // live leases
    keys: map<nat, nat>,   // live election keys: creation revision to lease
    nextLease: nat,
    nextRev: nat)

  datatype Move = NodeMove(i: nat, action: Action) | LoseLease(lease: nat)

  function Init(n: nat): Cluster {
    Cluster(seq(n, _ => INIT_NODE), {}, map[], 0, 0)
  }

  predicate CanMove(c: Cluster, m: Move) {
    match m
    case LoseLease(lease) => lease in c.leases
    case NodeMove(i, a) =>
      && i < |c.nodes|
      && Enabled(c.nodes[i], a)
      && match a
         case OpenOk(lease) => lease == c.nextLease
         case Register(rev) => rev == c.nextRev && c.nodes[i].sess.Some? && c.nodes[i].sess.value in c.leases
         case CampaignOk => forall rev :: rev in c.keys ==> c.nodes[i].key.value <= rev
         case _ => true
  }

  /** Closing a session asks etcd to revoke its lease; the lease goes in a move of its own, if that arrives or not. */
  function After(c: Cluster, m: Move): Cluster
    requires CanMove(c, m)
  {
    match m
    case LoseLease(lease) =>
      c.(leases := c.leases - {lease}, keys := map rev | rev in c.keys && c.keys[rev] != lease :: c.keys[rev])
    case NodeMove(i, a) =>
      var c' := c.(nodes := c.nodes[i := Apply(c.nodes[i], a)]);
      match a
      case OpenOk(lease) => c'.(leases := c.leases + {lease}, nextLease := c.nextLease + 1)
      case Register(rev) => c'.(keys := c.keys[rev := c.nodes[i].sess.value], nextRev := c.nextRev + 1)
      case _ => c'
  }

  ghost predicate Runs(n: nat, moves: seq<Move>)
    decreases |moves|, 0
  {
    moves == [] || (Runs(n, moves[..|moves| - 1]) && CanMove(Exec(n, moves[..|moves| - 1]), moves[|moves| - 1]))
  }

  ghost function Exec(n: nat, moves: seq<Move>): (c: Cluster)
    requires Runs(n, moves)
    ensures |c.nodes| == n
    decreases |moves|, 1
  {
    if moves == [] then Init(n) else After(Exec(n, moves[..|moves| - 1]), moves[|moves| - 1])
  }

  // ----- who leads -----

  predicate LeaseLive(c: Cluster, i: nat)
    requires i < |c.nodes|
  {
    c.nodes[i].sess.Some? && c.nodes[i].sess.value in c.leases
  }

  /** The node's key is live, under its own session's lease, and no live key was created before it. */
  predicate OwnsEarliestKey(c: Cluster, i: nat)
    requires i < |c.nodes|
  {
    && c.nodes[i].key.Some? && c.nodes[i].key.value in c.keys
    && c.nodes[i].sess == Some(c.keys[c.nodes[i].key.value])
    && forall rev :: rev in c.keys ==> c.nodes[i].key.value <= rev
  }

  /** From winning the campaign to closing its session. */
  predicate InOffice(pc: Pc) {
    pc == AtElected || Flagged(pc) || pc == AtClearSession || pc == AtCloseSession
  }

  /** How one node's session and key stand to etcd's leases and keys. */
  ghost predicate Linked(c: Cluster, n: Node) {
    && (n.sess.Some? ==> n.sess.value < c.nextLease)
    && (n.key.Some? ==> n.key.value < c.nextRev)
    && (n.sess.Some? && n.key.Some? ==>
          && (n.key.value in c.keys <==> n.sess.value in c.leases)
          && (n.key.value in c.keys ==> c.keys[n.key.value] == n.sess.value))
    && (InOffice(n.pc) ==> n.sess.Some? && n.key.Some? && forall rev :: rev in c.keys ==> n.key.value <= rev)
  }

  ghost predicate Distinct(c: Cluster) {
    forall i, j :: 0 <= i < j < |c.nodes| ==>
      && (c.nodes[i].key.Some? ==> c.nodes[i].key != c.nodes[j].key)
      && (c.nodes[i].sess.Some? ==> c.nodes[i].sess != c.nodes[j].sess)
  }

  ghost predicate EtcdInv(c: Cluster) {
    && (forall rev :: rev in c.keys ==> rev < c.nextRev && c.keys[rev] in c.leases)
    && (forall lease :: lease in c.leases ==> lease < c.nextLease)
  }

  ghost predicate Inv(c: Cluster) {
    && (forall i :: 0 <= i < |c.nodes| ==> NodeInv(c.nodes[i]))
    && (forall i :: 0 <= i < |c.nodes| ==> Linked(c, c.nodes[i]))
    && Distinct(c)
    && EtcdInv(c)
  }

  lemma LostLeaseKeepsLink(c: Cluster, lease: nat, n: Node)
    requires EtcdInv(c) && lease in c.leases && Linked(c, n)
    ensures Linked(After(c, LoseLease(lease)), n)
  {
  }

  /** A node's own move keeps its own link to etcd. */
  lemma OwnMoveKeepsLink(c: Cluster, i: nat, a: Action)
    requires EtcdInv(c) && CanMove(c, NodeMove(i, a))
    requires Linked(c, c.nodes[i]) && NodeInv(c.nodes[i])
    ensures Linked(After(c, NodeMove(i, a)), Apply(c.nodes[i], a))
  {
    if a.OpenOk? {
      assert Apply(c.nodes[i], a).key == None && !InOffice(Apply(c.nodes[i], a).pc);
    } else if a.Register? {
      assert !InOffice(Apply(c.nodes[i], a).pc);
    } else {
      assert After(c, NodeMove(i, a)).keys == c.keys && After(c, NodeMove(i, a)).leases == c.leases;
      assert After(c, NodeMove(i, a)).nextRev == c.nextRev && After(c, NodeMove(i, a)).nextLease == c.nextLease;
      KeepsOrDrops(c.nodes[i], a);
    }
  }

  /** Apart from opening a session and creating a key, a node keeps its key and keeps or drops its session. */
  lemma KeepsOrDrops(n: Node, a: Action)
    requires Enabled(n, a) && !a.OpenOk? && !a.Register? && NodeInv(n)
    ensures Apply(n, a).key == n.key && (Apply(n, a).sess == n.sess || Apply(n, a).sess == None)
    ensures InOffice(Apply(n, a).pc)
      ==> Apply(n, a).sess == n.sess && (InOffice(n.pc) || (a == CampaignOk && n.key.Some?))
  {
  }

  /** Another node's move keeps a node's link: new keys come later, new leases are new. */
  lemma OtherMoveKeepsLink(c: Cluster, i: nat, a: Action, n: Node)
    requires EtcdInv(c) && CanMove(c, NodeMove(i, a))
    requires Linked(c, n)
    requires n.key.Some? ==> n.key != c.nodes[i].key
    requires n.sess.Some? ==> n.sess != c.nodes[i].sess
    ensures Linked(After(c, NodeMove(i, a)), n)
  {
  }

  lemma MoveKeepsEtcd(c: Cluster, m: Move)
    requires EtcdInv(c) && CanMove(c, m)
    ensures EtcdInv(After(c, m))
  {
  }

  /** Keys and sessions come from etcd's counters. */
  lemma OldOrNew(c: Cluster, i: nat, a: Action)
    requires CanMove(c, NodeMove(i, a)) && NodeInv(c.nodes[i])
    ensures var n, n' := c.nodes[i], Apply(c.nodes[i], a);
            && (n'.key.None? || n'.key == n.key || n'.key == Some(c.nextRev))
            && (n'.sess.None? || n'.sess == n.sess || n'.sess == Some(c.nextLease))
  {
    if !a.OpenOk? && !a.Register? {
      KeepsOrDrops(c.nodes[i], a);
    }
  }

  lemma MoveKeepsDistinct(c: Cluster, m: Move)
    requires Inv(c) && CanMove(c, m)
    ensures Distinct(After(c, m))
  {
    if m.NodeMove? {
      var c', n' := After(c, m), Apply(c.nodes[m.i], m.action);
      OldOrNew(c, m.i, m.action);
      forall i, j | 0 <= i < j < |c'.nodes|
        ensures c'.nodes[i].key.Some? ==> c'.nodes[i].key != c'.nodes[j].key
        ensures c'.nodes[i].sess.Some? ==> c'.nodes[i].sess != c'.nodes[j].sess
      {
        assert Linked(c, c.nodes[i]) && Linked(c, c.nodes[j]);
        assert i != m.i ==> c'.nodes[i] == c.nodes[i];
        assert j != m.i ==> c'.nodes[j] == c.nodes[j];
      }
    }
  }

  lemma MoveKeepsInv(c: Cluster, m: Move)
    requires Inv(c) && CanMove(c, m)
    ensures Inv(After(c, m))
  {
    var c' := After(c, m);
    MoveKeepsEtcd(c, m);
    MoveKeepsDistinct(c, m);
    forall i | 0 <= i < |c'.nodes|
      ensures NodeInv(c'.nodes[i]) && Linked(c', c'.nodes[i])
    {
      assert NodeInv(c.nodes[i]) && Linked(c, c.nodes[i]);
      match m
      case LoseLease(lease) => LostLeaseKeepsLink(c, lease, c.nodes[i]);
      case NodeMove(k, a) =>
        if i == k {
          Leadership.NodeStep(c.nodes[i], a);
          OwnMoveKeepsLink(c, i, a);
        } else {
          OtherMoveKeepsLink(c, k, a, c.nodes[i]);
        }
    }
  }

  lemma {:induction false} RunKeepsInv(n: nat, moves: seq<Move>)
    requires Runs(n, moves)
    ensures Inv(Exec(n, moves))
  {
    if moves != [] {
      RunKeepsInv(n, moves[..|moves| - 1]);
      MoveKeepsInv(Exec(n, moves[..|moves| - 1]), moves[|moves| - 1]);
    }
  }

  lemma FlaggedOwns(c: Cluster, i: nat)
    requires Inv(c) && i < |c.nodes| && c.nodes[i].isLeader
    ensures OwnsEarliestKey(c, i) || !LeaseLive(c, i)
  {
    assert NodeInv(c.nodes[i]) && Linked(c, c.nodes[i]);
    assert InOffice(c.nodes[i].pc);
  }

  /** The earliest live key is one node's. */
  lemma OneOwner(c: Cluster, i: nat, j: nat)
    requires Distinct(c) && i < j < |c.nodes|
    ensures !OwnsEarliestKey(c, i) || !OwnsEarliestKey(c, j)
  {
  }

  lemma FlaggedApart(c: Cluster)
    requires Inv(c)
    ensures forall i :: 0 <= i < |c.nodes| && c.nodes[i].isLeader ==> OwnsEarliestKey(c, i) || !LeaseLive(c, i)
    ensures forall i, j :: 0 <= i < j < |c.nodes| && c.nodes[i].isLeader && c.nodes[j].isLeader
              ==> !LeaseLive(c, i) || !LeaseLive(c, j)
  {
    forall i | 0 <= i < |c.nodes| && c.nodes[i].isLeader
      ensures OwnsEarliestKey(c, i) || !LeaseLive(c, i)
    {
      FlaggedOwns(c, i);
    }
    forall i, j | 0 <= i < j < |c.nodes| && c.nodes[i].isLeader && c.nodes[j].isLeader
      ensures !LeaseLive(c, i) || !LeaseLive(c, j)
    {
      OneOwner(c, i, j);
    }
  }

  /**
   In every run, with leases lost at any moment: a flagged node owns the earliest live key or has lost its lease, so
   of any two flagged nodes at least one has lost its lease.
   */
  lemma FlaggedOwnsOrLost(n: nat, moves: seq<Move>)
    requires Runs(n, moves)
    ensures var c := Exec(n, moves);
            && (forall i :: 0 <= i < n && c.nodes[i].isLeader ==> OwnsEarliestKey(c, i) || !LeaseLive(c, i))
            && (forall i, j :: 0 <= i < j < n && c.nodes[i].isLeader && c.nodes[j].isLeader
                  ==> !LeaseLive(c, i) || !LeaseLive(c, j))
  {
    RunKeepsInv(n, moves);
    FlaggedApart(Exec(n, moves));
  }

  /** How far a flagged node has to go until its flag is down. */
  function StepsDown(pc: Pc): nat {
    match pc
    case AtStart => 4
    case AtLeading => 3
    case AtCancelled => 2
    case AtClearFlag => 1
    case _ => 0
  }

  /** The program's own actions, as against those that happen to the node. */
  predicate IsProgram(a: Action) {
    !a.Cancel? && !a.CallbackEnds? && !a.AbandonedEnds?
  }

  predicate Advances(m: Move, i: nat) {
    m.NodeMove? && m.i == i && IsProgram(m.action)
  }

  /** How many actions of its own program a node performs in a list of moves. */
  function Advanced(moves: seq<Move>, i: nat): nat {
    if moves == [] then 0 else
    Advanced(moves[..|moves| - 1], i) + if Advances(moves[|moves| - 1], i) then 1 else 0
  }

  /** Whatever a flagged node's program does next takes it down by one. */
  lemma ActionStepsDown(n: Node, a: Action)
    requires Flagged(n.pc) && Enabled(n, a)
    ensures StepsDown(Apply(n, a).pc) == StepsDown(n.pc) - if IsProgram(a) then 1 else 0
  {
  }

  lemma MoveStepsDown(c: Cluster, m: Move, i: nat)
    requires CanMove(c, m) && i < |c.nodes| && Flagged(c.nodes[i].pc)
    ensures StepsDown(After(c, m).nodes[i].pc) == StepsDown(c.nodes[i].pc) - if Advances(m, i) then 1 else 0
  {
    if m.NodeMove? && m.i == i {
      ActionStepsDown(c.nodes[i], m.action);
    }
  }

  /** The node is flagged in every state of a run, from one of its moves on. */
  ghost predicate StaysFlagged(n: nat, moves: seq<Move>, rest: seq<Move>, i: nat)
    requires i < n && Runs(n, moves)
    decreases |rest|
  {
    if rest == [] then Exec(n, moves).nodes[i].isLeader else
    && StaysFlagged(n, moves, rest[..|rest| - 1], i)
    && Runs(n, moves + rest) && Exec(n, moves + rest).nodes[i].isLeader
  }

  lemma FlagIsPhase(n: nat, moves: seq<Move>, i: nat)
    requires Runs(n, moves) && i < n
    ensures Exec(n, moves).nodes[i].isLeader <==> Flagged(Exec(n, moves).nodes[i].pc)
  {
    RunKeepsInv(n, moves);
    assert NodeInv(Exec(n, moves).nodes[i]);
  }

  lemma {:induction false} FlaggedGoesDown(n: nat, moves: seq<Move>, rest: seq<Move>, i: nat)
    requires i < n && Runs(n, moves) && StaysFlagged(n, moves, rest, i)
    ensures Runs(n, moves + rest)
    ensures StepsDown(Exec(n, moves + rest).nodes[i].pc) + Advanced(rest, i) == StepsDown(Exec(n, moves).nodes[i].pc)
    ensures Exec(n, moves + rest).nodes[i].isLeader
    decreases |rest|
  {
    if rest == [] {
      assert moves + rest == moves;
    } else {
      var front, last := rest[..|rest| - 1], rest[|rest| - 1];
      FlaggedGoesDown(n, moves, front, i);
      assert (moves + rest)[..|moves + rest| - 1] == moves + front;
      FlagIsPhase(n, moves + front, i);
      MoveStepsDown(Exec(n, moves + front), last, i);
    }
  }

  /**
   Demotion is pending: in every run, whatever the other nodes and etcd do, a node stays flagged for fewer than four
   actions of its own program, and with every one of them it comes nearer to lowering the flag.
   */
  lemma DemotionPending(n: nat, moves: seq<Move>, rest: seq<Move>, i: nat)
    requires i < n && Runs(n, moves) && StaysFlagged(n, moves, rest, i)
    ensures Advanced(rest, i) < StepsDown(Exec(n, moves).nodes[i].pc) <= 4
  {
    FlaggedGoesDown(n, moves, rest, i);
    FlagIsPhase(n, moves + rest, i);
  }

  /** And it need not wait for anybody: some action of its own program is always possible. */
  lemma CanStepDown(n: nat, moves: seq<Move>, i: nat) returns (a: Action)
    requires Runs(n, moves) && i < n && Exec(n, moves).nodes[i].isLeader
    ensures IsProgram(a) && CanMove(Exec(n, moves), NodeMove(i, a))
    ensures After(Exec(n, moves), NodeMove(i, a)).keys == Exec(n, moves).keys
  {
    FlagIsPhase(n, moves, i);
    a := match Exec(n, moves).nodes[i].pc
      case AtStart => StartCallback
      case AtLeading => SessionDone
      case AtCancelled => Timeout
      case _ => ClearFlag;
  }

  /** Extending a run by one move. */
  lemma RunsOn(n: nat, moves: seq<Move>, m: Move)
    requires Runs(n, moves) && CanMove(Exec(n, moves), m)
    ensures Runs(n, moves + [m]) && Exec(n, moves + [m]) == After(Exec(n, moves), m)
  {
    assert (moves + [m])[..|moves|] == moves;
  }
}
