/**
 Exactly which faults must be ruled out: for every set that leaves a gap, a run in which one key fires twice at one
 moment, at changes of leader with and without overlap.
 */
module FailoverExact {
  import opened Checker
  import opened Suppression
  import opened Leadership
  import opened Election
  import opened Exclusion
  import opened Failover

  /** Extending a run of the world by one event. */
  lemma Happens(n: nat, cooldowns: map<string, int>, events: seq<Event>, e: Event, key: string, faults: set<Fault>)
    returns (events': seq<Event>)
    requires History(n, cooldowns, events, key, faults)
    requires CanHappen(State(n, cooldowns, events, key, faults), e)
    requires Faultless(State(n, cooldowns, events, key, faults), e, key, faults)
    ensures History(n, cooldowns, events', key, faults)
    ensures State(n, cooldowns, events', key, faults) == Next(State(n, cooldowns, events, key, faults), e)
    ensures events' == events + [e]
  {
    events' := events + [e];
    assert events'[..|events'| - 1] == events && events'[|events'| - 1] == e;
  }

  /** A world seen without its cluster: cluster moves can only send callbacks back to before their load. */
  ghost predicate OnlyClusterMoved(w: World, w': World) {
    && WellFormed(w) && WellFormed(w') && |w.mems| == |w'.mems|
    && w' == w.(cluster := w'.cluster, loaded := w'.loaded, terms := w'.terms)
    && forall i :: 0 <= i < |w.mems| && w'.loaded[i] ==> w.loaded[i]
  }

  lemma StillOnlyCluster(w0: World, w: World, m: Move)
    requires OnlyClusterMoved(w0, w) && CanMove(w.cluster, m)
    ensures OnlyClusterMoved(w0, Next(w, ClusterMove(m)))
  {
  }

  lemma MoveIsFaultless(w: World, m: Move, key: string, faults: set<Fault>)
    requires WellFormed(w) && CanMove(w.cluster, m)
    requires forall lapse :: lapse in LeaderLapses(faults) ==> !IsLapse(w.cluster, m, lapse)
    ensures Faultless(w, ClusterMove(m), key, faults)
  {
    forall fault | fault in faults
      ensures !IsFault(w, ClusterMove(m), key, fault)
    {
      if fault.Leading? {
        assert fault.lapse in LeaderLapses(faults);
      }
    }
  }

  /** Extending a run of the world by one move of the cluster. */
  lemma Moves(n: nat, cooldowns: map<string, int>, events: seq<Event>, m: Move, key: string, faults: set<Fault>)
    returns (events': seq<Event>)
    requires History(n, cooldowns, events, key, faults)
    requires var c := State(n, cooldowns, events, key, faults).cluster;
             CanMove(c, m) && forall lapse :: lapse in LeaderLapses(faults) ==> !IsLapse(c, m, lapse)
    ensures History(n, cooldowns, events', key, faults) && LeaderMoves(events') == LeaderMoves(events) + [m]
    ensures State(n, cooldowns, events', key, faults) == Next(State(n, cooldowns, events, key, faults), ClusterMove(m))
  {
    MoveIsFaultless(State(n, cooldowns, events, key, faults), m, key, faults);
    events' := Happens(n, cooldowns, events, ClusterMove(m), key, faults);
    assert events'[..|events'| - 1] == events;
  }

  /** A run of the world continues another one by moves of the cluster only, up to these moves in all. */
  ghost predicate Lifted(n: nat, cooldowns: map<string, int>, events: seq<Event>, events': seq<Event>,
                         moves: seq<Move>, key: string, faults: set<Fault>)
    requires History(n, cooldowns, events, key, faults)
  {
    && History(n, cooldowns, events', key, faults) && LeaderMoves(events') == moves
    && OnlyClusterMoved(State(n, cooldowns, events, key, faults), State(n, cooldowns, events', key, faults))
  }

  lemma LiftedHere(n: nat, cooldowns: map<string, int>, events: seq<Event>, key: string, faults: set<Fault>)
    requires History(n, cooldowns, events, key, faults)
    ensures Lifted(n, cooldowns, events, events, LeaderMoves(events), key, faults)
  {
  }

  lemma LiftsOn(n: nat, cooldowns: map<string, int>, events: seq<Event>, so: seq<Event>,
                moves: seq<Move>, m: Move, key: string, faults: set<Fault>)
    returns (events': seq<Event>)
    requires History(n, cooldowns, events, key, faults)
    requires RunsAvoiding(n, moves, LeaderLapses(faults)) && CanMove(Exec(n, moves), m)
    requires forall lapse :: lapse in LeaderLapses(faults) ==> !IsLapse(Exec(n, moves), m, lapse)
    requires Lifted(n, cooldowns, events, so, moves, key, faults)
    ensures Lifted(n, cooldowns, events, events', moves + [m], key, faults)
  {
    ClusterRuns(n, cooldowns, so, key, faults);
    StillOnlyCluster(State(n, cooldowns, events, key, faults), State(n, cooldowns, so, key, faults), m);
    events' := Moves(n, cooldowns, so, m, key, faults);
  }

  lemma {:induction false} LiftTo(
    n: nat, cooldowns: map<string, int>, events: seq<Event>, moves: seq<Move>, key: string, faults: set<Fault>)
    returns (events': seq<Event>)
    requires History(n, cooldowns, events, key, faults)
    requires LeaderMoves(events) <= moves && RunsAvoiding(n, moves, LeaderLapses(faults))
    ensures Lifted(n, cooldowns, events, events', moves, key, faults)
    decreases |moves|
  {
    if LeaderMoves(events) == moves {
      events' := events;
      LiftedHere(n, cooldowns, events, key, faults);
    } else {
      var front, last := moves[..|moves| - 1], moves[|moves| - 1];
      LastMove(n, moves, LeaderLapses(faults));
      assert LeaderMoves(events) <= front;
      var so := LiftTo(n, cooldowns, events, front, key, faults);
      events' := LiftsOn(n, cooldowns, events, so, front, last, key, faults);
      assert front + [last] == moves;
    }
  }

  /** A run of the cluster carries a run of the world along. */
  lemma Lift(n: nat, cooldowns: map<string, int>, events: seq<Event>, moves: seq<Move>, key: string, faults: set<Fault>)
    returns (events': seq<Event>)
    requires History(n, cooldowns, events, key, faults)
    requires LeaderMoves(events) <= moves && RunsAvoiding(n, moves, LeaderLapses(faults))
    ensures History(n, cooldowns, events', key, faults) && LeaderMoves(events') == moves
    ensures State(n, cooldowns, events', key, faults).cluster == Exec(n, moves)
    ensures OnlyClusterMoved(State(n, cooldowns, events, key, faults), State(n, cooldowns, events', key, faults))
  {
    events' := LiftTo(n, cooldowns, events, moves, key, faults);
    ClusterRuns(n, cooldowns, events', key, faults);
  }

  lemma LastMove(n: nat, moves: seq<Move>, lapses: set<Lapse>)
    requires RunsAvoiding(n, moves, lapses) && moves != []
    ensures var front, last := moves[..|moves| - 1], moves[|moves| - 1];
            && RunsAvoiding(n, front, lapses) && CanMove(Exec(n, front), last)
            && Exec(n, moves) == After(Exec(n, front), last)
            && forall lapse :: lapse in lapses ==> !IsLapse(Exec(n, front), last, lapse)
  {
  }

  /** A second firing of one key no later than the first. */
  ghost predicate FiredTwice(w: World, key: string) {
    exists i, j :: 0 <= i < j < |w.fires|
      && w.fires[i].key == w.fires[j].key == key && w.fires[j].checkAt == w.fires[i].markAt
  }

  lemma OtherEvent(events: seq<Event>, e: Event)
    requires !e.ClusterMove?
    ensures LeaderMoves(events + [e]) == LeaderMoves(events)
  {
    assert (events + [e])[..|events|] == events;
    assert LeaderMoves(events) + [] == LeaderMoves(events);
  }

  /** A node that may evaluate and whose memory does not hold the rule back fires. */
  lemma FiresAt(
    n: nat, cooldowns: map<string, int>, events: seq<Event>, i: nat, at: int, key: string, faults: set<Fault>)
    returns (events': seq<Event>)
    requires History(n, cooldowns, events, key, faults) && key in cooldowns
    requires var w := State(n, cooldowns, events, key, faults);
             && i < |w.mems| && Evaluating(w, i)
             && w.cooldowns == cooldowns && MayFire(w.mems[i], key, cooldowns[key], at)
             && (StaleFiring in faults ==> w.lastLoader == Some(i))
    ensures History(n, cooldowns, events', key, faults) && LeaderMoves(events') == LeaderMoves(events)
    ensures var w, w' := State(n, cooldowns, events, key, faults), State(n, cooldowns, events', key, faults);
            w' == w.(mems := w.mems[i := AfterAllow(w.mems[i], key, cooldowns[key], at, at)],
                     fires := w.fires + [Fire(i, key, at, at)], pending := w.pending + [Put(KEY_PREFIX + key, at)])
  {
    var e := Evaluate(i, key, at, at, at);
    events' := Happens(n, cooldowns, events, e, key, faults);
    OtherEvent(events, e);
  }

  lemma Reads(n: nat, cooldowns: map<string, int>, events: seq<Event>, i: nat, key: string, faults: set<Fault>)
    returns (events': seq<Event>)
    requires History(n, cooldowns, events, key, faults)
    requires var w := State(n, cooldowns, events, key, faults);
             i < |w.mems| && Loading(w, i) && (UnderWay in faults ==> w.pending == [])
    ensures History(n, cooldowns, events', key, faults) && LeaderMoves(events') == LeaderMoves(events)
    ensures var w, w' := State(n, cooldowns, events, key, faults), State(n, cooldowns, events', key, faults);
            w' == w.(answers := w.answers + [Answer(i, w.terms[i], w.store, |w.fires|)])
  {
    events' := Happens(n, cooldowns, events, ReadStore(i), key, faults);
    OtherEvent(events, ReadStore(i));
  }

  /** The current callback of a node lays over the only answer there is. */
  lemma Overlays(
    n: nat, cooldowns: map<string, int>, events: seq<Event>, kvs: seq<Kv>, key: string, faults: set<Fault>)
    returns (events': seq<Event>)
    requires History(n, cooldowns, events, key, faults)
    requires var w := State(n, cooldowns, events, key, faults);
             && |w.answers| == 1 && Live(w, w.answers[0]) && ResponseOf(kvs, w.answers[0].held)
             && (FiredWhileLoading in faults ==> w.answers[0].seen == |w.fires|)
    ensures History(n, cooldowns, events', key, faults) && LeaderMoves(events') == LeaderMoves(events)
    ensures var w, w' := State(n, cooldowns, events, key, faults), State(n, cooldowns, events', key, faults);
            var i := w.answers[0].node;
            w' == w.(mems := w.mems[i := Loaded(w.mems[i], kvs)], loaded := w.loaded[i := true],
                     lastLoader := Some(i), answers := [])
  {
    var w := State(n, cooldowns, events, key, faults);
    events' := Happens(n, cooldowns, events, Overlay(0, kvs), key, faults);
    OtherEvent(events, Overlay(0, kvs));
    assert Without(w.answers, 0) == [];
  }

  /** Nobody fires between a callback's read and its overlay. */
  lemma Loads(
    n: nat, cooldowns: map<string, int>, events: seq<Event>, i: nat, kvs: seq<Kv>, key: string, faults: set<Fault>)
    returns (events': seq<Event>)
    requires History(n, cooldowns, events, key, faults)
    requires var w := State(n, cooldowns, events, key, faults);
             && i < |w.mems| && Loading(w, i) && w.answers == [] && ResponseOf(kvs, w.store)
             && (UnderWay in faults ==> w.pending == [])
    ensures History(n, cooldowns, events', key, faults) && LeaderMoves(events') == LeaderMoves(events)
    ensures var w, w' := State(n, cooldowns, events, key, faults), State(n, cooldowns, events', key, faults);
            w' == w.(mems := w.mems[i := Loaded(w.mems[i], kvs)], loaded := w.loaded[i := true], lastLoader := Some(i))
  {
    events' := Reads(n, cooldowns, events, i, key, faults);
    events' := Overlays(n, cooldowns, events', kvs, key, faults);
  }

  lemma LoadsNothing(n: nat, cooldowns: map<string, int>, events: seq<Event>, i: nat, key: string, faults: set<Fault>)
    returns (events': seq<Event>)
    requires History(n, cooldowns, events, key, faults)
    requires var w := State(n, cooldowns, events, key, faults);
             && i < |w.mems| && Loading(w, i) && w.answers == [] && w.store == map[]
             && (UnderWay in faults ==> w.pending == [])
    ensures History(n, cooldowns, events', key, faults) && LeaderMoves(events') == LeaderMoves(events)
    ensures var w, w' := State(n, cooldowns, events, key, faults), State(n, cooldowns, events', key, faults);
            w' == w.(loaded := w.loaded[i := true], lastLoader := Some(i))
  {
    var w := State(n, cooldowns, events, key, faults);
    events' := Loads(n, cooldowns, events, i, [], key, faults);
    assert w.mems[i := w.mems[i]] == w.mems;
  }

  /** What two overlapping leaders need: both callbacks running, or abandoned and running on. */
  lemma StartBoth(n: nat, moves: seq<Move>, lapses: set<Lapse>) returns (moves': seq<Move>)
    requires n >= 2 && RunsAvoiding(n, moves, lapses) && BothMayRun(Exec(n, moves))
    ensures RunsAvoiding(n, moves', lapses)
    ensures var c := Exec(n, moves');
            && (c.nodes[0].callback || c.nodes[0].abandoned > 0)
            && (Exec(n, moves).nodes[0].pc == AtStart ==> c.nodes[0].callback)
            && c.nodes[1].callback
  {
    moves' := LocalMove(n, moves, 1, StartCallback, lapses);
    if Exec(n, moves').nodes[0].pc == AtStart {
      moves' := LocalMove(n, moves', 0, StartCallback, lapses);
    }
  }

  /** Both callbacks load, and then both fire; the first to load fires on an outdated memory. */
  lemma OverlapFiresTwice(n: nat, cooldowns: map<string, int>, moves: seq<Move>, key: string, faults: set<Fault>)
    returns (events: seq<Event>)
    requires n >= 2 && RunsAvoiding(n, moves, LeaderLapses(faults)) && BothMayRun(Exec(n, moves))
    requires key in cooldowns && StaleFiring !in faults
    ensures History(n, cooldowns, events, key, faults) && FiredTwice(State(n, cooldowns, events, key, faults), key)
    ensures State(n, cooldowns, events, key, faults).cooldowns == cooldowns
  {
    var both := StartBoth(n, moves, LeaderLapses(faults));
    events := Lift(n, cooldowns, [], both, key, faults);
    if State(n, cooldowns, events, key, faults).cluster.nodes[0].callback {
      events := LoadsNothing(n, cooldowns, events, 0, key, faults);
    }
    events := LoadsNothing(n, cooldowns, events, 1, key, faults);
    events := FiresAt(n, cooldowns, events, 0, 0, key, faults);
    events := FiresAt(n, cooldowns, events, 1, 0, key, faults);
    var fires := State(n, cooldowns, events, key, faults).fires;
    assert fires[0].markAt == fires[1].checkAt;
  }

  /** Node 0 leads and nobody else has begun. */
  ghost predicate LedByFirst(c: Cluster) {
    && |c.nodes| >= 2 && c.nodes[0].pc == AtLeading && c.nodes[0].callback
    && (forall i :: 0 < i < |c.nodes| ==> c.nodes[i] == INIT_NODE)
    && c.leases == {0} && c.keys == map[0 := 0] && c.nextLease == 1 && c.nextRev == 1
  }

  /** Node 0 comes to lead, with nobody else about. */
  lemma FirstMoves(n: nat, lapses: set<Lapse>) returns (moves: seq<Move>)
    requires n >= 2
    ensures RunsAvoiding(n, moves, lapses) && LedByFirst(Exec(n, moves))
  {
    moves := BecomeCandidate(n, [], 0, lapses);
    moves := TakeOffice(n, moves, 0, lapses);
    moves := LocalMove(n, moves, 0, StartCallback, lapses);
  }

  /** Node 0 leads and has loaded. */
  lemma FirstLeader(n: nat, cooldowns: map<string, int>, key: string, faults: set<Fault>) returns (events: seq<Event>)
    requires n >= 2 && key in cooldowns
    ensures History(n, cooldowns, events, key, faults)
    ensures var w := State(n, cooldowns, events, key, faults);
            && w == InitWorld(n, cooldowns).(cluster := w.cluster, loaded := w.loaded, terms := w.terms,
                                             lastLoader := Some(0))
            && LedByFirst(w.cluster) && w.loaded[0] && !w.loaded[1]
  {
    var moves := FirstMoves(n, LeaderLapses(faults));
    events := Lift(n, cooldowns, [], moves, key, faults);
    events := LoadsNothing(n, cooldowns, events, 0, key, faults);
  }

  lemma StepsDownInOrder(n: nat, moves: seq<Move>, lapses: set<Lapse>) returns (moves': seq<Move>)
    requires n >= 1 && RunsAvoiding(n, moves, lapses)
    requires Exec(n, moves).nodes[0].pc == AtLeading && Exec(n, moves).nodes[0].callback
    ensures moves <= moves' && RunsAvoiding(n, moves', lapses)
    ensures var c, c' := Exec(n, moves), Exec(n, moves');
            c' == c.(nodes := c.nodes[0 := c'.nodes[0]]) && c'.nodes[0].pc == AtClearSession
  {
    moves' := LocalMove(n, moves, 0, CallbackEnds, lapses);
    moves' := LocalMove(n, moves', 0, SessionDone, lapses);
    moves' := LocalMove(n, moves', 0, Done, lapses);
    moves' := LocalMove(n, moves', 0, ClearFlag, lapses);
  }

  /** The leader steps down in good order, its lease goes, and node 1 starts its callback. */
  lemma ChangeOfLeader(n: nat, moves: seq<Move>, lapses: set<Lapse>) returns (moves': seq<Move>)
    requires n >= 2 && RunsAvoiding(n, moves, lapses)
    requires LedByFirst(Exec(n, moves))
    ensures moves <= moves' && RunsAvoiding(n, moves', lapses)
    ensures Exec(n, moves').nodes[1].callback
  {
    moves' := StepsDownInOrder(n, moves, lapses);
    moves' := Succeed(n, moves', lapses);
    moves' := LocalMove(n, moves', 1, StartCallback, lapses);
  }

  /** Node 0 hands over to node 1, whose callback has not loaded yet. */
  lemma HandsOver(n: nat, cooldowns: map<string, int>, events: seq<Event>, key: string, faults: set<Fault>)
    returns (events': seq<Event>)
    requires History(n, cooldowns, events, key, faults)
    requires n >= 2 && LedByFirst(State(n, cooldowns, events, key, faults).cluster)
    requires !State(n, cooldowns, events, key, faults).loaded[1]
    ensures History(n, cooldowns, events', key, faults)
    ensures var w, w' := State(n, cooldowns, events, key, faults), State(n, cooldowns, events', key, faults);
            OnlyClusterMoved(w, w') && w'.cluster.nodes[1].callback && !w'.loaded[1]
  {
    ClusterRuns(n, cooldowns, events, key, faults);
    var moves := ChangeOfLeader(n, LeaderMoves(events), LeaderLapses(faults));
    events' := Lift(n, cooldowns, events, moves, key, faults);
  }

  /** Node 0 has fired at 0 and handed over; the write of the firing is on its way. */
  lemma FiresAndHandsOver(n: nat, cooldowns: map<string, int>, key: string, faults: set<Fault>)
    returns (events: seq<Event>)
    requires n >= 2 && key in cooldowns
    ensures History(n, cooldowns, events, key, faults)
    ensures var w := State(n, cooldowns, events, key, faults);
            && w.cooldowns == cooldowns && w.answers == [] && w.store == map[] && |w.mems| == n
            && w.fires == [Fire(0, key, 0, 0)] && w.pending == [Put(KEY_PREFIX + key, 0)]
            && w.cluster.nodes[1].callback && !w.loaded[1] && w.mems[1] == map[]
  {
    events := FirstLeader(n, cooldowns, key, faults);
    events := FiresAt(n, cooldowns, events, 0, 0, key, faults);
    events := HandsOver(n, cooldowns, events, key, faults);
  }

  /** An orderly change of leader at which the write is lost, or still under way, or the load fails. */
  lemma HandoverFiresTwice(n: nat, cooldowns: map<string, int>, key: string, faults: set<Fault>, fault: Fault)
    returns (events: seq<Event>)
    requires n >= 2 && key in cooldowns
    requires fault !in faults && fault in {LostPut, UnderWay, FailedLoad}
    requires fault == FailedLoad ==> StaleFiring !in faults
    ensures History(n, cooldowns, events, key, faults) && FiredTwice(State(n, cooldowns, events, key, faults), key)
    ensures State(n, cooldowns, events, key, faults).cooldowns == cooldowns
  {
    events := FiresAndHandsOver(n, cooldowns, key, faults);
    if fault == FailedLoad {
      events := Happens(n, cooldowns, events, LoadFails(1), key, faults);
    } else {
      if fault == LostPut {
        events := Happens(n, cooldowns, events, PutLost(0), key, faults);
      }
      events := LoadsNothing(n, cooldowns, events, 1, key, faults);
    }
    events := FiresAt(n, cooldowns, events, 1, 0, key, faults);
    var fires := State(n, cooldowns, events, key, faults).fires;
    assert fires[0].markAt == fires[1].checkAt;
  }

  /** Node 0 fires at 0 and at the end of the cooldown. */
  lemma FiresAgain(n: nat, cooldowns: map<string, int>, key: string, faults: set<Fault>) returns (events: seq<Event>)
    requires n >= 2 && key in cooldowns && cooldowns[key] > 0
    ensures History(n, cooldowns, events, key, faults)
    ensures var w, entry := State(n, cooldowns, events, key, faults), KEY_PREFIX + key;
            && w.cooldowns == cooldowns && w.answers == [] && w.store == map[] && |w.mems| == n
            && w.fires == [Fire(0, key, 0, 0), Fire(0, key, cooldowns[key], cooldowns[key])]
            && w.pending == [Put(entry, 0), Put(entry, cooldowns[key])]
            && LedByFirst(w.cluster) && !w.loaded[1] && w.mems[1] == map[]
  {
    events := FirstLeader(n, cooldowns, key, faults);
    events := FiresAt(n, cooldowns, events, 0, 0, key, faults);
    events := FiresAt(n, cooldowns, events, 0, cooldowns[key], key, faults);
  }

  /** The second write overtakes the first, so that the store ends up with the older time. */
  lemma Overtakes(n: nat, cooldowns: map<string, int>, key: string, faults: set<Fault>) returns (events: seq<Event>)
    requires n >= 2 && key in cooldowns && cooldowns[key] > 0 && OutOfOrder !in faults
    ensures History(n, cooldowns, events, key, faults)
    ensures var w := State(n, cooldowns, events, key, faults);
            && w.cooldowns == cooldowns && w.answers == [] && w.store == map[KEY_PREFIX + key := 0]
            && w.fires == [Fire(0, key, 0, 0), Fire(0, key, cooldowns[key], cooldowns[key])]
            && w.pending == [] && |w.mems| == n
            && LedByFirst(w.cluster) && !w.loaded[1] && w.mems[1] == map[]
  {
    events := FiresAgain(n, cooldowns, key, faults);
    events := Happens(n, cooldowns, events, PutArrives(1), key, faults);
    assert State(n, cooldowns, events, key, faults).pending == [Put(KEY_PREFIX + key, 0)];
    events := Happens(n, cooldowns, events, PutArrives(0), key, faults);
    assert State(n, cooldowns, events, key, faults).pending == [];
  }

  lemma OneEntry(key: string, value: int)
    ensures var kvs := [Kv(KEY_PREFIX + key, Some(value))];
            ResponseOf(kvs, map[KEY_PREFIX + key := value]) && Loaded(map[], kvs) == map[key := value]
  {
    var kvs := [Kv(KEY_PREFIX + key, Some(value))];
    assert kvs[0].key[|KEY_PREFIX|..] == key;
    assert kvs[..0] == [];
  }

  /** An orderly change of leader after which the new leader loads the older time. */
  lemma ReorderedFiresTwice(n: nat, cooldowns: map<string, int>, key: string, faults: set<Fault>)
    returns (events: seq<Event>)
    requires n >= 2 && key in cooldowns && cooldowns[key] > 0 && OutOfOrder !in faults
    ensures History(n, cooldowns, events, key, faults) && FiredTwice(State(n, cooldowns, events, key, faults), key)
    ensures State(n, cooldowns, events, key, faults).cooldowns == cooldowns
  {
    events := Overtakes(n, cooldowns, key, faults);
    events := HandsOver(n, cooldowns, events, key, faults);
    OneEntry(key, 0);
    events := Loads(n, cooldowns, events, 1, [Kv(KEY_PREFIX + key, Some(0))], key, faults);
    events := FiresAt(n, cooldowns, events, 1, cooldowns[key], key, faults);
    var fires := State(n, cooldowns, events, key, faults).fires;
    assert fires[1].markAt == fires[2].checkAt;
  }

  /** The lease of node 0 expires while it leads, and node 1 takes over beside it. */
  lemma TakesOver(n: nat, moves: seq<Move>) returns (moves': seq<Move>)
    requires n >= 2 && RunsAvoiding(n, moves, {}) && LedByFirst(Exec(n, moves)) && Exec(n, moves).nodes[0].isLeader
    ensures moves <= moves' && RunsAvoiding(n, moves', {})
    ensures Exec(n, moves').nodes[0] == Exec(n, moves).nodes[0]
    ensures Exec(n, moves').nodes[1].callback && Exec(n, moves').nodes[1].isLeader
  {
    moves' := BecomeCandidate(n, moves, 1, {});
    moves' := Extend(n, moves', LoseLease(0), {});
    moves' := TakeOffice(n, moves', 1, {});
    moves' := LocalMove(n, moves', 1, StartCallback, {});
  }

  /** Node 0 leads and fires, and its write arrives. */
  lemma FiresAndStores(n: nat, cooldowns: map<string, int>, key: string) returns (events: seq<Event>)
    requires n >= 2 && key in cooldowns
    ensures History(n, cooldowns, events, key, KEY_FAULTS)
    ensures var w := State(n, cooldowns, events, key, KEY_FAULTS);
            && w.cooldowns == cooldowns && w.answers == [] && |w.mems| == n && w.mems[1] == map[] && !w.loaded[1]
            && w.store == map[KEY_PREFIX + key := 0] && w.pending == [] && w.fires == [Fire(0, key, 0, 0)]
            && LedByFirst(w.cluster) && w.cluster.nodes[0].isLeader
  {
    events := FirstLeader(n, cooldowns, key, KEY_FAULTS);
    events := FiresAt(n, cooldowns, events, 0, 0, key, KEY_FAULTS);
    events := Happens(n, cooldowns, events, PutArrives(0), key, KEY_FAULTS);
    ClusterRuns(n, cooldowns, events, key, KEY_FAULTS);
    FlagIsPhase(n, LeaderMoves(events), 0);
  }

  /** The lease of node 0 expires, and node 1's callback starts. */
  lemma TakesOverUnloaded(n: nat, cooldowns: map<string, int>, key: string) returns (events: seq<Event>)
    requires n >= 2 && key in cooldowns
    ensures History(n, cooldowns, events, key, KEY_FAULTS)
    ensures var w := State(n, cooldowns, events, key, KEY_FAULTS);
            && w.cooldowns == cooldowns && w.answers == [] && |w.mems| == n && w.mems[1] == map[] && !w.loaded[1]
            && w.store == map[KEY_PREFIX + key := 0] && w.pending == [] && w.fires == [Fire(0, key, 0, 0)]
            && w.cluster.nodes[0].isLeader && w.cluster.nodes[0].callback
            && w.cluster.nodes[1].isLeader && w.cluster.nodes[1].callback
  {
    events := FiresAndStores(n, cooldowns, key);
    ClusterRuns(n, cooldowns, events, key, KEY_FAULTS);
    assert LeaderLapses(KEY_FAULTS) == {};
    var moves := TakesOver(n, LeaderMoves(events));
    events := Lift(n, cooldowns, events, moves, key, KEY_FAULTS);
  }

  /**
   A leader that loses its lease in charge is no fault: there is a run in which it fires, its write arrives, its lease
   expires while it goes on believing that it leads, and its successor loads and fires one cooldown later.
   */
  lemma ExpiryIsCovered(n: nat, cooldowns: map<string, int>, key: string) returns (events: seq<Event>)
    requires n >= 2 && key in cooldowns && cooldowns[key] > 0
    ensures History(n, cooldowns, events, key, KEY_FAULTS)
    ensures var w := State(n, cooldowns, events, key, KEY_FAULTS);
            && |w.mems| == n && w.cluster.nodes[0].isLeader && w.cluster.nodes[0].callback
            && w.cluster.nodes[1].isLeader
            && w.fires == [Fire(0, key, 0, 0), Fire(1, key, cooldowns[key], cooldowns[key])]
  {
    events := TakesOverUnloaded(n, cooldowns, key);
    OneEntry(key, 0);
    events := Loads(n, cooldowns, events, 1, [Kv(KEY_PREFIX + key, Some(0))], key, KEY_FAULTS);
    events := FiresAt(n, cooldowns, events, 1, cooldowns[key], key, KEY_FAULTS);
  }

  lemma LeadingFiresTwice(n: nat, cooldowns: map<string, int>, key: string, faults: set<Fault>, lapse: Lapse)
    returns (events: seq<Event>)
    requires n >= 2 && key in cooldowns
    requires Leading(lapse) !in faults && StaleFiring !in faults
    ensures History(n, cooldowns, events, key, faults) && FiredTwice(State(n, cooldowns, events, key, faults), key)
    ensures State(n, cooldowns, events, key, faults).cooldowns == cooldowns
  {
    var moves;
    match lapse {
      case LostInCharge => moves := ExpiryInCharge(n);
      case AbandonedAlive => moves := CallbackOutlivesTimeout(n);
      case WonWithoutKey => moves := ExpiryWhileCampaigning(n);
    }
    OnlyThree(LeaderLapses(faults));
    assert lapse !in LeaderLapses(faults);
    AvoidingFewer(n, moves, ALL_LAPSES - {lapse}, LeaderLapses(faults));
    events := OverlapFiresTwice(n, cooldowns, moves, key, faults);
  }

  /** Node 0 may evaluate and was the last to load, node 1 has not loaded, and nothing has been fired yet. */
  ghost predicate OneLoaded(w: World) {
    && WellFormed(w) && |w.mems| >= 2 && w.lastLoader == Some(0)
    && Evaluating(w, 0) && Loading(w, 1) && w.mems[0] == w.mems[1] == map[]
    && w.answers == [] && w.store == map[] && w.pending == [] && w.fires == []
  }

  /** Node 1 reads, and node 0 fires. */
  lemma FiresAfterRead(n: nat, cooldowns: map<string, int>, events: seq<Event>, key: string, faults: set<Fault>)
    returns (events': seq<Event>)
    requires History(n, cooldowns, events, key, faults) && key in cooldowns
    requires OneLoaded(State(n, cooldowns, events, key, faults))
    requires State(n, cooldowns, events, key, faults).cooldowns == cooldowns
    ensures History(n, cooldowns, events', key, faults)
    ensures var w, w' := State(n, cooldowns, events, key, faults), State(n, cooldowns, events', key, faults);
            w' == w.(mems := w'.mems, answers := [Answer(1, w.terms[1], map[], 0)],
                     fires := [Fire(0, key, 0, 0)], pending := [Put(KEY_PREFIX + key, 0)])
            && w'.mems[1] == map[]
  {
    events' := Reads(n, cooldowns, events, 1, key, faults);
    events' := FiresAt(n, cooldowns, events', 0, 0, key, faults);
  }

  /** The write arrives, and node 1 lays over what it has read. */
  lemma OverlaysOutdated(n: nat, cooldowns: map<string, int>, events: seq<Event>, key: string, faults: set<Fault>)
    returns (events': seq<Event>)
    requires History(n, cooldowns, events, key, faults) && FiredWhileLoading !in faults
    requires var w := State(n, cooldowns, events, key, faults);
             && |w.answers| == 1 && Live(w, w.answers[0]) && w.answers[0].node == 1 && w.answers[0].held == map[]
             && |w.pending| == 1 && w.mems[1] == map[]
    ensures History(n, cooldowns, events', key, faults)
    ensures var w, w' := State(n, cooldowns, events, key, faults), State(n, cooldowns, events', key, faults);
            w' == w.(store := w'.store, pending := [], answers := [], lastLoader := Some(1),
                     loaded := w.loaded[1 := true])
  {
    var w := State(n, cooldowns, events, key, faults);
    events' := Happens(n, cooldowns, events, PutArrives(0), key, faults);
    assert Without(w.pending, 0) == [];
    events' := Overlays(n, cooldowns, events', [], key, faults);
    assert w.mems[1 := w.mems[1]] == w.mems;
  }

  /** Node 1 reads, node 0 fires and its write arrives, node 1 lays over what it has read, and fires again. */
  lemma FiresDuringLoad(n: nat, cooldowns: map<string, int>, events: seq<Event>, key: string, faults: set<Fault>)
    returns (events': seq<Event>)
    requires History(n, cooldowns, events, key, faults) && key in cooldowns && FiredWhileLoading !in faults
    requires OneLoaded(State(n, cooldowns, events, key, faults))
    requires State(n, cooldowns, events, key, faults).cooldowns == cooldowns
    ensures History(n, cooldowns, events', key, faults) && FiredTwice(State(n, cooldowns, events', key, faults), key)
    ensures State(n, cooldowns, events', key, faults).cooldowns == cooldowns
  {
    events' := FiresAfterRead(n, cooldowns, events, key, faults);
    events' := OverlaysOutdated(n, cooldowns, events', key, faults);
    events' := FiresAt(n, cooldowns, events', 1, 0, key, faults);
    var fires := State(n, cooldowns, events', key, faults).fires;
    assert fires[0].markAt == fires[1].checkAt;
  }

  /** Two leaders of which one has loaded. */
  lemma OverlapDuringLoad(n: nat, cooldowns: map<string, int>, moves: seq<Move>, key: string, faults: set<Fault>)
    returns (events: seq<Event>)
    requires n >= 2 && RunsAvoiding(n, moves, LeaderLapses(faults)) && BothMayRun(Exec(n, moves))
    requires Exec(n, moves).nodes[0].pc == AtStart && key in cooldowns && FiredWhileLoading !in faults
    ensures History(n, cooldowns, events, key, faults) && FiredTwice(State(n, cooldowns, events, key, faults), key)
    ensures State(n, cooldowns, events, key, faults).cooldowns == cooldowns
  {
    var both := StartBoth(n, moves, LeaderLapses(faults));
    events := Lift(n, cooldowns, [], both, key, faults);
    events := LoadsNothing(n, cooldowns, events, 0, key, faults);
    events := FiresDuringLoad(n, cooldowns, events, key, faults);
  }

  /** The leader gives up waiting for its callback and lowers its flag. */
  lemma StepsAside(n: nat, moves: seq<Move>, lapses: set<Lapse>) returns (moves': seq<Move>)
    requires n >= 1 && RunsAvoiding(n, moves, lapses) && AbandonedAlive !in lapses
    requires Exec(n, moves).nodes[0].pc == AtLeading && Exec(n, moves).nodes[0].callback
    ensures moves <= moves' && RunsAvoiding(n, moves', lapses)
    ensures var c, c' := Exec(n, moves), Exec(n, moves');
            && c' == c.(nodes := c.nodes[0 := c'.nodes[0]])
            && c'.nodes[0].pc == AtClearSession && c'.nodes[0].abandoned > 0
  {
    moves' := LocalMove(n, moves, 0, SessionDone, lapses);
    moves' := LocalMove(n, moves', 0, Timeout, lapses);
    moves' := LocalMove(n, moves', 0, ClearFlag, lapses);
  }

  /** Its lease goes, and node 1 starts its callback. */
  lemma ChangeBesideCallback(n: nat, moves: seq<Move>, lapses: set<Lapse>) returns (moves': seq<Move>)
    requires n >= 2 && RunsAvoiding(n, moves, lapses) && AbandonedAlive !in lapses
    requires LedByFirst(Exec(n, moves))
    ensures moves <= moves' && RunsAvoiding(n, moves', lapses)
    ensures Exec(n, moves').nodes[0].abandoned > 0 && Exec(n, moves').nodes[1].callback
  {
    moves' := StepsAside(n, moves, lapses);
    moves' := Succeed(n, moves', lapses);
    moves' := LocalMove(n, moves', 1, StartCallback, lapses);
  }

  /** A new leader beside a callback that has loaded and was abandoned. */
  lemma AbandonedDuringLoad(n: nat, cooldowns: map<string, int>, key: string, faults: set<Fault>)
    returns (events: seq<Event>)
    requires n >= 2 && key in cooldowns && FiredWhileLoading !in faults && Leading(AbandonedAlive) !in faults
    ensures History(n, cooldowns, events, key, faults) && FiredTwice(State(n, cooldowns, events, key, faults), key)
    ensures State(n, cooldowns, events, key, faults).cooldowns == cooldowns
  {
    events := FirstLeader(n, cooldowns, key, faults);
    ClusterRuns(n, cooldowns, events, key, faults);
    var moves := ChangeBesideCallback(n, LeaderMoves(events), LeaderLapses(faults));
    events := Lift(n, cooldowns, events, moves, key, faults);
    events := FiresDuringLoad(n, cooldowns, events, key, faults);
  }

  /** With any of the three lapses, a firing between a read and its overlay is enough. */
  lemma LoadingFiresTwice(n: nat, cooldowns: map<string, int>, key: string, faults: set<Fault>, lapse: Lapse)
    returns (events: seq<Event>)
    requires n >= 2 && key in cooldowns
    requires Leading(lapse) !in faults && FiredWhileLoading !in faults
    ensures History(n, cooldowns, events, key, faults) && FiredTwice(State(n, cooldowns, events, key, faults), key)
    ensures State(n, cooldowns, events, key, faults).cooldowns == cooldowns
  {
    if lapse == AbandonedAlive {
      events := AbandonedDuringLoad(n, cooldowns, key, faults);
    } else {
      var moves;
      if lapse == LostInCharge {
        moves := ExpiryInCharge(n);
      } else {
        moves := ExpiryWhileCampaigning(n);
      }
      OnlyThree(LeaderLapses(faults));
      assert lapse !in LeaderLapses(faults);
      AvoidingFewer(n, moves, ALL_LAPSES - {lapse}, LeaderLapses(faults));
      events := OverlapDuringLoad(n, cooldowns, moves, key, faults);
    }
  }

  /** Whatever set leaves open is enough to fire twice at one moment. */
  lemma GapFiresTwice(n: nat, cooldowns: map<string, int>, key: string, faults: set<Fault>) returns (events: seq<Event>)
    requires n >= 2 && key in cooldowns && cooldowns[key] > 0 && !Suffices(faults)
    ensures History(n, cooldowns, events, key, faults) && FiredTwice(State(n, cooldowns, events, key, faults), key)
    ensures State(n, cooldowns, events, key, faults).cooldowns == cooldowns
  {
    if LostPut !in faults {
      events := HandoverFiresTwice(n, cooldowns, key, faults, LostPut);
    } else if UnderWay !in faults {
      events := HandoverFiresTwice(n, cooldowns, key, faults, UnderWay);
    } else if OutOfOrder !in faults {
      events := ReorderedFiresTwice(n, cooldowns, key, faults);
    } else if StaleFiring !in faults && FailedLoad !in faults {
      events := HandoverFiresTwice(n, cooldowns, key, faults, FailedLoad);
    } else {
      var fault :| fault in LEADING && fault !in faults;
      if StaleFiring !in faults {
        events := LeadingFiresTwice(n, cooldowns, key, faults, fault.lapse);
      } else {
        events := LoadingFiresTwice(n, cooldowns, key, faults, fault.lapse);
      }
    }
  }

  /**
   Ruling out a set of faults keeps the firings of a key at least its cooldown apart in every run of the world, with
   leases lost at any moment, exactly when the set suffices.
   */
  lemma FailoverIsExact(n: nat, cooldowns: map<string, int>, key: string, faults: set<Fault>)
    requires n >= 2 && key in cooldowns && cooldowns[key] > 0
    ensures (forall events :: History(n, cooldowns, events, key, faults) ==>
               && State(n, cooldowns, events, key, faults).cooldowns == cooldowns
               && Spaced(State(n, cooldowns, events, key, faults), key))
      <==> Suffices(faults)
  {
    if Suffices(faults) {
      forall events | History(n, cooldowns, events, key, faults)
        ensures State(n, cooldowns, events, key, faults).cooldowns == cooldowns
        ensures Spaced(State(n, cooldowns, events, key, faults), key)
      {
        CooldownSurvives(n, cooldowns, events, key, faults);
      }
    } else {
      var events := GapFiresTwice(n, cooldowns, key, faults);
      assert !Spaced(State(n, cooldowns, events, key, faults), key);
    }
  }
}
