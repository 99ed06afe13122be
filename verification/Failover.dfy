/**
 The cooldown across a change of leader. The cluster's nodes run the leader program; a callback first reads the stored
 cooldowns, lays what it has read over its memory, and then evaluates rules; every firing starts a background write that
 arrives late, in any order, or not at all. Leases expire at any moment, leaders stop, run on or come back. The cooldown
 survives as long as writes arrive, in order and before the next read, nobody fires who is not the last to have loaded,
 and nobody lays over a response that a firing has outdated.
 */
module Failover {
  import opened Checker
  import opened Suppression
  import opened Leadership
  import opened Election
  import opened Exclusion

  datatype Fire = Fire(node: nat, key: string, checkAt: int, markAt: int)

  /** A response not yet laid over memory: which callback of which node it is for, and how many firings preceded it. */
  datatype Answer = Answer(node: nat, term: nat, held: map<string, int>, seen: nat)

  datatype World = World(
    cluster: Cluster,
    cooldowns: map<string, int>,     // the configured cooldown behind every suppressor key
    mems: seq<map<string, int>>,     // each node's suppressor
    terms: seq<nat>,                 // how many callbacks the node has started
    loaded: seq<bool>,               // has the node's current callback passed its load?
    answers: seq<Answer>,                // received and not yet laid over
    lastLoader: Option<nat>,         // who was the last to lay over a response?
    store: map<string, int>,         // what etcd holds
    pending: seq<Put>,               // started and not yet arrived, in the order started
    fires: seq<Fire>)

  datatype Event =
    | ClusterMove(move: Move)
    | ReadStore(i: nat)              // etcd answers
    | Overlay(k: nat, kvs: seq<Kv>)  // the answer, in some order, is laid over memory under the lock
    | LoadFails(i: nat)
    | Evaluate(i: nat, key: string, checkAt: int, markAt: int, stampAt: int)  // a rule has hit
    | PutArrives(k: nat)
    | PutLost(k: nat)

  function InitWorld(n: nat, cooldowns: map<string, int>): World {
    World(Election.Init(n), cooldowns, seq(n, _ => map[]), seq(n, _ => 0), seq(n, _ => false), [], None, map[], [], [])
  }

  predicate WellFormed(w: World) {
    |w.mems| == |w.terms| == |w.loaded| == |w.cluster.nodes|
  }

  ghost predicate CanHappen(w: World, e: Event)
    requires WellFormed(w)
  {
    match e
    case ClusterMove(m) => CanMove(w.cluster, m)
    case ReadStore(i) => i < |w.mems| && Loading(w, i)
    case Overlay(k, kvs) => k < |w.answers| && MayOverlay(w, w.answers[k]) && ResponseOf(kvs, w.answers[k].held)
    case LoadFails(i) => i < |w.mems| && Loading(w, i)
    case Evaluate(i, key, checkAt, markAt, stampAt) =>
      i < |w.mems| && Evaluating(w, i) && key in w.cooldowns && checkAt <= markAt <= stampAt
    case PutArrives(k) => k < |w.pending|
    case PutLost(k) => k < |w.pending|
  }

  predicate StartsCallback(m: Move) {
    m.NodeMove? && m.action == StartCallback
  }

  /** The response is for the node's current callback. */
  predicate Live(w: World, r: Answer)
    requires WellFormed(w)
  {
    r.node < |w.mems| && w.cluster.nodes[r.node].callback && r.term == w.terms[r.node]
  }

  /** The current callback asks once; an abandoned one's context has ended, so that it asks no more. */
  predicate Loading(w: World, i: nat)
    requires WellFormed(w) && i < |w.mems|
  {
    w.cluster.nodes[i].callback && !w.loaded[i] && forall r :: r in w.answers && r.node == i ==> !Live(w, r)
  }

  /** An abandoned callback may have received its response before it was abandoned. */
  predicate MayOverlay(w: World, r: Answer)
    requires WellFormed(w)
  {
    r.node < |w.mems| && (Live(w, r) || w.cluster.nodes[r.node].abandoned > 0)
  }

  /** An abandoned callback may have passed its load before it was abandoned, or run on after its load failed. */
  predicate Evaluating(w: World, i: nat)
    requires WellFormed(w) && i < |w.mems|
  {
    (w.cluster.nodes[i].callback && w.loaded[i]) || w.cluster.nodes[i].abandoned > 0
  }

  /** The rule that has hit is not suppressed. */
  predicate Fires(w: World, e: Event)
    requires e.Evaluate? && e.i < |w.mems| && e.key in w.cooldowns
  {
    MayFire(w.mems[e.i], e.key, w.cooldowns[e.key], e.checkAt)
  }

  function Without<T>(s: seq<T>, k: nat): seq<T>
    requires k < |s|
  {
    s[..k] + s[k + 1..]
  }

  ghost function Next(w: World, e: Event): (w': World)
    requires WellFormed(w) && CanHappen(w, e)
    ensures WellFormed(w')
  {
    match e
    case ClusterMove(m) =>
      var w' := w.(cluster := After(w.cluster, m));
      if StartsCallback(m)
      then w'.(terms := w.terms[m.i := w.terms[m.i] + 1], loaded := w.loaded[m.i := false])
      else w'
    case ReadStore(i) => w.(answers := w.answers + [Answer(i, w.terms[i], w.store, |w.fires|)])
    case Overlay(k, kvs) =>
      var r := w.answers[k];
      w.(mems := w.mems[r.node := Loaded(w.mems[r.node], kvs)], answers := Without(w.answers, k),
         lastLoader := Some(r.node), loaded := if Live(w, r) then w.loaded[r.node := true] else w.loaded)
    case LoadFails(i) => w.(loaded := w.loaded[i := true])
    case Evaluate(i, key, checkAt, markAt, stampAt) =>
      var w' := w.(mems := w.mems[i := AfterAllow(w.mems[i], key, w.cooldowns[key], checkAt, markAt)]);
      if Fires(w, e)
      then w'.(fires := w.fires + [Fire(i, key, checkAt, markAt)],
               pending := w.pending + [Put(KEY_PREFIX + key, stampAt)])
      else w'
    case PutArrives(k) =>
      w.(store := w.store[w.pending[k].key := w.pending[k].value], pending := Without(w.pending, k))
    case PutLost(k) => w.(pending := Without(w.pending, k))
  }

  // ----- faults, for one key -----

  datatype Fault =
    | LostPut | OutOfOrder | UnderWay  // of writes and reads
    | StaleFiring | FiredWhileLoading  // of firing on an outdated memory, and of making it so
    | FailedLoad | Leading(lapse: Lapse)

  /** What writes and reads must avoid. */
  const WRITE_FAULTS: set<Fault> := {LostPut, OutOfOrder, UnderWay}

  /** What makes it possible that a key is fired during a load, and with a failed load, on an outdated memory. */
  const LEADING: set<Fault> := {Leading(LostInCharge), Leading(AbandonedAlive), Leading(WonWithoutKey)}

  const KEY_FAULTS: set<Fault> := WRITE_FAULTS + {StaleFiring, FiredWhileLoading}

  predicate IsPending(pending: seq<Put>, key: string) {
    exists j :: 0 <= j < |pending| && pending[j].key == KEY_PREFIX + key
  }

  predicate Unfired(fires: seq<Fire>, seen: nat, key: string) {
    forall j :: seen <= j < |fires| ==> fires[j].key != key
  }

  /**
   A write is lost, overtakes an earlier one, or is under way at a read; somebody fires who was not the last to load;
   or a response is laid over although the key has been fired since it was read.
   */
  ghost predicate IsFault(w: World, e: Event, key: string, fault: Fault)
    requires WellFormed(w) && CanHappen(w, e)
  {
    match fault
    case LostPut => e.PutLost? && w.pending[e.k].key == KEY_PREFIX + key
    case OutOfOrder => e.PutArrives? && w.pending[e.k].key == KEY_PREFIX + key && IsPending(w.pending[..e.k], key)
    case UnderWay => e.ReadStore? && IsPending(w.pending, key)
    case StaleFiring => e.Evaluate? && e.key == key && Fires(w, e) && w.lastLoader != Some(e.i)
    case FiredWhileLoading => e.Overlay? && !Unfired(w.fires, w.answers[e.k].seen, key)
    case FailedLoad => e.LoadFails?
    case Leading(lapse) => e.ClusterMove? && IsLapse(w.cluster, e.move, lapse)
  }

  ghost predicate Faultless(w: World, e: Event, key: string, faults: set<Fault>)
    requires WellFormed(w) && CanHappen(w, e)
  {
    forall fault :: fault in faults ==> !IsFault(w, e, key, fault)
  }

  /** A run of the world in which none of these faults happens to this key. */
  ghost predicate History(n: nat, cooldowns: map<string, int>, events: seq<Event>, key: string, faults: set<Fault>)
    decreases |events|, 0
  {
    events == [] ||
    (var front, last := events[..|events| - 1], events[|events| - 1];
     && History(n, cooldowns, front, key, faults)
     && CanHappen(State(n, cooldowns, front, key, faults), last)
     && Faultless(State(n, cooldowns, front, key, faults), last, key, faults))
  }

  ghost function State(n: nat, cooldowns: map<string, int>, events: seq<Event>, key: string, faults: set<Fault>)
    : (w: World)
    requires History(n, cooldowns, events, key, faults)
    ensures WellFormed(w)
    decreases |events|, 1
  {
    if events == [] then InitWorld(n, cooldowns)
    else Next(State(n, cooldowns, events[..|events| - 1], key, faults), events[|events| - 1])
  }

  /** All firings of this key, whichever nodes fired, are at least the cooldown apart. */
  ghost predicate Spaced(w: World, key: string)
    requires key in w.cooldowns
  {
    forall i, j :: 0 <= i < j < |w.fires| && w.fires[i].key == w.fires[j].key == key
      ==> w.fires[j].checkAt - w.fires[i].markAt >= w.cooldowns[key]
  }

  // ----- the invariant of a run without faults -----

  ghost predicate Covers(fires: seq<Fire>, key: string, at: int) {
    forall f :: f in fires && f.key == key ==> f.markAt <= at
  }

  /** The value of the last started write for a key that is still on its way. */
  function LastPending(pending: seq<Put>, key: string): Option<int> {
    if pending == [] then None else
    var last := pending[|pending| - 1];
    if last.key == KEY_PREFIX + key then Some(last.value) else LastPending(pending[..|pending| - 1], key)
  }

  /** The newest firing is covered by the newest write on its way, or else by the store. */
  ghost predicate Certified(w: World, key: string) {
    match LastPending(w.pending, key)
    case Some(at) => Covers(w.fires, key, at)
    case None => Covered(w.store, KEY_PREFIX + key, w.fires, key)
  }

  ghost predicate Covered(m: map<string, int>, entry: string, fires: seq<Fire>, key: string) {
    (exists f :: f in fires && f.key == key) ==> entry in m && Covers(fires, key, m[entry])
  }

  /** Whoever loaded last knows of every firing. */
  ghost predicate Informed(w: World, key: string)
    requires WellFormed(w)
  {
    w.lastLoader.Some? ==>
      w.lastLoader.value < |w.mems| && Covered(w.mems[w.lastLoader.value], key, w.fires, key)
  }

  /** A response that no firing has outdated covers every firing. */
  ghost predicate AnswersCover(w: World, key: string) {
    forall r :: r in w.answers ==>
      r.seen <= |w.fires| && (Unfired(w.fires, r.seen, key) ==> Covered(r.held, KEY_PREFIX + key, w.fires, key))
  }

  ghost predicate Good(w: World, key: string) {
    && WellFormed(w)
    && key in w.cooldowns && w.cooldowns[key] > 0
    && Certified(w, key)
    && Informed(w, key)
    && AnswersCover(w, key)
    && Spaced(w, key)
  }

  lemma {:induction false} NoPending(pending: seq<Put>, key: string)
    ensures LastPending(pending, key).None? <==> !IsPending(pending, key)
  {
    if pending != [] {
      var front := pending[..|pending| - 1];
      NoPending(front, key);
      if IsPending(front, key) {
        var j :| 0 <= j < |front| && front[j].key == KEY_PREFIX + key;
        assert pending[j].key == KEY_PREFIX + key;
      }
    }
  }

  /** Taking out another key's write changes nothing; taking out this key's first leaves the last, if there are more. */
  lemma {:induction false} TakeOut(pending: seq<Put>, k: nat, key: string)
    requires k < |pending|
    ensures pending[k].key != KEY_PREFIX + key ==> LastPending(Without(pending, k), key) == LastPending(pending, key)
    ensures pending[k].key == KEY_PREFIX + key && !IsPending(pending[..k], key)
      ==> LastPending(Without(pending, k), key) == LastPending(pending, key)
          || (LastPending(Without(pending, k), key) == None && LastPending(pending, key) == Some(pending[k].value))
  {
    var n := |pending| - 1;
    var front, last := pending[..n], pending[n];
    assert pending == front + [last];
    LastPendingSnoc(front, last, key);
    if k == n {
      assert Without(pending, k) == front;
      NoPending(front, key);
    } else {
      TakeOut(front, k, key);
      assert front[..k] == pending[..k];
      assert Without(pending, k) == Without(front, k) + [last];
      LastPendingSnoc(Without(front, k), last, key);
    }
  }

  lemma LastPendingSnoc(pending: seq<Put>, put: Put, key: string)
    ensures LastPending(pending + [put], key)
      == if put.key == KEY_PREFIX + key then Some(put.value) else LastPending(pending, key)
  {
    assert (pending + [put])[..|pending|] == pending;
  }

  lemma SameEntry(a: string, b: string)
    ensures KEY_PREFIX + a == KEY_PREFIX + b ==> a == b
  {
    assert (KEY_PREFIX + a)[|KEY_PREFIX|..] == a;
    assert (KEY_PREFIX + b)[|KEY_PREFIX|..] == b;
  }

  /** A read with nothing of the key under way covers every firing so far. */
  lemma ReadKeepsGood(w: World, i: nat, key: string)
    requires Good(w, key) && CanHappen(w, ReadStore(i)) && !IsPending(w.pending, key)
    ensures Good(Next(w, ReadStore(i)), key)
  {
    NoPending(w.pending, key);
  }

  /** Laid over memory before the key is fired again, it makes the loader know of every firing, whoever else knew. */
  lemma OverlayKeepsGood(w: World, k: nat, kvs: seq<Kv>, key: string)
    requires Good(w, key) && CanHappen(w, Overlay(k, kvs)) && Unfired(w.fires, w.answers[k].seen, key)
    ensures Good(Next(w, Overlay(k, kvs)), key)
  {
    var r := w.answers[k];
    assert r in w.answers;
    LoadOverlays(w.mems[r.node], kvs, r.held, key);
    assert forall x :: x in Without(w.answers, k) ==> x in w.answers;
  }

  /** A write that overtakes none of its key keeps the newest firing covered. */
  lemma PutKeepsGood(w: World, k: nat, key: string)
    requires Good(w, key) && k < |w.pending|
    requires w.pending[k].key == KEY_PREFIX + key ==> !IsPending(w.pending[..k], key)
    ensures Good(Next(w, PutArrives(k)), key)
  {
    TakeOut(w.pending, k, key);
    NoPending(w.pending, key);
    assert w.pending[k].key == KEY_PREFIX + key ==> IsPending(w.pending, key);
  }

  lemma LossKeepsGood(w: World, k: nat, key: string)
    requires Good(w, key) && k < |w.pending| && w.pending[k].key != KEY_PREFIX + key
    ensures Good(Next(w, PutLost(k)), key)
  {
    TakeOut(w.pending, k, key);
  }

  lemma StaysCovered(m: map<string, int>, entry: string, fires: seq<Fire>, fires': seq<Fire>, key: string)
    requires Covered(m, entry, fires, key)
    requires forall f :: f in fires' && f.key == key ==> f in fires
    ensures Covered(m, entry, fires', key)
  {
  }

  lemma OtherFireAnswers(w: World, fire: Fire, key: string)
    requires AnswersCover(w, key) && fire.key != key
    ensures AnswersCover(w.(fires := w.fires + [fire]), key)
  {
    var fires := w.fires + [fire];
    forall r | r in w.answers
      ensures Unfired(fires, r.seen, key) ==> Covered(r.held, KEY_PREFIX + key, fires, key)
    {
      if Unfired(fires, r.seen, key) {
        assert forall j :: 0 <= j < |w.fires| ==> fires[j] == w.fires[j];
        StaysCovered(r.held, KEY_PREFIX + key, w.fires, fires, key);
      }
    }
  }

  /** A firing of another key, and the write it starts, do not bear on this key. */
  lemma OtherFire(w: World, fire: Fire, put: Put, key: string)
    requires Good(w, key) && fire.key != key && put.key != KEY_PREFIX + key
    ensures Good(w.(fires := w.fires + [fire], pending := w.pending + [put]), key)
  {
    var fires, pending := w.fires + [fire], w.pending + [put];
    assert pending[..|w.pending|] == w.pending;
    assert forall f :: f in fires && f.key == key ==> f in w.fires;
    if LastPending(w.pending, key).None? {
      StaysCovered(w.store, KEY_PREFIX + key, w.fires, fires, key);
    }
    if w.lastLoader.Some? {
      StaysCovered(w.mems[w.lastLoader.value], key, w.fires, fires, key);
    }
    OtherFireAnswers(w, fire, key);
  }

  /** Only this key's entry in a node's memory bears on it. */
  lemma OtherEntry(w: World, i: nat, mem: map<string, int>, key: string)
    requires Good(w, key) && i < |w.mems|
    requires key in w.mems[i] ==> key in mem && mem[key] == w.mems[i][key]
    ensures Good(w.(mems := w.mems[i := mem]), key)
  {
  }

  /** Another key's evaluation. */
  lemma OtherEvaluateKeepsGood(w: World, e: Event, key: string)
    requires Good(w, key) && e.Evaluate? && e.key != key && CanHappen(w, e)
    ensures Good(Next(w, e), key)
  {
    var w' := Next(w, e);
    var fired := if Fires(w, e) then w.(fires := w'.fires, pending := w'.pending) else w;
    if Fires(w, e) {
      SameEntry(e.key, key);
      OtherFire(w, Fire(e.i, e.key, e.checkAt, e.markAt), Put(KEY_PREFIX + e.key, e.stampAt), key);
    }
    assert Good(fired, key);
    OtherEntry(fired, e.i, w'.mems[e.i], key);
  }

  /** This key's firing by the last to have loaded. */
  lemma OwnFiringKeepsGood(w: World, e: Event, key: string)
    requires Good(w, key) && e.Evaluate? && e.key == key && CanHappen(w, e)
    requires Fires(w, e) && w.lastLoader == Some(e.i)
    ensures Good(Next(w, e), key)
  {
    var w' := Next(w, e);
    var fire := Fire(e.i, key, e.checkAt, e.markAt);
    MemoryIsBehind(w, e, key);
    assert w'.fires == w.fires + [fire];
    assert Covers(w'.fires, key, e.markAt);
    assert w'.pending[|w.pending|] == Put(KEY_PREFIX + key, e.stampAt);
    forall i | 0 <= i < |w.fires| && w.fires[i].key == key
      ensures e.checkAt - w.fires[i].markAt >= w.cooldowns[key]
    {
      assert w.fires[i] in w.fires;
    }
    forall r | r in w'.answers
      ensures r.seen <= |w'.fires| && !Unfired(w'.fires, r.seen, key)
    {
      assert w'.fires[|w.fires|].key == key;
    }
  }

  /** A memory that knows of every firing and does not hold the rule back: all firings are a cooldown old. */
  lemma MemoryIsBehind(w: World, e: Event, key: string)
    requires Good(w, key) && e.Evaluate? && e.key == key && CanHappen(w, e)
    requires Fires(w, e) && w.lastLoader == Some(e.i)
    ensures forall f :: f in w.fires && f.key == key ==> e.checkAt - f.markAt >= w.cooldowns[key]
  {
  }

  /** This key's evaluation by anybody whom the cooldown holds back. */
  lemma SuppressedKeepsGood(w: World, e: Event, key: string)
    requires Good(w, key) && e.Evaluate? && e.key == key && CanHappen(w, e) && !Fires(w, e)
    ensures Good(Next(w, e), key)
  {
    assert w.mems[e.i := w.mems[e.i]] == w.mems;
  }

  lemma EventKeepsGood(w: World, e: Event, key: string, faults: set<Fault>)
    requires Good(w, key) && CanHappen(w, e) && KEY_FAULTS <= faults && Faultless(w, e, key, faults)
    ensures Good(Next(w, e), key)
  {
    assert LostPut in faults && OutOfOrder in faults && UnderWay in faults;
    assert StaleFiring in faults && FiredWhileLoading in faults;
    match e
    case ClusterMove(m) =>
    case ReadStore(i) => ReadKeepsGood(w, i, key);
    case Overlay(k, kvs) => OverlayKeepsGood(w, k, kvs, key);
    case LoadFails(i) =>
    case PutArrives(k) => PutKeepsGood(w, k, key);
    case PutLost(k) => LossKeepsGood(w, k, key);
    case Evaluate(i, k, _, _, _) =>
      if k != key {
        OtherEvaluateKeepsGood(w, e, key);
      } else if Fires(w, e) {
        OwnFiringKeepsGood(w, e, key);
      } else {
        SuppressedKeepsGood(w, e, key);
      }
  }

  // ----- whole runs -----

  /** With leases lost at any moment: the last to have loaded knows of every firing, whichever nodes fired. */
  lemma {:induction false} HistoryKeepsGood(
    n: nat, cooldowns: map<string, int>, events: seq<Event>, key: string, faults: set<Fault>)
    requires History(n, cooldowns, events, key, faults) && KEY_FAULTS <= faults
    requires key in cooldowns && cooldowns[key] > 0
    ensures Good(State(n, cooldowns, events, key, faults), key)
    ensures State(n, cooldowns, events, key, faults).cooldowns == cooldowns
  {
    if events != [] {
      var front, last := events[..|events| - 1], events[|events| - 1];
      HistoryKeepsGood(n, cooldowns, front, key, faults);
      EventKeepsGood(State(n, cooldowns, front, key, faults), last, key, faults);
    }
  }

  /**
   Whatever happens to leases, leaders, callbacks and clocks: when the writes of a key arrive, in order and before the
   next read, it is fired only by the last to have loaded, and no response is laid over that its firing has outdated,
   then all its firings across all nodes are at least the cooldown apart.
   */
  lemma CooldownSurvivesFailover(
    n: nat, cooldowns: map<string, int>, events: seq<Event>, key: string, faults: set<Fault>)
    requires History(n, cooldowns, events, key, faults) && KEY_FAULTS <= faults
    requires key in cooldowns && cooldowns[key] > 0
    ensures State(n, cooldowns, events, key, faults).cooldowns == cooldowns
    ensures Spaced(State(n, cooldowns, events, key, faults), key)
  {
    HistoryKeepsGood(n, cooldowns, events, key, faults);
  }

  // ----- exclusive leadership and successful loads leave nobody to fire on an outdated memory -----

  /** The moves of the cluster alone. */
  function LeaderMoves(events: seq<Event>): seq<Move> {
    if events == [] then [] else
    var last := events[|events| - 1];
    LeaderMoves(events[..|events| - 1]) + if last.ClusterMove? then [last.move] else []
  }

  function LeaderLapses(faults: set<Fault>): set<Lapse> {
    set fault | fault in faults && fault.Leading? :: fault.lapse
  }

  lemma MoveAvoids(w: World, m: Move, key: string, faults: set<Fault>)
    requires WellFormed(w) && CanHappen(w, ClusterMove(m)) && Faultless(w, ClusterMove(m), key, faults)
    ensures forall lapse :: lapse in LeaderLapses(faults) ==> !IsLapse(w.cluster, m, lapse)
  {
    forall lapse | lapse in LeaderLapses(faults)
      ensures !IsLapse(w.cluster, m, lapse)
    {
      assert Leading(lapse) in faults;
      assert !IsFault(w, ClusterMove(m), key, Leading(lapse));
    }
  }

  /** Seen by its cluster alone, a run of the world is a run of the cluster. */
  lemma {:induction false} ClusterRuns(
    n: nat, cooldowns: map<string, int>, events: seq<Event>, key: string, faults: set<Fault>)
    requires History(n, cooldowns, events, key, faults)
    ensures RunsAvoiding(n, LeaderMoves(events), LeaderLapses(faults))
    ensures State(n, cooldowns, events, key, faults).cluster == Exec(n, LeaderMoves(events))
  {
    if events != [] {
      var front, last := events[..|events| - 1], events[|events| - 1];
      ClusterRuns(n, cooldowns, front, key, faults);
      if last.ClusterMove? {
        MoveAvoids(State(n, cooldowns, front, key, faults), last.move, key, faults);
        var _ := Extend(n, LeaderMoves(front), last.move, LeaderLapses(faults));
      } else {
        assert LeaderMoves(front) + [] == LeaderMoves(front);
      }
    }
  }

  lemma AllLapses(faults: set<Fault>)
    requires LEADING <= faults
    ensures LeaderLapses(faults) == ALL_LAPSES
  {
    OnlyThree(LeaderLapses(faults));
    assert Leading(LostInCharge) in faults && Leading(AbandonedAlive) in faults && Leading(WonWithoutKey) in faults;
  }

  /** The current callback's response is the only one it has, it has not passed its load, and nothing has been fired. */
  ghost predicate AnswersFresh(w: World)
    requires WellFormed(w)
  {
    && (forall r :: r in w.answers && r.node < |w.mems| ==> r.term <= w.terms[r.node])
    && (forall r :: r in w.answers && Live(w, r) ==> !w.loaded[r.node] && r.seen == |w.fires|)
    && (forall a, b :: 0 <= a < b < |w.answers| && w.answers[a].node == w.answers[b].node
          ==> !Live(w, w.answers[a]) || !Live(w, w.answers[b]))
  }

  /** Only one node's callback runs, and none is abandoned. */
  ghost predicate Alone(w: World)
    requires WellFormed(w)
  {
    && (forall i :: 0 <= i < |w.mems| ==> w.cluster.nodes[i].abandoned == 0)
    && (forall i, j :: 0 <= i < j < |w.mems| ==> !w.cluster.nodes[i].callback || !w.cluster.nodes[j].callback)
  }

  lemma ExclusiveAlone(w: World)
    requires WellFormed(w) && Holding(w.cluster) && Exclusive(w.cluster)
    ensures Alone(w)
  {
    forall i, j | 0 <= i < j < |w.mems|
      ensures !w.cluster.nodes[i].callback || !w.cluster.nodes[j].callback
    {
      assert !Active(w.cluster.nodes[i]) || !Active(w.cluster.nodes[j]);
    }
  }

  /** What a move of the cluster does to callbacks: one starts, or some end or are abandoned. */
  lemma CallbackAfter(c: Cluster, m: Move, i: nat)
    requires CanMove(c, m) && i < |c.nodes|
    ensures var n, n' := c.nodes[i], After(c, m).nodes[i];
            n'.callback ==> n.callback || (StartsCallback(m) && m.i == i)
  {
  }

  lemma MoveKeepsFresh(w: World, m: Move)
    requires WellFormed(w) && CanHappen(w, ClusterMove(m)) && AnswersFresh(w)
    ensures AnswersFresh(Next(w, ClusterMove(m)))
  {
    var w' := Next(w, ClusterMove(m));
    forall r | r in w.answers
      ensures r.node < |w'.mems| ==> r.term <= w'.terms[r.node]
      ensures Live(w', r) ==> Live(w, r) && w'.loaded[r.node] == w.loaded[r.node]
    {
      if r.node < |w.mems| {
        CallbackAfter(w.cluster, m, r.node);
      }
    }
  }

  lemma ReadKeepsFresh(w: World, i: nat)
    requires WellFormed(w) && CanHappen(w, ReadStore(i)) && AnswersFresh(w)
    ensures AnswersFresh(Next(w, ReadStore(i)))
  {
    var w' := Next(w, ReadStore(i));
    assert forall r :: Live(w', r) <==> Live(w, r);
    assert forall a :: 0 <= a < |w.answers| ==> w'.answers[a] == w.answers[a] && w.answers[a] in w.answers;
  }

  /** The one callback there is has a response in hand; with it laid over, no current response is left. */
  lemma OverlayKeepsFresh(w: World, k: nat, kvs: seq<Kv>)
    requires WellFormed(w) && CanHappen(w, Overlay(k, kvs)) && AnswersFresh(w) && Alone(w)
    ensures AnswersFresh(Next(w, Overlay(k, kvs)))
    ensures forall key :: Unfired(w.fires, w.answers[k].seen, key)
  {
    var w', r := Next(w, Overlay(k, kvs)), w.answers[k];
    assert r in w.answers && Live(w, r);
    forall x | x in w'.answers
      ensures x in w.answers && !Live(w', x)
    {
      var a :| 0 <= a < |w'.answers| && w'.answers[a] == x;
      var b := if a < k then a else a + 1;
      assert w.answers[b] == x;
      if x.node == r.node {
        assert !Live(w, w.answers[b]);
      }
    }
  }

  /** Whoever evaluates is the one callback there is, and has passed its load, so nobody has a current response. */
  lemma EvaluateKeepsFresh(w: World, e: Event)
    requires WellFormed(w) && e.Evaluate? && CanHappen(w, e) && AnswersFresh(w) && Alone(w)
    ensures AnswersFresh(Next(w, e))
  {
    var w' := Next(w, e);
    forall r | r in w.answers
      ensures !Live(w, r) && !Live(w', r)
    {
      assert w.cluster.nodes[e.i].callback && w.loaded[e.i];
    }
  }

  /** A failed load ends the one load there is. */
  lemma FailureKeepsFresh(w: World, i: nat)
    requires WellFormed(w) && CanHappen(w, LoadFails(i)) && AnswersFresh(w)
    ensures AnswersFresh(Next(w, LoadFails(i)))
  {
    var w' := Next(w, LoadFails(i));
    assert forall r :: Live(w', r) <==> Live(w, r);
  }

  lemma EventKeepsFresh(w: World, e: Event, key: string)
    requires WellFormed(w) && CanHappen(w, e) && AnswersFresh(w) && Alone(w)
    ensures AnswersFresh(Next(w, e)) && !IsFault(w, e, key, FiredWhileLoading)
  {
    match e
    case ClusterMove(m) => MoveKeepsFresh(w, m);
    case ReadStore(i) => ReadKeepsFresh(w, i);
    case Overlay(k, kvs) => OverlayKeepsFresh(w, k, kvs);
    case LoadFails(i) => FailureKeepsFresh(w, i);
    case Evaluate(_, _, _, _, _) => EvaluateKeepsFresh(w, e);
    case PutArrives(_) => SameAnswers(w, Next(w, e));
    case PutLost(_) => SameAnswers(w, Next(w, e));
  }

  lemma SameAnswers(w: World, w': World)
    requires WellFormed(w) && WellFormed(w') && AnswersFresh(w)
    requires w' == w.(store := w'.store, pending := w'.pending)
    ensures AnswersFresh(w')
  {
    assert forall r :: Live(w', r) <==> Live(w, r);
  }

  /** In a run of exclusive leaders nothing is fired during a load. */
  lemma {:induction false} ExclusiveLoadsUndisturbed(
    n: nat, cooldowns: map<string, int>, events: seq<Event>, key: string, faults: set<Fault>)
    requires History(n, cooldowns, events, key, faults) && LEADING <= faults
    ensures History(n, cooldowns, events, key, faults + {FiredWhileLoading})
    ensures State(n, cooldowns, events, key, faults + {FiredWhileLoading}) == State(n, cooldowns, events, key, faults)
    ensures AnswersFresh(State(n, cooldowns, events, key, faults)) && Alone(State(n, cooldowns, events, key, faults))
  {
    RunsAlone(n, cooldowns, events, key, faults);
    if events != [] {
      var front, last := events[..|events| - 1], events[|events| - 1];
      ExclusiveLoadsUndisturbed(n, cooldowns, front, key, faults);
      var w := State(n, cooldowns, front, key, faults);
      EventKeepsFresh(w, last, key);
      assert Faultless(w, last, key, faults + {FiredWhileLoading});
    }
  }

  lemma RunsAlone(n: nat, cooldowns: map<string, int>, events: seq<Event>, key: string, faults: set<Fault>)
    requires History(n, cooldowns, events, key, faults) && LEADING <= faults
    ensures Alone(State(n, cooldowns, events, key, faults))
  {
    ClusterRuns(n, cooldowns, events, key, faults);
    AllLapses(faults);
    RunKeepsHolding(n, LeaderMoves(events));
    HoldingIsExclusive(Exec(n, LeaderMoves(events)));
    ExclusiveAlone(State(n, cooldowns, events, key, faults));
  }

  /** Every callback past its load was the last to load. */
  ghost predicate LoadersLast(w: World)
    requires WellFormed(w)
  {
    forall i :: 0 <= i < |w.mems| && w.cluster.nodes[i].callback && w.loaded[i] ==> w.lastLoader == Some(i)
  }

  lemma MoveStartsUnloaded(w: World, m: Move)
    requires WellFormed(w) && CanHappen(w, ClusterMove(m)) && LoadersLast(w)
    ensures LoadersLast(Next(w, ClusterMove(m)))
  {
    var w' := Next(w, ClusterMove(m));
    forall i | 0 <= i < |w'.mems| && w'.cluster.nodes[i].callback && w'.loaded[i]
      ensures w'.lastLoader == Some(i)
    {
      CallbackAfter(w.cluster, m, i);
    }
  }

  /** Whoever may evaluate is a callback past its load, and whoever loads is the only callback there is. */
  lemma EventKeepsLoadersLast(w: World, e: Event, key: string)
    requires WellFormed(w) && CanHappen(w, e) && !e.LoadFails? && LoadersLast(w) && Alone(w)
    ensures LoadersLast(Next(w, e)) && !IsFault(w, e, key, StaleFiring)
  {
    if e.ClusterMove? {
      MoveStartsUnloaded(w, e.move);
    }
  }

  /** In a run of exclusive leaders that all load successfully, no firing is stale. */
  lemma {:induction false} OrderlyIsNeverStale(
    n: nat, cooldowns: map<string, int>, events: seq<Event>, key: string, faults: set<Fault>)
    requires History(n, cooldowns, events, key, faults) && LEADING + {FailedLoad} <= faults
    ensures History(n, cooldowns, events, key, faults + {StaleFiring})
    ensures State(n, cooldowns, events, key, faults + {StaleFiring}) == State(n, cooldowns, events, key, faults)
    ensures LoadersLast(State(n, cooldowns, events, key, faults))
  {
    if events != [] {
      var front, last := events[..|events| - 1], events[|events| - 1];
      OrderlyIsNeverStale(n, cooldowns, front, key, faults);
      RunsAlone(n, cooldowns, front, key, faults);
      var w := State(n, cooldowns, front, key, faults);
      assert !IsFault(w, last, key, FailedLoad);
      EventKeepsLoadersLast(w, last, key);
      assert Faultless(w, last, key, faults + {StaleFiring});
    }
  }

  /** The sets of faults that rule out enough, directly or by exclusive leadership and successful loads. */
  ghost predicate Suffices(faults: set<Fault>) {
    && WRITE_FAULTS <= faults
    && (StaleFiring in faults || LEADING + {FailedLoad} <= faults)
    && (FiredWhileLoading in faults || LEADING <= faults)
  }

  /** The cooldown survives every change of leader in every run that rules out enough. */
  lemma CooldownSurvives(n: nat, cooldowns: map<string, int>, events: seq<Event>, key: string, faults: set<Fault>)
    requires History(n, cooldowns, events, key, faults) && Suffices(faults)
    requires key in cooldowns && cooldowns[key] > 0
    ensures State(n, cooldowns, events, key, faults).cooldowns == cooldowns
    ensures Spaced(State(n, cooldowns, events, key, faults), key)
  {
    var more := faults;
    if FiredWhileLoading !in more {
      ExclusiveLoadsUndisturbed(n, cooldowns, events, key, more);
      more := more + {FiredWhileLoading};
    }
    if StaleFiring !in more {
      OrderlyIsNeverStale(n, cooldowns, events, key, more);
      more := more + {StaleFiring};
    }
    CooldownSurvivesFailover(n, cooldowns, events, key, more);
  }

  /** The cooldown survives orderly changes of leader, if the writes arrive in order and before the next read. */
  lemma CooldownSurvivesHandover(
    n: nat, cooldowns: map<string, int>, events: seq<Event>, key: string, faults: set<Fault>)
    requires History(n, cooldowns, events, key, faults)
    requires LEADING + {FailedLoad} + WRITE_FAULTS <= faults
    requires key in cooldowns && cooldowns[key] > 0
    ensures State(n, cooldowns, events, key, faults).cooldowns == cooldowns
    ensures Spaced(State(n, cooldowns, events, key, faults), key)
  {
    CooldownSurvives(n, cooldowns, events, key, faults);
  }
}
