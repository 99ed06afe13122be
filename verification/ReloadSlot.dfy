/**
 The one-slot channel through which new configurations reach the pool: one caller of Reload, any number of runs of the
 pool one after the other, and every interleaving of their channel operations. Configurations are numbered as submitted.
 */
module ReloadSlot {
  import opened Checker

  datatype Caller =
    | Idle
    | FoundFull(config: nat)  // the first send gave up
    | Drained(config: nat)    // the slot has been emptied, by this caller or by a run; now a blocking send

  datatype Slot = Slot(
    submitted: nat,
    slot: Option<nat>,
    caller: Caller,
    held: Option<nat>,    // received by a run, not yet applied
    applied: seq<nat>)

  datatype Step = Submit | Drain | Resend | Take | Apply

  const EMPTY := Slot(0, None, Idle, None, [])

  predicate Can(s: Slot, step: Step) {
    match step
    case Submit => s.caller.Idle?
    case Drain => s.caller.FoundFull?
    case Resend => s.caller.Drained? && s.slot.None?
    case Take => s.slot.Some? && s.held.None?
    case Apply => s.held.Some?
  }

  function Next(s: Slot, step: Step): Slot
    requires Can(s, step)
  {
    match step
    case Submit =>
      if s.slot.None? then s.(submitted := s.submitted + 1, slot := Some(s.submitted))
      else s.(submitted := s.submitted + 1, caller := FoundFull(s.submitted))
    case Drain => s.(slot := None, caller := Drained(s.caller.config))
    case Resend => s.(slot := Some(s.caller.config), caller := Idle)
    case Take => s.(slot := None, held := s.slot)
    case Apply => s.(held := None, applied := s.applied + [s.held.value])
  }

  ghost predicate Runs(steps: seq<Step>)
    decreases |steps|, 0
  {
    steps == [] || (Runs(steps[..|steps| - 1]) && Can(Exec(steps[..|steps| - 1]), steps[|steps| - 1]))
  }

  ghost function Exec(steps: seq<Step>): Slot
    requires Runs(steps)
    decreases |steps|, 1
  {
    if steps == [] then EMPTY else Next(Exec(steps[..|steps| - 1]), steps[|steps| - 1])
  }

  /** The configurations after the applied ones, oldest first: held, then in the slot, then with the caller. */
  function Underway(s: Slot): seq<nat> {
    (if s.held.Some? then [s.held.value] else [])
      + (if s.slot.Some? then [s.slot.value] else [])
      + (match s.caller case Idle => [] case FoundFull(c) => [c] case Drained(c) => [c])
  }

  function All(s: Slot): seq<nat> {
    s.applied + Underway(s)
  }

  ghost predicate Increasing(ids: seq<nat>) {
    forall i, j :: 0 <= i < j < |ids| ==> ids[i] < ids[j]
  }

  /** The list runs up to the newest submission. */
  ghost predicate UpTo(ids: seq<nat>, submitted: nat) {
    && Increasing(ids)
    && if submitted == 0 then ids == [] else ids != [] && ids[|ids| - 1] == submitted - 1
  }

  /** Everything applied or underway is in the order of submission, and the newest submitted is among it. */
  ghost predicate Inv(s: Slot) {
    UpTo(All(s), s.submitted) && (s.caller.Drained? ==> s.slot.None?)
  }

  /** What a step does to the list: a submission is added, a drain takes out what is in the slot, the rest only move. */
  lemma StepChangesList(s: Slot, step: Step)
    requires Can(s, step) && (s.caller.Drained? ==> s.slot.None?)
    ensures match step
            case Submit => All(Next(s, step)) == All(s) + [s.submitted]
            case Drain =>
              var k := |s.applied| + if s.held.Some? then 1 else 0;
              All(Next(s, step)) == if s.slot.Some? then All(s)[..k] + All(s)[k + 1..] else All(s)
            case _ => All(Next(s, step)) == All(s)
  {
  }

  lemma Appended(ids: seq<nat>, submitted: nat)
    requires UpTo(ids, submitted)
    ensures UpTo(ids + [submitted], submitted + 1)
  {
  }

  lemma TakenOut(ids: seq<nat>, submitted: nat, k: nat)
    requires UpTo(ids, submitted) && k < |ids| - 1
    ensures UpTo(ids[..k] + ids[k + 1..], submitted)
  {
  }

  lemma StepKeepsInv(s: Slot, step: Step)
    requires Inv(s) && Can(s, step)
    ensures Inv(Next(s, step))
  {
    StepChangesList(s, step);
    if step == Submit {
      Appended(All(s), s.submitted);
    } else if step == Drain && s.slot.Some? {
      DrainTakesOut(s);
    }
  }

  lemma DrainTakesOut(s: Slot)
    requires Inv(s) && Can(s, Drain) && s.slot.Some?
    ensures UpTo(All(Next(s, Drain)), s.submitted)
  {
    var k := |s.applied| + if s.held.Some? then 1 else 0;
    StepChangesList(s, Drain);
    assert |All(s)| == k + 2;
    TakenOut(All(s), s.submitted, k);
  }

  lemma {:induction false} RunKeepsInv(steps: seq<Step>)
    requires Runs(steps)
    ensures Inv(Exec(steps))
  {
    if steps != [] {
      RunKeepsInv(steps[..|steps| - 1]);
      StepKeepsInv(Exec(steps[..|steps| - 1]), steps[|steps| - 1]);
    }
  }

  /**
   In every interleaving: the caller can always take its next step, so Reload never blocks; the applied configurations
   are a subsequence of the submitted ones; one that waits is newer than every applied one; and when nothing is
   underway, the last applied is the last submitted.
   */
  lemma LatestWins(steps: seq<Step>)
    requires Runs(steps)
    ensures var s := Exec(steps);
            && (s.caller.FoundFull? ==> Can(s, Drain)) && (s.caller.Drained? ==> Can(s, Resend))
            && Increasing(s.applied)
            && (forall i :: 0 <= i < |s.applied| ==> s.applied[i] < s.submitted)
            && (forall i, c :: 0 <= i < |s.applied| && c in Underway(s) ==> s.applied[i] < c)
            && (Underway(s) == [] && s.submitted > 0 ==>
                  s.applied != [] && s.applied[|s.applied| - 1] == s.submitted - 1)
  {
    RunKeepsInv(steps);
    var s := Exec(steps);
    var all := All(s);
    forall i | 0 <= i < |s.applied|
      ensures s.applied[i] < s.submitted
      ensures forall c :: c in Underway(s) ==> s.applied[i] < c
    {
      assert all[i] == s.applied[i];
      forall c | c in Underway(s)
        ensures s.applied[i] < c
      {
        var k :| 0 <= k < |Underway(s)| && Underway(s)[k] == c;
        assert all[|s.applied| + k] == c;
      }
    }
    forall i, j | 0 <= i < j < |s.applied|
      ensures s.applied[i] < s.applied[j]
    {
      assert all[i] < all[j];
    }
  }
}
