/** The exponential backoff between attempts to open a session or to campaign. */
module BackoffDelays {
  import opened Checker

  const SECOND: int := 1_000_000_000
  const MAX_DELAY: int := 30 * SECOND

  function Doubled(cur: int, max: int): int {
    if 2 * cur > max then max else 2 * cur
  }

  /** A timer with nothing or less to wait for goes off at once. */
  function Delay(cur: int): nat {
    if cur > 0 then cur else 0
  }

  class Backoff {
    var cur: int
    var max: int

    constructor (initial: int, max: int)
      ensures cur == initial && this.max == max
    {
      this.cur, this.max := initial, max;
    }

    /** Waits for the current delay, or until the context is done if that is sooner; doubles the delay either way. */
    method Wait(doneAfter: Option<nat>) returns (waited: nat)
      modifies this
      ensures waited
        == if doneAfter.Some? && doneAfter.value < Delay(old(cur)) then doneAfter.value else Delay(old(cur))
      ensures cur == Doubled(old(cur), max) && max == old(max)
    {
      waited := if cur > 0 then cur else 0;
      if doneAfter.Some? && doneAfter.value < waited {
        waited := doneAfter.value;
      }
      cur := cur * 2;
      if cur > max {
        cur := max;
      }
    }

    method Reset()
      modifies this
      ensures cur == SECOND && max == old(max)
    {
      cur := SECOND;
    }
  }

  /** The delay after k waits since creation or the last reset. */
  function DelayAfter(k: nat): int {
    if k == 0 then SECOND else Doubled(DelayAfter(k - 1), MAX_DELAY)
  }

  /** How long k completed waits in a row take together. */
  function TotalOf(k: nat): int {
    if k == 0 then 0 else TotalOf(k - 1) + DelayAfter(k - 1)
  }

  function Pow2(k: nat): nat {
    if k == 0 then 1 else 2 * Pow2(k - 1)
  }

  lemma {:induction false} Pow2Grows(k: nat)
    requires k >= 5
    ensures Pow2(k) >= 32
  {
    if k == 5 {
      assert Pow2(5) == 2 * Pow2(4) == 4 * Pow2(3) == 8 * Pow2(2) == 16 * Pow2(1) == 32;
    } else {
      Pow2Grows(k - 1);
    }
  }

  /** min(2^k, 30) seconds. */
  lemma {:induction false} DelayClosedForm(k: nat)
    ensures DelayAfter(k) == if Pow2(k) <= 30 then Pow2(k) * SECOND else MAX_DELAY
  {
    if k > 0 {
      DelayClosedForm(k - 1);
      if k > 5 {
        Pow2Grows(k - 1);
      } else {
        SmallPowers();
      }
    }
  }

  lemma SmallPowers()
    ensures Pow2(0) == 1 && Pow2(1) == 2 && Pow2(2) == 4 && Pow2(3) == 8 && Pow2(4) == 16 && Pow2(5) == 32
  {
    assert Pow2(3) == 2 * Pow2(2);
    assert Pow2(5) == 2 * Pow2(4);
  }

  /** 2^k - 1 seconds for up to five waits, and 30 seconds more for each further one. */
  lemma {:induction false} TotalClosedForm(k: nat)
    ensures TotalOf(k) == if k <= 5 then (Pow2(k) - 1) * SECOND else (31 + 30 * (k - 5)) * SECOND
  {
    SmallPowers();
    if k > 0 {
      TotalClosedForm(k - 1);
      DelayClosedForm(k - 1);
      if k > 5 {
        Pow2Grows(k - 1);
      }
    }
  }
}
