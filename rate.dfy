/**
 * The periodic deadline scheduler `Rate`.
 *
 * Time is an integer number of clock ticks, in the same unit as the period.
 * The clock reading that `sleep` takes is a parameter, and the blocking
 * `sleep_until` is represented by the deadline the method reports it waits for.
 */
module Rates {

  /** The k-th deadline on the grid that starts at `deadline` and has step `period`. */
  function Tick(deadline: int, period: int, k: nat): int
  {
    deadline + k * period
  }

  /**
   * The deadline `sleep` settles on when it reads the clock as `now` and its
   * current deadline is `deadline`: whole periods are added until the deadline
   * lies strictly after `now`; a deadline already in the future is kept.
   */
  function NextDeadline(deadline: int, period: int, now: int): int
    requires now < deadline || period > 0
    decreases if now < deadline then 0 else now - deadline + 1
  {
    if now < deadline then deadline else NextDeadline(deadline + period, period, now)
  }

  /**
   * The new deadline is strictly after `now`, never before the old one, and a
   * missed deadline is advanced to at most one period beyond `now` (exactly
   * one when `now` is itself a grid deadline): missed ticks are skipped, not
   * queued.
   */
  lemma {:induction false} NextDeadlineBounds(deadline: int, period: int, now: int)
    requires now < deadline || period > 0
    ensures NextDeadline(deadline, period, now) > now
    ensures NextDeadline(deadline, period, now) >= deadline
    ensures now < deadline ==> NextDeadline(deadline, period, now) == deadline
    ensures now >= deadline ==> NextDeadline(deadline, period, now) - period <= now
    decreases if now < deadline then 0 else now - deadline + 1
  {
    if now >= deadline {
      NextDeadlineBounds(deadline + period, period, now);
    }
  }

  /**
   * The deadline only ever moves by whole periods: the new one is the k-th
   * deadline on the grid of the old one, for the k this lemma returns.
   */
  lemma {:induction false} NextDeadlineOnGrid(deadline: int, period: int, now: int) returns (k: nat)
    requires now < deadline || period > 0
    ensures NextDeadline(deadline, period, now) == Tick(deadline, period, k)
    ensures now < deadline <==> k == 0
    decreases if now < deadline then 0 else now - deadline + 1
  {
    if now < deadline {
      k := 0;
    } else {
      var j := NextDeadlineOnGrid(deadline + period, period, now);
      k := j + 1;
      assert Tick(deadline + period, period, j) == Tick(deadline, period, k) by {
        assert (j + 1) * period == j * period + period;
      }
    }
  }

  /**
   * Of all the deadlines on the grid that lie strictly after `now`, the one
   * `sleep` settles on is the earliest.
   */
  lemma {:induction false} NextDeadlineIsEarliest(deadline: int, period: int, now: int)
    requires period > 0
    ensures forall k: nat :: Tick(deadline, period, k) > now ==> NextDeadline(deadline, period, now) <= Tick(deadline, period, k)
    decreases if now < deadline then 0 else now - deadline + 1
  {
    if now >= deadline {
      NextDeadlineIsEarliest(deadline + period, period, now);
      forall k: nat | Tick(deadline, period, k) > now
        ensures NextDeadline(deadline, period, now) <= Tick(deadline, period, k)
      {
        assert k != 0;
        assert Tick(deadline + period, period, k - 1) == Tick(deadline, period, k) by {
          assert (k - 1) * period == k * period - period;
        }
      }
    }
  }

  /**
   * A `sleep` that reads the clock exactly at a grid deadline, missed or
   * current, waits a whole period past it: the furthest `now` a missed
   * deadline can be advanced beyond.
   */
  lemma {:induction false} NextDeadlineAtGridPoint(deadline: int, period: int, j: nat)
    requires period > 0
    ensures NextDeadline(deadline, period, Tick(deadline, period, j)) == Tick(deadline, period, j) + period
    decreases j
  {
    if j > 0 {
      assert Tick(deadline, period, j) == Tick(deadline + period, period, j - 1) by {
        assert j * period == (j - 1) * period + period;
      }
      NextDeadlineAtGridPoint(deadline + period, period, j - 1);
    }
  }

  /**
   * No burst after a stall: a `sleep` that finds its deadline already reached
   * waits at least one whole period past that deadline, so two wake-ups are
   * never closer than one period.
   */
  lemma NextDeadlineNoBurst(deadline: int, period: int, now: int)
    requires period > 0 && now >= deadline
    ensures NextDeadline(deadline, period, now) >= deadline + period
  {
    NextDeadlineBounds(deadline + period, period, now);
  }

  class Rate {
    const period: int
    var nextTime: int

    /** The first deadline is one period after construction. */
    constructor (period: int, now: int)
      ensures this.period == period
      ensures nextTime == now + period
    {
      this.period := period;
      nextTime := now + period;
    }

    /**
     * Waits for the current deadline, or, when it has already passed, advances
     * it by whole periods to the first one after `now` and waits for that.
     * Returns the instant it waits until. With a period that is not positive
     * the source loops forever on a missed deadline, hence the requires.
     */
    method Sleep(now: int) returns (wakeAt: int)
      requires now < nextTime || period > 0
      modifies this
      ensures nextTime == NextDeadline(old(nextTime), period, now)
      ensures wakeAt == nextTime
    {
      if now >= nextTime {
        while now >= nextTime
          invariant NextDeadline(nextTime, period, now) == NextDeadline(old(nextTime), period, now)
          decreases now - nextTime
        {
          nextTime := nextTime + period;
        }
      }
      wakeAt := nextTime;
    }
  }
}
