/**
 * `TimeManager` (include/TimeManager.hpp): a single deadline on the
 * monotone `steady_clock`. Time points are nanosecond counts, as in the
 * clock's 64-bit representation; the clock reading is passed in as `now`
 * instead of being read inside the operations.
 */
module Timing {

  const NanosPerMilli: int := 1_000_000

  /** `Clock::time_point::min()`: the smallest 64-bit nanosecond count. */
  const ClockMin: int := -0x8000_0000_0000_0000
  const ClockMax: int := 0x7FFF_FFFF_FFFF_FFFF

  /** A value the clock can report. */
  type TimePoint = t: int | ClockMin <= t <= ClockMax

  /** The budget `start` uses: a negative number of milliseconds counts as zero. */
  function ClampedBudget(budgetMs: int): (r: nat)
    ensures budgetMs <= 0 ==> r == 0
    ensures budgetMs >= 0 ==> r == budgetMs
  {
    if budgetMs < 0 then 0 else budgetMs
  }

  /** The deadline `start(budgetMs)` sets when the clock reads `now`. */
  function DeadlineAfter(now: int, budgetMs: int): int
  {
    now + ClampedBudget(budgetMs) * NanosPerMilli
  }

  /** A deadline is never before the start time, and is the start time exactly when the budget is not positive. */
  lemma DeadlineNotBeforeStart(now: int, budgetMs: int)
    ensures DeadlineAfter(now, budgetMs) >= now
    ensures DeadlineAfter(now, budgetMs) == now <==> budgetMs <= 0
  {
  }

  class TimeManager {
    var deadline: int

    /** Before any `start` the deadline is the clock's minimum, so every reading counts as expired. */
    constructor()
      ensures deadline == ClockMin
      ensures forall t: TimePoint :: Expired(t)
    {
      deadline := ClockMin;
    }

    /** `expired`: the clock has reached the deadline. */
    predicate Expired(now: int)
      reads this
    {
      now >= deadline
    }

    /**
     * `start(budget)`: the new deadline is `now` plus the clamped budget,
     * whatever the earlier deadline was. A budget of zero or less expires at
     * once.
     */
    method Start(budgetMs: int, now: TimePoint)
      modifies this
      ensures deadline == DeadlineAfter(now, budgetMs)
      ensures forall t :: Expired(t) <==> t - now >= ClampedBudget(budgetMs) * NanosPerMilli
      ensures budgetMs <= 0 ==> Expired(now)
      ensures budgetMs > 0 ==> !Expired(now)
    {
      var budget := budgetMs;
      if budget < 0 {
        budget := 0;
      }
      deadline := now + budget * NanosPerMilli;
    }
  }

  /** With a clock that does not go back, expiry is permanent until the next `start`. */
  lemma ExpiredStays(tm: TimeManager, t1: int, t2: int)
    requires t1 <= t2 && tm.Expired(t1)
    ensures tm.Expired(t2)
  {
  }
}
