/** `isRepeatExpired`: whether a checked repeating item is due to become unchecked again. The clock is a parameter. */
module Dates {
  import opened Common

  /** One day in milliseconds. */
  const DayMs: int := 24 * 60 * 60 * 1000

  /**
   * `checkedAt` and `now` are milliseconds since the epoch. A missing check
   * time or a missing or zero period (both falsy in JavaScript) never expires.
   */
  function IsRepeatExpired(checkedAt: Option<int>, repeatEveryDays: Option<int>, now: int): (expired: bool)
    ensures expired ==> checkedAt.Some? && repeatEveryDays.Some? && repeatEveryDays.value != 0
    ensures checkedAt.Some? && repeatEveryDays.Some? && repeatEveryDays.value != 0 ==>
      (expired <==> now >= checkedAt.value + repeatEveryDays.value * DayMs)
  {
    if checkedAt.None? || repeatEveryDays.None? || repeatEveryDays.value == 0 then false
    else now - checkedAt.value >= repeatEveryDays.value * DayMs
  }

  /** Once expired, an item stays expired as time goes on. */
  lemma ExpiryIsMonotone(checkedAt: Option<int>, repeatEveryDays: Option<int>, now: int, later: int)
    requires now <= later && IsRepeatExpired(checkedAt, repeatEveryDays, now)
    ensures IsRepeatExpired(checkedAt, repeatEveryDays, later)
  {
  }

  /** Worked cases: no check time, no period, eight days and six days after checking with a seven-day period. */
  lemma Examples(now: int)
    ensures !IsRepeatExpired(None, Some(7), now)
    ensures !IsRepeatExpired(Some(now), None, now)
    ensures IsRepeatExpired(Some(now - 8 * DayMs), Some(7), now)
    ensures !IsRepeatExpired(Some(now - 6 * DayMs), Some(7), now)
  {
  }
}
