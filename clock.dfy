/**
 * Time arithmetic of the bot.  Instants are whole seconds since the epoch; the
 * elapsed time of a session is `int((now - start).total_seconds() / 60)` minutes,
 * which truncates toward zero, and whole hours are taken with Python's `//`.
 */
module Clock {

  const SECONDS_PER_MINUTE := 60
  const MINUTES_PER_HOUR := 60

  /** Asia/Seoul is UTC+09:00; zone-naive timestamps are read in it. */
  const SEOUL_UTC_OFFSET := 9 * 60 * 60

  /** A session this long is closed by the sweep without credit. */
  const AUTO_CHECKOUT_MINUTES := 360

  /** `datetime.weekday()`: Monday is 0, Sunday is 6. */
  type Weekday = d: int | 0 <= d <= 6

  const MONDAY: Weekday := 0
  const SATURDAY: Weekday := 5

  /** Whole minutes from `start` to `now`, negative when the clock went backwards. */
  function ElapsedMinutes(start: int, now: int): (m: int)
    ensures now >= start ==> m >= 0 && start + SECONDS_PER_MINUTE * m <= now < start + SECONDS_PER_MINUTE * (m + 1)
    ensures now < start ==> m <= 0 && start + SECONDS_PER_MINUTE * (m - 1) < now <= start + SECONDS_PER_MINUTE * m
  {
    var seconds := now - start;
    // int(seconds / 60) rounds toward zero, unlike Dafny's Euclidean `/`
    if seconds >= 0 then seconds / SECONDS_PER_MINUTE else -((-seconds) / SECONDS_PER_MINUTE)
  }

  /** The minutes a check-out credits: the elapsed minutes, never below zero. */
  function CreditedMinutes(start: int, now: int): (m: nat)
    ensures now < start ==> m == 0
    ensures now >= start ==> start + SECONDS_PER_MINUTE * m <= now < start + SECONDS_PER_MINUTE * (m + 1)
  {
    var minutes := ElapsedMinutes(start, now);
    if minutes < 0 then 0 else minutes
  }

  /** `minutes // 60`: Python floors, which for a positive divisor is Dafny's `/`. */
  function WholeHours(minutes: int): (h: int)
    ensures MINUTES_PER_HOUR * h <= minutes < MINUTES_PER_HOUR * (h + 1)
  {
    minutes / MINUTES_PER_HOUR
  }
}
