/**
 * The two tables the bot keeps and the pure rules that change them: the session
 * log (`attendance_log`, user id to start time and last encouraged hour) and the
 * statistics table (`user_data`, `str(user id)` to a record of minutes).
 */
module Records {
  import opened Wrappers
  import opened Clock

  /**
   * An open session.  `start` is `None` when the stored entry holds no valid start
   * time; `lastEncouraged` is the last whole hour an encouragement was delivered for.
   */
  datatype Session = Session(start: Option<int>, lastEncouraged: int)

  /** One user's statistics: minutes in total and per day, per day of this week, per month. */
  datatype UserStats = UserStats(
    username: string,
    total: int,
    weekly: map<string, int>,
    daily: map<string, int>,
    monthly: map<string, int>)

  /** `m.get(key, 0)`. */
  function Get(m: map<string, int>, key: string): int
  {
    if key in m then m[key] else 0
  }

  /** `m[key] = m.get(key, 0) + minutes`. */
  function Bump(m: map<string, int>, key: string, minutes: int): map<string, int>
  {
    m[key := Get(m, key) + minutes]
  }

  /** The zeroed record a user's first check-out creates. */
  function NewRecord(name: string): UserStats
  {
    UserStats(name, 0, map[], map[], map[])
  }

  /** One check-out's update of a record: renamed, and `minutes` added to every bucket. */
  function Credit(r: UserStats, name: string, day: string, month: string, minutes: int): UserStats
  {
    UserStats(name, r.total + minutes, Bump(r.weekly, day, minutes), Bump(r.daily, day, minutes), Bump(r.monthly, month, minutes))
  }

  /** The record a check-out starts from: the stored one, or a zeroed one. */
  function RecordOf(users: map<string, UserStats>, key: string, name: string): UserStats
  {
    if key in users then users[key] else NewRecord(name)
  }

  /**
   * `user_data` after a check-out of `minutes` for `key` on `day` in `month`: the
   * record (created zeroed if missing) gains `minutes` in its total, in `weekly[day]`,
   * `daily[day]` and `monthly[month]`; no other day, month or user changes.
   */
  function CreditUser(users: map<string, UserStats>, key: string, name: string, day: string, month: string, minutes: int)
    : (users': map<string, UserStats>)
    ensures users'.Keys == users.Keys + {key}
    ensures forall k :: k in users && k != key ==> users'[k] == users[k]
    ensures var r, r' := RecordOf(users, key, name), users'[key];
      && r'.username == name
      && r'.total == r.total + minutes
      && r'.weekly.Keys == r.weekly.Keys + {day}
      && r'.daily.Keys == r.daily.Keys + {day}
      && r'.monthly.Keys == r.monthly.Keys + {month}
      && (forall d :: Get(r'.weekly, d) == Get(r.weekly, d) + (if d == day then minutes else 0))
      && (forall d :: Get(r'.daily, d) == Get(r.daily, d) + (if d == day then minutes else 0))
      && (forall m :: Get(r'.monthly, m) == Get(r.monthly, m) + (if m == month then minutes else 0))
  {
    users[key := Credit(RecordOf(users, key, name), name, day, month, minutes)]
  }

  /** One completed session as the statistics see it. */
  datatype Visit = Visit(day: string, month: string, minutes: int)

  /** A record after the check-outs `visits`, in order. */
  function Replay(r: UserStats, name: string, visits: seq<Visit>): UserStats
    decreases |visits|
  {
    if visits == [] then r
    else Replay(Credit(r, name, visits[0].day, visits[0].month, visits[0].minutes), name, visits[1..])
  }

  function TotalMinutes(visits: seq<Visit>): int
    decreases |visits|
  {
    if visits == [] then 0 else visits[0].minutes + TotalMinutes(visits[1..])
  }

  function MinutesOnDay(visits: seq<Visit>, day: string): int
    decreases |visits|
  {
    if visits == [] then 0
    else (if visits[0].day == day then visits[0].minutes else 0) + MinutesOnDay(visits[1..], day)
  }

  function MinutesInMonth(visits: seq<Visit>, month: string): int
    decreases |visits|
  {
    if visits == [] then 0
    else (if visits[0].month == month then visits[0].minutes else 0) + MinutesInMonth(visits[1..], month)
  }

  /**
   * After any run of check-outs the total has grown by the sum of their minutes, and
   * each day's and month's bucket by the minutes of the sessions on that day or month.
   */
  lemma {:induction false} ReplayAccumulates(r: UserStats, name: string, visits: seq<Visit>, day: string, month: string)
    ensures Replay(r, name, visits).total == r.total + TotalMinutes(visits)
    ensures Get(Replay(r, name, visits).weekly, day) == Get(r.weekly, day) + MinutesOnDay(visits, day)
    ensures Get(Replay(r, name, visits).daily, day) == Get(r.daily, day) + MinutesOnDay(visits, day)
    ensures Get(Replay(r, name, visits).monthly, month) == Get(r.monthly, month) + MinutesInMonth(visits, month)
    decreases |visits|
  {
    if visits != [] {
      var v := visits[0];
      ReplayAccumulates(Credit(r, name, v.day, v.month, v.minutes), name, visits[1..], day, month);
    }
  }

  // ---------------------------------------------------------------- the sweep

  /** Whole minutes a session with a valid start has been open at `now`. */
  function OpenMinutes(s: Session, now: int): int
    requires s.start.Some?
  {
    ElapsedMinutes(s.start.value, now)
  }

  /** The session has run for six hours or more and is closed without credit. */
  predicate TimedOut(s: Session, now: int)
  {
    s.start.Some? && OpenMinutes(s, now) >= AUTO_CHECKOUT_MINUTES
  }

  /** The sweep sends an encouragement: a new whole hour, above the last one encouraged. */
  predicate DueEncouragement(s: Session, now: int)
  {
    && s.start.Some?
    && OpenMinutes(s, now) < AUTO_CHECKOUT_MINUTES
    && WholeHours(OpenMinutes(s, now)) > 0
    && WholeHours(OpenMinutes(s, now)) > s.lastEncouraged
  }

  /**
   * One session's fate in a sweep at `now`: `None` when it is closed (six hours or
   * more), otherwise the session, with its marker raised to the current whole hour
   * exactly when an encouragement is due and its message was `delivered`.  A session
   * without a valid start is kept as it is.
   */
  function SweepSession(s: Session, now: int, delivered: bool): (r: Option<Session>)
    ensures r.None? <==> TimedOut(s, now)
    ensures r.Some? ==> r.value.start == s.start
    ensures r.Some? && DueEncouragement(s, now) && delivered ==> r.value.lastEncouraged == WholeHours(OpenMinutes(s, now))
    ensures r.Some? && !(DueEncouragement(s, now) && delivered) ==> r.value == s
    ensures r.Some? ==> r.value.lastEncouraged >= s.lastEncouraged
  {
    if s.start.None? then Some(s)
    else
      var minutes := OpenMinutes(s, now);
      var hours := WholeHours(minutes);
      if minutes >= AUTO_CHECKOUT_MINUTES then None
      else if hours > 0 && hours > s.lastEncouraged && delivered then Some(s.(lastEncouraged := hours))
      else Some(s)
  }

  /**
   * The session log after a sweep at `now`, where `delivered` holds the users whose
   * message went through: every session of six hours or more is gone, every other
   * one is kept with the same start, and no marker goes down.
   */
  function Swept(log: map<int, Session>, now: int, delivered: set<int>): (log': map<int, Session>)
    ensures forall uid :: uid in log' <==> uid in log && !TimedOut(log[uid], now)
    ensures forall uid :: uid in log' ==> log'[uid].start == log[uid].start && log'[uid].lastEncouraged >= log[uid].lastEncouraged
    ensures forall uid :: uid in log' && log[uid].start.None? ==> log'[uid] == log[uid]
    ensures forall uid :: uid in log' ==>
      log'[uid].lastEncouraged == if DueEncouragement(log[uid], now) && uid in delivered then WholeHours(OpenMinutes(log[uid], now)) else log[uid].lastEncouraged
  {
    map uid | uid in log && SweepSession(log[uid], now, uid in delivered).Some? :: SweepSession(log[uid], now, uid in delivered).value
  }

  /** The hours successfully announced to one session over sweeps at `times` with outcomes `delivered`. */
  function Announced(s: Session, times: seq<int>, delivered: seq<bool>): seq<int>
    requires |times| == |delivered|
    decreases |times|
  {
    if times == [] then []
    else match SweepSession(s, times[0], delivered[0])
      case None => []
      case Some(s') =>
        (if DueEncouragement(s, times[0]) && delivered[0] then [WholeHours(OpenMinutes(s, times[0]))] else [])
        + Announced(s', times[1..], delivered[1..])
  }

  /** Each element below every later one. */
  predicate Increasing(a: seq<int>)
  {
    forall i, j :: 0 <= i < j < |a| ==> a[i] < a[j]
  }

  /**
   * Whatever the clock readings, each hour is announced at most once: the announced
   * hours only go up, start above the session's marker and lie between 1 and 5.
   */
  lemma {:induction false} AnnouncedIncreasing(s: Session, times: seq<int>, delivered: seq<bool>)
    requires |times| == |delivered|
    ensures forall h :: h in Announced(s, times, delivered) ==> s.lastEncouraged < h && 1 <= h <= 5
    ensures Increasing(Announced(s, times, delivered))
    decreases |times|
  {
    if times != [] {
      match SweepSession(s, times[0], delivered[0])
      case None =>
      case Some(s') =>
        AnnouncedIncreasing(s', times[1..], delivered[1..]);
        var rest := Announced(s', times[1..], delivered[1..]);
        if DueEncouragement(s, times[0]) && delivered[0] {
          var h := WholeHours(OpenMinutes(s, times[0]));
          assert h <= 5;
          assert s'.lastEncouraged == h;
          var a := [h] + rest;
          assert Announced(s, times, delivered) == a;
          forall i, j | 0 <= i < j < |a|
            ensures a[i] < a[j]
          {
            assert a[j] == rest[j - 1] && rest[j - 1] in rest;
            if i > 0 {
              assert a[i] == rest[i - 1];
            }
          }
        } else {
          assert s' == s;
          assert Announced(s, times, delivered) == rest;
        }
    }
  }

  lemma {:induction false} IncreasingBounded(a: seq<int>, lo: int, hi: int)
    requires forall h :: h in a ==> lo <= h <= hi
    requires Increasing(a)
    ensures |a| <= if hi < lo then 0 else hi - lo + 1
    decreases |a|
  {
    if a != [] {
      assert a[0] in a;
      forall h | h in a[1..]
        ensures a[0] + 1 <= h <= hi
      {
        var k :| 0 <= k < |a[1..]| && a[1..][k] == h;
        assert a[k + 1] == h && h in a;
      }
      IncreasingBounded(a[1..], a[0] + 1, hi);
    }
  }

  /** No session receives more than five encouragements before the six-hour cut-off. */
  lemma AtMostFiveEncouragements(s: Session, times: seq<int>, delivered: seq<bool>)
    requires |times| == |delivered|
    ensures |Announced(s, times, delivered)| <= 5
  {
    AnnouncedIncreasing(s, times, delivered);
    IncreasingBounded(Announced(s, times, delivered), 1, 5);
  }

  // ---------------------------------------------------------------- the weekly reset

  /** A backed-up week: the user's name and the weekly table before it was cleared. */
  datatype WeekBackup = WeekBackup(username: string, weeklyData: map<string, int>)

  /** Every weekly table emptied; names, totals, daily and monthly tables untouched. */
  function ClearWeeks(users: map<string, UserStats>): (users': map<string, UserStats>)
    ensures users'.Keys == users.Keys
    ensures forall k :: k in users' ==> users'[k].weekly == map[]
    ensures forall k :: k in users' ==>
      && users'[k].username == users[k].username
      && users'[k].total == users[k].total
      && users'[k].daily == users[k].daily
      && users'[k].monthly == users[k].monthly
  {
    map k | k in users :: users[k].(weekly := map[])
  }

  /** The backup: exactly the users with a non-empty week, with that week. */
  function BackupWeeks(users: map<string, UserStats>): (backup: map<string, WeekBackup>)
    ensures forall k :: k in backup <==> k in users && users[k].weekly != map[]
    ensures forall k :: k in backup ==> backup[k] == WeekBackup(users[k].username, users[k].weekly)
  {
    map k | k in users && users[k].weekly != map[] :: WeekBackup(users[k].username, users[k].weekly)
  }

  /** Putting the backed-up weeks back into a table. */
  function RestoreWeeks(users: map<string, UserStats>, backup: map<string, WeekBackup>): map<string, UserStats>
  {
    map k | k in users :: if k in backup then users[k].(weekly := backup[k].weeklyData) else users[k]
  }

  /** The backup loses nothing: restoring it after the reset gives the table before the reset. */
  lemma RestoreUndoesClear(users: map<string, UserStats>)
    ensures RestoreWeeks(ClearWeeks(users), BackupWeeks(users)) == users
  {
  }
}
