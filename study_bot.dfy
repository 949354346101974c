/**
 * The bot's state and the commands and scheduled jobs that read and change it.
 *
 * Each command or job is one method, run to completion.  What the outside world
 * decides is passed in: the clock (`now`, in seconds), today's date key and month
 * key, the author's display name, whether a reply or direct message went through,
 * and the weekday.  The messages themselves are not modelled; a job returns what it
 * would send.
 */
module StudyBot {
  import opened Wrappers
  import opened Clock
  import opened Decimal
  import opened Records
  import opened WeeklyChart
  import opened AttendanceFile

  /** The periods the statistics command accepts: daily, weekly (the default) and monthly. */
  const DAILY := "일간"
  const WEEKLY := "주간"
  const MONTHLY := "월간"

  datatype CheckInResult =
    | AlreadyCheckedIn     // the user already has an open session
    | CheckedIn            // a session was opened and confirmed
    | CheckInError         // the confirmation could not be sent; the session was taken back

  datatype CheckOutResult =
    | NotCheckedIn         // no open session
    | BadStartTime         // the stored session had no valid start time
    | Recorded(minutes: nat)

  datatype StatsReply =
    | NoRecord
    | TodayMinutes(username: string, minutes: int)
    | MonthMinutes(username: string, minutes: int)
    | WeekText(username: string, total: int, weeklySum: int)
    | WeekChart(username: string, total: int, weeklySum: int, chart: Chart)
    | UnknownPeriod

  /** The evening announcement: the channel it goes to and how many sessions are open. */
  datatype Reminder = Reminder(channel: int, activeUsers: nat)

  /** One Saturday summary: the recipient, the name it greets, the week's minutes and its chart. */
  datatype Summary = Summary(uid: int, username: string, weeklySum: int, chart: Chart)

  /** The summary for the statistics key `k`, whose week is not empty and which reads as an id. */
  function SummaryOf(users: map<string, UserStats>, k: string): Summary
    requires k in users && Parse(k).Some?
  {
    Summary(Parse(k).value, users[k].username, WeeklySum(users[k].weekly), WeeklyBars(users[k].weekly))
  }

  /**
   * Who gets a Saturday summary: every user whose week is not empty and whose key is
   * an integer; each summary carries that week's sum and chart.
   */
  function SummaryOutbox(users: map<string, UserStats>): (outbox: map<string, Summary>)
    ensures forall k :: k in outbox <==> k in users && users[k].weekly != map[] && Parse(k).Some?
    ensures forall k :: k in outbox ==>
      && outbox[k].uid == Parse(k).value
      && outbox[k].username == users[k].username
      && outbox[k].weeklySum == WeeklySum(users[k].weekly)
      && outbox[k].chart == WeeklyBars(users[k].weekly)
  {
    map k | k in users && users[k].weekly != map[] && Parse(k).Some? :: SummaryOf(users, k)
  }

  class Bot {
    /** `attendance_log`: open sessions by user id. */
    var attendance: map<int, Session>
    /** `user_data`: statistics by `str(user id)`. */
    var userData: map<string, UserStats>

    /** Both tables start empty. */
    constructor ()
      ensures attendance == map[] && userData == map[]
    {
      attendance := map[];
      userData := map[];
    }

    /**
     * `load_attendance_log`: a missing or undecodable file gives an empty log;
     * otherwise each entry that reads as a session is put in, later entries winning.
     */
    method LoadAttendanceLog(file: Option<seq<(string, StoredSession)>>)
      modifies this
      ensures attendance == if file.Some? then ReadLog(file.value) else map[]
      ensures userData == old(userData)
    {
      attendance := map[];
      if file.Some? {
        var entries := file.value;
        for i := 0 to |entries|
          invariant attendance == ReadLog(entries[..i])
          invariant userData == old(userData)
        {
          assert entries[..i + 1][..i] == entries[..i];
          var read := ReadEntry(entries[i].0, entries[i].1);
          if read.Some? {
            attendance := attendance[read.value.0 := read.value.1];
          }
        }
        assert entries[..|entries|] == entries;
      }
    }

    /** `save_attendance_log`: the JSON object written, sessions without a valid start left out. */
    method SaveAttendanceLog() returns (file: map<string, StoredSession>)
      ensures file == WriteLog(attendance)
    {
      file := map[];
      var pending := attendance.Keys;
      ShowInjectiveAll();
      while pending != {}
        invariant pending <= attendance.Keys
        invariant forall uid :: uid in attendance && uid !in pending && attendance[uid].start.Some? ==>
          Show(uid) in file && file[Show(uid)] == Store(attendance[uid])
        invariant forall k :: k in file ==> exists uid :: uid in attendance && uid !in pending && attendance[uid].start.Some? && Show(uid) == k
        decreases pending
      {
        var uid := Pick(pending);
        if attendance[uid].start.Some? {
          file := file[Show(uid) := Store(attendance[uid])];
        }
        pending := pending - {uid};
      }
      WrittenFileIsWriteLog(attendance, file);
    }

    /**
     * `check_in`: a user with an open session is told so and nothing changes;
     * otherwise a session starting `now` with marker 0 is opened, and taken back
     * again if the confirmation cannot be sent.
     */
    method CheckIn(uid: int, now: int, replied: bool) returns (r: CheckInResult)
      modifies this
      ensures uid in old(attendance) ==> r == AlreadyCheckedIn && attendance == old(attendance)
      ensures uid !in old(attendance) && replied ==> r == CheckedIn && attendance == old(attendance)[uid := Session(Some(now), 0)]
      ensures uid !in old(attendance) && !replied ==> r == CheckInError && attendance == old(attendance)
      ensures userData == old(userData)
    {
      if uid in attendance {
        return AlreadyCheckedIn;
      }
      attendance := attendance[uid := Session(Some(now), 0)];
      if replied {
        r := CheckedIn;
      } else {
        attendance := attendance - {uid};
        r := CheckInError;
      }
    }

    /**
     * `check_out`: without an open session nothing changes.  A session without a
     * valid start is dropped and credits nothing.  Otherwise the elapsed minutes
     * (never negative) are credited to the user's record under `str(uid)`, created
     * zeroed if missing, and the session is closed.  The closing and the dropping
     * happen after the reply, so a reply that cannot be sent leaves the session open.
     */
    method CheckOut(uid: int, now: int, name: string, day: string, month: string, replied: bool) returns (r: CheckOutResult)
      modifies this
      ensures uid !in old(attendance) ==> r == NotCheckedIn && attendance == old(attendance) && userData == old(userData)
      ensures uid in old(attendance) && old(attendance)[uid].start.None? ==>
        && r == BadStartTime
        && userData == old(userData)
        && attendance == if replied then old(attendance) - {uid} else old(attendance)
      ensures uid in old(attendance) && old(attendance)[uid].start.Some? ==>
        && r == Recorded(CreditedMinutes(old(attendance)[uid].start.value, now))
        && userData == CreditUser(old(userData), Show(uid), name, day, month, r.minutes)
        && attendance == if replied then old(attendance) - {uid} else old(attendance)
    {
      if uid !in attendance {
        return NotCheckedIn;
      }
      var start := attendance[uid].start;
      if start.None? {
        r := BadStartTime;
      } else {
        var minutes := ElapsedMinutes(start.value, now);
        if minutes < 0 {
          minutes := 0;
        }
        assert minutes == CreditedMinutes(start.value, now);
        var key := Show(uid);
        var record := if key in userData then userData[key] else NewRecord(name);
        record := record.(username := name);
        record := record.(total := record.total + minutes);
        record := record.(weekly := Bump(record.weekly, day, minutes));
        record := record.(daily := Bump(record.daily, day, minutes));
        record := record.(monthly := Bump(record.monthly, month, minutes));
        assert record == Credit(RecordOf(userData, key, name), name, day, month, minutes);
        CreditUserUpdates(userData, key, name, day, month, minutes);
        userData := userData[key := record];
        r := Recorded(minutes);
      }
      if replied {
        attendance := attendance - {uid};
      }
    }

    /**
     * `encourage_message_loop`, one run at `now`; `delivered` holds the users whose
     * direct message went through.  Sessions of six hours or more are collected and
     * removed at the end; a due encouragement raises the marker only when delivered.
     * The statistics are not touched.  `saved` says whether the log was written back.
     */
    method EncourageSweep(now: int, delivered: set<int>) returns (saved: bool)
      modifies this
      ensures attendance == Swept(old(attendance), now, delivered)
      ensures userData == old(userData)
      ensures saved <==> exists uid :: uid in old(attendance) && TimedOut(old(attendance)[uid], now)
    {
      ghost var log := attendance;
      var toRemove: seq<int> := [];
      ghost var done: set<int> := {};
      var pending := attendance.Keys;
      while pending != {}
        invariant done !! pending && done + pending == log.Keys
        invariant attendance == Marked(log, done, now, delivered)
        invariant forall uid :: uid in toRemove <==> uid in done && TimedOut(log[uid], now)
        invariant userData == old(userData)
        decreases pending
      {
        var uid := Pick(pending);
        MarkedAdd(log, done, now, delivered, uid);
        pending := pending - {uid};
        done := done + {uid};
        if uid in attendance {
          var info := attendance[uid];
          if info.start.Some? {
            var minutes := ElapsedMinutes(info.start.value, now);
            var hours := WholeHours(minutes);
            if minutes >= AUTO_CHECKOUT_MINUTES {
              toRemove := toRemove + [uid];
            } else if hours > 0 && hours > info.lastEncouraged && uid in delivered {
              attendance := attendance[uid := info.(lastEncouraged := hours)];
            }
          }
        }
      }
      ghost var beforeRemoval := attendance;
      assert forall uid :: uid in toRemove ==> uid in beforeRemoval;
      saved := false;
      for i := 0 to |toRemove|
        invariant attendance == Without(beforeRemoval, toRemove[..i])
        invariant saved <==> i > 0
        invariant userData == old(userData)
      {
        var uid := toRemove[i];
        WithoutAdd(beforeRemoval, toRemove[..i], uid);
        assert toRemove[..i + 1] == toRemove[..i] + [uid];
        if i == 0 {
          assert uid in toRemove;
          assert attendance == beforeRemoval;
        }
        if uid in attendance {
          attendance := attendance - {uid};
          saved := true;
        }
      }
      assert toRemove[..|toRemove|] == toRemove;
      RemovedIffTimedOut(log, now, toRemove);
      SweepFinish(log, now, delivered, beforeRemoval, attendance, toRemove);
    }

    /**
     * `weekly_reset_loop`, one run on `weekday`: on a Monday every non-empty week is
     * copied into the backup and cleared; on any other day nothing happens.
     */
    method WeeklyReset(weekday: Weekday) returns (backup: map<string, WeekBackup>)
      modifies this
      ensures weekday == MONDAY ==> userData == ClearWeeks(old(userData)) && backup == BackupWeeks(old(userData))
      ensures weekday != MONDAY ==> userData == old(userData) && backup == map[]
      ensures attendance == old(attendance)
    {
      backup := map[];
      if weekday != MONDAY {
        return;
      }
      ghost var users := userData;
      ghost var done: set<string> := {};
      var pending := userData.Keys;
      while pending != {}
        invariant done !! pending && done + pending == users.Keys
        invariant userData == Overlay(users, ClearWeeks(users), done)
        invariant backup == Restrict(BackupWeeks(users), done)
        invariant attendance == old(attendance)
        decreases pending
      {
        var k := Pick(pending);
        OverlayAdd(users, ClearWeeks(users), done, k);
        RestrictAdd(BackupWeeks(users), done, k);
        pending := pending - {k};
        done := done + {k};
        if userData[k].weekly != map[] {
          backup := backup[k := WeekBackup(userData[k].username, userData[k].weekly)];
          userData := userData[k := userData[k].(weekly := map[])];
        }
      }
      OverlayAll(users, ClearWeeks(users));
      RestrictAll(BackupWeeks(users), done);
    }

    /**
     * `daily_study_reminder`, one run on `weekday`: nothing on Saturday or Sunday, nor
     * when the channel setting is missing, empty, not an integer, or not a text channel
     * (`textChannels`); otherwise one message counting the open sessions.
     */
    method DailyStudyReminder(weekday: Weekday, channelSetting: Option<string>, textChannels: set<int>) returns (r: Option<Reminder>)
      ensures r.Some? <==>
        && weekday < SATURDAY
        && channelSetting.Some? && Parse(channelSetting.value).Some?
        && Parse(channelSetting.value).value in textChannels
      ensures r.Some? ==> r.value.channel == Parse(channelSetting.value).value && r.value.activeUsers == |attendance|
    {
      if weekday >= SATURDAY {
        return None;
      }
      if channelSetting.None? || channelSetting.value == "" {
        return None;
      }
      var channel := Parse(channelSetting.value);
      if channel.None? || channel.value !in textChannels {
        return None;
      }
      r := Some(Reminder(channel.value, |attendance|));
    }

    /**
     * `weekly_summary_dm`, one run on `weekday`: on Saturday, a summary for every user
     * with a non-empty week whose key is an integer; on any other day none.
     */
    method WeeklySummaryDm(weekday: Weekday) returns (outbox: map<string, Summary>)
      ensures outbox == if weekday == SATURDAY then SummaryOutbox(userData) else map[]
    {
      outbox := map[];
      if weekday != SATURDAY {
        return;
      }
      ghost var done: set<string> := {};
      var pending := userData.Keys;
      while pending != {}
        invariant done !! pending && done + pending == userData.Keys
        invariant outbox == Restrict(SummaryOutbox(userData), done)
        decreases pending
      {
        var k := Pick(pending);
        RestrictAdd(SummaryOutbox(userData), done, k);
        pending := pending - {k};
        done := done + {k};
        var weekly := userData[k].weekly;
        if weekly != map[] {
          var uid := Parse(k);
          if uid.Some? {
            var chart := WeeklyBars(weekly);
            outbox := outbox[k := Summary(uid.value, userData[k].username, Sum(chart.values), chart)];
          }
        }
      }
      RestrictAll(SummaryOutbox(userData), done);
    }

    /**
     * `stats`: a user without a record is told so whatever the period; otherwise today's
     * minutes, this month's minutes, or the total with this week's sum and, when the
     * week has entries, its chart.  Any other period is refused.
     */
    method Stats(uid: int, period: string, today: string, month: string) returns (r: StatsReply)
      ensures Show(uid) !in userData ==> r == NoRecord
      ensures Show(uid) in userData ==> var u := userData[Show(uid)];
        && (period == DAILY ==> r == TodayMinutes(u.username, Get(u.daily, today)))
        && (period == MONTHLY ==> r == MonthMinutes(u.username, Get(u.monthly, month)))
        && (period == WEEKLY && u.weekly == map[] ==> r == WeekText(u.username, u.total, 0))
        && (period == WEEKLY && u.weekly != map[] ==> r == WeekChart(u.username, u.total, WeeklySum(u.weekly), WeeklyBars(u.weekly)))
        && (period != DAILY && period != MONTHLY && period != WEEKLY ==> r == UnknownPeriod)
    {
      var key := Show(uid);
      if key !in userData {
        return NoRecord;
      }
      var u := userData[key];
      if period == DAILY {
        r := TodayMinutes(u.username, Get(u.daily, today));
      } else if period == MONTHLY {
        r := MonthMinutes(u.username, Get(u.monthly, month));
      } else if period == WEEKLY {
        var weeklySum := WeeklySum(u.weekly);
        if u.weekly == map[] {
          r := WeekText(u.username, u.total, weeklySum);
        } else {
          r := WeekChart(u.username, u.total, weeklySum, WeeklyBars(u.weekly));
        }
      } else {
        r := UnknownPeriod;
      }
    }
  }

  /** The next key of a snapshot of a table's keys; the order is not modelled. */
  method Pick<K>(pending: set<K>) returns (k: K)
    requires pending != {}
    ensures k in pending
  {
    k :| k in pending;
  }

  /** The log part-way through a sweep: the sessions of users in `done` have had their turn. */
  function Marked(log: map<int, Session>, done: set<int>, now: int, delivered: set<int>): map<int, Session>
  {
    map uid | uid in log ::
      if uid in done && !TimedOut(log[uid], now) then SweepSession(log[uid], now, uid in delivered).value else log[uid]
  }

  /** One more user's turn in a sweep. */
  lemma MarkedAdd(log: map<int, Session>, done: set<int>, now: int, delivered: set<int>, u: int)
    requires u in log && u !in done
    ensures Marked(log, done + {u}, now, delivered) ==
      Marked(log, done, now, delivered)[u := if TimedOut(log[u], now) then log[u] else SweepSession(log[u], now, u in delivered).value]
  {
  }

  /** A table built key by key as `SaveAttendanceLog` does it is the one `WriteLog` describes. */
  lemma WrittenFileIsWriteLog(log: map<int, Session>, file: map<string, StoredSession>)
    requires forall uid :: uid in log && log[uid].start.Some? ==> Show(uid) in file && file[Show(uid)] == Store(log[uid])
    requires forall k :: k in file ==> exists uid :: uid in log && log[uid].start.Some? && Show(uid) == k
    ensures file == WriteLog(log)
  {
  }

  lemma CreditUserUpdates(users: map<string, UserStats>, key: string, name: string, day: string, month: string, minutes: int)
    ensures CreditUser(users, key, name, day, month, minutes) == users[key := Credit(RecordOf(users, key, name), name, day, month, minutes)]
  {
  }

  /** The log with the sessions of `ids` removed. */
  function Without(log: map<int, Session>, ids: seq<int>): map<int, Session>
  {
    map uid | uid in log && uid !in ids :: log[uid]
  }

  /** Removing one more session. */
  lemma WithoutAdd(log: map<int, Session>, ids: seq<int>, u: int)
    ensures Without(log, ids + [u]) == Without(log, ids) - {u}
  {
  }

  /** The entries of `m` whose keys are in `done`: a table built so far by a loop over `m`'s keys. */
  function Restrict<K, V>(m: map<K, V>, done: set<K>): map<K, V>
  {
    map k | k in m && k in done :: m[k]
  }

  lemma RestrictAdd<K, V>(m: map<K, V>, done: set<K>, k: K)
    ensures Restrict(m, done + {k}) == if k in m then Restrict(m, done)[k := m[k]] else Restrict(m, done)
  {
  }

  lemma RestrictAll<K, V>(m: map<K, V>, done: set<K>)
    requires m.Keys <= done
    ensures Restrict(m, done) == m
  {
  }

  /** `m` with the entries for the keys in `done` taken from `m'`: a table updated so far in place. */
  function Overlay<K, V>(m: map<K, V>, m': map<K, V>, done: set<K>): map<K, V>
    requires m.Keys == m'.Keys
  {
    map k | k in m :: if k in done then m'[k] else m[k]
  }

  lemma OverlayAdd<K, V>(m: map<K, V>, m': map<K, V>, done: set<K>, k: K)
    requires m.Keys == m'.Keys && k in m
    ensures Overlay(m, m', done + {k}) == Overlay(m, m', done)[k := m'[k]]
  {
  }

  lemma OverlayAll<K, V>(m: map<K, V>, m': map<K, V>)
    requires m.Keys == m'.Keys
    ensures Overlay(m, m', m.Keys) == m'
  {
  }

  /** The sweep collects some session to remove exactly when some session has timed out. */
  lemma RemovedIffTimedOut(log: map<int, Session>, now: int, removed: seq<int>)
    requires forall uid :: uid in removed <==> uid in log && TimedOut(log[uid], now)
    ensures |removed| > 0 <==> exists uid :: uid in log && TimedOut(log[uid], now)
  {
    if |removed| > 0 {
      var u := removed[0];
      assert u in removed;
      assert u in log && TimedOut(log[u], now);
    }
    forall uid | uid in log && TimedOut(log[uid], now)
      ensures |removed| > 0
    {
      assert uid in removed;
    }
  }

  /** Removing the timed-out sessions from the fully marked log leaves the swept log. */
  lemma SweepFinish(log: map<int, Session>, now: int, delivered: set<int>, before: map<int, Session>, after: map<int, Session>, removed: seq<int>)
    requires before == Marked(log, log.Keys, now, delivered)
    requires forall uid :: uid in removed <==> uid in log && TimedOut(log[uid], now)
    requires after == Without(before, removed)
    ensures after == Swept(log, now, delivered)
  {
    var w := Swept(log, now, delivered);
    forall uid | uid in after
      ensures uid in w && w[uid] == after[uid]
    {
      assert uid in log && !TimedOut(log[uid], now);
      assert after[uid] == SweepSession(log[uid], now, uid in delivered).value;
    }
    forall uid | uid in w
      ensures uid in after
    {
      assert uid in before && uid !in removed;
    }
  }
}
