# Study bot attendance and study-time bookkeeping, in Dafny

A Discord study bot (`main.py`) keeps two tables:

- the **attendance log**: open study sessions by user id, each with a start time and the last whole hour for which the user was encouraged;
- the **user data**: statistics by `str(user id)`, each a record with a username, a total, and per-day, per-day-of-this-week and per-month minute tables.

The commands `!입장` (check in) and `!퇴장` (check out) open and close sessions, and check-out credits the elapsed minutes. Four scheduled jobs also use the tables:

- a ten-minute sweep that encourages users at each new hour and closes sessions of six hours or more without credit;
- a Monday reset that backs up and clears every weekly table;
- a weekday evening reminder that counts the open sessions;
- a Saturday summary, sent by direct message, with the week's sum and chart.

`!통계` (statistics) reports daily, weekly or monthly minutes. The attendance log is saved to and loaded from a JSON file.

The model is a class `StudyBot.Bot` with the two tables as fields. Each command and job is one method, run to completion. Each method is proved against specification functions whose properties are proved separately:

| file | module | contents |
|---|---|---|
| `wrappers.dfy` | `Wrappers` | `Option` |
| `clock.dfy` | `Clock` | elapsed minutes (truncation toward zero), credited minutes, whole hours, weekdays, the six-hour cut-off |
| `decimal.dfy` | `Decimal` | `str` and `int` on ids, with their round trip |
| `date_order.dfy` | `DateOrder` | Python's string order and `sorted` on a set of date keys |
| `weekly_chart.dfy` | `WeeklyChart` | the weekly sum, the y-axis top with its floor of 60, the 60-minute ticks, the date-ordered bars |
| `records.dfy` | `Records` | sessions and user records; crediting a check-out; one sweep; the weekly reset and its backup |
| `attendance_file.dfy` | `AttendanceFile` | what saving writes and loading reads back, and the save/load round trip |
| `study_bot.dfy` | `StudyBot` | the `Bot` class and its commands and jobs |

What the outside world decides is passed in as parameters:

- the clock, as integer seconds;
- today's date key and month key, as strings;
- the author's name;
- whether a reply went through (`replied`) and which direct messages went through (`delivered`);
- the weekday, from 0 for Monday to 6 for Sunday;
- the channel setting and the set of text channels.

A job returns what it would send.

## Model

| member | source | states |
|---|---|---|
| Clock.ElapsedMinutes | main.py:195 | `int(seconds / 60)` truncates toward zero: for a non-negative span m whole minutes fit and m+1 do not; for a negative span the bound is mirrored |
| Clock.CreditedMinutes | main.py:491-494 | the credited minutes are never negative: 0 when the clock is behind the start, otherwise the largest m with start + 60m ≤ now |
| Clock.WholeHours | main.py:196 | `minutes // 60` is the h with 60h ≤ minutes < 60(h+1) |
| Decimal.Parse | main.py:130 | `int(s)` succeeds exactly on an optional minus sign followed by at least one ASCII digit, and the sign of the result follows the minus sign |
| Decimal.ParseShow | main.py:90-130 | a key written as `str(uid)` reads back as `uid` under `int` |
| Decimal.ShowInjective | main.py:497 | distinct ids get distinct statistics keys, and equal keys mean equal ids |
| DateOrder.LessTransitive | main.py:363 | Python's string order, which `sorted` uses on date keys, is transitive (with `LessIrreflexive`, `LessAsymmetric` and `LessTotal` it is a strict total order) |
| DateOrder.Sorted | main.py:363 | `sorted` of a set of keys lists every key exactly once, in strictly increasing order |
| WeeklyChart.AxisTop | main.py:372-376 | the axis top is 0 for no values; otherwise it is positive and at least every value, it is the maximum when some value is positive, and it is 60 when none is |
| WeeklyChart.RangeShape | main.py:387 | Python's `range(start, stop, step)` is non-empty exactly when start < stop; its i-th element is start + i·step; its last element is below stop and within one step of it |
| WeeklyChart.YTicks | main.py:387 | the ticks `range(0, top + 60, 60)` are the multiples of 60 from 0, strictly increasing; the last tick is at least the top and less than the top + 60 |
| WeeklyChart.WeeklyBars | main.py:363-376 | the chart lists each day of the week once, in date order, each with that day's minutes, and its axis and ticks are computed from those values; a non-empty week has a positive axis top that covers every day |
| WeeklyChart.SumAnyOrder | main.py:584 | summing the week's values in any order that lists each day once gives the date-ordered weekly sum, so `!통계` and the Saturday summary report the same minutes |
| Records.CreditUser | main.py:496-521 | a check-out of m minutes renames the record and adds m to the total, to `weekly[day]`, `daily[day]` and `monthly[month]`, with missing keys counting as 0 and a missing record created zeroed; no other key, day, month or user changes |
| Records.ReplayAccumulates | main.py:513-521 | after any sequence of check-outs, the total has grown by the sum of their minutes, and each day's and month's bucket by the minutes credited to that day or month |
| Records.SweepSession | main.py:184-236 | one sweep closes a session exactly when it has a valid start and 360 minutes or more; it keeps the start; it raises the marker to the current whole hour exactly when an encouragement is due and was delivered; it never lowers the marker; it leaves a session without a valid start as it is |
| Records.Swept | main.py:178-251 | after a sweep the log holds exactly the sessions under six hours and those without a valid start, each with the same start and a marker that went up only for delivered encouragements |
| Records.AnnouncedIncreasing | main.py:196-226 | over any sequence of sweeps, the hours announced to a session are strictly increasing, above its initial marker, and between 1 and 5 |
| Records.AtMostFiveEncouragements | main.py:196-226 | no session is encouraged more than five times |
| Records.ClearWeeks | main.py:264-271 | the reset empties every weekly table and keeps every user, name, total, daily and monthly table |
| Records.BackupWeeks | main.py:264-269 | the backup holds exactly the users with a non-empty week, each with their name and that week |
| Records.RestoreUndoesClear | main.py:264-271 | putting the backed-up weeks back into the cleared table gives back the table before the reset |
| AttendanceFile.ReadEntry | main.py:114-133 | an entry is loaded exactly when its key is an integer and its start is a readable timestamp; a timestamp without an offset is read as Seoul time; a missing marker becomes 0 |
| AttendanceFile.ReadLogHas | main.py:111-137 | after loading, a user has a session exactly when some entry of the file reads as theirs |
| AttendanceFile.ReadLogLastWins | main.py:111-137 | the loaded session is the one from the last entry that reads as the user's |
| AttendanceFile.WriteLog | main.py:84-96 | saving writes every session with a valid start under `str(uid)`, as a Seoul timestamp with its offset and its marker, and writes nothing else |
| AttendanceFile.ReadWriteLog | main.py:82-133 | loading a saved file, whatever the order of its entries, restores exactly the sessions that had a valid start |
| StudyBot.SummaryOutbox | main.py:340-370 | a Saturday summary goes to exactly the users with a non-empty week and an integer key, with their id, name, weekly sum and chart |
| StudyBot.Bot.constructor | main.py:48-50 | both tables start empty |
| StudyBot.Bot.LoadAttendanceLog | main.py:104-146 | a missing or undecodable file gives an empty log; otherwise the log is the one read entry by entry, in file order, and the statistics are untouched |
| StudyBot.Bot.SaveAttendanceLog | main.py:82-101 | the object written is `WriteLog` of the log |
| StudyBot.Bot.CheckIn | main.py:447-465 | a user with an open session gets "already checked in" and nothing changes; otherwise a session starting now with marker 0 is added and no other entry changes, unless the confirmation fails, in which case it is taken back; the statistics are untouched |
| StudyBot.Bot.CheckOut | main.py:468-541 | without a session nothing changes; a session without a valid start credits nothing and is dropped once the reply is sent; otherwise the statistics become `CreditUser` of the credited minutes, and the session is closed once the reply is sent |
| StudyBot.Bot.EncourageSweep | main.py:168-251 | the log becomes `Swept` of the old log; the statistics are untouched; the log is saved exactly when some session timed out |
| StudyBot.Bot.WeeklyReset | main.py:255-272 | on a Monday the statistics become `ClearWeeks` and the backup is `BackupWeeks` of the old statistics; on any other day nothing changes; the log is untouched |
| StudyBot.Bot.DailyStudyReminder | main.py:294-323 | a reminder is sent exactly on a weekday when the channel setting is an integer naming a text channel, and it counts the open sessions |
| StudyBot.Bot.WeeklySummaryDm | main.py:335-370 | on a Saturday the summaries are `SummaryOutbox` of the statistics; on any other day there are none |
| StudyBot.Bot.Stats | main.py:556-625 | a user without a record gets "no record" whatever the period; otherwise `일간` gives today's minutes, `월간` the month's, `주간` the total with the week's sum and, for a non-empty week, its chart, and any other period is refused |

## Left out

- Discord itself is left out: the client, commands, `on_ready`, error handlers, `fetch_user`, `send`. Reply and direct-message outcomes are inputs, and the jobs return what they would send.
- `tasks.loop` scheduling and async suspension points are left out. Each job is one sequential run, so the `KeyError` path of check-out (main.py:544-549) and the "checked out during the sweep" skip (main.py:179-180) cannot occur in the model.
- The order in which dictionary keys are visited is not modelled. Every loop is proved for any order.
- matplotlib drawing, labels, font setup, `savefig` and temporary files are left out. Only the bars, the axis top, the ticks and the sum are modelled.
- JSON and CSV I/O are left out, including the study-log row written at check-out and the backup file with its `strftime` name. A file is the sequence of its `(key, entry)` pairs. `load_user_data` and `save_user_data` are not part of this model.
- StudyBot.Bot.LoadAttendanceLog: an entry whose value is not a JSON object, or whose marker is JSON `null`, is not modelled. The model has only absent markers, which read as 0.
- Records: records with missing fields, and the username fallbacks of the Saturday job and `!통계`, are not modelled. Every record has all its fields.
- Time zones are reduced to a fixed Seoul offset of +09:00. Seoul's historical daylight-saving rules are not modelled, nor the offset itself being carried in memory. Times are whole seconds, so sub-second parts are dropped before dividing by 60.
- Decimal.Parse accepts only an optional `-` followed by ASCII digits. Python's `int` also accepts `+`, surrounding whitespace, underscores between digits and non-ASCII digits.
- StudyBot.Bot.Stats takes the period as given. `.lower()` is not modelled: it leaves the Korean period names unchanged and only affects Latin input, which is refused either way.
- `keep_alive`, `load_dotenv`, `os.getenv` and `bot.run` are configuration and process I/O. The channel setting is an input.
- For a week of `{60, 30}`, the ticks are `[0, 60]`. The axis top is 60 and `range(0, 120, 60)` stops before 120, so no tick reaches 120. The model follows the code.
