/**
 * How the session log is stored between runs.  Saving writes, for every session with
 * a valid start, `str(uid)` to its start as a Seoul-time ISO timestamp and its marker;
 * loading reads each entry back, skips an entry whose key is not an integer or whose
 * start is missing or unreadable, reads a timestamp without a zone as Seoul time, and
 * gives a missing marker the value 0.  JSON itself is not modelled: a file is the
 * sequence of its `(key, entry)` pairs in the order `json.load` yields them.
 */
module AttendanceFile {
  import opened Wrappers
  import opened Clock
  import opened Decimal
  import opened Records

  /** The start field of a stored entry. */
  datatype StoredStart =
    | Missing                                       // absent, null or the empty string
    | Unreadable                                    // `datetime.fromisoformat` rejects it
    | Iso(wallClock: int, utcOffset: Option<int>)   // local wall-clock seconds and the offset written with them, if any

  /** A stored entry: its start field and its marker field (`None` when absent). */
  datatype StoredSession = StoredSession(start: StoredStart, lastEncouraged: Option<int>)

  /** The instant an ISO timestamp denotes; one without an offset is taken as Seoul time. */
  function Instant(wallClock: int, utcOffset: Option<int>): int
  {
    wallClock - utcOffset.GetOr(SEOUL_UTC_OFFSET)
  }

  /** One entry as loading reads it; `None` when it is skipped. */
  function ReadEntry(key: string, stored: StoredSession): (r: Option<(int, Session)>)
    ensures r.Some? <==> Parse(key).Some? && stored.start.Iso?
    ensures r.Some? ==> r.value.0 == Parse(key).value
    ensures r.Some? ==> r.value.1.start == Some(Instant(stored.start.wallClock, stored.start.utcOffset))
    ensures r.Some? ==> r.value.1.lastEncouraged == if stored.lastEncouraged.Some? then stored.lastEncouraged.value else 0
  {
    match stored.start
    case Missing => None
    case Unreadable => None
    case Iso(wallClock, utcOffset) =>
      match Parse(key)
      case None => None
      case Some(uid) => Some((uid, Session(Some(Instant(wallClock, utcOffset)), stored.lastEncouraged.GetOr(0))))
  }

  /** The entry `e` is read as a session of `uid`. */
  predicate ReadsAs(e: (string, StoredSession), uid: int)
  {
    ReadEntry(e.0, e.1).Some? && ReadEntry(e.0, e.1).value.0 == uid
  }

  /** The log that loading builds from the entries of a file, in file order. */
  function ReadLog(entries: seq<(string, StoredSession)>): map<int, Session>
    decreases |entries|
  {
    if entries == [] then map[]
    else
      var log := ReadLog(entries[..|entries| - 1]);
      var e := entries[|entries| - 1];
      match ReadEntry(e.0, e.1)
      case None => log
      case Some(read) => log[read.0 := read.1]
  }

  /** A user has a session after loading exactly when some entry of the file reads as theirs. */
  lemma {:induction false} ReadLogHas(entries: seq<(string, StoredSession)>, uid: int)
    ensures uid in ReadLog(entries) <==> exists i :: 0 <= i < |entries| && ReadsAs(entries[i], uid)
    decreases |entries|
  {
    if entries != [] {
      var n := |entries| - 1;
      var pre := entries[..n];
      ReadLogHas(pre, uid);
      assert forall i :: 0 <= i < n ==> entries[i] == pre[i];
      if uid in ReadLog(pre) && !ReadsAs(entries[n], uid) {
        var i :| 0 <= i < n && ReadsAs(pre[i], uid);
        assert ReadsAs(entries[i], uid);
      }
    }
  }

  /** Entry `i` reads as `uid` with session `s`, and no later entry reads as `uid`. */
  predicate LastReading(entries: seq<(string, StoredSession)>, i: int, uid: int, s: Session)
  {
    && 0 <= i < |entries|
    && ReadEntry(entries[i].0, entries[i].1) == Some((uid, s))
    && forall j :: i < j < |entries| ==> !ReadsAs(entries[j], uid)
  }

  /**
   * The session loaded for a user is the one read from the last entry that reads as
   * theirs: skipped entries, and earlier entries for the same user, leave no trace.
   */
  lemma {:induction false} ReadLogLastWins(entries: seq<(string, StoredSession)>, uid: int)
    requires uid in ReadLog(entries)
    ensures exists i :: LastReading(entries, i, uid, ReadLog(entries)[uid])
    decreases |entries|
  {
    var n := |entries| - 1;
    var pre := entries[..n];
    if ReadsAs(entries[n], uid) {
      assert LastReading(entries, n, uid, ReadLog(entries)[uid]);
    } else {
      assert entries[..n] == pre;
      assert uid in ReadLog(pre) && ReadLog(entries)[uid] == ReadLog(pre)[uid];
      ReadLogLastWins(pre, uid);
      var i :| LastReading(pre, i, uid, ReadLog(pre)[uid]);
      assert entries[i] == pre[i];
      assert forall j :: i < j < n ==> entries[j] == pre[j];
      assert LastReading(entries, i, uid, ReadLog(entries)[uid]);
    }
  }

  /** How a session with a valid start is written: Seoul wall-clock time with its offset, and its marker. */
  function Store(s: Session): StoredSession
    requires s.start.Some?
  {
    StoredSession(Iso(s.start.value + SEOUL_UTC_OFFSET, Some(SEOUL_UTC_OFFSET)), Some(s.lastEncouraged))
  }

  lemma ShowInjectiveAll()
    ensures forall a: int, b: int :: Show(a) == Show(b) ==> a == b
  {
    forall a: int, b: int | Show(a) == Show(b)
      ensures a == b
    {
      ShowInjective(a, b);
    }
  }

  /** The sessions that saving keeps: those with a valid start. */
  function SavedSessions(log: map<int, Session>): map<int, Session>
  {
    map uid | uid in log && log[uid].start.Some? :: log[uid]
  }

  /** The JSON object saving writes: `str(uid)` to the stored form of each session with a valid start. */
  function WriteLog(log: map<int, Session>): (file: map<string, StoredSession>)
    ensures forall uid :: uid in log && log[uid].start.Some? ==> Show(uid) in file && file[Show(uid)] == Store(log[uid])
    ensures forall k :: k in file ==> exists uid :: uid in log && log[uid].start.Some? && Show(uid) == k
  {
    ShowInjectiveAll();
    map uid | uid in log && log[uid].start.Some? :: Show(uid) := Store(log[uid])
  }

  /** The keys of a sequence of file entries. */
  function KeysOf(entries: seq<(string, StoredSession)>): set<string>
  {
    set i | 0 <= i < |entries| :: entries[i].0
  }

  /** A written entry reads back as the session it was written from. */
  lemma ReadStored(uid: int, s: Session)
    requires s.start.Some?
    ensures ReadEntry(Show(uid), Store(s)) == Some((uid, s))
  {
    ParseShow(uid);
  }

  /** The saved sessions whose key is among `keys`. */
  function SavedUnder(log: map<int, Session>, keys: set<string>): map<int, Session>
  {
    map uid | uid in SavedSessions(log) && Show(uid) in keys :: log[uid]
  }

  lemma KeysOfSnoc(entries: seq<(string, StoredSession)>)
    requires entries != []
    ensures KeysOf(entries) == KeysOf(entries[..|entries| - 1]) + {entries[|entries| - 1].0}
  {
  }

  lemma SavedUnderAdd(log: map<int, Session>, keys: set<string>, u: int)
    requires u in SavedSessions(log)
    ensures SavedUnder(log, keys + {Show(u)}) == SavedUnder(log, keys)[u := log[u]]
  {
    ShowInjectiveAll();
  }

  lemma {:induction false} ReadWrittenEntries(log: map<int, Session>, entries: seq<(string, StoredSession)>)
    requires forall i :: 0 <= i < |entries| ==> entries[i].0 in WriteLog(log) && entries[i].1 == WriteLog(log)[entries[i].0]
    ensures ReadLog(entries) == SavedUnder(log, KeysOf(entries))
    decreases |entries|
  {
    if entries != [] {
      var n := |entries| - 1;
      var pre := entries[..n];
      ReadWrittenEntries(log, pre);
      var k := entries[n].0;
      var u :| u in log && log[u].start.Some? && Show(u) == k;
      assert entries[n].1 == Store(log[u]);
      ReadStored(u, log[u]);
      assert entries[..n] == pre;
      assert ReadLog(entries) == ReadLog(pre)[u := log[u]];
      KeysOfSnoc(entries);
      SavedUnderAdd(log, KeysOf(pre), u);
    }
  }

  /**
   * Restarting restores the log: loading a saved file, whatever the order of its
   * entries, gives back every session that had a valid start, and nothing else.
   */
  lemma ReadWriteLog(log: map<int, Session>, entries: seq<(string, StoredSession)>)
    requires forall i :: 0 <= i < |entries| ==> entries[i].0 in WriteLog(log) && entries[i].1 == WriteLog(log)[entries[i].0]
    requires forall k :: k in WriteLog(log) ==> k in KeysOf(entries)
    ensures ReadLog(entries) == SavedSessions(log)
  {
    ReadWrittenEntries(log, entries);
    forall uid | uid in SavedSessions(log)
      ensures Show(uid) in KeysOf(entries)
    {
      assert Show(uid) in WriteLog(log);
    }
  }
}
