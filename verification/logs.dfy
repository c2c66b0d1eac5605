/** The backend's captured log lines (`backend/server.py`): a
    `deque(maxlen = 200)` of entries that every logging call appends to. */
module Logs {

  import Ring
  import Text

  /** The number of entries kept. */
  const Capacity: nat := 200

  datatype LogEntry = LogEntry(timestamp: string, level: string, message: string)

  /** `strftime("%Y-%m-%d %H:%M:%S")`: the date and the time joined by one
      blank; `date` and `time` stand for the already formatted halves. */
  function Timestamp(date: string, time: string): (r: string)
    ensures |r| == |date| + 1 + |time|
    ensures r[|date|] == ' '
    ensures r[..|date|] == date && r[|date| + 1..] == time
  {
    date + " " + time
  }

  /** The handler's format `'%(levelname)s - %(name)s - %(message)s'`. */
  function FormatRecord(level: string, logger: string, msg: string): (r: string)
    ensures |r| == |level| + |logger| + |msg| + 6
    ensures r[..|level| + 3] == level + " - "
    ensures r[|level| + 3..|level| + |logger| + 6] == logger + " - "
    ensures r[|r| - |msg|..] == msg
  {
    level + " - " + logger + " - " + msg
  }

  /** The level is read back as the first blank-separated word of a
      formatted record, and a one-word message as the last. */
  lemma FormatRecordReadBack(level: string, logger: string, msg: string)
    requires ' ' !in level
    ensures Text.FirstField(FormatRecord(level, logger, msg), ' ') == level
    ensures ' ' !in msg ==> Text.LastField(FormatRecord(level, logger, msg), ' ') == msg
  {
    var r := FormatRecord(level, logger, msg);
    assert r == level + [' '] + ("- " + logger + " - " + msg);
    Text.FirstFieldOfJoin(level, ' ', "- " + logger + " - " + msg);
    if ' ' !in msg {
      assert r == (level + " - " + logger + " -") + [' '] + msg;
      Text.LastFieldOfJoin(level + " - " + logger + " -", ' ', msg);
    }
  }

  /** `LogCapture.emit`: one entry appended, the oldest dropped when 200 are
      already held. */
  function Emit(store: seq<LogEntry>, date: string, time: string,
                level: string, logger: string, msg: string): (r: seq<LogEntry>)
    requires |store| <= Capacity
    ensures |r| <= Capacity
    ensures |r| == if |store| < Capacity then |store| + 1 else Capacity
    ensures r[|r| - 1].level == level
    ensures r[|r| - 1].timestamp == Timestamp(date, time)
    ensures r[|r| - 1].message == FormatRecord(level, logger, msg)
    ensures r[..|r| - 1] == (if |store| < Capacity then store else store[1..])
  {
    Ring.Push(store, LogEntry(Timestamp(date, time), level, FormatRecord(level, logger, msg)), Capacity)
  }

  /** Whatever was captured, `GET /api/logs` lists the newest 200 entries
      ever appended, oldest first, and the newest entry is last. */
  lemma CaptureKeepsNewest(store: seq<LogEntry>, entries: seq<LogEntry>)
    requires |store| <= Capacity
    ensures Ring.PushAll(store, entries, Capacity) == Ring.Last(store + entries, Capacity)
    ensures |Ring.PushAll(store, entries, Capacity)| == if |store| + |entries| <= Capacity then |store| + |entries| else Capacity
    ensures |entries| > 0 ==>
      var r := Ring.PushAll(store, entries, Capacity);
      r[|r| - 1] == entries[|entries| - 1]
  {
    Ring.PushAllIsWindow(store, entries, Capacity);
    var all := store + entries;
    if |entries| > 0 {
      assert all[|all| - 1] == entries[|entries| - 1];
      Ring.LastEndsWithNewest(all, Capacity);
    }
  }
}
