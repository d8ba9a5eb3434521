/** The day of a timestamp, searched in a table of the seconds at which the days start
    (helper/RowBinary/date.go). */
module DayTable {
  import opened ByteStrings
  import opened Varint

  const DAY := 86400

  /** Local days start within a day of the UTC ones, and in order. */
  ghost predicate IsDayTable(start: seq<int64>)
  {
    && (forall i, j | 0 <= i <= j < |start| :: start[i] <= start[j])
    && (forall i | 0 <= i < |start| :: -DAY <= start[i] - DAY * i <= DAY)
  }

  ghost predicate IsDay(start: seq<int64>, ts: int, day: int)
  {
    0 <= day < |start| - 1 && start[day] <= ts < start[day + 1]
  }

  lemma DayUnique(start: seq<int64>, ts: int, a: int, b: int)
    requires IsDayTable(start) && IsDay(start, ts, a) && IsDay(start, ts, b)
    ensures a == b
  {
  }

  /** There is one, next to the UTC day. */
  lemma DayExists(start: seq<int64>, ts: nat) returns (day: nat)
    requires IsDayTable(start) && 1 <= ts / DAY && ts / DAY + 2 < |start|
    ensures IsDay(start, ts, day) && ts / DAY - 1 <= day <= ts / DAY + 1
  {
    var i := ts / DAY;
    assert DAY * i <= ts < DAY * (i + 1);
    assert start[i - 1] <= DAY * (i - 1) + DAY;
    assert start[i + 2] >= DAY * (i + 2) - DAY;
    day := if ts < start[i] then i - 1 else if ts < start[i + 1] then i else i + 1;
  }

  /** `PrecalcTimestampToDays`; without a value the slow method has to be asked. The search stays in
      the table and ends. */
  method PrecalcTimestampToDays(start: seq<int64>, timestamp: uint32) returns (day: Option<uint16>)
    requires IsDayTable(start)
    ensures day.None? <==> timestamp / DAY < 10 || timestamp / DAY > |start| - 10
    ensures day.Some? ==> IsDay(start, timestamp, day.value) && forall d | IsDay(start, timestamp, d) :: d == day.value
    ensures day.Some? ==> timestamp / DAY - 1 <= day.value <= timestamp / DAY + 1
  {
    var i: int := timestamp / DAY;
    if i < 10 || i > |start| - 10 {
      return None;
    }
    ghost var d := DayExists(start, timestamp);
    while true
      invariant 0 <= i < |start| - 1 && timestamp / DAY - 1 <= i <= timestamp / DAY + 1
      decreases if i < d then d - i else i - d
    {
      if timestamp < start[i] {
        assert d < i;
        i := i - 1;
        continue;
      }
      if timestamp >= start[i + 1] {
        assert d > i;
        i := i + 1;
        continue;
      }
      forall e | IsDay(start, timestamp, e)
        ensures e == i
      {
        DayUnique(start, timestamp, e, i);
      }
      return Some(i % TWO16);
    }
  }

  function UTCTimestampToDays(timestamp: uint32): uint16
  {
    (timestamp / DAY) % TWO16
  }

  /** Where local time is UTC, the search gives the UTC day. */
  lemma UtcTableGivesUtcDay(start: seq<int64>, timestamp: uint32, day: uint16)
    requires (forall i | 0 <= i < |start| :: start[i] == 86400 * i) && IsDay(start, timestamp, day)
    ensures day == UTCTimestampToDays(timestamp) && 86400 * day <= timestamp < 86400 * (day + 1)
  {
    assert DAY * day <= timestamp < DAY * (day + 1);
    assert timestamp / DAY == day;
  }
}
