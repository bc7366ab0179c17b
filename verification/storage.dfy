/** The activity ledger (src/storage.rs): the `activity` table as a sequence
    of rows in rowid order, and the lifecycle statements that change it.
    Timestamps are integer epoch seconds. */
module Storage {
  import opened Wrappers

  /** One row of the `activity` table; `endedAt == None` is SQL NULL. */
  datatype Row = Row(
    id: int,
    appName: string,
    category: string,
    windowTitle: string,
    startedAt: int,
    endedAt: Option<int>,
    durationSecs: int,
    activeSecs: int,
    passiveSecs: int)

  predicate IsOpen(r: Row) {
    r.endedAt.None?
  }

  /** Row ids are positive and strictly increase in table order, as SQLite
      assigns them to a table whose rows are only ever appended. */
  predicate Valid(rows: seq<Row>) {
    && (forall i :: 0 <= i < |rows| ==> rows[i].id >= 1)
    && (forall i, j :: 0 <= i < j < |rows| ==> rows[i].id < rows[j].id)
  }

  /** The ids of the rows whose `ended_at` is NULL. */
  function OpenIds(rows: seq<Row>): set<int> {
    set i | 0 <= i < |rows| && IsOpen(rows[i]) :: rows[i].id
  }

  /** At most one row is open. */
  predicate AtMostOneOpen(rows: seq<Row>) {
    forall i, j :: 0 <= i < |rows| && 0 <= j < |rows| && IsOpen(rows[i]) && IsOpen(rows[j]) ==> i == j
  }

  /** In a valid table, at most one open id means at most one open row. */
  lemma OneOpenId(rows: seq<Row>)
    requires Valid(rows) && |OpenIds(rows)| <= 1
    ensures AtMostOneOpen(rows)
  {
    forall i, j | 0 <= i < |rows| && 0 <= j < |rows| && IsOpen(rows[i]) && IsOpen(rows[j])
      ensures i == j
    {
      assert rows[i].id in OpenIds(rows) && rows[j].id in OpenIds(rows);
      if rows[i].id != rows[j].id {
        assert {rows[i].id, rows[j].id} <= OpenIds(rows);
        assert |{rows[i].id, rows[j].id}| == 2;
        SubsetCard({rows[i].id, rows[j].id}, OpenIds(rows));
      }
    }
  }

  lemma SubsetCard(a: set<int>, b: set<int>)
    requires a <= b
    ensures |a| <= |b|
  {
    assert b == a + (b - a);
  }

  /** The id SQLite gives the next inserted row of an INTEGER PRIMARY KEY
      table without AUTOINCREMENT: one more than the largest id, or 1. */
  function NextId(rows: seq<Row>): (id: int)
    requires Valid(rows)
    ensures id >= 1
    ensures forall i :: 0 <= i < |rows| ==> rows[i].id < id
  {
    if |rows| == 0 then 1 else rows[|rows| - 1].id + 1
  }

  /** `start_activity`: inserts one open row stamped `now` with zero
      counters and returns its id. */
  function StartActivity(rows: seq<Row>, appName: string, category: string, windowTitle: string, now: int)
    : (r: (seq<Row>, int))
    requires Valid(rows)
    ensures Valid(r.0)
    ensures forall i :: 0 <= i < |rows| ==> rows[i].id != r.1
    ensures |r.0| == |rows| + 1 && r.0[..|rows|] == rows
    ensures r.0[|rows|] == Row(r.1, appName, category, windowTitle, now, None, 0, 0, 0)
    ensures OpenIds(r.0) == OpenIds(rows) + {r.1}
  {
    var id := NextId(rows);
    var rows' := rows + [Row(id, appName, category, windowTitle, now, None, 0, 0, 0)];
    assert rows'[..|rows|] == rows;
    assert OpenIds(rows') == OpenIds(rows) + {id} by {
      forall x | x in OpenIds(rows') ensures x in OpenIds(rows) + {id} {
        var i :| 0 <= i < |rows'| && IsOpen(rows'[i]) && rows'[i].id == x;
        if i < |rows| { assert rows[i] == rows'[i]; }
      }
      forall x | x in OpenIds(rows) ensures x in OpenIds(rows') {
        var i :| 0 <= i < |rows| && IsOpen(rows[i]) && rows[i].id == x;
        assert rows'[i] == rows[i];
      }
      assert rows'[|rows|].id == id && IsOpen(rows'[|rows|]);
    }
    (rows', id)
  }

  /** A row closed at `now`: `duration_secs` is the signed difference
      `now - started_at`, with no clamp when the clock went backwards. */
  function Close(r: Row, now: int): (c: Row)
    ensures c.endedAt == Some(now) && c.durationSecs == now - r.startedAt
    ensures c.id == r.id && c.appName == r.appName && c.category == r.category
    ensures c.windowTitle == r.windowTitle && c.startedAt == r.startedAt
    ensures c.activeSecs == r.activeSecs && c.passiveSecs == r.passiveSecs
  {
    r.(endedAt := Some(now), durationSecs := now - r.startedAt)
  }

  /** `end_activity(id)`: closes the rows with that id, whether or not they
      were open, and leaves every other row as it was. */
  function EndActivity(rows: seq<Row>, id: int, now: int): (r: seq<Row>)
    ensures |r| == |rows|
    ensures forall i :: 0 <= i < |rows| && rows[i].id == id ==> r[i] == Close(rows[i], now)
    ensures forall i :: 0 <= i < |rows| && rows[i].id != id ==> r[i] == rows[i]
  {
    if |rows| == 0 then []
    else
      var head := if rows[0].id == id then Close(rows[0], now) else rows[0];
      [head] + EndActivity(rows[1..], id, now)
  }

  /** Ending a session removes exactly its id from the open set and keeps
      the table valid. */
  lemma EndActivityOpenIds(rows: seq<Row>, id: int, now: int)
    requires Valid(rows)
    ensures Valid(EndActivity(rows, id, now))
    ensures OpenIds(EndActivity(rows, id, now)) == OpenIds(rows) - {id}
  {
    var r := EndActivity(rows, id, now);
    forall x | x in OpenIds(r) ensures x in OpenIds(rows) - {id} {
      var i :| 0 <= i < |r| && IsOpen(r[i]) && r[i].id == x;
      assert rows[i].id != id;
    }
    forall x | x in OpenIds(rows) - {id} ensures x in OpenIds(r) {
      var i :| 0 <= i < |rows| && IsOpen(rows[i]) && rows[i].id == x;
      assert r[i] == rows[i];
    }
  }

  /** `update_activity_time(id, a, p)`: adds `a` to `active_secs`, `p` to
      `passive_secs` and `a + p` to `duration_secs` of the rows with that
      id; every other row is unchanged. */
  function UpdateActivityTime(rows: seq<Row>, id: int, activeDelta: int, passiveDelta: int): (r: seq<Row>)
    ensures |r| == |rows|
    ensures forall i :: 0 <= i < |rows| && rows[i].id != id ==> r[i] == rows[i]
    ensures forall i :: 0 <= i < |rows| && rows[i].id == id ==>
              && r[i].activeSecs == rows[i].activeSecs + activeDelta
              && r[i].passiveSecs == rows[i].passiveSecs + passiveDelta
              && r[i].durationSecs == rows[i].durationSecs + activeDelta + passiveDelta
              && r[i].(activeSecs := 0, passiveSecs := 0, durationSecs := 0)
                 == rows[i].(activeSecs := 0, passiveSecs := 0, durationSecs := 0)
  {
    if |rows| == 0 then []
    else
      var x := rows[0];
      var head := if x.id == id then
                    x.(activeSecs := x.activeSecs + activeDelta,
                       passiveSecs := x.passiveSecs + passiveDelta,
                       durationSecs := x.durationSecs + activeDelta + passiveDelta)
                  else x;
      [head] + UpdateActivityTime(rows[1..], id, activeDelta, passiveDelta)
  }

  /** The gap `duration - (active + passive)` of a row: the part of its
      duration the active/passive split does not account for. */
  function Unreconciled(r: Row): int {
    r.durationSecs - (r.activeSecs + r.passiveSecs)
  }

  /** Counter updates never widen or narrow the unreconciled gap of any row,
      and they neither open nor close a session. */
  lemma UpdateKeepsReconciliation(rows: seq<Row>, id: int, a: int, p: int)
    requires Valid(rows)
    ensures var r := UpdateActivityTime(rows, id, a, p);
            && Valid(r)
            && OpenIds(r) == OpenIds(rows)
            && forall i :: 0 <= i < |rows| ==> Unreconciled(r[i]) == Unreconciled(rows[i])
  {
    var r := UpdateActivityTime(rows, id, a, p);
    assert forall i :: 0 <= i < |rows| ==> r[i].id == rows[i].id && r[i].endedAt == rows[i].endedAt by {
      forall i | 0 <= i < |rows| ensures r[i].id == rows[i].id && r[i].endedAt == rows[i].endedAt {
        if rows[i].id == id {
          assert r[i].(activeSecs := 0, passiveSecs := 0, durationSecs := 0).id == r[i].id;
        }
      }
    }
    forall x | x in OpenIds(r) ensures x in OpenIds(rows) {
      var i :| 0 <= i < |r| && IsOpen(r[i]) && r[i].id == x;
    }
    forall x | x in OpenIds(rows) ensures x in OpenIds(r) {
      var i :| 0 <= i < |rows| && IsOpen(rows[i]) && rows[i].id == x;
    }
  }

  /** `get_active_session`: the open row with the latest `started_at`
      (`ORDER BY started_at DESC LIMIT 1`); ties, which SQL leaves
      unordered, go to the later row. */
  function ActiveSession(rows: seq<Row>): (r: Option<Row>)
    ensures r.None? <==> forall i :: 0 <= i < |rows| ==> !IsOpen(rows[i])
    ensures r.Some? ==> r.value in rows && IsOpen(r.value)
    ensures r.Some? ==> forall i :: 0 <= i < |rows| && IsOpen(rows[i]) ==> rows[i].startedAt <= r.value.startedAt
  {
    if |rows| == 0 then None
    else
      var rest := ActiveSession(rows[..|rows| - 1]);
      var last := rows[|rows| - 1];
      assert forall i :: 0 <= i < |rows| - 1 ==> rows[i] == rows[..|rows| - 1][i];
      if IsOpen(last) && (rest.None? || last.startedAt >= rest.value.startedAt) then Some(last)
      else rest
  }

  /** In a table with exactly one open row, that row is the active session. */
  lemma ActiveSessionOfSingleOpen(rows: seq<Row>, k: nat)
    requires Valid(rows) && k < |rows| && OpenIds(rows) == {rows[k].id}
    ensures ActiveSession(rows) == Some(rows[k])
  {
    assert rows[k].id in OpenIds(rows);
    var r := ActiveSession(rows);
    var j :| 0 <= j < |rows| && rows[j] == r.value;
    assert rows[j].id in OpenIds(rows);
    IdsDetermineRows(rows, j, k);
  }

  /** In a valid table a row id names one position. */
  lemma IdsDetermineRows(rows: seq<Row>, j: nat, k: nat)
    requires Valid(rows) && j < |rows| && k < |rows| && rows[j].id == rows[k].id
    ensures j == k
  {
  }

  /** `close_open_sessions`: the start-up recovery sweep. Every open row is
      closed at `now`; rows already closed are unchanged. */
  function CloseOpenSessions(rows: seq<Row>, now: int): (r: seq<Row>)
    ensures |r| == |rows|
    ensures forall i :: 0 <= i < |rows| && IsOpen(rows[i]) ==> r[i] == Close(rows[i], now)
    ensures forall i :: 0 <= i < |rows| && !IsOpen(rows[i]) ==> r[i] == rows[i]
  {
    if |rows| == 0 then []
    else
      var head := if IsOpen(rows[0]) then Close(rows[0], now) else rows[0];
      [head] + CloseOpenSessions(rows[1..], now)
  }

  /** After the sweep no row is open and the table is still valid. */
  lemma CloseOpenSessionsClosesAll(rows: seq<Row>, now: int)
    requires Valid(rows)
    ensures Valid(CloseOpenSessions(rows, now))
    ensures OpenIds(CloseOpenSessions(rows, now)) == {}
  {
    var r := CloseOpenSessions(rows, now);
    assert forall i :: 0 <= i < |r| ==> !IsOpen(r[i]) && r[i].id == rows[i].id;
  }

  /** Seconds in the day window `[dayStart, dayStart + DaySecs)` that every
      query of today's data filters `started_at` by. */
  const DaySecs: int := 86400

  predicate InDay(r: Row, dayStart: int) {
    dayStart <= r.startedAt < dayStart + DaySecs
  }

  /** `reset_today`: deletes the rows that started within the day window and
      keeps all the others, in order. */
  function ResetToday(rows: seq<Row>, dayStart: int): (r: seq<Row>)
    ensures forall x :: x in r <==> x in rows && !InDay(x, dayStart)
    ensures |r| <= |rows|
  {
    if |rows| == 0 then []
    else
      var rest := ResetToday(rows[1..], dayStart);
      if InDay(rows[0], dayStart) then rest else [rows[0]] + rest
  }

  /** Deleting the day's rows keeps the table valid. */
  lemma {:induction false} ResetTodayValid(rows: seq<Row>, dayStart: int)
    requires Valid(rows)
    ensures Valid(ResetToday(rows, dayStart))
    decreases |rows|
  {
    if |rows| > 0 {
      var rest := ResetToday(rows[1..], dayStart);
      assert Valid(rows[1..]);
      ResetTodayValid(rows[1..], dayStart);
      if !InDay(rows[0], dayStart) {
        var r := [rows[0]] + rest;
        forall j | 0 < j < |r| ensures rows[0].id < r[j].id {
          assert r[j] == rest[j - 1] && r[j] in rest;
          var k :| 0 <= k < |rows[1..]| && rows[1..][k] == r[j];
          assert rows[k + 1] == r[j];
        }
      }
    }
  }

  /** The table before the v0.5.0 migration: no active/passive columns. */
  datatype LegacyRow = LegacyRow(
    id: int,
    appName: string,
    category: string,
    windowTitle: string,
    startedAt: int,
    endedAt: Option<int>,
    durationSecs: int)

  /** What `Storage::open` finds on disk: a table that predates the
      active/passive split, or one that already has both columns. */
  datatype Table = Legacy(legacy: seq<LegacyRow>) | Current(rows: seq<Row>)

  /** The backfill statement: `active_secs := duration_secs` where
      `active_secs = 0 AND duration_secs > 0`. */
  function Backfill(rows: seq<Row>): (r: seq<Row>)
    ensures |r| == |rows|
    ensures forall i :: 0 <= i < |rows| && rows[i].activeSecs == 0 && rows[i].durationSecs > 0 ==>
              r[i] == rows[i].(activeSecs := rows[i].durationSecs)
    ensures forall i :: 0 <= i < |rows| && !(rows[i].activeSecs == 0 && rows[i].durationSecs > 0) ==>
              r[i] == rows[i]
  {
    if |rows| == 0 then []
    else
      var x := rows[0];
      var head := if x.activeSecs == 0 && x.durationSecs > 0 then x.(activeSecs := x.durationSecs) else x;
      [head] + Backfill(rows[1..])
  }

  /** The two `ALTER TABLE ... ADD COLUMN ... DEFAULT 0` statements. */
  function AddCounterColumns(legacy: seq<LegacyRow>): (r: seq<Row>)
    ensures |r| == |legacy|
    ensures forall i :: 0 <= i < |legacy| ==>
              r[i] == Row(legacy[i].id, legacy[i].appName, legacy[i].category, legacy[i].windowTitle,
                          legacy[i].startedAt, legacy[i].endedAt, legacy[i].durationSecs, 0, 0)
  {
    if |legacy| == 0 then []
    else
      var x := legacy[0];
      [Row(x.id, x.appName, x.category, x.windowTitle, x.startedAt, x.endedAt, x.durationSecs, 0, 0)]
      + AddCounterColumns(legacy[1..])
  }

  /** `Storage::open`: a current table is used as is; a legacy table gains
      zeroed counters and is backfilled. */
  function Open(t: Table): seq<Row> {
    match t
    case Current(rows) => rows
    case Legacy(legacy) => Backfill(AddCounterColumns(legacy))
  }

  /** After migrating a legacy table every historical second counts as
      active: `active_secs` is the duration where that is positive and 0
      elsewhere, `passive_secs` is 0, and nothing else about a row changes. */
  lemma MigrationBackfill(legacy: seq<LegacyRow>)
    ensures var r := Open(Legacy(legacy));
            && |r| == |legacy|
            && forall i :: 0 <= i < |legacy| ==>
                 && r[i].activeSecs == (if legacy[i].durationSecs > 0 then legacy[i].durationSecs else 0)
                 && r[i].passiveSecs == 0
                 && r[i].durationSecs == legacy[i].durationSecs
                 && r[i].id == legacy[i].id && r[i].endedAt == legacy[i].endedAt
                 && r[i].startedAt == legacy[i].startedAt && r[i].appName == legacy[i].appName
  {
  }
}
