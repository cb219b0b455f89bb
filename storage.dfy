/**
 * The three-table temperature store of lab6/database.hpp, modelled by the meaning
 * of its SQL text rather than by SQLite: `temperature_raw` without a unique key,
 * `temperature_hourly` with UNIQUE(timestamp) and `temperature_daily` with
 * UNIQUE(date), written by INSERT / INSERT OR REPLACE and read by BETWEEN,
 * ORDER BY and LIMIT queries.
 */
module Storage {
  import opened Wrappers
  import opened Text
  import opened Sorting
  import opened Stats

  /** A row of `temperature_raw` (struct TemperatureRecord). */
  datatype Reading = Reading(timestamp: String, temperature: real, date: String, hour: String)

  /** A row of `temperature_hourly` (key = timestamp) or `temperature_daily` (key = date). */
  datatype AggregateRow = AggregateRow(key: String, summary: Summary)

  /** Which aggregate table a query reads. */
  datatype AggregateTable = HourlyTable | DailyTable

  function TimestampOf(r: Reading): String { r.timestamp }

  function KeyOf(r: AggregateRow): String { r.key }

  /** SQL `x BETWEEN lo AND hi` on text values. */
  predicate Between(x: String, lo: String, hi: String) {
    LexLe(lo, x) && LexLe(x, hi)
  }

  // ---------------------------------------------------------------------------
  // temperature_raw
  // ---------------------------------------------------------------------------

  /** `WHERE timestamp BETWEEN start AND end`, keeping table order. */
  function InTimeRange(rows: seq<Reading>, start: String, end: String): (r: seq<Reading>)
    ensures forall x :: x in r ==> Between(x.timestamp, start, end)
    ensures multiset(r) <= multiset(rows)
  {
    if rows == [] then []
    else
      assert rows == [rows[0]] + rows[1..];
      (if Between(rows[0].timestamp, start, end) then [rows[0]] else []) + InTimeRange(rows[1..], start, end)
  }

  /** The range filter keeps every in-range row as often as it occurs, and nothing else. */
  lemma {:induction false} InTimeRangeCounts(rows: seq<Reading>, start: String, end: String)
    ensures forall x :: multiset(InTimeRange(rows, start, end))[x] ==
                        if Between(x.timestamp, start, end) then multiset(rows)[x] else 0
  {
    if rows != [] {
      InTimeRangeCounts(rows[1..], start, end);
      assert rows == [rows[0]] + rows[1..];
    }
  }

  /** SQL `LIMIT n`: a negative limit means no limit. */
  function Limit<T>(rows: seq<T>, limit: int): (r: seq<T>)
    ensures |r| == if limit < 0 || limit >= |rows| then |rows| else limit
    ensures r == rows[..|r|]
  {
    if limit < 0 || limit >= |rows| then rows else rows[..limit]
  }

  /** `SELECT ... WHERE timestamp BETWEEN ? AND ? ORDER BY timestamp DESC LIMIT ?` */
  function SelectRaw(rows: seq<Reading>, start: String, end: String, limit: int): seq<Reading>
  {
    Limit(Sort(InTimeRange(rows, start, end), TimestampOf, true), limit)
  }

  /** getRawData returns only rows from the table, each with a timestamp in [start, end]. */
  lemma {:induction false} SelectRawRows(rows: seq<Reading>, start: String, end: String, limit: int)
    ensures forall i :: 0 <= i < |SelectRaw(rows, start, end, limit)| ==>
              Between(SelectRaw(rows, start, end, limit)[i].timestamp, start, end)
    ensures multiset(SelectRaw(rows, start, end, limit)) <= multiset(rows)
  {
    var f := InTimeRange(rows, start, end);
    var s := Sort(f, TimestampOf, true);
    SortCorrect(f, TimestampOf, true);
    var r := Limit(s, limit);
    LimitCounts(s, limit);
    forall i | 0 <= i < |r| ensures Between(r[i].timestamp, start, end) {
      assert r[i] in multiset(f);
    }
  }

  /** A limited result holds nothing the rows did not. */
  lemma {:induction false} LimitCounts<T>(rows: seq<T>, limit: int)
    ensures multiset(Limit(rows, limit)) <= multiset(rows)
  {
    var r := Limit(rows, limit);
    assert rows == r + rows[|r|..];
  }

  /**
   * getRawData returns the rows newest first, as many as the limit allows, and all
   * in-range rows (as often as they occur) when the limit is negative or not reached.
   */
  lemma SelectRawOrderAndSize(rows: seq<Reading>, start: String, end: String, limit: int)
    ensures var r := SelectRaw(rows, start, end, limit);
            var n := |InTimeRange(rows, start, end)|;
            && |r| == (if limit < 0 || limit >= n then n else limit)
            && (forall i, j :: 0 <= i < j < |r| ==> LexLe(r[j].timestamp, r[i].timestamp))
            && (limit < 0 || limit >= n ==> multiset(r) == multiset(InTimeRange(rows, start, end)))
  {
    var f := InTimeRange(rows, start, end);
    SortCorrect(f, TimestampOf, true);
  }

  /** Every in-range row that the limit cuts off is no newer than any row returned. */
  lemma SelectRawKeepsNewest(rows: seq<Reading>, start: String, end: String, limit: int, x: Reading)
    requires x in multiset(InTimeRange(rows, start, end)) - multiset(SelectRaw(rows, start, end, limit))
    ensures forall i :: 0 <= i < |SelectRaw(rows, start, end, limit)| ==>
              LexLe(x.timestamp, SelectRaw(rows, start, end, limit)[i].timestamp)
  {
    var f := InTimeRange(rows, start, end);
    var s := Sort(f, TimestampOf, true);
    SortCorrect(f, TimestampOf, true);
    var r := Limit(s, limit);
    OutsidePrefix(s, |r|, x);
    var k :| |r| <= k < |s| && s[k] == x;
    forall i | 0 <= i < |r| ensures LexLe(x.timestamp, r[i].timestamp) {
      assert s[i] == r[i];
    }
  }

  /** An element that the first `n` elements do not account for stands after them. */
  lemma OutsidePrefix<T>(s: seq<T>, n: nat, x: T)
    requires n <= |s| && x in multiset(s) - multiset(s[..n])
    ensures exists k :: n <= k < |s| && s[k] == x
  {
    var rest := s[n..];
    assert s == s[..n] + rest;
    assert multiset(s) == multiset(s[..n]) + multiset(rest);
    assert x in multiset(rest);
    var k :| 0 <= k < |rest| && rest[k] == x;
    assert s[n + k] == x;
  }

  /** `SELECT temperature ... ORDER BY timestamp DESC LIMIT 1`, or 0.0 when the table is empty. */
  function LatestTemperature(rows: seq<Reading>): real
  {
    var top := Limit(Sort(rows, TimestampOf, true), 1);
    if top == [] then 0.0 else top[0].temperature
  }

  /** The current temperature belongs to a row whose timestamp is the greatest in the table. */
  lemma LatestTemperatureCorrect(rows: seq<Reading>)
    ensures rows == [] ==> LatestTemperature(rows) == 0.0
    ensures rows != [] ==> exists i :: 0 <= i < |rows| && rows[i].temperature == LatestTemperature(rows) &&
                                  forall j :: 0 <= j < |rows| ==> LexLe(rows[j].timestamp, rows[i].timestamp)
  {
    var s := Sort(rows, TimestampOf, true);
    SortCorrect(rows, TimestampOf, true);
    if rows != [] {
      assert s[0] in multiset(rows);
      var i :| 0 <= i < |rows| && rows[i] == s[0];
      forall j | 0 <= j < |rows| ensures LexLe(rows[j].timestamp, rows[i].timestamp) {
        assert rows[j] in multiset(s);
        var k :| 0 <= k < |s| && s[k] == rows[j];
        if k == 0 {
          LexLeReflexive(s[0].timestamp);
        }
      }
    }
  }

  function Temperatures(rows: seq<Reading>): (ts: seq<real>)
    ensures |ts| == |rows| && forall i :: 0 <= i < |rows| ==> ts[i] == rows[i].temperature
  {
    if rows == [] then [] else [rows[0].temperature] + Temperatures(rows[1..])
  }

  /**
   * `SELECT AVG, MIN, MAX, COUNT(*) ... WHERE timestamp BETWEEN ? AND ?`; over no rows the
   * three aggregates are NULL, which the column reader turns into 0.
   */
  function StatisticsOf(rows: seq<Reading>, start: String, end: String): Summary
  {
    var ts := Temperatures(InTimeRange(rows, start, end));
    if ts == [] then Summary(0.0, 0.0, 0.0, 0) else SummaryOf(ts)
  }

  /**
   * getStatistics counts exactly the in-range rows, and min and max are temperatures of
   * in-range rows that bound every in-range temperature and the average.
   */
  lemma StatisticsCorrect(rows: seq<Reading>, start: String, end: String)
    ensures var st := StatisticsOf(rows, start, end);
            var f := InTimeRange(rows, start, end);
            && st.count == |f|
            && (f == [] ==> st == Summary(0.0, 0.0, 0.0, 0))
            && (f != [] ==> st.min <= st.avg <= st.max)
            && (forall x :: x in multiset(rows) && Between(x.timestamp, start, end) ==>
                  st.min <= x.temperature <= st.max)
            && (f != [] ==> exists x :: x in multiset(rows) && Between(x.timestamp, start, end) && x.temperature == st.min)
            && (f != [] ==> exists x :: x in multiset(rows) && Between(x.timestamp, start, end) && x.temperature == st.max)
  {
    var f := InTimeRange(rows, start, end);
    var ts := Temperatures(f);
    InTimeRangeCounts(rows, start, end);
    if f != [] {
      SummaryOfBounds(ts);
      forall x | x in multiset(rows) && Between(x.timestamp, start, end)
        ensures StatisticsOf(rows, start, end).min <= x.temperature <= StatisticsOf(rows, start, end).max
      {
        assert x in multiset(f);
        var k :| 0 <= k < |f| && f[k] == x;
        assert ts[k] == x.temperature;
      }
      var kmin :| 0 <= kmin < |ts| && ts[kmin] == Min(ts);
      assert f[kmin] in multiset(f);
      var kmax :| 0 <= kmax < |ts| && ts[kmax] == Max(ts);
      assert f[kmax] in multiset(f);
    }
  }

  /** `DELETE FROM temperature_raw WHERE date < cutoff`: the rows that remain, in order. */
  function RetainSince(rows: seq<Reading>, cutoff: String): seq<Reading>
  {
    if rows == [] then []
    else (if LexLt(rows[0].date, cutoff) then [] else [rows[0]]) + RetainSince(rows[1..], cutoff)
  }

  /** Cleanup removes exactly the rows dated before the cutoff, and keeps every other row as often as it was there. */
  lemma {:induction false} RetainSinceCorrect(rows: seq<Reading>, cutoff: String)
    ensures forall x :: multiset(RetainSince(rows, cutoff))[x] == if LexLt(x.date, cutoff) then 0 else multiset(rows)[x]
    ensures |RetainSince(rows, cutoff)| <= |rows|
  {
    if rows != [] {
      var head := if LexLt(rows[0].date, cutoff) then [] else [rows[0]];
      RetainSinceCorrect(rows[1..], cutoff);
      assert rows == [rows[0]] + rows[1..];
      assert multiset(RetainSince(rows, cutoff)) == multiset(head) + multiset(RetainSince(rows[1..], cutoff));
    }
  }

  // ---------------------------------------------------------------------------
  // temperature_hourly / temperature_daily: one row per key
  // ---------------------------------------------------------------------------

  /** The UNIQUE constraint: no two rows share a key. */
  ghost predicate UniqueKeys(rows: seq<AggregateRow>) {
    forall i, j :: 0 <= i < j < |rows| ==> rows[i].key != rows[j].key
  }

  /** The table as a key -> aggregate map (row order is not observable: every query orders by the key). */
  function AsMap(rows: seq<AggregateRow>): map<String, Summary>
  {
    if rows == [] then map[]
    else AsMap(rows[..|rows| - 1])[rows[|rows| - 1].key := rows[|rows| - 1].summary]
  }

  /** The rows whose key differs from `k`, in order. */
  function RemoveKey(rows: seq<AggregateRow>, k: String): (r: seq<AggregateRow>)
    ensures forall x :: x in r <==> x in rows && x.key != k
  {
    if rows == [] then []
    else
      assert rows == rows[..|rows| - 1] + [rows[|rows| - 1]];
      RemoveKey(rows[..|rows| - 1], k) + (if rows[|rows| - 1].key == k then [] else [rows[|rows| - 1]])
  }

  /** `INSERT OR REPLACE`: the conflicting row is deleted and the new row is added. */
  function Upsert(rows: seq<AggregateRow>, row: AggregateRow): seq<AggregateRow>
  {
    RemoveKey(rows, row.key) + [row]
  }

  /** The map view has exactly the keys of the rows. */
  lemma {:induction false} AsMapKeys(rows: seq<AggregateRow>)
    ensures forall k :: k in AsMap(rows) <==> exists i :: 0 <= i < |rows| && rows[i].key == k
  {
    if rows != [] {
      var init := rows[..|rows| - 1];
      AsMapKeys(init);
      forall k | k in AsMap(rows) ensures exists i :: 0 <= i < |rows| && rows[i].key == k {
        if k != rows[|rows| - 1].key {
          assert k in AsMap(init);
          var i :| 0 <= i < |init| && init[i].key == k;
          assert rows[i] == init[i];
        }
      }
      forall k | exists i :: 0 <= i < |rows| && rows[i].key == k ensures k in AsMap(rows) {
        var i :| 0 <= i < |rows| && rows[i].key == k;
        if i < |rows| - 1 {
          assert init[i] == rows[i];
        }
      }
    }
  }

  /** With unique keys, the map view gives every row's aggregate. */
  lemma {:induction false} AsMapLookup(rows: seq<AggregateRow>, i: nat)
    requires UniqueKeys(rows) && i < |rows|
    ensures rows[i].key in AsMap(rows) && AsMap(rows)[rows[i].key] == rows[i].summary
  {
    var init := rows[..|rows| - 1];
    if i < |rows| - 1 {
      assert init[i] == rows[i];
      AsMapLookup(init, i);
    }
  }

  /** Deleting a key removes exactly that key from the map view. */
  lemma {:induction false} RemoveKeyAsMap(rows: seq<AggregateRow>, k: String)
    ensures AsMap(RemoveKey(rows, k)) == AsMap(rows) - {k}
  {
    if rows != [] {
      var init := rows[..|rows| - 1];
      var last := rows[|rows| - 1];
      RemoveKeyAsMap(init, k);
      var r := RemoveKey(rows, k);
      var m := AsMap(init);
      if last.key != k {
        assert r[..|r| - 1] == RemoveKey(init, k) && r[|r| - 1] == last;
        calc {
          AsMap(r);
          AsMap(RemoveKey(init, k))[last.key := last.summary];
          (m - {k})[last.key := last.summary];
          { MapUpdateRemove(m, k, last.key, last.summary); }
          m[last.key := last.summary] - {k};
        }
      } else {
        assert r == RemoveKey(init, k);
        MapUpdateRemove(m, k, k, last.summary);
      }
    }
  }

  lemma MapUpdateRemove(m: map<String, Summary>, k: String, a: String, s: Summary)
    ensures a != k ==> (m - {k})[a := s] == m[a := s] - {k}
    ensures a == k ==> m - {k} == m[a := s] - {k}
    ensures (m - {k})[k := s] == m[k := s]
  {
  }

  /** Deleting rows keeps the table free of duplicate keys. */
  lemma {:induction false} RemoveKeyUnique(rows: seq<AggregateRow>, k: String)
    requires UniqueKeys(rows)
    ensures UniqueKeys(RemoveKey(rows, k))
  {
    if rows != [] {
      var init := rows[..|rows| - 1];
      var last := rows[|rows| - 1];
      RemoveKeyUnique(init, k);
      var ri := RemoveKey(init, k);
      if last.key != k {
        forall x | x in ri ensures x.key != last.key {
          var i :| 0 <= i < |init| && init[i] == x;
          assert rows[i] == x;
        }
      } else {
        assert RemoveKey(rows, k) == ri;
      }
    }
  }

  /**
   * After an upsert the table still has one row per key, the given key maps to the
   * given values and every other key keeps its row.
   */
  lemma UpsertCorrect(rows: seq<AggregateRow>, row: AggregateRow)
    requires UniqueKeys(rows)
    ensures UniqueKeys(Upsert(rows, row))
    ensures AsMap(Upsert(rows, row)) == AsMap(rows)[row.key := row.summary]
    ensures forall x :: x in Upsert(rows, row) && x.key != row.key <==> x in rows && x.key != row.key
  {
    var ri := RemoveKey(rows, row.key);
    var r := Upsert(rows, row);
    RemoveKeyUnique(rows, row.key);
    assert UniqueKeys(r) by {
      forall i | 0 <= i < |ri| ensures ri[i].key != row.key {
        assert ri[i] in ri;
      }
    }
    assert AsMap(r) == AsMap(rows)[row.key := row.summary] by {
      RemoveKeyAsMap(rows, row.key);
      assert r[..|r| - 1] == ri;
      MapUpdateRemove(AsMap(rows), row.key, row.key, row.summary);
    }
  }

  /** Upserting the same key twice leaves exactly what upserting the latest values once leaves. */
  lemma UpsertTwice(rows: seq<AggregateRow>, k: String, first: Summary, second: Summary)
    ensures Upsert(Upsert(rows, AggregateRow(k, first)), AggregateRow(k, second)) == Upsert(rows, AggregateRow(k, second))
  {
    var r1 := RemoveKey(rows, k) + [AggregateRow(k, first)];
    assert r1[..|r1| - 1] == RemoveKey(rows, k);
    assert RemoveKey(r1, k) == RemoveKey(RemoveKey(rows, k), k);
    RemoveKeyIdempotent(rows, k);
  }

  /** Deleting the same key a second time deletes nothing. */
  lemma {:induction false} RemoveKeyIdempotent(rows: seq<AggregateRow>, k: String)
    ensures RemoveKey(RemoveKey(rows, k), k) == RemoveKey(rows, k)
  {
    if rows != [] {
      var init := rows[..|rows| - 1];
      RemoveKeyIdempotent(init, k);
      var r := RemoveKey(rows, k);
      if rows[|rows| - 1].key != k {
        assert r[..|r| - 1] == RemoveKey(init, k);
      } else {
        assert r == RemoveKey(init, k);
      }
    }
  }

  /** sqlite `date(timestamp)`, abstracted as the first ten characters; shorter text gives NULL. */
  function SqlDate(ts: String): Option<String>
  {
    if |ts| >= 10 then Some(ts[..10]) else None
  }

  /** The WHERE clause of getHourlyAverages (on date(timestamp)) or getDailyAverages (on date). */
  predicate KeyInRange(table: AggregateTable, key: String, start: String, end: String) {
    match table
    case HourlyTable => SqlDate(key).Some? && Between(SqlDate(key).value, start, end)
    case DailyTable => Between(key, start, end)
  }

  function RowsInRange(rows: seq<AggregateRow>, table: AggregateTable, start: String, end: String): (r: seq<AggregateRow>)
    ensures forall x :: x in r <==> x in rows && KeyInRange(table, x.key, start, end)
    ensures multiset(r) <= multiset(rows)
  {
    if rows == [] then []
    else
      assert rows == [rows[0]] + rows[1..];
      (if KeyInRange(table, rows[0].key, start, end) then [rows[0]] else []) + RowsInRange(rows[1..], table, start, end)
  }

  /** The rows the aggregate query yields: in range, `ORDER BY` the key ascending. */
  function AggregateCursor(rows: seq<AggregateRow>, table: AggregateTable, start: String, end: String): (c: seq<AggregateRow>)
    ensures multiset(c) <= multiset(rows)
    ensures forall x :: x in c <==> x in rows && KeyInRange(table, x.key, start, end)
    ensures forall i, j :: 0 <= i < j < |c| ==> LexLe(c[i].key, c[j].key)
  {
    var f := RowsInRange(rows, table, start, end);
    SortCorrect(f, KeyOf, false);
    assert forall x :: x in Sort(f, KeyOf, false) <==> x in multiset(f);
    Sort(f, KeyOf, false)
  }

  /** The (key, avg_temperature) columns of each row. */
  function KeyAndAverage(rows: seq<AggregateRow>): (r: seq<(String, real)>)
    ensures |r| == |rows| && forall i :: 0 <= i < |rows| ==> r[i] == (rows[i].key, rows[i].summary.avg)
  {
    if rows == [] then [] else [(rows[0].key, rows[0].summary.avg)] + KeyAndAverage(rows[1..])
  }

  /** The `sqlite3_step` loop of the aggregate queries: one (key, average) pair per row, in order. */
  method ReadAverages(cursor: seq<AggregateRow>) returns (results: seq<(String, real)>)
    ensures results == KeyAndAverage(cursor)
  {
    results := [];
    var i := 0;
    while i < |cursor|
      invariant 0 <= i <= |cursor|
      invariant results == KeyAndAverage(cursor[..i])
    {
      assert cursor[..i + 1] == cursor[..i] + [cursor[i]];
      KeyAndAverageAppend(cursor[..i], cursor[i]);
      results := results + [(cursor[i].key, cursor[i].summary.avg)];
      i := i + 1;
    }
    assert cursor[..i] == cursor;
  }

  /** Under the UNIQUE constraint a row occurs once. */
  lemma {:induction false} CountOneUnderUniqueKeys(rows: seq<AggregateRow>, a: nat)
    requires UniqueKeys(rows) && a < |rows|
    ensures multiset(rows)[rows[a]] == 1
  {
    var init := rows[..|rows| - 1];
    var last := rows[|rows| - 1];
    assert rows == init + [last];
    if a < |rows| - 1 {
      CountOneUnderUniqueKeys(init, a);
      assert init[a] == rows[a];
      assert last != rows[a];
    } else {
      forall i | 0 <= i < |init| ensures init[i] != last {
        assert rows[i] == init[i];
      }
      assert last !in init;
    }
  }

  /** A value at two indices of a sequence is counted at least twice. */
  lemma {:induction false} CountedTwice<T>(c: seq<T>, i: nat, j: nat)
    requires i < j < |c| && c[i] == c[j]
    ensures multiset(c)[c[j]] >= 2
  {
    assert c == c[..j] + [c[j]] + c[j + 1..];
    assert c[..j][i] == c[j];
  }

  /** A sub-multiset of a table with unique keys has unique keys. */
  lemma {:induction false} NoDuplicateKeys(rows: seq<AggregateRow>, c: seq<AggregateRow>, i: nat, j: nat)
    requires UniqueKeys(rows) && multiset(c) <= multiset(rows) && i < j < |c|
    ensures c[i].key != c[j].key
  {
    if c[i].key == c[j].key {
      assert c[i] in multiset(rows) && c[j] in multiset(rows);
      var a :| 0 <= a < |rows| && rows[a] == c[i];
      var b :| 0 <= b < |rows| && rows[b] == c[j];
      assert a == b;
      CountedTwice(c, i, j);
      CountOneUnderUniqueKeys(rows, b);
    }
  }

  /** getHourlyAverages / getDailyAverages: the keys come out strictly ascending. */
  lemma AggregateQueryAscending(rows: seq<AggregateRow>, table: AggregateTable, start: String, end: String)
    requires UniqueKeys(rows)
    ensures var r := KeyAndAverage(AggregateCursor(rows, table, start, end));
            forall i, j :: 0 <= i < j < |r| ==> LexLt(r[i].0, r[j].0)
  {
    var c := AggregateCursor(rows, table, start, end);
    forall i, j | 0 <= i < j < |c| ensures LexLt(c[i].key, c[j].key) {
      NoDuplicateKeys(rows, c, i, j);
    }
  }

  /**
   * getHourlyAverages / getDailyAverages return exactly the table's in-range keys,
   * each with that key's average.
   */
  lemma AggregateQueryContents(rows: seq<AggregateRow>, table: AggregateTable, start: String, end: String)
    requires UniqueKeys(rows)
    ensures var r := KeyAndAverage(AggregateCursor(rows, table, start, end));
            && (forall i :: 0 <= i < |r| ==>
                  (r[i].0 in AsMap(rows) && KeyInRange(table, r[i].0, start, end) && r[i].1 == AsMap(rows)[r[i].0].avg))
            && (forall k :: k in AsMap(rows) && KeyInRange(table, k, start, end) ==>
                  exists i :: 0 <= i < |r| && r[i].0 == k)
  {
    var c := AggregateCursor(rows, table, start, end);
    forall i | 0 <= i < |c| ensures c[i].key in AsMap(rows) && c[i].summary.avg == AsMap(rows)[c[i].key].avg {
      RowInMap(rows, c[i]);
    }
    forall k | k in AsMap(rows) && KeyInRange(table, k, start, end) ensures exists i :: 0 <= i < |c| && c[i].key == k {
      KeyInCursor(rows, table, start, end, k);
    }
  }

  /** A row of a table with unique keys is what the map holds for its key. */
  lemma RowInMap(rows: seq<AggregateRow>, x: AggregateRow)
    requires UniqueKeys(rows) && x in rows
    ensures x.key in AsMap(rows) && AsMap(rows)[x.key] == x.summary
  {
    var a :| 0 <= a < |rows| && rows[a] == x;
    AsMapLookup(rows, a);
  }

  /** A key of the map in range has a row in the cursor. */
  lemma KeyInCursor(rows: seq<AggregateRow>, table: AggregateTable, start: String, end: String, k: String)
    requires k in AsMap(rows) && KeyInRange(table, k, start, end)
    ensures var c := AggregateCursor(rows, table, start, end);
            exists i :: 0 <= i < |c| && c[i].key == k
  {
    var c := AggregateCursor(rows, table, start, end);
    AsMapKeys(rows);
    var a :| 0 <= a < |rows| && rows[a].key == k;
    assert rows[a] in c;
    var i :| 0 <= i < |c| && c[i] == rows[a];
  }

  // ---------------------------------------------------------------------------
  // The Database object
  // ---------------------------------------------------------------------------

  /**
   * `class Database`: `isOpen` is the `db != nullptr` handle, and the three row sequences
   * are the tables of the database file, which outlive a close and reopen.
   */
  class Database {
    var isOpen: bool
    var raw: seq<Reading>
    var hourly: seq<AggregateRow>
    var daily: seq<AggregateRow>

    ghost predicate Valid()
      reads this
    {
      UniqueKeys(hourly) && UniqueKeys(daily)
    }

    constructor ()
      ensures Valid() && !isOpen && raw == [] && hourly == [] && daily == []
    {
      isOpen := false;
      raw, hourly, daily := [], [], [];
    }

    /** `open`: true at once on an open store; otherwise whether `sqlite3_open` succeeded. */
    method Open(succeeded: bool) returns (ok: bool)
      modifies this`isOpen
      ensures old(isOpen) ==> ok
      ensures !old(isOpen) ==> ok == succeeded
      ensures isOpen == ok
    {
      if isOpen {
        return true;
      }
      isOpen := succeeded;
      ok := succeeded;
    }

    method Close()
      modifies this`isOpen
      ensures !isOpen
    {
      isOpen := false;
    }

    /** `insertRawData`: a plain INSERT, so duplicates are kept. */
    method InsertRawData(record: Reading) returns (ok: bool)
      modifies this`raw
      ensures ok == isOpen
      ensures raw == if isOpen then old(raw) + [record] else old(raw)
    {
      if !isOpen {
        return false;
      }
      raw := raw + [record];
      ok := true;
    }

    /** `insertHourlyAverage`: INSERT OR REPLACE keyed by the hour timestamp. */
    method InsertHourlyAverage(timestamp: String, avg: real, min: real, max: real, count: int) returns (ok: bool)
      requires Valid()
      modifies this`hourly
      ensures Valid()
      ensures ok == isOpen
      ensures hourly == if isOpen then Upsert(old(hourly), AggregateRow(timestamp, Summary(avg, min, max, count))) else old(hourly)
    {
      if !isOpen {
        return false;
      }
      UpsertCorrect(hourly, AggregateRow(timestamp, Summary(avg, min, max, count)));
      hourly := Upsert(hourly, AggregateRow(timestamp, Summary(avg, min, max, count)));
      ok := true;
    }

    /** `insertDailyAverage`: INSERT OR REPLACE keyed by the date. */
    method InsertDailyAverage(date: String, avg: real, min: real, max: real, count: int) returns (ok: bool)
      requires Valid()
      modifies this`daily
      ensures Valid()
      ensures ok == isOpen
      ensures daily == if isOpen then Upsert(old(daily), AggregateRow(date, Summary(avg, min, max, count))) else old(daily)
    {
      if !isOpen {
        return false;
      }
      UpsertCorrect(daily, AggregateRow(date, Summary(avg, min, max, count)));
      daily := Upsert(daily, AggregateRow(date, Summary(avg, min, max, count)));
      ok := true;
    }

    /** `getRawData`: copies the rows of the raw query into the result, column by column. */
    method GetRawData(start: String, end: String, limit: int) returns (results: seq<Reading>)
      ensures results == if isOpen then SelectRaw(raw, start, end, limit) else []
    {
      results := [];
      if !isOpen {
        return;
      }
      var cursor := SelectRaw(raw, start, end, limit);
      var i := 0;
      while i < |cursor|
        invariant 0 <= i <= |cursor|
        invariant results == cursor[..i]
      {
        var row := cursor[i];
        results := results + [Reading(row.timestamp, row.temperature, row.date, row.hour)];
        i := i + 1;
      }
    }

    /** The pair-building loop shared by getHourlyAverages and getDailyAverages. */
    method GetAverages(table: AggregateTable, start: String, end: String) returns (results: seq<(String, real)>)
      ensures results == if isOpen then KeyAndAverage(AggregateCursor(
                           match table case HourlyTable => hourly case DailyTable => daily, table, start, end)) else []
    {
      results := [];
      if !isOpen {
        return;
      }
      var rows := match table case HourlyTable => hourly case DailyTable => daily;
      results := ReadAverages(AggregateCursor(rows, table, start, end));
    }

    /** `getHourlyAverages`: hours whose date lies in [start, end], ascending. */
    method GetHourlyAverages(start: String, end: String) returns (results: seq<(String, real)>)
      ensures results == if isOpen then KeyAndAverage(AggregateCursor(hourly, HourlyTable, start, end)) else []
    {
      results := GetAverages(HourlyTable, start, end);
    }

    /** `getDailyAverages`: dates in [start, end], ascending. */
    method GetDailyAverages(start: String, end: String) returns (results: seq<(String, real)>)
      ensures results == if isOpen then KeyAndAverage(AggregateCursor(daily, DailyTable, start, end)) else []
    {
      results := GetAverages(DailyTable, start, end);
    }

    /** `getCurrentTemperature`: 0.0 on an unopened store. */
    method GetCurrentTemperature() returns (t: real)
      ensures t == if isOpen then LatestTemperature(raw) else 0.0
    {
      if !isOpen {
        return 0.0;
      }
      var cursor := Limit(Sort(raw, TimestampOf, true), 1);
      t := 0.0;
      if cursor != [] {
        t := cursor[0].temperature;
      }
    }

    /** `getStatistics`: zero statistics on an unopened store. */
    method GetStatistics(start: String, end: String) returns (st: Summary)
      ensures st == if isOpen then StatisticsOf(raw, start, end) else Summary(0.0, 0.0, 0.0, 0)
    {
      st := Summary(0.0, 0.0, 0.0, 0);
      if !isOpen {
        return;
      }
      st := StatisticsOf(raw, start, end);
    }

    /** `cleanupOldData`: `cutoff` is the value of `date('now', '-keep_days days')`. */
    method CleanupOldData(cutoff: String) returns (ok: bool)
      modifies this`raw
      ensures ok == isOpen
      ensures raw == if isOpen then RetainSince(old(raw), cutoff) else old(raw)
    {
      if !isOpen {
        return false;
      }
      raw := RetainSince(raw, cutoff);
      ok := true;
    }
  }

  lemma KeyAndAverageAppend(rows: seq<AggregateRow>, row: AggregateRow)
    ensures KeyAndAverage(rows + [row]) == KeyAndAverage(rows) + [(row.key, row.summary.avg)]
  {
  }
}
