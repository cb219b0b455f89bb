/**
 * The lab6 TemperatureLogger (lab6/temperature_logger.hpp): the reading thread's line
 * buffer, the admission of parsed records into the raw table and the two aggregation
 * buffers, the hourly and daily flushes, the elapsed-time ticks and the drain in stop().
 */
module LoggerCore {
  import opened Wrappers
  import opened Text
  import opened Stats
  import opened Storage
  import opened FrameParser

  /**
   * What the logger reads from the wall clock in one iteration: `now` in seconds, the
   * strftime texts of the local date and hour used as fallback buckets, and the value
   * of sqlite's date('now', '-30 days') used by the daily cleanup.
   */
  datatype Clock = Clock(now: int, date: String, hour: String, cleanupCutoff: String)

  const HourSeconds: int := 60 * 60
  const DaySeconds: int := 24 * 60 * 60

  /** Characters stripped from the front of every line. */
  const LineSpace: set<char> := {'\r', '\n', ' ', '\t'}

  // ---------------------------------------------------------------------------
  // Lines
  // ---------------------------------------------------------------------------

  /** `buffer += read_buf`: the chunk is read as a C string, so it ends at its first NUL. */
  function CString(chunk: String): (r: String)
    ensures r <= chunk && '\0' !in r
    ensures |r| < |chunk| ==> chunk[|r|] == '\0'
  {
    match FindFirstOf(chunk, {'\0'}, 0)
    case None => chunk
    case Some(i) => chunk[..i]
  }

  /** The complete lines of `s` (without their '\n') and the text after the last '\n'. */
  function Lines(s: String): (seq<String>, String)
    decreases |s|
  {
    match FindFirstOf(s, {'\n'}, 0)
    case None => ([], s)
    case Some(i) => var rest := Lines(s[i + 1..]); ([s[..i]] + rest.0, rest.1)
  }

  /** Each line followed by its '\n'. */
  function Terminated(lines: seq<String>): String
  {
    if lines == [] then [] else lines[0] + "\n" + Terminated(lines[1..])
  }

  /**
   * Nothing is lost or reordered: the lines, each with its '\n', followed by what is
   * left pending, are the text; no line and not the pending rest holds a '\n'.
   */
  lemma {:induction false} LinesCorrect(s: String)
    ensures Terminated(Lines(s).0) + Lines(s).1 == s
    ensures '\n' !in Lines(s).1
    ensures forall k :: 0 <= k < |Lines(s).0| ==> '\n' !in Lines(s).0[k]
    decreases |s|
  {
    match FindFirstOf(s, {'\n'}, 0)
    case None =>
      assert forall j :: 0 <= j < |s| ==> s[j] != '\n';
    case Some(i) =>
      var line, after := s[..i], s[i + 1..];
      LinesCorrect(after);
      var rest := Lines(after);
      assert Lines(s) == ([line] + rest.0, rest.1);
      assert s == line + "\n" + after;
      TerminatedCons(line, rest.0, rest.1);
      assert '\n' !in line by {
        forall j | 0 <= j < i ensures line[j] != '\n' {
          assert s[j] !in {'\n'};
        }
      }
      NoNewlineCons(line, rest.0);
  }

  /** Terminating one more line in front. */
  lemma TerminatedCons(line: String, rest: seq<String>, pending: String)
    ensures Terminated([line] + rest) + pending == line + "\n" + (Terminated(rest) + pending)
  {
    assert ([line] + rest)[1..] == rest;
  }

  /** One more line without '\n' in front. */
  lemma NoNewlineCons(line: String, rest: seq<String>)
    requires '\n' !in line
    requires forall k :: 0 <= k < |rest| ==> '\n' !in rest[k]
    ensures forall k :: 0 <= k < |[line] + rest| ==> '\n' !in ([line] + rest)[k]
  {
  }

  /** The line with its leading '\r', '\n', ' ' and '\t' removed. */
  function StripLeading(line: String): (r: String)
    ensures |r| <= |line| && r == line[|line| - |r|..]
    ensures r == [] || r[0] !in LineSpace
    ensures forall k :: 0 <= k < |line| - |r| ==> line[k] in LineSpace
  {
    if line != [] && line[0] in LineSpace then StripLeading(line[1..]) else line
  }

  /** The erase-one-character loop that strips a line. */
  method StripLine(line: String) returns (r: String)
    ensures r == StripLeading(line)
  {
    r := line;
    while r != [] && r[0] in LineSpace
      invariant StripLeading(r) == StripLeading(line)
    {
      r := r[1..];
    }
  }

  /** parse_json with the number conversion and the clock of this iteration fixed. */
  function Parser(stod: String -> Option<real>, clock: Clock): String -> Option<Reading>
  {
    s => ParseJson(s, stod, clock.date, clock.hour)
  }

  /** What one line contributes: its reading when, stripped, it is non-empty and parses. */
  function Admit(line: String, parse: String -> Option<Reading>): seq<Reading>
  {
    var l := StripLeading(line);
    if l == [] then []
    else match parse(l)
      case None => []
      case Some(r) => [r]
  }

  /** The readings of the lines, in line order. */
  function Admitted(lines: seq<String>, parse: String -> Option<Reading>): seq<Reading>
  {
    if lines == [] then []
    else Admitted(lines[..|lines| - 1], parse) + Admit(lines[|lines| - 1], parse)
  }

  /** The readings a line adds to a store that is open or not. */
  function Taken(open: bool, line: String, parse: String -> Option<Reading>): seq<Reading>
  {
    if open then Admit(line, parse) else []
  }

  /** The readings of a line: none, or the one its stripped text parses to. */
  lemma AdmitIs(line: String, parse: String -> Option<Reading>, got: seq<Reading>)
    requires var text := StripLeading(line);
             got == if text != [] && parse(text).Some? then [parse(text).value] else []
    ensures Admit(line, parse) == got
  {
  }

  /** `line`, stripped, is non-empty and parses to `r`. */
  predicate ParsesTo(line: String, parse: String -> Option<Reading>, r: Reading) {
    StripLeading(line) != [] && parse(StripLeading(line)) == Some(r)
  }

  lemma AdmitSound(line: String, parse: String -> Option<Reading>, r: Reading)
    requires r in Admit(line, parse)
    ensures ParsesTo(line, parse, r)
  {
  }

  /** Each admitted reading is the parse of one non-empty stripped line, and a line gives at most one. */
  lemma {:induction false} AdmittedSound(lines: seq<String>, parse: String -> Option<Reading>)
    ensures |Admitted(lines, parse)| <= |lines|
    ensures forall r :: r in Admitted(lines, parse) ==>
              exists k :: 0 <= k < |lines| && ParsesTo(lines[k], parse, r)
  {
    if lines != [] {
      var init := lines[..|lines| - 1];
      var last := lines[|lines| - 1];
      AdmittedSound(init, parse);
      assert Admitted(lines, parse) == Admitted(init, parse) + Admit(last, parse);
      assert |Admit(last, parse)| <= 1;
      forall r | r in Admitted(lines, parse)
        ensures exists k :: 0 <= k < |lines| && ParsesTo(lines[k], parse, r)
      {
        if r in Admitted(init, parse) {
          var k :| 0 <= k < |init| && ParsesTo(init[k], parse, r);
          assert lines[k] == init[k];
        } else {
          AdmitSound(last, parse, r);
          assert ParsesTo(lines[|lines| - 1], parse, r);
        }
      }
    }
  }

  /** The (hour, temperature) pairs the hourly flush groups. */
  function HourPairs(rs: seq<Reading>): (p: seq<(String, real)>)
    ensures |p| == |rs| && forall i :: 0 <= i < |rs| ==> p[i] == (rs[i].hour, rs[i].temperature)
  {
    if rs == [] then [] else HourPairs(rs[..|rs| - 1]) + [(rs[|rs| - 1].hour, rs[|rs| - 1].temperature)]
  }

  /** The (date, temperature) pairs pushed into the daily buffer. */
  function DatePairs(rs: seq<Reading>): (p: seq<(String, real)>)
    ensures |p| == |rs| && forall i :: 0 <= i < |rs| ==> p[i] == (rs[i].date, rs[i].temperature)
  {
    if rs == [] then [] else DatePairs(rs[..|rs| - 1]) + [(rs[|rs| - 1].date, rs[|rs| - 1].temperature)]
  }

  /** The aggregate rows a flush of `groups` writes into a table with map view `m`. */
  function Flushed(m: map<String, Summary>, groups: map<String, seq<real>>, open: bool): map<String, Summary>
  {
    if open then m + GroupSummaries(groups) else m
  }

  /** The hourly flush writes a row for exactly the hours of the buffered records. */
  lemma HourlyFlushKeys(buffer: seq<Reading>, k: String)
    ensures k in GroupSummaries(GroupInto(map[], HourPairs(buffer))) <==>
            exists i :: 0 <= i < |buffer| && buffer[i].hour == k
  {
    var pairs := HourPairs(buffer);
    GroupIntoCorrect(map[], pairs);
    SamplesForNonEmpty(pairs, k);
    if exists i :: 0 <= i < |buffer| && buffer[i].hour == k {
      var i :| 0 <= i < |buffer| && buffer[i].hour == k;
      assert pairs[i].0 == k;
    }
    if Mentions(pairs, k) {
      var i :| 0 <= i < |pairs| && pairs[i].0 == k;
      assert buffer[i].hour == k;
    }
  }

  /**
   * Each hourly row aggregates exactly that hour's records: the count is their number and
   * min and max are temperatures of them that bound every one of them and the average.
   */
  lemma HourlyFlushValues(buffer: seq<Reading>, k: String)
    requires k in GroupSummaries(GroupInto(map[], HourPairs(buffer)))
    ensures var g := GroupSummaries(GroupInto(map[], HourPairs(buffer)));
            var samples := SamplesFor(HourPairs(buffer), k);
            && g[k].count == |samples|
            && g[k].min in samples && g[k].max in samples
            && g[k].min <= g[k].avg <= g[k].max
            && forall i :: 0 <= i < |buffer| && buffer[i].hour == k ==> g[k].min <= buffer[i].temperature <= g[k].max
  {
    var pairs := HourPairs(buffer);
    var groups := GroupInto(map[], pairs);
    GroupIntoCorrect(map[], pairs);
    GroupSummariesCorrect(groups, k);
    assert groups[k] == SamplesFor(pairs, k);
    forall i | 0 <= i < |buffer| && buffer[i].hour == k
      ensures GroupSummaries(groups)[k].min <= buffer[i].temperature <= GroupSummaries(groups)[k].max
    {
      SampleOfPair(pairs, i);
    }
  }

  /** The sample of every pair is among the samples of its key. */
  lemma {:induction false} SampleOfPair(pairs: seq<(String, real)>, i: nat)
    requires i < |pairs|
    ensures pairs[i].1 in SamplesFor(pairs, pairs[i].0)
  {
    var init := pairs[..|pairs| - 1];
    if i < |pairs| - 1 {
      assert init[i] == pairs[i];
      SampleOfPair(init, i);
    }
  }

  /** No character of an emulator object is a line break. */
  lemma EmulatorObjectSingleLine(t: String, ts: String)
    requires PlainText(t) && PlainText(ts)
    ensures '\n' !in EmulatorObject(t, ts)
  {
    EmulatorObjectText(t, ts);
    var a, b, c, d := "{\"temperature\": ", ", \"timestamp\": \"", "\", \"checksum\": ", "}";
    var s := EmulatorObject(t, ts);
    assert s == a + t + b + ts + c + t + d;
    assert '\n' !in t && '\n' !in ts;
  }

  /** One frame of the emulator, read in one chunk, is one complete line. */
  lemma EmulatorLine(t: String, ts: String)
    requires PlainText(t) && PlainText(ts)
    ensures Lines(EmulatorObject(t, ts) + "\r\n") == ([EmulatorObject(t, ts) + "\r"], [])
  {
    var e := EmulatorObject(t, ts);
    var s := e + "\r\n";
    EmulatorObjectSingleLine(t, ts);
    assert forall j :: 0 <= j < |e| ==> s[j] == e[j];
    assert s[|e|] == '\r' && s[|e| + 1] == '\n';
    FindFirstOfAt(s, {'\n'}, 0, |e| + 1);
    var rest := s[|e| + 2..];
    assert rest == [];
    assert FindFirstOf(rest, {'\n'}, 0) == None;
    assert Lines(rest) == ([], []);
    assert s[..|e| + 1] == e + "\r";
    assert Lines(s).0 == [s[..|e| + 1]] + Lines(rest).0;
    assert Lines(s).1 == Lines(rest).1;
    assert Lines(s).0 == [e + "\r"];
    assert Lines(s).1 == [];
  }

  /**
   * That line is admitted as the reading of the frame's timestamp and temperature,
   * bucketed by the timestamp's own date and hour.
   */
  lemma EmulatorLineAdmitted(t: String, ts: String, stod: String -> Option<real>, v: real, clock: Clock)
    requires PlainText(t) && PlainText(ts) && stod(" " + t) == Some(v)
    ensures Admit(EmulatorObject(t, ts) + "\r", Parser(stod, clock)) ==
            [Reading(ts, v, DateKey(ts, clock.date), HourKey(ts, clock.hour))]
  {
    EmulatorObjectText(t, ts);
    var line := EmulatorObject(t, ts) + "\r";
    assert line[0] == '{';
    assert StripLeading(line) == line;
    EmulatorFrameAccepted(t, ts, "\r", stod, v, clock.date, clock.hour);
  }

  // ---------------------------------------------------------------------------
  // The logger object
  // ---------------------------------------------------------------------------

  /**
   * `class TemperatureLogger`. `serialOpen` is `serial_port != nullptr`; `pending` is the
   * reading thread's `buffer`, kept between iterations of its loop.
   */
  class TemperatureLogger {
    var db: Database
    var serialOpen: bool
    var hourlyBuffer: seq<Reading>
    var dailyBuffer: map<String, seq<real>>
    var lastHourCheck: int
    var lastDayCheck: int
    var lastCleanupCheck: int
    var pending: String

    ghost predicate Valid()
      reads this, db
    {
      db.Valid()
    }

    /** The three check times start at the construction time. */
    constructor (now: int)
      ensures Valid() && fresh(db) && !db.isOpen && db.raw == [] && db.hourly == [] && db.daily == []
      ensures !serialOpen && hourlyBuffer == [] && dailyBuffer == map[] && pending == []
      ensures lastHourCheck == now && lastDayCheck == now && lastCleanupCheck == now
    {
      db := new Database();
      serialOpen := false;
      hourlyBuffer, dailyBuffer, pending := [], map[], [];
      lastHourCheck, lastDayCheck, lastCleanupCheck := now, now, now;
    }

    /**
     * `initialize`: fails when the store cannot be opened; otherwise opening the serial
     * port decides. `storeOpens` and `portOpens` are the outcomes of the two open calls.
     */
    method Initialize(storeOpens: bool, portOpens: bool) returns (ok: bool)
      requires Valid()
      modifies this, db`isOpen
      ensures Valid() && db == old(db)
      ensures db.isOpen == (old(db.isOpen) || storeOpens)
      ensures ok == (db.isOpen && portOpens)
      ensures serialOpen == if db.isOpen then portOpens else old(serialOpen)
      ensures hourlyBuffer == old(hourlyBuffer) && dailyBuffer == old(dailyBuffer) && pending == old(pending)
      ensures lastHourCheck == old(lastHourCheck) && lastDayCheck == old(lastDayCheck)
      ensures lastCleanupCheck == old(lastCleanupCheck)
    {
      var storeOk := db.Open(storeOpens);
      if !storeOk {
        return false;
      }
      serialOpen := portOpens;
      ok := portOpens;
    }

    /** The map view of the aggregate table `table`. */
    ghost function Aggregates(table: AggregateTable): map<String, Summary>
      reads this, db
    {
      match table
      case HourlyTable => AsMap(db.hourly)
      case DailyTable => AsMap(db.daily)
    }

    /** Upserts one aggregate per non-empty group, visiting the keys in ascending order. */
    method FlushGroups(groups: map<String, seq<real>>, table: AggregateTable)
      requires db.Valid()
      modifies db
      ensures db.Valid() && db.isOpen == old(db.isOpen) && db.raw == old(db.raw)
      ensures Aggregates(table) == Flushed(old(Aggregates(table)), groups, db.isOpen)
      ensures table == HourlyTable ==> db.daily == old(db.daily)
      ensures table == DailyTable ==> db.hourly == old(db.hourly)
      ensures !db.isOpen ==> db.hourly == old(db.hourly) && db.daily == old(db.daily)
    {
      var remaining := groups.Keys;
      while remaining != {}
        invariant remaining <= groups.Keys
        invariant db.Valid() && db.isOpen == old(db.isOpen) && db.raw == old(db.raw)
        invariant Aggregates(table) == Flushed(old(Aggregates(table)), Restrict(groups, groups.Keys - remaining), db.isOpen)
        invariant table == HourlyTable ==> db.daily == old(db.daily)
        invariant table == DailyTable ==> db.hourly == old(db.hourly)
        invariant !db.isOpen ==> db.hourly == old(db.hourly) && db.daily == old(db.daily)
        decreases |remaining|
      {
        var key := Least(remaining);
        ghost var done := groups.Keys - remaining;
        ghost var before := Aggregates(table);
        var temps := groups[key];
        if temps != [] {
          var s := Summarize(temps);
          InsertAggregate(table, key, s);
        }
        FlushStep(old(Aggregates(table)), groups, done, key, db.isOpen, before, Aggregates(table));
        remaining := remaining - {key};
        assert groups.Keys - remaining == done + {key};
      }
      assert groups.Keys - remaining == groups.Keys;
      RestrictAll(groups);
    }

    /** The `insertHourlyAverage` or `insertDailyAverage` call of a flush. */
    method InsertAggregate(table: AggregateTable, key: String, s: Summary)
      requires db.Valid()
      modifies db
      ensures db.Valid() && db.isOpen == old(db.isOpen) && db.raw == old(db.raw)
      ensures Aggregates(table) == if db.isOpen then old(Aggregates(table))[key := s] else old(Aggregates(table))
      ensures table == HourlyTable ==> db.daily == old(db.daily)
      ensures table == DailyTable ==> db.hourly == old(db.hourly)
      ensures !db.isOpen ==> db.hourly == old(db.hourly) && db.daily == old(db.daily)
    {
      var ok: bool;
      if table == HourlyTable {
        UpsertCorrect(db.hourly, AggregateRow(key, s));
        ok := db.InsertHourlyAverage(key, s.avg, s.min, s.max, s.count);
      } else {
        UpsertCorrect(db.daily, AggregateRow(key, s));
        ok := db.InsertDailyAverage(key, s.avg, s.min, s.max, s.count);
      }
    }

    /** `processHourlyBuffer`: groups the buffer by hour, flushes the groups and clears the buffer. */
    method ProcessHourlyBuffer()
      requires Valid()
      modifies this, db
      ensures Valid() && db == old(db) && db.isOpen == old(db.isOpen)
      ensures db.raw == old(db.raw) && db.daily == old(db.daily)
      ensures AsMap(db.hourly) == Flushed(AsMap(old(db.hourly)), GroupInto(map[], HourPairs(old(hourlyBuffer))), db.isOpen)
      ensures old(hourlyBuffer) == [] || !db.isOpen ==> db.hourly == old(db.hourly)
      ensures hourlyBuffer == [] && dailyBuffer == old(dailyBuffer) && pending == old(pending)
      ensures serialOpen == old(serialOpen) && lastHourCheck == old(lastHourCheck)
      ensures lastDayCheck == old(lastDayCheck) && lastCleanupCheck == old(lastCleanupCheck)
    {
      if hourlyBuffer == [] {
        assert GroupSummaries(GroupInto(map[], HourPairs(hourlyBuffer))) == map[];
        assert AsMap(db.hourly) + map[] == AsMap(db.hourly);
        return;
      }
      var groups: map<String, seq<real>> := map[];
      var i := 0;
      while i < |hourlyBuffer|
        invariant 0 <= i <= |hourlyBuffer|
        invariant groups == GroupInto(map[], HourPairs(hourlyBuffer[..i]))
      {
        assert hourlyBuffer[..i + 1][..i] == hourlyBuffer[..i];
        groups := AddSample(groups, hourlyBuffer[i].hour, hourlyBuffer[i].temperature);
        i := i + 1;
      }
      assert hourlyBuffer[..i] == hourlyBuffer;
      FlushGroups(groups, HourlyTable);
      hourlyBuffer := [];
    }

    /** `processDailyBuffer`: flushes the daily buckets and clears them. */
    method ProcessDailyBuffer()
      requires Valid()
      modifies this, db
      ensures Valid() && db == old(db) && db.isOpen == old(db.isOpen)
      ensures db.raw == old(db.raw) && db.hourly == old(db.hourly)
      ensures AsMap(db.daily) == Flushed(AsMap(old(db.daily)), old(dailyBuffer), db.isOpen)
      ensures old(dailyBuffer) == map[] || !db.isOpen ==> db.daily == old(db.daily)
      ensures dailyBuffer == map[] && hourlyBuffer == old(hourlyBuffer) && pending == old(pending)
      ensures serialOpen == old(serialOpen) && lastHourCheck == old(lastHourCheck)
      ensures lastDayCheck == old(lastDayCheck) && lastCleanupCheck == old(lastCleanupCheck)
    {
      if dailyBuffer == map[] {
        assert GroupSummaries(dailyBuffer) == map[];
        assert AsMap(db.daily) + map[] == AsMap(db.daily);
        return;
      }
      FlushGroups(dailyBuffer, DailyTable);
      dailyBuffer := map[];
    }

    /**
     * The line loop of the reading thread, run after a read that returned bytes: every
     * complete line is stripped and, when non-empty, parsed; a parsed record goes to the
     * raw table and, only when that insert succeeds, to both aggregation buffers.
     */
    method ReceiveChunk(chunk: String, stod: String -> Option<real>, clock: Clock)
      requires Valid()
      modifies this, db`raw
      ensures Valid() && db == old(db)
      ensures var lines := Lines(old(pending) + CString(chunk));
              var got := if db.isOpen then Admitted(lines.0, Parser(stod, clock)) else [];
              && pending == lines.1
              && db.raw == old(db.raw) + got
              && hourlyBuffer == old(hourlyBuffer) + got
              && dailyBuffer == GroupInto(old(dailyBuffer), DatePairs(got))
      ensures serialOpen == old(serialOpen) && lastHourCheck == old(lastHourCheck)
      ensures lastDayCheck == old(lastDayCheck) && lastCleanupCheck == old(lastCleanupCheck)
    {
      var parse := Parser(stod, clock);
      ghost var lines := Lines(pending + CString(chunk));
      ghost var consumed: seq<String> := [];
      ghost var got: seq<Reading> := [];
      pending := pending + CString(chunk);
      assert consumed + Lines(pending).0 == Lines(pending).0;
      while FindFirstOf(pending, {'\n'}, 0).Some?
        invariant db == old(db) && db.Valid() && db.isOpen == old(db.isOpen)
        invariant lines == (consumed + Lines(pending).0, Lines(pending).1)
        invariant got == if db.isOpen then Admitted(consumed, parse) else []
        invariant db.raw == old(db.raw) + got
        invariant hourlyBuffer == old(hourlyBuffer) + got
        invariant dailyBuffer == GroupInto(old(dailyBuffer), DatePairs(got))
        invariant serialOpen == old(serialOpen) && lastHourCheck == old(lastHourCheck)
        invariant lastDayCheck == old(lastDayCheck) && lastCleanupCheck == old(lastCleanupCheck)
        decreases |pending|
      {
        var pos := FindFirstOf(pending, {'\n'}, 0).value;
        var line := pending[..pos];
        LinesStep(pending, pos, consumed);
        AdmittedSnoc(consumed, line, parse, db.isOpen);
        pending := pending[pos + 1..];
        consumed := consumed + [line];
        ghost var more := Taken(db.isOpen, line, parse);
        HandleLine(line, parse);
        GroupMore(old(dailyBuffer), got, more);
        AppendAssociative(old(db.raw), got, more);
        AppendAssociative(old(hourlyBuffer), got, more);
        got := got + more;
      }
      assert Lines(pending) == ([], pending);
      assert lines.0 == consumed;
    }

    /**
     * The timer part of the reading thread's loop: each of the three periods that has
     * fully elapsed since its last check runs its job and restarts at `clock.now`. The
     * jobs run in the source's order (hourly flush, daily flush, cleanup).
     */
    method Tick(clock: Clock)
      requires Valid()
      modifies this, db
      ensures Valid() && db == old(db) && db.isOpen == old(db.isOpen)
      ensures var due := clock.now - old(lastHourCheck) >= HourSeconds;
              && lastHourCheck == (if due then clock.now else old(lastHourCheck))
              && hourlyBuffer == (if due then [] else old(hourlyBuffer))
              && AsMap(db.hourly) == if due
                 then Flushed(AsMap(old(db.hourly)), GroupInto(map[], HourPairs(old(hourlyBuffer))), db.isOpen)
                 else AsMap(old(db.hourly))
      ensures var due := clock.now - old(lastDayCheck) >= DaySeconds;
              && lastDayCheck == (if due then clock.now else old(lastDayCheck))
              && dailyBuffer == (if due then map[] else old(dailyBuffer))
              && AsMap(db.daily) == if due
                 then Flushed(AsMap(old(db.daily)), old(dailyBuffer), db.isOpen)
                 else AsMap(old(db.daily))
      ensures var due := clock.now - old(lastCleanupCheck) >= DaySeconds;
              && lastCleanupCheck == (if due then clock.now else old(lastCleanupCheck))
              && db.raw == if due && db.isOpen then RetainSince(old(db.raw), clock.cleanupCutoff) else old(db.raw)
      ensures clock.now - lastHourCheck < HourSeconds && clock.now - lastDayCheck < DaySeconds
      ensures clock.now - lastCleanupCheck < DaySeconds
      ensures pending == old(pending) && serialOpen == old(serialOpen)
    {
      if clock.now - lastHourCheck >= HourSeconds {
        ProcessHourlyBuffer();
        lastHourCheck := clock.now;
      }
      if clock.now - lastDayCheck >= DaySeconds {
        ProcessDailyBuffer();
        lastDayCheck := clock.now;
      }
      if clock.now - lastCleanupCheck >= DaySeconds {
        var _ := db.CleanupOldData(clock.cleanupCutoff);
        lastCleanupCheck := clock.now;
      }
    }

    /**
     * `stop`: after the reading thread has ended, both buffers are drained into the
     * aggregate tables, the serial port is released and the store is closed.
     */
    method Stop()
      requires Valid()
      modifies this, db
      ensures Valid() && db == old(db) && !db.isOpen && !serialOpen
      ensures db.raw == old(db.raw)
      ensures AsMap(db.hourly) == Flushed(AsMap(old(db.hourly)), GroupInto(map[], HourPairs(old(hourlyBuffer))), old(db.isOpen))
      ensures AsMap(db.daily) == Flushed(AsMap(old(db.daily)), old(dailyBuffer), old(db.isOpen))
      ensures hourlyBuffer == [] && dailyBuffer == map[] && pending == old(pending)
      ensures lastHourCheck == old(lastHourCheck) && lastDayCheck == old(lastDayCheck)
      ensures lastCleanupCheck == old(lastCleanupCheck)
    {
      ProcessHourlyBuffer();
      ProcessDailyBuffer();
      serialOpen := false;
      db.Close();
    }

    /** One parsed reading: stored, and buffered once the store took it. */
    method Store(got: seq<Reading>)
      requires Valid() && |got| <= 1
      modifies this, db`raw
      ensures Valid() && db == old(db)
      ensures db.raw == old(db.raw) + (if db.isOpen then got else [])
      ensures hourlyBuffer == old(hourlyBuffer) + (if db.isOpen then got else [])
      ensures dailyBuffer == GroupInto(old(dailyBuffer), DatePairs(if db.isOpen then got else []))
      ensures pending == old(pending) && serialOpen == old(serialOpen) && lastHourCheck == old(lastHourCheck)
      ensures lastDayCheck == old(lastDayCheck) && lastCleanupCheck == old(lastCleanupCheck)
    {
      assert DatePairs([]) == [];
      if got != [] {
        var record := got[0];
        assert got == [record];
        var inserted := db.InsertRawData(record);
        if inserted {
          hourlyBuffer := hourlyBuffer + [record];
          GroupIntoOne(dailyBuffer, record.date, record.temperature);
          dailyBuffer := AddSample(dailyBuffer, record.date, record.temperature);
        }
      }
    }

    /** One complete line: stripped, skipped when empty, parsed, stored, buffered. */
    method HandleLine(line: String, parse: String -> Option<Reading>)
      requires Valid()
      modifies this, db`raw
      ensures Valid() && db == old(db)
      ensures db.raw == old(db.raw) + Taken(db.isOpen, line, parse)
      ensures hourlyBuffer == old(hourlyBuffer) + Taken(db.isOpen, line, parse)
      ensures dailyBuffer == GroupInto(old(dailyBuffer), DatePairs(Taken(db.isOpen, line, parse)))
      ensures pending == old(pending) && serialOpen == old(serialOpen) && lastHourCheck == old(lastHourCheck)
      ensures lastDayCheck == old(lastDayCheck) && lastCleanupCheck == old(lastCleanupCheck)
    {
      var text := StripLine(line);
      var got: seq<Reading> := [];
      if text != [] && parse(text).Some? {
        got := [parse(text).value];
      }
      AdmitIs(line, parse, got);
      Store(got);
    }
  }

  lemma AppendAssociative<T>(a: seq<T>, b: seq<T>, c: seq<T>)
    ensures a + b + c == a + (b + c)
  {
  }

  lemma {:induction false} DatePairsAppend(a: seq<Reading>, b: seq<Reading>)
    ensures DatePairs(a + b) == DatePairs(a) + DatePairs(b)
  {
    if b != [] {
      assert (a + b)[..|a + b| - 1] == a + b[..|b| - 1];
      DatePairsAppend(a, b[..|b| - 1]);
    } else {
      assert a + b == a;
    }
  }

  /** Cutting the first line off the pending text moves it to the consumed lines. */
  lemma LinesStep(pending: String, pos: nat, consumed: seq<String>)
    requires FindFirstOf(pending, {'\n'}, 0) == Some(pos)
    ensures consumed + Lines(pending).0 == (consumed + [pending[..pos]]) + Lines(pending[pos + 1..]).0
    ensures Lines(pending).1 == Lines(pending[pos + 1..]).1
  {
    assert Lines(pending) == ([pending[..pos]] + Lines(pending[pos + 1..]).0, Lines(pending[pos + 1..]).1);
  }

  /** The readings of one more line follow those of the lines before it. */
  lemma AdmittedSnoc(lines: seq<String>, line: String, parse: String -> Option<Reading>, open: bool)
    ensures (if open then Admitted(lines + [line], parse) else [])
            == (if open then Admitted(lines, parse) else []) + Taken(open, line, parse)
  {
    assert (lines + [line])[..|lines|] == lines;
  }

  /** Grouping the dates of two runs of readings in turn is grouping them together. */
  lemma GroupMore(groups: map<String, seq<real>>, got: seq<Reading>, more: seq<Reading>)
    ensures GroupInto(groups, DatePairs(got + more)) == GroupInto(GroupInto(groups, DatePairs(got)), DatePairs(more))
  {
    DatePairsAppend(got, more);
    GroupIntoAppend(groups, DatePairs(got), DatePairs(more));
  }

  /** Grouping one pair adds its sample. */
  lemma GroupIntoOne(groups: map<String, seq<real>>, k: String, x: real)
    ensures GroupInto(groups, [(k, x)]) == AddSample(groups, k, x)
  {
    assert [(k, x)][..0] == [];
  }

  lemma {:induction false} GroupIntoAppend(groups: map<String, seq<real>>, p: seq<(String, real)>, q: seq<(String, real)>)
    ensures GroupInto(groups, p + q) == GroupInto(GroupInto(groups, p), q)
  {
    if q != [] {
      assert (p + q)[..|p + q| - 1] == p + q[..|q| - 1];
      GroupIntoAppend(groups, p, q[..|q| - 1]);
    } else {
      assert p + q == p;
    }
  }

  /** The groups whose keys are in `keys`. */
  function Restrict(groups: map<String, seq<real>>, keys: set<String>): map<String, seq<real>>
  {
    map k | k in groups && k in keys :: groups[k]
  }

  lemma MergeUpdate(m: map<String, Summary>, done: map<String, Summary>, key: String, temps: seq<real>)
    ensures temps != [] ==> (m + done)[key := SummaryOf(temps)] == m + done[key := SummaryOf(temps)]
  {
  }

  /** The smallest key in text order: the next key a `std::map` visits. */
  method Least(keys: set<String>) returns (key: String)
    requires keys != {}
    ensures key in keys && forall k :: k in keys ==> LexLe(key, k)
  {
    ghost var least := LeastKey(keys);
    key :| key in keys && forall k :: k in keys ==> LexLe(key, k);
  }

  /** Restricting the groups to all their keys keeps them all. */
  lemma RestrictAll(groups: map<String, seq<real>>)
    ensures Restrict(groups, groups.Keys) == groups
  {
  }

  /** Flushing one more key of the groups extends the flush of the keys done so far. */
  lemma FlushStep(m: map<String, Summary>, groups: map<String, seq<real>>, done: set<String>, key: String,
                  open: bool, before: map<String, Summary>, after: map<String, Summary>)
    requires key in groups && key !in done
    requires before == Flushed(m, Restrict(groups, done), open)
    requires after == if open && groups[key] != [] then before[key := SummaryOf(groups[key])] else before
    ensures after == Flushed(m, Restrict(groups, done + {key}), open)
  {
    RestrictStep(groups, done, key);
    MergeUpdate(m, GroupSummaries(Restrict(groups, done)), key, groups[key]);
  }

  lemma RestrictStep(groups: map<String, seq<real>>, done: set<String>, key: String)
    requires key in groups && key !in done
    ensures var next := GroupSummaries(Restrict(groups, done + {key}));
            var prev := GroupSummaries(Restrict(groups, done));
            next == if groups[key] != [] then prev[key := SummaryOf(groups[key])] else prev
  {
  }
}
