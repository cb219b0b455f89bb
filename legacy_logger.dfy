/**
 * The lab4 logger (lab4/logger.cpp): frames are cut from the serial stream at "}\r\n", a
 * simpler parser reads the temperature and the timestamp, every sample is kept in an
 * hourly list and in per-date lists, and three log files are rewritten or appended to.
 * A log file is the sequence of its lines.
 */
module LegacyLogger {
  import opened Wrappers
  import opened Text
  import opened Stats
  import FrameParser
  import LoggerCore

  /** `TemperatureData`: the timestamp text and the temperature. */
  datatype Sample = Sample(timestamp: String, temperature: real)

  const TemperatureKey: String := "\"temperature\":"
  const TimestampKey: String := "\"timestamp\":"
  const FrameEnd: String := "}\r\n"

  const HourSeconds: int := 3600
  const DaySeconds: int := 86400

  // ---------------------------------------------------------------------------
  // parse_json
  // ---------------------------------------------------------------------------

  /**
   * parse_json: the temperature is read from 14 characters past its key up to the next
   * ',', and the timestamp from 14 characters past its key up to the next quote (the
   * source adds 13 and then skips one character). `stof` is the C++ conversion, None
   * where it throws.
   */
  function ParseJson(s: String, stof: String -> Option<real>): (r: Option<Sample>)
    ensures Find(s, TemperatureKey, 0).None? || Find(s, TimestampKey, 0).None? ==> r.None?
  {
    match Find(s, TemperatureKey, 0)
    case None => None
    case Some(tp) =>
      match Find(s, TimestampKey, 0)
      case None => None
      case Some(mp) =>
        match FindFirstOf(s, {','}, tp + 14)
        case None => None
        case Some(te) =>
          match stof(s[tp + 14..te])
          case None => None
          case Some(v) =>
            match Quoted(s, mp + 14)
            case None => None
            case Some(ts) => Some(Sample(ts, v))
  }

  /**
   * An accepted frame has both keys; its temperature is the conversion of the text from
   * the end of the temperature key to the first ',' after it (a '}' does not end it),
   * and its timestamp is the quote-free text that starts 14 characters past the
   * timestamp key and is followed by a quote.
   */
  lemma ParseJsonAccepted(s: String, stof: String -> Option<real>)
    requires ParseJson(s, stof).Some?
    ensures var r := ParseJson(s, stof).value;
            && Find(s, TemperatureKey, 0).Some? && Find(s, TimestampKey, 0).Some?
            && var tp, mp := Find(s, TemperatureKey, 0).value, Find(s, TimestampKey, 0).value;
            && tp + |TemperatureKey| == tp + 14
            && FindFirstOf(s, {','}, tp + 14).Some?
            && var te := FindFirstOf(s, {','}, tp + 14).value;
            && ',' !in s[tp + 14..te] && stof(s[tp + 14..te]) == Some(r.temperature)
            && '"' !in r.timestamp && mp + 14 + |r.timestamp| < |s| && s[mp + 14 + |r.timestamp|] == '"'
            && r.timestamp == s[mp + 14..mp + 14 + |r.timestamp|]
  {
    var tp := Find(s, TemperatureKey, 0).value;
    var te := FindFirstOf(s, {','}, tp + 14).value;
    NoneInSlice(s, ',', tp + 14, te);
  }

  /** A character absent from every position of a range is absent from its slice. */
  lemma NoneInSlice(s: String, c: char, i: nat, j: nat)
    requires i <= j <= |s| && forall k :: i <= k < j ==> s[k] !in {c}
    ensures c !in s[i..j]
  {
    forall k | 0 <= k < j - i ensures s[i..j][k] != c {
      assert s[i..j][k] == s[i + k];
    }
  }

  /** Conversely, both keys, a ',' and a closing quote, and a converting number give an accepted frame. */
  lemma ParseJsonFromFields(s: String, stof: String -> Option<real>, tp: nat, mp: nat, te: nat, v: real, ts: String)
    requires Find(s, TemperatureKey, 0) == Some(tp) && Find(s, TimestampKey, 0) == Some(mp)
    requires FindFirstOf(s, {','}, tp + 14) == Some(te) && stof(s[tp + 14..te]) == Some(v)
    requires Quoted(s, mp + 14) == Some(ts)
    ensures ParseJson(s, stof) == Some(Sample(ts, v))
  {
  }

  /** A frame with no ',' after the temperature key, or with no quote closing the timestamp, is rejected. */
  lemma ParseJsonMissingDelimiter(s: String, stof: String -> Option<real>)
    requires Find(s, TemperatureKey, 0).Some? && Find(s, TimestampKey, 0).Some?
    requires FindFirstOf(s, {','}, Find(s, TemperatureKey, 0).value + 14).None? ||
             Quoted(s, Find(s, TimestampKey, 0).value + 14).None?
    ensures ParseJson(s, stof).None?
  {
  }

  // ---------------------------------------------------------------------------
  // The emulator's frames
  // ---------------------------------------------------------------------------

  /** The comma search from the start of a comma-free `x` stops at the comma that follows it. */
  lemma CommaAfter(front: String, x: String, back: String)
    requires ',' !in x && back != [] && back[0] == ','
    ensures FindFirstOf(front + x + back, {','}, |front|) == Some(|front| + |x|)
    ensures (front + x + back)[|front|..|front| + |x|] == x
  {
    var s := front + x + back;
    var n := |front|;
    FrameParser.MiddleSlice(front, x, back);
    assert s[n..n + |x|] == x;
    forall j | n <= j < n + |x| ensures s[j] !in {','} {
      assert s[j] == s[n..n + |x|][j - n];
    }
    assert s[n + |x|] == back[0];
    FindFirstOfAt(s, {','}, n, n + |x|);
  }

  /** The temperature text of an emulator object is the space and the temperature text. */
  lemma EmulatorTemperatureText(t: String, ts: String)
    requires FrameParser.PlainText(t)
    ensures FindFirstOf(FrameParser.EmulatorObject(t, ts), {','}, 15) == Some(16 + |t|)
    ensures FrameParser.EmulatorObject(t, ts)[15..16 + |t|] == " " + t
  {
    FrameParser.EmulatorObjectText(t, ts);
    var front := "{\"temperature\":";
    var back := ", \"timestamp\": \"" + ts + "\", \"checksum\": " + t + "}";
    assert FrameParser.EmulatorObject(t, ts) == front + (" " + t) + back;
    PlainLacks(t, ',');
    CommaAfter(front, " " + t, back);
  }

  /**
   * For the object the lab4 emulator writes (lab4/emulator.cpp), the parsed timestamp is
   * the emitted one and the temperature is the conversion of the emitted number text.
   */
  lemma EmulatorFrameAccepted(t: String, ts: String, stof: String -> Option<real>, v: real)
    requires FrameParser.PlainText(t) && FrameParser.PlainText(ts)
    requires stof(" " + t) == Some(v)
    ensures ParseJson(FrameParser.EmulatorObject(t, ts), stof) == Some(Sample(ts, v))
  {
    FrameParser.EmulatorObjectText(t, ts);
    var s := FrameParser.EmulatorObject(t, ts);
    assert s + "" == s;
    FrameParser.EmulatorTemperatureKey(t, ts, "");
    FrameParser.EmulatorTimestampKey(t, ts, "");
    EmulatorTemperatureText(t, ts);
    FrameParser.EmulatorQuoted(t, ts, "");
    ParseJsonFromFields(s, stof, 1, 18 + |t|, 16 + |t|, v, ts);
  }

  // ---------------------------------------------------------------------------
  // Framing in read_from_port
  // ---------------------------------------------------------------------------

  /**
   * The frames the inner loop cuts from the buffer, each through the '}' of the first
   * "}\r\n", and what stays in the buffer.
   */
  function Frames(s: String): (r: (seq<String>, String))
    decreases |s|
  {
    match Find(s, FrameEnd, 0)
    case None => ([], s)
    case Some(p) =>
      var rest := Frames(s[p + 3..]);
      ([s[..p + 1]] + rest.0, rest.1)
  }

  /** Each frame followed by the "\r\n" that the loop drops with it, then the rest. */
  function Unframe(frames: seq<String>, rest: String): String
  {
    if frames == [] then rest else frames[0] + "\r\n" + Unframe(frames[1..], rest)
  }

  /**
   * Cutting loses nothing: the frames with their "\r\n" and the rest give back the buffer;
   * every frame ends with its '}' and holds no "}\r\n"; no "}\r\n" is left behind.
   */
  lemma {:induction false} FramesRoundTrip(s: String)
    ensures Unframe(Frames(s).0, Frames(s).1) == s
    ensures forall i :: 0 <= i < |Frames(s).0| ==>
              var f := Frames(s).0[i]; f != [] && f[|f| - 1] == '}' && Find(f, FrameEnd, 0).None?
    ensures Find(Frames(s).1, FrameEnd, 0).None?
    decreases |s|
  {
    match Find(s, FrameEnd, 0)
    case None =>
    case Some(p) =>
      FrameCut(s, p);
      FramesRoundTrip(s[p + 3..]);
  }

  /** One cut: the frame through the '}' and its "\r\n" are the buffer's prefix, and the frame has no "}\r\n". */
  lemma FrameCut(s: String, p: nat)
    requires Find(s, FrameEnd, 0) == Some(p)
    ensures s == s[..p + 1] + "\r\n" + s[p + 3..]
    ensures s[..p + 1] != [] && s[..p + 1][p] == '}' && Find(s[..p + 1], FrameEnd, 0).None?
  {
    var f := s[..p + 1];
    OccursAtChars(s, FrameEnd, p);
    assert s[p] == '}' && s[p + 1] == '\r' && s[p + 2] == '\n' by {
      assert FrameEnd[0] == '}' && FrameEnd[1] == '\r' && FrameEnd[2] == '\n';
    }
    assert s[p + 1..p + 3] == "\r\n";
    assert s == f + s[p + 1..p + 3] + s[p + 3..];
    forall j: nat ensures !OccursAt(f, FrameEnd, j) {
      if OccursAt(f, FrameEnd, j) {
        assert f[j..j + 3] == s[j..j + 3];
        assert OccursAt(s, FrameEnd, j);
      }
    }
  }

  /** A character that no plain text holds. */
  lemma PlainLacks(x: String, c: char)
    requires FrameParser.PlainText(x) && !FrameParser.PlainChar(c)
    ensures c !in x
  {
    forall k | 0 <= k < |x| ensures x[k] != c {
      assert FrameParser.PlainChar(x[k]);
    }
  }

  /** The only '}' of an emulator object is its last character. */
  lemma EmulatorBraceLast(t: String, ts: String)
    requires FrameParser.PlainText(t) && FrameParser.PlainText(ts)
    ensures var o := FrameParser.EmulatorObject(t, ts); o[|o| - 1] == '}' && '}' !in o[..|o| - 1]
  {
    FrameParser.EmulatorObjectText(t, ts);
    var o := FrameParser.EmulatorObject(t, ts);
    var body := "{\"temperature\": " + t + ", \"timestamp\": \"" + ts + "\", \"checksum\": " + t;
    assert o == body + "}";
    assert o[..|o| - 1] == body;
    PlainLacks(t, '}');
    PlainLacks(ts, '}');
  }

  /** Text whose only '}' is its last character, followed by "\r\n", is cut off as exactly one frame. */
  lemma BraceLastCut(o: String, rest: String)
    requires o != [] && o[|o| - 1] == '}' && '}' !in o[..|o| - 1]
    ensures Frames(o + "\r\n" + rest) == ([o] + Frames(rest).0, Frames(rest).1)
  {
    var s := o + "\r\n" + rest;
    var p := |o| - 1;
    forall j: nat | j < p ensures !OccursAt(s, FrameEnd, j) {
      assert s[j] == o[..p][j];
      if OccursAt(s, FrameEnd, j) {
        OccursAtChars(s, FrameEnd, j);
      }
    }
    assert s[p..p + 3] == FrameEnd;
    FindAt(s, FrameEnd, 0, p);
    assert s[..p + 1] == o;
    assert s[p + 3..] == rest;
  }

  /** An emulator object followed by "\r\n" is cut off as exactly one frame. */
  lemma EmulatorFrameCut(t: String, ts: String, rest: String)
    requires FrameParser.PlainText(t) && FrameParser.PlainText(ts)
    ensures var o := FrameParser.EmulatorObject(t, ts);
            Frames(o + "\r\n" + rest) == ([o] + Frames(rest).0, Frames(rest).1)
  {
    EmulatorBraceLast(t, ts);
    BraceLastCut(FrameParser.EmulatorObject(t, ts), rest);
  }

  // ---------------------------------------------------------------------------
  // The logger's state and its operations as functions
  // ---------------------------------------------------------------------------

  /**
   * One call's view of the environment: `now` for time(nullptr); `yesterday` for the
   * date key built from localtime minus one day; `keepRaw` and `keepHourly` for
   * is_entry_within_24h and is_entry_within_month at this moment; `show` for
   * to_string(float) and `fmt` for the fixed, two-decimal stream output.
   */
  datatype Env = Env(now: int, yesterday: String, keepRaw: String -> bool, keepHourly: String -> bool,
                     show: real -> String, fmt: real -> String)

  /** The logger's members and the contents of its three log files. */
  datatype LoggerState = LoggerState(hourlyData: seq<Sample>, dailyData: map<String, seq<real>>,
                                     lastHourCheck: int, lastDayCheck: int,
                                     rawLog: seq<String>, hourlyLog: seq<String>, dailyLog: seq<String>)

  /** The old lines that are re-written: non-empty ones that pass the retention test, in order. */
  function Retained(lines: seq<String>, keep: String -> bool): seq<String>
  {
    if lines == [] then []
    else Retained(lines[..|lines| - 1], keep) +
         (if lines[|lines| - 1] != [] && keep(lines[|lines| - 1]) then [lines[|lines| - 1]] else [])
  }

  function Temperatures(data: seq<Sample>): (r: seq<real>)
    ensures |r| == |data| && forall i :: 0 <= i < |data| ==> r[i] == data[i].temperature
  {
    seq(|data|, i requires 0 <= i < |data| => data[i].temperature)
  }

  /** The hour bucket of process_hourly_average: 13 characters of the first timestamp and ":00:00.000". */
  function HourKey(data: seq<Sample>): String
    requires data != []
  {
    Prefix(data[0].timestamp, 13) + ":00:00.000"
  }

  /** write_raw_log's new line. */
  function RawLine(d: Sample, show: real -> String): String
  {
    d.timestamp + "," + show(d.temperature)
  }

  /** process_hourly_average: nothing without data; else rewrite the hourly log with one more line and clear. */
  function HourlyFlush(st: LoggerState, keep: String -> bool, fmt: real -> String): LoggerState
  {
    if st.hourlyData == [] then st
    else st.(hourlyData := [],
             hourlyLog := Retained(st.hourlyLog, keep) + [HourKey(st.hourlyData) + "," + fmt(Mean(Temperatures(st.hourlyData)))])
  }

  /** process_daily_average for the key `date`: only a non-empty list for that date is averaged and erased. */
  function DailyFlush(st: LoggerState, date: String, fmt: real -> String): LoggerState
  {
    if date in st.dailyData && st.dailyData[date] != [] then
      st.(dailyData := st.dailyData - {date}, dailyLog := st.dailyLog + [date + "," + fmt(Mean(st.dailyData[date]))])
    else st
  }

  /** add_data: buffer the sample, rewrite the raw log, then the hourly and the daily check. */
  function AddData(st: LoggerState, d: Sample, env: Env): LoggerState
  {
    var s1 := st.(hourlyData := st.hourlyData + [d],
                  dailyData := AddSample(st.dailyData, Prefix(d.timestamp, 10), d.temperature),
                  rawLog := Retained(st.rawLog, env.keepRaw) + [RawLine(d, env.show)]);
    var s2 := if env.now - s1.lastHourCheck >= HourSeconds
              then HourlyFlush(s1, env.keepHourly, env.fmt).(lastHourCheck := env.now) else s1;
    if env.now - s2.lastDayCheck >= DaySeconds
    then DailyFlush(s2, env.yesterday, env.fmt).(lastDayCheck := env.now) else s2
  }

  /** parse_and_add_data: add the parsed sample, or change nothing. */
  function ParseAndAdd(st: LoggerState, json: String, stof: String -> Option<real>, env: Env): LoggerState
  {
    match ParseJson(json, stof)
    case None => st
    case Some(d) => AddData(st, d, env)
  }

  /** The frames handed to parse_and_add_data one after the other. */
  function AddFrames(st: LoggerState, frames: seq<String>, stof: String -> Option<real>, env: Env): LoggerState
  {
    if frames == [] then st
    else ParseAndAdd(AddFrames(st, frames[..|frames| - 1], stof, env), frames[|frames| - 1], stof, env)
  }

  /** cleanup: the hourly flush, then the yesterday key is dropped without being logged. */
  function Cleanup(st: LoggerState, date: String, keep: String -> bool, fmt: real -> String): LoggerState
  {
    var s1 := HourlyFlush(st, keep, fmt);
    if date in s1.dailyData && s1.dailyData[date] != [] then s1.(dailyData := s1.dailyData - {date}) else s1
  }

  // ---------------------------------------------------------------------------
  // Properties of the operations
  // ---------------------------------------------------------------------------

  /** The retained lines are exactly the old lines that are non-empty and pass the test. */
  lemma {:induction false} RetainedMembers(lines: seq<String>, keep: String -> bool, x: String)
    ensures x in Retained(lines, keep) <==> x in lines && x != [] && keep(x)
  {
    if lines != [] {
      RetainedMembers(lines[..|lines| - 1], keep, x);
      assert lines == lines[..|lines| - 1] + [lines[|lines| - 1]];
    }
  }

  /** Retention keeps the order of the lines: it works line by line across any split. */
  lemma {:induction false} RetainedConcat(a: seq<String>, b: seq<String>, keep: String -> bool)
    ensures Retained(a + b, keep) == Retained(a, keep) + Retained(b, keep)
  {
    if b != [] {
      var init := b[..|b| - 1];
      var last := b[|b| - 1];
      assert (a + b)[..|a + b| - 1] == a + init;
      assert (a + b)[|a + b| - 1] == last;
      RetainedConcat(a, init, keep);
    } else {
      assert a + b == a;
    }
  }

  /** Re-applying the same retention test changes nothing more. */
  lemma {:induction false} RetainedIdempotent(lines: seq<String>, keep: String -> bool)
    ensures Retained(Retained(lines, keep), keep) == Retained(lines, keep)
  {
    if lines != [] {
      var init := lines[..|lines| - 1];
      var last := lines[|lines| - 1];
      RetainedIdempotent(init, keep);
      var tailPart := if last != [] && keep(last) then [last] else [];
      RetainedConcat(Retained(init, keep), tailPart, keep);
      if tailPart != [] {
        assert tailPart[..0] == [];
      }
    }
  }

  /**
   * The raw log after add_data: the retained old lines, then the new sample's line last;
   * an hourly and a daily flush never touch it.
   */
  lemma AddDataRawLog(st: LoggerState, d: Sample, env: Env)
    ensures AddData(st, d, env).rawLog == Retained(st.rawLog, env.keepRaw) + [RawLine(d, env.show)]
    ensures |AddData(st, d, env).rawLog| > 0 && AddData(st, d, env).rawLog[|AddData(st, d, env).rawLog| - 1] == RawLine(d, env.show)
  {
  }

  /**
   * Without a due check, add_data appends the sample to the hourly list and to the list
   * of its date (the first ten characters of its timestamp), and other dates keep theirs.
   */
  lemma AddDataBuffers(st: LoggerState, d: Sample, env: Env)
    requires env.now - st.lastHourCheck < HourSeconds && env.now - st.lastDayCheck < DaySeconds
    ensures var r := AddData(st, d, env);
            var key := Prefix(d.timestamp, 10);
            && r.hourlyData == st.hourlyData + [d]
            && key in r.dailyData
            && r.dailyData[key] == (if key in st.dailyData then st.dailyData[key] else []) + [d.temperature]
            && (forall k :: k != key ==> (k in r.dailyData <==> k in st.dailyData))
            && (forall k :: k != key && k in st.dailyData ==> r.dailyData[k] == st.dailyData[k])
            && r.hourlyLog == st.hourlyLog && r.dailyLog == st.dailyLog
            && r.lastHourCheck == st.lastHourCheck && r.lastDayCheck == st.lastDayCheck
  {
  }

  /**
   * The hourly flush runs exactly when at least an hour has passed since the last check,
   * and then it writes one line, clears the hourly list and records `now`.
   */
  lemma AddDataHourlyCheck(st: LoggerState, d: Sample, env: Env)
    ensures var r := AddData(st, d, env);
            if env.now - st.lastHourCheck >= HourSeconds then
              && r.hourlyData == [] && r.lastHourCheck == env.now
              && r.hourlyLog == Retained(st.hourlyLog, env.keepHourly) +
                                [HourKey(st.hourlyData + [d]) + "," + env.fmt(Mean(Temperatures(st.hourlyData + [d])))]
            else
              r.hourlyData == st.hourlyData + [d] && r.lastHourCheck == st.lastHourCheck && r.hourlyLog == st.hourlyLog
  {
  }

  /**
   * The daily flush runs exactly when at least a day has passed since the last check; it
   * then records `now` and handles only the yesterday key.
   */
  lemma AddDataDailyCheck(st: LoggerState, d: Sample, env: Env)
    ensures var r := AddData(st, d, env);
            && (env.now - st.lastDayCheck >= DaySeconds ==> r.lastDayCheck == env.now)
            && (env.now - st.lastDayCheck < DaySeconds ==> r.lastDayCheck == st.lastDayCheck && r.dailyLog == st.dailyLog)
            && (forall k :: k != env.yesterday && k in r.dailyData ==> k in AddSample(st.dailyData, Prefix(d.timestamp, 10), d.temperature))
            && |r.dailyLog| <= |st.dailyLog| + 1
  {
  }

  /**
   * process_hourly_average: nothing on an empty list; otherwise the hourly log ends with
   * the line for the first sample's hour and the list is empty.
   */
  lemma HourlyFlushEffect(st: LoggerState, keep: String -> bool, fmt: real -> String)
    ensures st.hourlyData == [] ==> HourlyFlush(st, keep, fmt) == st
    ensures HourlyFlush(st, keep, fmt).hourlyData == []
    ensures st.hourlyData != [] ==>
              var log := HourlyFlush(st, keep, fmt).hourlyLog;
              && log[..|log| - 1] == Retained(st.hourlyLog, keep)
              && log[|log| - 1] == Prefix(st.hourlyData[0].timestamp, 13) + ":00:00.000" + "," +
                                   fmt(Mean(Temperatures(st.hourlyData)))
    ensures HourlyFlush(st, keep, fmt).dailyData == st.dailyData && HourlyFlush(st, keep, fmt).rawLog == st.rawLog
  {
  }

  /**
   * The hour bucket has the first 13 characters of the first timestamp (or all of a
   * shorter one) followed by ":00:00.000".
   */
  lemma HourKeyShape(data: seq<Sample>)
    requires data != []
    ensures |data[0].timestamp| >= 13 ==> |HourKey(data)| == 23 && HourKey(data)[..13] == data[0].timestamp[..13]
    ensures HourKey(data)[|HourKey(data)| - 10..] == ":00:00.000"
  {
  }

  /**
   * process_daily_average reads and erases only the given date, and only when it holds
   * samples; every other date keeps its list, and the daily log grows by that one line.
   */
  lemma DailyFlushEffect(st: LoggerState, date: String, fmt: real -> String)
    ensures var r := DailyFlush(st, date, fmt);
            && (forall k :: k != date ==> (k in r.dailyData <==> k in st.dailyData))
            && (forall k :: k != date && k in st.dailyData ==> r.dailyData[k] == st.dailyData[k])
            && (date in st.dailyData && st.dailyData[date] != [] ==>
                  date !in r.dailyData && r.dailyLog == st.dailyLog + [date + "," + fmt(Mean(st.dailyData[date]))])
            && (date !in st.dailyData || st.dailyData[date] == [] ==> r == st)
            && r.hourlyData == st.hourlyData && r.rawLog == st.rawLog && r.hourlyLog == st.hourlyLog
  {
  }

  /** A second daily flush for the same date finds nothing left to do. */
  lemma DailyFlushIdempotent(st: LoggerState, date: String, fmt: real -> String)
    ensures DailyFlush(DailyFlush(st, date, fmt), date, fmt) == DailyFlush(st, date, fmt)
  {
  }

  /** cleanup empties the hourly list, logs it when non-empty, and drops only the given date. */
  lemma CleanupEffect(st: LoggerState, date: String, keep: String -> bool, fmt: real -> String)
    ensures var r := Cleanup(st, date, keep, fmt);
            && r.hourlyData == []
            && r.hourlyLog == HourlyFlush(st, keep, fmt).hourlyLog
            && r.dailyLog == st.dailyLog && r.rawLog == st.rawLog
            && (date in st.dailyData && st.dailyData[date] != [] ==> date !in r.dailyData)
            && (forall k :: k != date ==> (k in r.dailyData <==> k in st.dailyData))
            && (forall k :: k != date && k in st.dailyData ==> r.dailyData[k] == st.dailyData[k])
  {
  }

  /** parse_and_add_data succeeds exactly when the frame parses, and a failed frame changes nothing. */
  lemma ParseAndAddOutcome(st: LoggerState, json: String, stof: String -> Option<real>, env: Env)
    ensures ParseJson(json, stof).None? ==> ParseAndAdd(st, json, stof, env) == st
    ensures ParseJson(json, stof).Some? ==>
              ParseAndAdd(st, json, stof, env).rawLog ==
              Retained(st.rawLog, env.keepRaw) + [RawLine(ParseJson(json, stof).value, env.show)]
  {
  }

  /** Adding frames in two batches is adding them all in order. */
  lemma {:induction false} AddFramesConcat(st: LoggerState, a: seq<String>, b: seq<String>,
                                           stof: String -> Option<real>, env: Env)
    ensures AddFrames(st, a + b, stof, env) == AddFrames(AddFrames(st, a, stof, env), b, stof, env)
  {
    if b != [] {
      assert (a + b)[..|a + b| - 1] == a + b[..|b| - 1];
      assert (a + b)[|a + b| - 1] == b[|b| - 1];
      AddFramesConcat(st, a, b[..|b| - 1], stof, env);
    } else {
      assert a + b == a;
    }
  }

  // ---------------------------------------------------------------------------
  // The logger object
  // ---------------------------------------------------------------------------

  /** What SerialPort::Read reported: RE_OK with the bytes read, or an error. */
  datatype ReadResult = ReadOk(bytes: String) | ReadFailed

  class TemperatureLogger {
    var hourlyData: seq<Sample>
    var dailyData: map<String, seq<real>>
    var lastHourCheck: int
    var lastDayCheck: int
    var rawLog: seq<String>
    var hourlyLog: seq<String>
    var dailyLog: seq<String>

    function State(): LoggerState
      reads this
    {
      LoggerState(hourlyData, dailyData, lastHourCheck, lastDayCheck, rawLog, hourlyLog, dailyLog)
    }

    /** The constructor: both checks start at `now`; the log files start as given. */
    constructor(now: int, raw: seq<String>, hourly: seq<String>, daily: seq<String>)
      ensures State() == LoggerState([], map[], now, now, raw, hourly, daily)
    {
      hourlyData := [];
      dailyData := map[];
      lastHourCheck := now;
      lastDayCheck := now;
      rawLog := raw;
      hourlyLog := hourly;
      dailyLog := daily;
    }

    /** write_raw_log: keep the passing old lines, in order, then append the new one. */
    method WriteRawLog(d: Sample, keep: String -> bool, show: real -> String)
      modifies this
      ensures State() == old(State()).(rawLog := Retained(old(rawLog), keep) + [RawLine(d, show)])
    {
      var valid := FilterLines(rawLog, keep);
      valid := valid + [RawLine(d, show)];
      rawLog := valid;
    }

    /** process_hourly_average. */
    method ProcessHourlyAverage(keep: String -> bool, fmt: real -> String)
      modifies this
      ensures State() == HourlyFlush(old(State()), keep, fmt)
    {
      if hourlyData == [] {
        return;
      }
      var avg := AverageTemperature(hourlyData);
      var hourTimestamp := Prefix(hourlyData[0].timestamp, 13) + ":00:00.000";
      var valid := FilterLines(hourlyLog, keep);
      valid := valid + [hourTimestamp + "," + fmt(avg)];
      hourlyLog := valid;
      hourlyData := [];
    }

    /** process_daily_average for the key `date` (yesterday's). */
    method ProcessDailyAverage(date: String, fmt: real -> String)
      modifies this
      ensures State() == DailyFlush(old(State()), date, fmt)
    {
      if date !in dailyData || dailyData[date] == [] {
        return;
      }
      var avg := Average(dailyData[date]);
      dailyLog := dailyLog + [date + "," + fmt(avg)];
      dailyData := dailyData - {date};
    }

    /** add_data. */
    method AddSampleData(d: Sample, env: Env)
      modifies this
      ensures State() == AddData(old(State()), d, env)
    {
      hourlyData := hourlyData + [d];
      var dateKey := Prefix(d.timestamp, 10);
      dailyData := AddSample(dailyData, dateKey, d.temperature);
      WriteRawLog(d, env.keepRaw, env.show);
      if env.now - lastHourCheck >= HourSeconds {
        ProcessHourlyAverage(env.keepHourly, env.fmt);
        lastHourCheck := env.now;
      }
      if env.now - lastDayCheck >= DaySeconds {
        ProcessDailyAverage(env.yesterday, env.fmt);
        lastDayCheck := env.now;
      }
    }

    /** cleanup, with `date` the day before the last daily check. */
    method CleanupData(date: String, keep: String -> bool, fmt: real -> String)
      modifies this
      ensures State() == Cleanup(old(State()), date, keep, fmt)
    {
      if hourlyData != [] {
        ProcessHourlyAverage(keep, fmt);
      }
      if date in dailyData && dailyData[date] != [] {
        dailyData := dailyData - {date};
      }
    }

    /** parse_and_add_data. */
    method ParseAndAddData(json: String, stof: String -> Option<real>, env: Env) returns (ok: bool)
      modifies this
      ensures ok <==> ParseJson(json, stof).Some?
      ensures State() == ParseAndAdd(old(State()), json, stof, env)
    {
      var parsed := ParseJson(json, stof);
      match parsed {
        case None =>
          ok := false;
        case Some(d) =>
          AddSampleData(d, env);
          ok := true;
      }
    }

    /**
     * One iteration of read_from_port with the buffer it carries: a read of some bytes
     * appends them (as a C string) and hands every complete frame to parse_and_add_data;
     * a read of no bytes or a failed read leaves the buffer and the logger unchanged.
     */
    method ReceiveRead(buffer: String, read: ReadResult, stof: String -> Option<real>, env: Env)
      returns (rest: String)
      modifies this
      ensures read.ReadFailed? || read.bytes == [] ==> rest == buffer && State() == old(State())
      ensures read.ReadOk? && read.bytes != [] ==>
                var all := buffer + LoggerCore.CString(read.bytes);
                rest == Frames(all).1 && State() == AddFrames(old(State()), Frames(all).0, stof, env)
    {
      if read.ReadFailed? || read.bytes == [] {
        return buffer;
      }
      var all := buffer + LoggerCore.CString(read.bytes);
      rest := all;
      ghost var done: seq<String> := [];
      assert done + Frames(rest).0 == Frames(rest).0;
      while Find(rest, FrameEnd, 0).Some?
        invariant Frames(all) == (done + Frames(rest).0, Frames(rest).1)
        invariant State() == AddFrames(old(State()), done, stof, env)
        decreases |rest|
      {
        var pos := Find(rest, FrameEnd, 0).value;
        var json := rest[..pos + 1];
        assert Frames(rest) == ([json] + Frames(rest[pos + 3..]).0, Frames(rest[pos + 3..]).1);
        rest := rest[pos + 3..];
        var _ := ParseAndAddData(json, stof, env);
        AppendAssociative(done, [json], Frames(rest).0);
        assert (done + [json])[..|done|] == done;
        done := done + [json];
      }
      assert Frames(rest) == ([], rest);
      assert done + [] == done;
    }
  }

  lemma AppendAssociative<T>(a: seq<T>, b: seq<T>, c: seq<T>)
    ensures a + b + c == a + (b + c)
  {
  }

  /** The filtering loop of write_raw_log and process_hourly_average. */
  method FilterLines(lines: seq<String>, keep: String -> bool) returns (valid: seq<String>)
    ensures valid == Retained(lines, keep)
  {
    valid := [];
    var i := 0;
    while i < |lines|
      invariant 0 <= i <= |lines|
      invariant valid == Retained(lines[..i], keep)
    {
      assert lines[..i + 1][..i] == lines[..i];
      if lines[i] != [] && keep(lines[i]) {
        valid := valid + [lines[i]];
      }
      i := i + 1;
    }
    assert lines[..i] == lines;
  }

  /** The summing loop of process_daily_average, then `sum / size`. */
  method Average(xs: seq<real>) returns (avg: real)
    requires xs != []
    ensures avg == Mean(xs)
  {
    var sum := 0.0;
    var i := 0;
    while i < |xs|
      invariant 0 <= i <= |xs|
      invariant sum == Sum(xs[..i])
    {
      assert xs[..i + 1][..i] == xs[..i];
      sum := sum + xs[i];
      i := i + 1;
    }
    assert xs[..i] == xs;
    avg := sum / (|xs| as real);
  }

  /** The summing loop of process_hourly_average over the samples' temperatures. */
  method AverageTemperature(data: seq<Sample>) returns (avg: real)
    requires data != []
    ensures avg == Mean(Temperatures(data))
  {
    ghost var temps := Temperatures(data);
    var sum := 0.0;
    var i := 0;
    while i < |data|
      invariant 0 <= i <= |data|
      invariant sum == Sum(temps[..i])
    {
      assert temps[..i + 1][..i] == temps[..i];
      sum := sum + data[i].temperature;
      i := i + 1;
    }
    assert temps[..i] == temps;
    avg := sum / (|data| as real);
  }
}
