/**
 * The serial frame format and the lab6 frame parser (TemperatureLogger::parse_json in
 * lab6/temperature_logger.hpp). The device writes one JSON-like object per line; the
 * parser locates the three keys by plain text search, reads the two numbers up to the
 * next ',' or '}', compares them within EPSILON and derives the hour and date buckets.
 */
module FrameParser {
  import opened Wrappers
  import opened Text
  import opened Storage

  const VerboseTemperature: String := "\"temperature\":"
  const VerboseChecksum: String := "\"checksum\":"
  const VerboseTimestamp: String := "\"timestamp\":"
  const CompactTemperature: String := "\"temp\":"
  const CompactChecksum: String := "\"chk\":"
  const CompactTimestamp: String := "\"time\":"

  /** The largest accepted difference between temperature and checksum. */
  const Epsilon: real := 0.01

  /** The characters that end a number field. */
  const FieldEnd: set<char> := {',', '}'}

  /** Where the temperature, checksum and timestamp values start. */
  datatype Positions = Positions(temperature: nat, checksum: nat, timestamp: nat)

  /**
   * The verbose key set when all three of its keys occur, otherwise the compact key set;
   * the offsets added to the key positions are the source's constants.
   */
  function ValuePositions(s: String): Option<Positions>
  {
    var t, c, m := Find(s, VerboseTemperature, 0), Find(s, VerboseChecksum, 0), Find(s, VerboseTimestamp, 0);
    if t.Some? && c.Some? && m.Some? then
      Some(Positions(t.value + 14, c.value + 11, m.value + 13))
    else
      var t', c', m' := Find(s, CompactTemperature, 0), Find(s, CompactChecksum, 0), Find(s, CompactTimestamp, 0);
      if t'.Some? && c'.Some? && m'.Some? then Some(Positions(t'.value + 7, c'.value + 7, m'.value + 7))
      else None
  }

  /** The text of a number field: from its start up to the first ',' or '}'. */
  function NumberText(s: String, pos: nat): (r: Option<String>)
    ensures r.Some? ==> pos + |r.value| < |s| && s[pos + |r.value|] in FieldEnd && r.value == s[pos..pos + |r.value|]
    ensures r.Some? ==> forall k :: 0 <= k < |r.value| ==> r.value[k] !in FieldEnd
    ensures r.None? ==> forall j :: pos <= j < |s| ==> s[j] !in FieldEnd
  {
    match FindFirstOf(s, FieldEnd, pos)
    case None => None
    case Some(e) => Some(s[pos..e])
  }

  /**
   * The text of the timestamp: between the quote at `pos` and the next quote; without a
   * closing quote, from `pos` up to the first ',' or '}'.
   */
  function TimestampText(s: String, pos: nat): (r: Option<String>)
  {
    match Quoted(s, pos + 1)
    case Some(q) => Some(q)
    case None =>
      match FindFirstOf(s, FieldEnd, pos)
      case None => None
      case Some(e) => Some(s[pos..e])
  }

  /** The daily bucket: the first ten characters of the timestamp, else the clock's date. */
  function DateKey(timestamp: String, clockDate: String): (r: String)
  {
    if |timestamp| >= 10 then timestamp[..10] else clockDate
  }

  /** The hourly bucket: the first thirteen characters plus ":00:00.000", else the clock's hour. */
  function HourKey(timestamp: String, clockHour: String): (r: String)
  {
    if |timestamp| >= 13 then timestamp[..13] + ":00:00.000" else clockHour
  }

  function Abs(x: real): real {
    if x < 0.0 then -x else x
  }

  /**
   * parse_json: `stod` is the C++ number conversion (None where it throws); `clockDate`
   * and `clockHour` are the strftime texts of the current local time.
   */
  function ParseJson(s: String, stod: String -> Option<real>, clockDate: String, clockHour: String): Option<Reading>
  {
    match ValuePositions(s)
    case None => None
    case Some(p) =>
      match NumberText(s, p.temperature)
      case None => None
      case Some(tt) =>
        match stod(tt)
        case None => None
        case Some(temperature) =>
          match NumberText(s, p.checksum)
          case None => None
          case Some(ct) =>
            match stod(ct)
            case None => None
            case Some(checksum) =>
              if Abs(temperature - checksum) > Epsilon then None
              else
                match TimestampText(s, p.timestamp)
                case None => None
                case Some(ts) => Some(Reading(ts, temperature, DateKey(ts, clockDate), HourKey(ts, clockHour)))
  }

  /**
   * An accepted frame's temperature and checksum are the parsed texts of its two number
   * fields and agree within EPSILON; its buckets are derived from its timestamp.
   */
  lemma {:induction false} ParseJsonAccepted(s: String, stod: String -> Option<real>, clockDate: String, clockHour: String)
    requires ParseJson(s, stod, clockDate, clockHour).Some?
    ensures var r := ParseJson(s, stod, clockDate, clockHour).value;
            var p := ValuePositions(s).value;
            && NumberText(s, p.temperature).Some? && stod(NumberText(s, p.temperature).value) == Some(r.temperature)
            && NumberText(s, p.checksum).Some? && stod(NumberText(s, p.checksum).value).Some?
            && Abs(r.temperature - stod(NumberText(s, p.checksum).value).value) <= Epsilon
            && TimestampText(s, p.timestamp) == Some(r.timestamp)
            && r.date == DateKey(r.timestamp, clockDate) && r.hour == HourKey(r.timestamp, clockHour)
  {
  }

  /**
   * Conversely, a frame whose keys are found, whose two number texts convert and agree
   * within EPSILON and whose timestamp text is found, is accepted with exactly those values.
   */
  lemma {:induction false} ParseJsonFromFields(s: String, stod: String -> Option<real>, clockDate: String, clockHour: String,
                            temperature: nat, checksum: nat, timestamp: nat, tt: String, ct: String, ts: String)
    requires ValuePositions(s) == Some(Positions(temperature, checksum, timestamp))
    requires NumberText(s, temperature) == Some(tt) && NumberText(s, checksum) == Some(ct)
    requires stod(tt).Some? && stod(ct).Some? && Abs(stod(tt).value - stod(ct).value) <= Epsilon
    requires TimestampText(s, timestamp) == Some(ts)
    ensures ParseJson(s, stod, clockDate, clockHour) ==
            Some(Reading(ts, stod(tt).value, DateKey(ts, clockDate), HourKey(ts, clockHour)))
  {
  }

  /** A frame whose two numbers differ by more than EPSILON is rejected, whatever else it holds. */
  lemma {:induction false} ChecksumMismatchRejected(s: String, stod: String -> Option<real>, clockDate: String, clockHour: String,
                                 p: Positions, tt: String, ct: String)
    requires ValuePositions(s) == Some(p)
    requires NumberText(s, p.temperature) == Some(tt) && NumberText(s, p.checksum) == Some(ct)
    requires stod(tt).Some? && stod(ct).Some? && Abs(stod(tt).value - stod(ct).value) > Epsilon
    ensures ParseJson(s, stod, clockDate, clockHour) == None
  {
  }

  /**
   * With all three verbose keys their offsets are used; when some verbose key is missing
   * and all three compact keys occur, every compact value is read 7 characters past its key;
   * a frame that misses a key of each set is rejected.
   */
  lemma {:induction false} KeySetSelection(s: String)
    ensures Find(s, VerboseTemperature, 0).Some? && Find(s, VerboseChecksum, 0).Some? && Find(s, VerboseTimestamp, 0).Some?
            ==> ValuePositions(s) == Some(Positions(Find(s, VerboseTemperature, 0).value + |VerboseTemperature|,
                                                   Find(s, VerboseChecksum, 0).value + |VerboseChecksum|,
                                                   Find(s, VerboseTimestamp, 0).value + |VerboseTimestamp| + 1))
    ensures !(Find(s, VerboseTemperature, 0).Some? && Find(s, VerboseChecksum, 0).Some? && Find(s, VerboseTimestamp, 0).Some?) &&
            Find(s, CompactTemperature, 0).Some? && Find(s, CompactChecksum, 0).Some? && Find(s, CompactTimestamp, 0).Some?
            ==> ValuePositions(s) == Some(Positions(Find(s, CompactTemperature, 0).value + 7,
                                                   Find(s, CompactChecksum, 0).value + 7,
                                                   Find(s, CompactTimestamp, 0).value + 7))
    ensures (Absent(s, VerboseTemperature) || Absent(s, VerboseChecksum) || Absent(s, VerboseTimestamp)) &&
            (Absent(s, CompactTemperature) || Absent(s, CompactChecksum) || Absent(s, CompactTimestamp))
            ==> ValuePositions(s) == None
  {
    FindFromStart(s, VerboseTemperature);
    FindFromStart(s, VerboseChecksum);
    FindFromStart(s, VerboseTimestamp);
    FindFromStart(s, CompactTemperature);
    FindFromStart(s, CompactChecksum);
    FindFromStart(s, CompactTimestamp);
  }

  /**
   * Under the compact keys, chosen when some verbose key is missing, the temperature and
   * timestamp values start right after their colons, while the checksum key is six
   * characters long and its value is read from seven characters past it, one character
   * beyond the colon.
   */
  lemma {:induction false} CompactChecksumOffset(s: String)
    requires Find(s, VerboseTemperature, 0).None? || Find(s, VerboseChecksum, 0).None? || Find(s, VerboseTimestamp, 0).None?
    requires Find(s, CompactTemperature, 0).Some? && Find(s, CompactChecksum, 0).Some? && Find(s, CompactTimestamp, 0).Some?
    ensures ValuePositions(s).Some?
    ensures ValuePositions(s).value.temperature == Find(s, CompactTemperature, 0).value + |CompactTemperature|
    ensures ValuePositions(s).value.checksum == Find(s, CompactChecksum, 0).value + |CompactChecksum| + 1
    ensures ValuePositions(s).value.timestamp == Find(s, CompactTimestamp, 0).value + |CompactTimestamp|
  {
  }

  /**
   * A compact timestamp written with a space after `"time":` reads as empty: its position
   * is the space, and the closing quote is searched for from the opening quote on.
   */
  lemma {:induction false} CompactSpacedTimestamp(ts: String)
    requires '"' !in ts
    ensures TimestampText("\"time\": \"" + ts + "\"}", |CompactTimestamp|) == Some([])
  {
    var s := "\"time\": \"" + ts + "\"}";
    OccursAtChar(s, '"', 8);
    FindAt(s, "\"", 8, 8);
  }

  /** The hour bucket of a full timestamp extends its date bucket. */
  lemma {:induction false} HourKeyExtendsDateKey(timestamp: String, clockDate: String, clockHour: String)
    requires |timestamp| >= 13
    ensures HourKey(timestamp, clockHour)[..10] == DateKey(timestamp, clockDate)
    ensures |HourKey(timestamp, clockHour)| == 23
  {
  }

  /** Bucketing a bucket key again gives the same key, whatever the clock says. */
  lemma {:induction false} BucketKeysIdempotent(timestamp: String, clockDate: String, clockHour: String, otherDate: String, otherHour: String)
    ensures |timestamp| >= 10 ==> DateKey(DateKey(timestamp, clockDate), otherDate) == DateKey(timestamp, clockDate)
    ensures |timestamp| >= 13 ==> HourKey(HourKey(timestamp, clockHour), otherHour) == HourKey(timestamp, clockHour)
  {
    if |timestamp| >= 13 {
      var h := HourKey(timestamp, clockHour);
      assert h[..13] == timestamp[..13];
    }
  }

  // ---------------------------------------------------------------------------
  // The emulator's frames
  // ---------------------------------------------------------------------------

  /** Characters of the emulator's number and timestamp texts: digits, '-', ':', ' ', '.'. */
  predicate PlainChar(c: char) {
    IsDigit(c) || c == '-' || c == ':' || c == ' ' || c == '.'
  }

  predicate PlainText(t: String) {
    forall k :: 0 <= k < |t| ==> PlainChar(t[k])
  }

  /** What a string stream holds after its first `n` insertions, in order. */
  function InsertedUpTo(parts: seq<String>, n: nat): String
    requires n <= |parts|
  {
    if n == 0 then [] else InsertedUpTo(parts, n - 1) + parts[n - 1]
  }

  /** What a string stream holds after all the pieces are inserted in order. */
  function Inserted(parts: seq<String>): String
  {
    InsertedUpTo(parts, |parts|)
  }

  /**
   * The object the emulator writes, before its "\r\n" (lab4/emulator.cpp): what its message
   * stream receives, with `t` the temperature text and `ts` the timestamp; literals the
   * source inserts one after the other are one piece here.
   */
  function EmulatorObject(t: String, ts: String): String
  {
    Inserted(["{\"temperature\": ", t, ", \"timestamp\": \"", ts, "\", \"checksum\": ", t, "}"])
  }

  /** The emulator's object as one text. */
  lemma {:induction false} EmulatorObjectText(t: String, ts: String)
    ensures EmulatorObject(t, ts) == "{\"temperature\": " + t + ", \"timestamp\": \"" + ts + "\", \"checksum\": " + t + "}"
  {
    var p := ["{\"temperature\": ", t, ", \"timestamp\": \"", ts, "\", \"checksum\": ", t, "}"];
    assert InsertedUpTo(p, 1) == "{\"temperature\": ";
    assert InsertedUpTo(p, 2) == "{\"temperature\": " + t;
    assert InsertedUpTo(p, 3) == "{\"temperature\": " + t + ", \"timestamp\": \"";
    assert InsertedUpTo(p, 4) == "{\"temperature\": " + t + ", \"timestamp\": \"" + ts;
    assert InsertedUpTo(p, 5) == "{\"temperature\": " + t + ", \"timestamp\": \"" + ts + "\", \"checksum\": ";
    assert InsertedUpTo(p, 6) == "{\"temperature\": " + t + ", \"timestamp\": \"" + ts + "\", \"checksum\": " + t;
  }

  predicate IsLower(c: char) {
    'a' <= c <= 'z'
  }

  /** The only quotes of a frame that are followed by a letter open the three keys. */
  lemma {:induction false} FrameQuotes(t: String, ts: String, tail: String, j: nat)
    requires PlainText(t) && PlainText(ts) && '"' !in tail
    requires var s := EmulatorObject(t, ts) + tail; j + 1 < |s| && s[j] == '"' && IsLower(s[j + 1])
    ensures j == 1 || j == 18 + |t| || j == 35 + |t| + |ts|
    ensures var s := EmulatorObject(t, ts) + tail;
            && (j == 1 ==> s[j + 2] == 'e')
            && (j == 18 + |t| ==> s[j + 1] == 't' && s[j + 2] == 'i')
            && (j == 35 + |t| + |ts| ==> s[j + 1] == 'c')
  {
    EmulatorObjectText(t, ts);
    var s := EmulatorObject(t, ts) + tail;
    var n, m := |t|, |ts|;
    if j < 15 {
      assert s[j] == "{\"temperature\": "[j] && s[j + 1] == "{\"temperature\": "[j + 1];
      TemperatureLiteralQuote(j);
    } else if 16 + n <= j < 31 + n {
      var k := j - 16 - n;
      assert s[j] == ", \"timestamp\": \""[k] && s[j + 1] == ", \"timestamp\": \""[k + 1];
      TimestampLiteralQuote(k);
    } else if 32 + n + m <= j < 46 + n + m {
      var k := j - 32 - n - m;
      assert s[j] == "\", \"checksum\": "[k] && s[j + 1] == "\", \"checksum\": "[k + 1];
      ChecksumLiteralQuote(k);
    }
  }

  /** In the literal before the temperature, only the quote at 1 is followed by a letter. */
  lemma {:induction false} TemperatureLiteralQuote(k: nat)
    requires var lit := "{\"temperature\": "; k + 1 < |lit| && lit[k] == '"' && IsLower(lit[k + 1])
    ensures k == 1
  {
  }

  /** In the literal before the timestamp, only the quote at 2 is followed by a letter. */
  lemma {:induction false} TimestampLiteralQuote(k: nat)
    requires var lit := ", \"timestamp\": \""; k + 1 < |lit| && lit[k] == '"' && IsLower(lit[k + 1])
    ensures k == 2
  {
  }

  /** In the literal before the checksum, only the quote at 3 is followed by a letter. */
  lemma {:induction false} ChecksumLiteralQuote(k: nat)
    requires var lit := "\", \"checksum\": "; k + 1 < |lit| && lit[k] == '"' && IsLower(lit[k + 1])
    ensures k == 3
  {
  }

  lemma {:induction false} MiddleSlice(x: String, y: String, z: String)
    ensures (x + y + z)[|x|..|x| + |y|] == y
  {
  }

  /** In an emulator frame each verbose key occurs exactly once, at a known position. */
  lemma {:induction false} EmulatorKeys(t: String, ts: String, tail: String)
    requires PlainText(t) && PlainText(ts) && '"' !in tail
    ensures var s := EmulatorObject(t, ts) + tail;
            && Find(s, VerboseTemperature, 0) == Some(1)
            && Find(s, VerboseTimestamp, 0) == Some(18 + |t|)
            && Find(s, VerboseChecksum, 0) == Some(35 + |t| + |ts|)
  {
    EmulatorTemperatureKey(t, ts, tail);
    EmulatorTimestampKey(t, ts, tail);
    EmulatorChecksumKey(t, ts, tail);
  }

  lemma {:induction false} EmulatorTemperatureKey(t: String, ts: String, tail: String)
    requires PlainText(t) && PlainText(ts) && '"' !in tail
    ensures Find(EmulatorObject(t, ts) + tail, VerboseTemperature, 0) == Some(1)
  {
    TemperatureKeySplit(t, ts, tail);
    NoKeyBefore(t, ts, tail, VerboseTemperature, 1);
    FindAfter("{", VerboseTemperature, " " + t + ", \"timestamp\": \"" + ts + "\", \"checksum\": " + t + "}" + tail);
  }

  lemma {:induction false} TemperatureKeySplit(t: String, ts: String, tail: String)
    ensures EmulatorObject(t, ts) + tail ==
            "{" + VerboseTemperature + (" " + t + ", \"timestamp\": \"" + ts + "\", \"checksum\": " + t + "}" + tail)
  {
    EmulatorObjectText(t, ts);
  }

  lemma {:induction false} EmulatorTimestampKey(t: String, ts: String, tail: String)
    requires PlainText(t) && PlainText(ts) && '"' !in tail
    ensures Find(EmulatorObject(t, ts) + tail, VerboseTimestamp, 0) == Some(18 + |t|)
  {
    TimestampKeySplit(t, ts, tail);
    NoKeyBefore(t, ts, tail, VerboseTimestamp, 18 + |t|);
    FindAfter("{\"temperature\": " + t + ", ", VerboseTimestamp, " \"" + ts + "\", \"checksum\": " + t + "}" + tail);
  }

  lemma {:induction false} TimestampKeySplit(t: String, ts: String, tail: String)
    ensures EmulatorObject(t, ts) + tail ==
            ("{\"temperature\": " + t + ", ") + VerboseTimestamp + (" \"" + ts + "\", \"checksum\": " + t + "}" + tail)
  {
    EmulatorObjectText(t, ts);
  }

  lemma {:induction false} EmulatorChecksumKey(t: String, ts: String, tail: String)
    requires PlainText(t) && PlainText(ts) && '"' !in tail
    ensures Find(EmulatorObject(t, ts) + tail, VerboseChecksum, 0) == Some(35 + |t| + |ts|)
  {
    ChecksumKeySplit(t, ts, tail);
    NoKeyBefore(t, ts, tail, VerboseChecksum, 35 + |t| + |ts|);
    FindAfter("{\"temperature\": " + t + ", \"timestamp\": \"" + ts + "\", ", VerboseChecksum, " " + t + "}" + tail);
  }

  lemma {:induction false} ChecksumKeySplit(t: String, ts: String, tail: String)
    ensures EmulatorObject(t, ts) + tail ==
            ("{\"temperature\": " + t + ", \"timestamp\": \"" + ts + "\", ") + VerboseChecksum + (" " + t + "}" + tail)
  {
    EmulatorObjectText(t, ts);
  }

  /** `find` from 0 reports `|front|` when the pattern follows `front` and does not start inside it. */
  lemma {:induction false} FindAfter(front: String, key: String, back: String)
    requires forall j: nat :: j < |front| ==> !OccursAt(front + key + back, key, j)
    ensures Find(front + key + back, key, 0) == Some(|front|)
  {
    MiddleSlice(front, key, back);
    FindAt(front + key + back, key, 0, |front|);
  }

  /** No verbose key occurs in an emulator frame before the place the frame writes it. */
  lemma {:induction false} NoKeyBefore(t: String, ts: String, tail: String, key: String, n: nat)
    requires PlainText(t) && PlainText(ts) && '"' !in tail
    requires (key == VerboseTemperature && n == 1) || (key == VerboseTimestamp && n == 18 + |t|)
             || (key == VerboseChecksum && n == 35 + |t| + |ts|)
    ensures forall j: nat :: j < n ==> !OccursAt(EmulatorObject(t, ts) + tail, key, j)
  {
    forall j: nat | j < n ensures !OccursAt(EmulatorObject(t, ts) + tail, key, j) {
      KeyOnlyAt(t, ts, tail, key, j);
    }
  }

  /** The verbose key set is chosen for an emulator frame, with the values at known positions. */
  lemma {:induction false} EmulatorPositions(t: String, ts: String, tail: String)
    requires PlainText(t) && PlainText(ts) && '"' !in tail
    ensures ValuePositions(EmulatorObject(t, ts) + tail) == Some(Positions(15, 46 + |t| + |ts|, 31 + |t|))
  {
    EmulatorTemperatureKey(t, ts, tail);
    EmulatorTimestampKey(t, ts, tail);
    EmulatorChecksumKey(t, ts, tail);
    ValuePositionsOf(EmulatorObject(t, ts) + tail, 1, 35 + |t| + |ts|, 18 + |t|, Positions(15, 46 + |t| + |ts|, 31 + |t|));
  }

  /** Once the three verbose keys are found, their value positions are chosen. */
  lemma {:induction false} ValuePositionsOf(s: String, t: nat, c: nat, m: nat, p: Positions)
    requires Find(s, VerboseTemperature, 0) == Some(t)
    requires Find(s, VerboseChecksum, 0) == Some(c)
    requires Find(s, VerboseTimestamp, 0) == Some(m)
    requires p == Positions(t + 14, c + 11, m + 13)
    ensures ValuePositions(s) == Some(p)
  {
  }

  /** A verbose key found in an emulator frame starts where the frame writes that key. */
  lemma {:induction false} KeyOnlyAt(t: String, ts: String, tail: String, key: String, j: nat)
    requires PlainText(t) && PlainText(ts) && '"' !in tail
    requires key == VerboseTemperature || key == VerboseTimestamp || key == VerboseChecksum
    ensures OccursAt(EmulatorObject(t, ts) + tail, key, j) ==>
              j == (if key == VerboseTemperature then 1 else if key == VerboseTimestamp then 18 + |t| else 35 + |t| + |ts|)
  {
    var s := EmulatorObject(t, ts) + tail;
    if OccursAt(s, key, j) {
      OccursAtChars(s, key, j);
      assert s[j] == key[0] && s[j + 1] == key[1] && s[j + 2] == key[2];
      FrameQuotes(t, ts, tail, j);
    }
  }

  /** A number field made of plain characters ends at the ',' or '}' that follows it. */
  lemma {:induction false} PlainNumberText(front: String, t: String, back: String)
    requires PlainText(t) && back != [] && back[0] in FieldEnd
    ensures NumberText(front + (" " + t) + back, |front|) == Some(" " + t)
  {
    var s := front + (" " + t) + back;
    var n := |front|;
    forall j | n <= j < n + 1 + |t| ensures s[j] !in FieldEnd {
      if j > n {
        assert s[j] == t[j - n - 1];
      }
    }
    FindFirstOfAt(s, FieldEnd, n, n + 1 + |t|);
    MiddleSlice(front, " " + t, back);
  }

  /** The temperature field of an emulator frame reads as the space and the temperature text. */
  lemma {:induction false} EmulatorTemperatureText(t: String, ts: String, tail: String)
    requires PlainText(t)
    ensures NumberText(EmulatorObject(t, ts) + tail, 15) == Some(" " + t)
  {
    EmulatorObjectText(t, ts);
    var front := "{\"temperature\":";
    var back := ", \"timestamp\": \"" + ts + "\", \"checksum\": " + t + "}" + tail;
    assert EmulatorObject(t, ts) + tail == front + (" " + t) + back;
    PlainNumberText(front, t, back);
  }

  /** The checksum field of an emulator frame reads as the space and the temperature text. */
  lemma {:induction false} EmulatorChecksumText(t: String, ts: String, tail: String)
    requires PlainText(t)
    ensures NumberText(EmulatorObject(t, ts) + tail, 46 + |t| + |ts|) == Some(" " + t)
  {
    EmulatorObjectText(t, ts);
    var front := "{\"temperature\": " + t + ", \"timestamp\": \"" + ts + "\", \"checksum\":";
    var back := "}" + tail;
    assert EmulatorObject(t, ts) + tail == front + (" " + t) + back;
    PlainNumberText(front, t, back);
  }

  /** The text between the timestamp's opening quote and the first quote after it is the timestamp. */
  lemma {:induction false} EmulatorQuoted(t: String, ts: String, tail: String)
    requires PlainText(t) && PlainText(ts) && '"' !in tail
    ensures Quoted(EmulatorObject(t, ts) + tail, 32 + |t|) == Some(ts)
  {
    EmulatorObjectText(t, ts);
    var s := EmulatorObject(t, ts) + tail;
    var n, m := |t|, |ts|;
    var front := "{\"temperature\": " + t + ", \"timestamp\": \"";
    var back := "\", \"checksum\": " + t + "}" + tail;
    assert s == front + ts + back;
    assert |front| == 32 + n;
    forall j: nat | 32 + n <= j < 32 + n + m ensures !OccursAt(s, "\"", j) {
      OccursAtChar(s, '"', j);
      assert s[j] == ts[j - 32 - n];
    }
    OccursAtChar(s, '"', 32 + n + m);
    FindAt(s, "\"", 32 + n, 32 + n + m);
    assert s[32 + n..32 + n + m] == ts;
  }

  /** The timestamp field of an emulator frame reads back unchanged. */
  lemma {:induction false} EmulatorTimestamp(t: String, ts: String, tail: String)
    requires PlainText(t) && PlainText(ts) && '"' !in tail
    ensures TimestampText(EmulatorObject(t, ts) + tail, 31 + |t|) == Some(ts)
  {
    EmulatorQuoted(t, ts, tail);
  }

  /**
   * Every line the emulator writes is accepted: the temperature is the converted text
   * of its number, the timestamp comes back unchanged, and the buckets are derived from
   * it. `tail` is what is left of the line terminator ("\r" once lines are split at "\n").
   */
  lemma {:induction false} EmulatorFrameAccepted(t: String, ts: String, tail: String, stod: String -> Option<real>, v: real,
                              clockDate: String, clockHour: String)
    requires PlainText(t) && PlainText(ts) && '"' !in tail
    requires stod(" " + t) == Some(v)
    ensures ParseJson(EmulatorObject(t, ts) + tail, stod, clockDate, clockHour) ==
            Some(Reading(ts, v, DateKey(ts, clockDate), HourKey(ts, clockHour)))
  {
    EmulatorTemperatureText(t, ts, tail);
    EmulatorChecksumText(t, ts, tail);
    EmulatorTimestamp(t, ts, tail);
    EmulatorPositions(t, ts, tail);
    var c := 46 + |t| + |ts|;
    SameNumberAccepted(EmulatorObject(t, ts) + tail, stod, clockDate, clockHour, 15, c, 31 + |t|, " " + t, ts, v);
  }

  /** A frame whose two number fields hold the same text, which converts, is accepted with that value. */
  lemma {:induction false} SameNumberAccepted(s: String, stod: String -> Option<real>, clockDate: String, clockHour: String,
                                              a: nat, b: nat, c: nat, nt: String, ts: String, v: real)
    requires ValuePositions(s) == Some(Positions(a, b, c))
    requires NumberText(s, a) == Some(nt)
    requires NumberText(s, b) == Some(nt)
    requires stod(nt) == Some(v)
    requires TimestampText(s, c) == Some(ts)
    ensures ParseJson(s, stod, clockDate, clockHour) == Some(Reading(ts, v, DateKey(ts, clockDate), HourKey(ts, clockHour)))
  {
    assert Abs(v - v) <= Epsilon;
    ParseJsonFromFields(s, stod, clockDate, clockHour, a, b, c, nt, nt, ts);
  }
}
