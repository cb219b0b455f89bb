/**
 * The serial thermometer driver of the Qt example and the window that shows its
 * state. The driver reads one line from the port, cuts the number out from
 * between the markers "Temp:" and "Celsius" and publishes it; the window keeps
 * a "data present" indicator, a connection indicator and the polling timer.
 * Qt signals are modelled as values the driver emits in order.
 */
module TempDriver {
  import opened Wrappers
  import opened Text

  /** The markers around the number in a device line. */
  const StrStart: String := "Temp:"
  const StrEnd: String := "Celsius"

  /** The driver's signals. */
  datatype Signal = TemperatureReady(temp: real) | ConnectAttempt(res: bool) | DataReadResult(res: bool)

  /** The characters `QByteArray::trimmed` removes. */
  predicate IsSpace(c: char)
  {
    c == ' ' || c == '\t' || c == '\n' || c == '\U{000B}' || c == '\U{000C}' || c == '\r'
  }

  /** The first index at or after `i` that does not hold white space, or the length. */
  function SkipSpaces(s: String, i: nat): (r: nat)
    requires i <= |s|
    ensures i <= r <= |s|
    ensures forall k :: i <= k < r ==> IsSpace(s[k])
    ensures r < |s| ==> !IsSpace(s[r])
    decreases |s| - i
  {
    if i < |s| && IsSpace(s[i]) then SkipSpaces(s, i + 1) else i
  }

  /** The end of `s[lo..j]` once its trailing white space is dropped. */
  function DropSpaces(s: String, lo: nat, j: nat): (r: nat)
    requires lo <= j <= |s|
    ensures lo <= r <= j
    ensures forall k :: r <= k < j ==> IsSpace(s[k])
    ensures r > lo ==> !IsSpace(s[r - 1])
  {
    if j > lo && IsSpace(s[j - 1]) then DropSpaces(s, lo, j - 1) else j
  }

  /** `QByteArray::trimmed`: the text without its leading and trailing white space. */
  function Trimmed(s: String): String
  {
    var i := SkipSpaces(s, 0);
    s[i..DropSpaces(s, i, |s|)]
  }

  /** Trimming keeps one contiguous slice that neither starts nor ends with white space and removes only white space around it. */
  lemma TrimmedSlice(s: String)
    ensures exists i, j :: (0 <= i <= j <= |s| && Trimmed(s) == s[i..j]
      && (forall k :: 0 <= k < i ==> IsSpace(s[k])) && (forall k :: j <= k < |s| ==> IsSpace(s[k])))
    ensures Trimmed(s) != [] ==> !IsSpace(Trimmed(s)[0]) && !IsSpace(Trimmed(s)[|Trimmed(s)| - 1])
  {
    var i := SkipSpaces(s, 0);
    var j := DropSpaces(s, i, |s|);
    assert Trimmed(s) == s[i..j];
    if i == |s| {
      assert Trimmed(s) == [];
    }
  }

  /** Text without white space at either end is left as it is, so trimming twice is trimming once. */
  lemma TrimmedIdempotent(s: String)
    ensures s == [] || (!IsSpace(s[0]) && !IsSpace(s[|s| - 1])) ==> Trimmed(s) == s
    ensures Trimmed(Trimmed(s)) == Trimmed(s)
  {
    TrimmedSlice(s);
    var t := Trimmed(s);
    if t != [] {
      assert SkipSpaces(t, 0) == 0;
      assert DropSpaces(t, 0, |t|) == |t|;
    }
    assert Trimmed(t) == t;
  }

  /** `QByteArray::mid(pos, len)` for a position inside the text: a negative length, or one reaching past the end, takes the rest. */
  function Mid(s: String, pos: nat, len: int): (r: String)
    requires pos <= |s|
    ensures pos + |r| <= |s| && r == s[pos..pos + |r|]
    ensures 0 <= len <= |s| - pos ==> |r| == len
    ensures !(0 <= len <= |s| - pos) ==> pos + |r| == |s|
  {
    if 0 <= len <= |s| - pos then s[pos..pos + len] else s[pos..]
  }

  /** The text between two markers: from just after the first `first` to one character before the next `last`. */
  function Cut(line: String, first: String, last: String): Option<String>
  {
    match Find(line, first, 0)
    case None => None
    case Some(i) =>
      var start := i + |first|;
      match Find(line, last, start)
      case None => None
      case Some(e) => Some(Mid(line, start, e - start - 1))
  }

  /** The number text of a device line: the cut between "Temp:" and "Celsius", trimmed. */
  function NumberText(line: String): Option<String>
  {
    match Cut(line, StrStart, StrEnd)
    case None => None
    case Some(m) => Some(Trimmed(m))
  }

  /** The signals `ReadData` emits for one line; `toDouble` is `QByteArray::toDouble`, which gives 0 for text that is not a number. */
  function ReadSignals(line: String, toDouble: String -> real): seq<Signal>
  {
    match NumberText(line)
    case None => [DataReadResult(false)]
    case Some(t) => [TemperatureReady(toDouble(t)), DataReadResult(true)]
  }

  /** A line is read successfully exactly when "Temp:" occurs and "Celsius" occurs at or after the end of its first occurrence. */
  lemma NumberTextFound(line: String)
    ensures NumberText(line).Some? <==>
      Find(line, StrStart, 0).Some? && Find(line, StrEnd, Find(line, StrStart, 0).value + 5).Some?
  {
  }

  /** Without "Temp:" the read fails and no temperature is published. */
  lemma MissingStartMarker(line: String, toDouble: String -> real)
    requires forall j: nat :: !OccursAt(line, StrStart, j)
    ensures ReadSignals(line, toDouble) == [DataReadResult(false)]
  {
  }

  /** Without "Celsius" after the first "Temp:" the read fails and no temperature is published. */
  lemma MissingEndMarker(line: String, toDouble: String -> real, i: nat)
    requires FirstOccurrence(line, StrStart, i)
    requires forall j: nat :: i + 5 <= j ==> !OccursAt(line, StrEnd, j)
    ensures ReadSignals(line, toDouble) == [DataReadResult(false)]
  {
    FindAt(line, StrStart, 0, i);
  }

  /**
   * The cut: the text starts right after "Temp:" and stops one character short
   * of "Celsius"; when "Celsius" follows "Temp:" directly the length is -1 and
   * the rest of the line is taken.
   */
  lemma NumberTextCut(line: String, i: nat, e: nat)
    requires FirstOccurrence(line, StrStart, i)
    requires i + 5 <= e && OccursAt(line, StrEnd, e)
    requires forall j: nat :: i + 5 <= j < e ==> !OccursAt(line, StrEnd, j)
    ensures e > i + 5 ==> NumberText(line) == Some(Trimmed(line[i + 5..e - 1]))
    ensures e == i + 5 ==> NumberText(line) == Some(Trimmed(line[i + 5..]))
  {
    FindAt(line, StrStart, 0, i);
    FindAt(line, StrEnd, i + 5, e);
    CutAt(line, StrStart, StrEnd, i, e);
    MidCut(line, i + 5, e);
  }

  /** Once both markers are found, the cut is the `mid` between them. */
  lemma {:induction false} CutAt(line: String, first: String, last: String, i: nat, e: nat)
    requires Find(line, first, 0) == Some(i) && Find(line, last, i + |first|) == Some(e)
    ensures var start := i + |first|; Cut(line, first, last) == Some(Mid(line, start, e - start - 1))
  {
  }

  /** `mid(start, e - start - 1)`: one character short of `e`, or the rest when `e == start`. */
  lemma MidCut(line: String, start: nat, e: nat)
    requires start <= e <= |line|
    ensures e > start ==> Mid(line, start, e - start - 1) == line[start..e - 1]
    ensures e == start ==> Mid(line, start, e - start - 1) == line[start..]
  {
  }

  /** The signals of a line in terms of its cut. */
  lemma {:induction false} SignalsOfCut(line: String, toDouble: String -> real)
    ensures Cut(line, StrStart, StrEnd).None? ==> ReadSignals(line, toDouble) == [DataReadResult(false)]
    ensures Cut(line, StrStart, StrEnd).Some? ==>
      ReadSignals(line, toDouble) == [TemperatureReady(toDouble(Trimmed(Cut(line, StrStart, StrEnd).value))), DataReadResult(true)]
  {
  }

  /** A successful read publishes exactly one temperature, then reports success; a failed one only reports failure. */
  lemma SignalOrder(line: String, toDouble: String -> real)
    ensures var sigs := ReadSignals(line, toDouble);
      sigs[|sigs| - 1] == DataReadResult(NumberText(line).Some?)
      && (NumberText(line).Some? <==> |sigs| == 2)
      && (NumberText(line).Some? ==> sigs[0] == TemperatureReady(toDouble(NumberText(line).value)))
  {
  }

  /** The line the emulator writes. */
  function EmulatorLine(t: String): String
  {
    StrStart + " " + t + " " + StrEnd + "\r\n"
  }

  /** The number text of the emulator's layout as an input to `Trimmed`: a single space, then the number. */
  lemma TrimmedPadded(t: String)
    requires t != [] && !IsSpace(t[0]) && !IsSpace(t[|t| - 1])
    ensures Trimmed(" " + t) == t
  {
    var padded := " " + t;
    assert SkipSpaces(padded, 0) == 1 by {
      assert padded[1] == t[0];
    }
    assert DropSpaces(padded, 1, |padded|) == |padded| by {
      assert padded[|padded| - 1] == t[|t| - 1];
    }
  }

  /** "Celsius" cannot start inside a text without a 'C'. */
  lemma NoEndMarkerIn(line: String, lo: nat, hi: nat)
    requires lo <= hi <= |line|
    requires forall k :: lo <= k < hi ==> line[k] != 'C'
    ensures forall j: nat :: lo <= j < hi ==> !OccursAt(line, StrEnd, j)
  {
    forall j: nat | lo <= j < hi ensures !OccursAt(line, StrEnd, j) {
      if j + 7 <= |line| {
        assert line[j..j + 7][0] == line[j];
      }
    }
  }

  /** Where the markers stand in the emulator's line. */
  lemma EmulatorMarkers(t: String)
    requires forall k :: 0 <= k < |t| ==> t[k] != 'C'
    ensures OccursAt(EmulatorLine(t), StrStart, 0)
    ensures OccursAt(EmulatorLine(t), StrEnd, 7 + |t|)
    ensures forall j: nat :: 5 <= j < 7 + |t| ==> !OccursAt(EmulatorLine(t), StrEnd, j)
    ensures EmulatorLine(t)[5..6 + |t|] == " " + t
  {
    var line := EmulatorLine(t);
    var mid := " " + t + " ";
    assert line == StrStart + mid + StrEnd + "\r\n";
    assert line[..5] == StrStart;
    assert line[5..7 + |t|] == mid;
    assert line[7 + |t|..14 + |t|] == StrEnd;
    forall k | 5 <= k < 7 + |t| ensures line[k] != 'C' {
      assert line[k] == mid[k - 5];
    }
    NoEndMarkerIn(line, 5, 7 + |t|);
  }

  /** A line in the emulator's layout publishes the number it carries and reports success. */
  lemma EmulatorLineRead(t: String, toDouble: String -> real)
    requires t != []
    requires forall k :: 0 <= k < |t| ==> !IsSpace(t[k]) && t[k] != 'C'
    ensures ReadSignals(EmulatorLine(t), toDouble) == [TemperatureReady(toDouble(t)), DataReadResult(true)]
  {
    EmulatorMarkers(t);
    NumberTextCut(EmulatorLine(t), 0, 7 + |t|);
    TrimmedPadded(t);
  }

  /** The thermometer driver over a serial port; the port itself is outside the model. */
  class TempDeviceDriver {
    var portName: String
    var isOpen: bool
    /** Every signal emitted so far, in order. */
    var emitted: seq<Signal>

    constructor()
      ensures portName == [] && !isOpen && emitted == []
    {
      portName := [];
      isOpen := false;
      emitted := [];
    }

    /**
     * Connect: an empty name is refused without touching the port; otherwise the
     * port is closed, renamed and reopened read-only, which succeeds when `opens`
     * does. Either way the outcome is emitted and returned.
     */
    method Connect(name: String, opens: bool) returns (ret: bool)
      modifies this
      ensures ret <==> name != [] && opens
      ensures emitted == old(emitted) + [ConnectAttempt(ret)]
      ensures name == [] ==> portName == old(portName) && isOpen == old(isOpen)
      ensures name != [] ==> portName == name && isOpen == opens
    {
      if name == [] {
        emitted := emitted + [ConnectAttempt(false)];
        return false;
      }
      isOpen := false;
      portName := name;
      isOpen := opens;
      ret := opens;
      emitted := emitted + [ConnectAttempt(ret)];
    }

    /** ReadData: `line` is what `readLine` gives; the signals of `ReadSignals` are emitted and the port is left alone. */
    method ReadData(line: String, toDouble: String -> real)
      modifies this
      ensures emitted == old(emitted) + ReadSignals(line, toDouble)
      ensures portName == old(portName) && isOpen == old(isOpen)
    {
      var sigs := LineSignals(line, toDouble);
      emitted := emitted + sigs;
    }
  }

  /**
   * The body of ReadData without the port: the two searches and the cut, giving
   * the signals to emit in order (DataReadResult(false) alone on a failed search).
   */
  method LineSignals(line: String, toDouble: String -> real) returns (sigs: seq<Signal>)
    ensures sigs == ReadSignals(line, toDouble)
  {
    var found := Find(line, StrStart, 0);
    if found.None? {
      SignalsOfCut(line, toDouble);
      return [DataReadResult(false)];
    }
    sigs := SignalsAfterStart(line, toDouble, found.value);
  }

  /** The rest of ReadData once "Temp:" is found at `i`: the search for "Celsius" after it and the cut. */
  method SignalsAfterStart(line: String, toDouble: String -> real, i: nat) returns (sigs: seq<Signal>)
    requires Find(line, StrStart, 0) == Some(i)
    ensures sigs == ReadSignals(line, toDouble)
  {
    SignalsOfCut(line, toDouble);
    var strStart := i + |StrStart|;
    var foundEnd := Find(line, StrEnd, strStart);
    if foundEnd.None? {
      return [DataReadResult(false)];
    }
    CutAt(line, StrStart, StrEnd, i, foundEnd.value);
    var number := Mid(line, strStart, foundEnd.value - strStart - 1);
    var temp := toDouble(Trimmed(number));
    sigs := [TemperatureReady(temp), DataReadResult(true)];
  }

  /** What the window shows: the data and connection indicators, the timer, the display, and the previous read result. */
  datatype WindowState = WindowState(dataShown: bool, connected: bool, timerActive: bool, display: real, prvres: bool)

  /** The window's reaction to one signal, as wired in its constructor. */
  function Receive(w: WindowState, s: Signal): WindowState
  {
    match s
    case TemperatureReady(t) => w.(display := t)
    case ConnectAttempt(res) => w.(connected := res, timerActive := res)
    case DataReadResult(res) => w.(dataShown := res || w.prvres, prvres := res)
  }

  /** The window after a run of signals, in order. */
  function Run(w: WindowState, sigs: seq<Signal>): WindowState
  {
    if sigs == [] then w else Receive(Run(w, sigs[..|sigs| - 1]), sigs[|sigs| - 1])
  }

  /** A sequence of read results as signals. */
  function Results(rs: seq<bool>): (r: seq<Signal>)
    ensures |r| == |rs| && forall k :: 0 <= k < |rs| ==> r[k] == DataReadResult(rs[k])
  {
    seq(|rs|, k requires 0 <= k < |rs| => DataReadResult(rs[k]))
  }

  /** Running two signal runs one after the other is running their concatenation. */
  lemma {:induction false} RunConcat(w: WindowState, a: seq<Signal>, b: seq<Signal>)
    ensures Run(w, a + b) == Run(Run(w, a), b)
    decreases |b|
  {
    if b == [] {
      assert a + b == a;
    } else {
      assert (a + b)[..|a + b| - 1] == a + b[..|b| - 1];
      assert (a + b)[|a + b| - 1] == b[|b| - 1];
      RunConcat(w, a, b[..|b| - 1]);
    }
  }

  /**
   * The data indicator after a run of read results shows data exactly when the
   * last result or the one before it was a success; only two failures in a row clear it.
   */
  lemma {:induction false} IndicatorAfterResults(w: WindowState, rs: seq<bool>)
    requires rs != []
    ensures Run(w, Results(rs)).prvres == rs[|rs| - 1]
    ensures Run(w, Results(rs)).dataShown == (rs[|rs| - 1] || (if |rs| >= 2 then rs[|rs| - 2] else w.prvres))
    ensures Run(w, Results(rs)).display == w.display
    ensures Run(w, Results(rs)).timerActive == w.timerActive
  {
    var init := rs[..|rs| - 1];
    assert Results(rs)[..|rs| - 1] == Results(init);
    if |rs| >= 2 {
      IndicatorAfterResults(w, init);
    } else {
      assert Results(init) == [];
    }
  }

  /** The timer runs after a connection attempt exactly when it succeeded, whatever was there before. */
  lemma TimerFollowsAttempt(w: WindowState, res: bool)
    ensures Run(w, [ConnectAttempt(res)]).timerActive == res
    ensures Run(w, [ConnectAttempt(res)]).connected == res
    ensures Run(w, [ConnectAttempt(res)]).dataShown == w.dataShown
  {
    assert [ConnectAttempt(res)][..0] == [];
  }

  /** Reading an emulator line shows its number on the display and turns the data indicator on. */
  lemma EmulatorLineShown(w: WindowState, t: String, toDouble: String -> real)
    requires t != []
    requires forall k :: 0 <= k < |t| ==> !IsSpace(t[k]) && t[k] != 'C'
    ensures Run(w, ReadSignals(EmulatorLine(t), toDouble)).display == toDouble(t)
    ensures Run(w, ReadSignals(EmulatorLine(t), toDouble)).dataShown
    ensures Run(w, ReadSignals(EmulatorLine(t), toDouble)).prvres
  {
    EmulatorLineRead(t, toDouble);
    var sigs := [TemperatureReady(toDouble(t)), DataReadResult(true)];
    assert sigs[..1] == [TemperatureReady(toDouble(t))];
    assert sigs[..1][..0] == [];
  }

  /** The main window: its indicators, timer and display as fields. */
  class TempWindow {
    var dataShown: bool
    var connected: bool
    var timerActive: bool
    var display: real
    var prvres: bool

    function State(): WindowState
      reads this
    {
      WindowState(dataShown, connected, timerActive, display, prvres)
    }

    constructor()
      ensures State() == WindowState(false, false, false, 0.0, false)
    {
      dataShown, connected, timerActive, display, prvres := false, false, false, 0.0, false;
    }

    /** ConnectionAttempt: a failure stops the timer and unchecks the connection box; a success checks it and starts the timer. */
    method ConnectionAttempt(res: bool)
      modifies this
      ensures State() == Receive(old(State()), ConnectAttempt(res))
    {
      if !res {
        timerActive := false;
        connected := false;
        return;
      }
      connected := true;
      timerActive := true;
    }

    /** DataReadResult: data is shown when this or the previous read succeeded; this result becomes the previous one. */
    method DataReadResult(res: bool)
      modifies this
      ensures State() == Receive(old(State()), Signal.DataReadResult(res))
    {
      if res || prvres {
        dataShown := true;
      } else {
        dataShown := false;
      }
      prvres := res;
    }

    /** The display slot `TemperatureReady` is connected to. */
    method Display(temp: real)
      modifies this
      ensures State() == Receive(old(State()), TemperatureReady(temp))
    {
      display := temp;
    }

    /** Delivers the driver's signals to the window's slots in the order they were emitted. */
    method Deliver(sigs: seq<Signal>)
      modifies this
      ensures State() == Run(old(State()), sigs)
    {
      var i := 0;
      while i < |sigs|
        invariant 0 <= i <= |sigs|
        invariant State() == Run(old(State()), sigs[..i])
      {
        match sigs[i] {
          case TemperatureReady(t) => Display(t);
          case ConnectAttempt(res) => ConnectionAttempt(res);
          case DataReadResult(res) => DataReadResult(res);
        }
        assert sigs[..i + 1][..i] == sigs[..i];
        i := i + 1;
      }
      assert sigs[..i] == sigs;
    }
  }
}
