/**
 * The request handling of lab6/httpserver.hpp: the request target is cut out of the
 * first line (method SP request-target SP version, loosely section 3 of RFC 9112), its
 * path and query parameters are extracted, the path is routed to a JSON body built
 * from the store's queries, and the body is framed as an HTTP/1.1 response.
 */
module HttpApi {
  import opened Wrappers
  import opened Text
  import opened Stats
  import opened Storage

  // ---------------------------------------------------------------------------
  // The request line
  // ---------------------------------------------------------------------------

  /** The text strictly between the first and the second space, when there are two. */
  function RequestTarget(request: String): (r: Option<String>)
    ensures r.Some? ==> ' ' !in r.value
    ensures r.None? <==> Occurrences(request, ' ') < 2
  {
    match FindFirstOf(request, {' '}, 0)
    case None =>
      NoneOccur(request);
      None
    case Some(start) =>
      SpacesAfterFirst(request, start);
      match FindFirstOf(request, {' '}, start + 1)
      case None =>
        NoneOccur(request[start + 1..]);
        None
      case Some(end) =>
        SpacesAfterFirst(request[start + 1..], end - start - 1);
        assert request[start + 1..][end - start - 1..] == request[end..];
        assert request[start + 1..end] == request[start + 1..][..end - start - 1];
        Some(request[start + 1..end])
  }

  /** A text without spaces has none to count. */
  lemma {:induction false} NoneOccur(s: String)
    requires forall j :: 0 <= j < |s| ==> s[j] != ' '
    ensures Occurrences(s, ' ') == 0
  {
    if s != [] {
      NoneOccur(s[1..]);
    }
  }

  /** Counting spaces from the first one on: it, and those after it. */
  lemma {:induction false} SpacesAfterFirst(s: String, i: nat)
    requires i < |s| && s[i] == ' ' && forall j :: 0 <= j < i ==> s[j] != ' '
    ensures Occurrences(s, ' ') == 1 + Occurrences(s[i + 1..], ' ')
  {
    assert s == s[..i] + [' '] + s[i + 1..];
    OccurrencesConcat(s[..i] + [' '], s[i + 1..], ' ');
    OccurrencesConcat(s[..i], [' '], ' ');
    NoneOccur(s[..i]);
    assert [' '][1..] == [];
  }

  /** A request line whose method and target hold no space yields that target. */
  lemma RequestTargetOfLine(verb: String, target: String, rest: String)
    requires ' ' !in verb && ' ' !in target
    ensures RequestTarget(verb + " " + target + " " + rest) == Some(target)
  {
    var s := verb + " " + target + " " + rest;
    var i, e := |verb|, |verb| + 1 + |target|;
    assert s[i] == ' ' && forall j :: 0 <= j < i ==> s[j] == verb[j];
    assert FindFirstOf(s, {' '}, 0) == Some(i) by {
      FindFirstOfAt(s, {' '}, 0, i);
    }
    assert s[e] == ' ' && forall j :: i + 1 <= j < e ==> s[j] == target[j - i - 1];
    assert FindFirstOf(s, {' '}, i + 1) == Some(e) by {
      FindFirstOfAt(s, {' '}, i + 1, e);
    }
    assert s[i + 1..e] == target;
  }

  /** `getPathFromRequest`: the target up to its first '?', and "/" when that is empty or there is no target. */
  function GetPath(request: String): (p: String)
    ensures p != [] && ' ' !in p && '?' !in p
    ensures RequestTarget(request).None? ==> p == "/"
    ensures RequestTarget(request).Some? && (RequestTarget(request).value == [] || RequestTarget(request).value[0] == '?')
            ==> p == "/"
  {
    match RequestTarget(request)
    case None => "/"
    case Some(target) =>
      var path := match FindFirstOf(target, {'?'}, 0)
                  case None => target
                  case Some(q) => target[..q];
      if path == [] then "/" else path
  }

  /** The path of a request line is its target's part before the query. */
  lemma PathOfLine(verb: String, path: String, query: String, rest: String)
    requires ' ' !in verb && ' ' !in path && ' ' !in query && '?' !in path && path != []
    ensures GetPath(verb + " " + path + " " + rest) == path
    ensures GetPath(verb + " " + path + "?" + query + " " + rest) == path
  {
    RequestTargetOfLine(verb, path, rest);
    var target := path + "?" + query;
    assert ' ' !in target;
    RequestTargetOfLine(verb, target, rest);
    assert verb + " " + path + "?" + query + " " + rest == verb + " " + target + " " + rest;
    assert forall j :: 0 <= j < |path| ==> target[j] == path[j];
    FindFirstOfAt(target, {'?'}, 0, |path|);
    assert target[..|path|] == path;
  }

  // ---------------------------------------------------------------------------
  // Query parameters
  // ---------------------------------------------------------------------------

  /**
   * The pieces `std::getline(iss, pair, sep)` extracts from the stream positioned at
   * `from`, in order: the text between separators; an exhausted stream gives none, and
   * a final separator no empty last piece.
   */
  function PiecesFrom(s: String, sep: char, from: nat): (r: seq<String>)
    requires from <= |s|
    ensures from < |s| <==> r != []
    decreases |s| - from
  {
    if from == |s| then []
    else match FindFirstOf(s, {sep}, from)
      case None => [s[from..]]
      case Some(i) => [s[from..i]] + PiecesFrom(s, sep, i + 1)
  }

  /** The pieces of the whole text. */
  function Pieces(s: String, sep: char): seq<String>
  {
    PiecesFrom(s, sep, 0)
  }

  /** Nothing is lost: the pieces joined by the separator, plus a final separator if there was one, are the text. */
  lemma PiecesJoin(s: String, sep: char)
    ensures Join(Pieces(s, sep), sep) + Trailer(s, sep) == s
  {
    PiecesFromJoin(s, sep, 0);
    assert s[0..] == s;
  }

  lemma {:induction false} PiecesFromJoin(s: String, sep: char, from: nat)
    requires from <= |s|
    ensures Join(PiecesFrom(s, sep, from), sep) + Trailer(s[from..], sep) == s[from..]
    decreases |s| - from
  {
    if from < |s| {
      match FindFirstOf(s, {sep}, from) {
        case None =>
          LastPieceJoin(s, sep, from);
        case Some(i) =>
          PiecesFromJoin(s, sep, i + 1);
          PiecesJoinStep(s[from..i], s[i + 1..], PiecesFrom(s, sep, i + 1), sep);
          CutJoin(s, sep, from, i);
      }
    }
  }

  /** A piece that ends at the separator at `i`, followed by the join of the pieces after it. */
  lemma CutJoin(s: String, sep: char, from: nat, i: nat)
    requires from <= i < |s| && FindFirstOf(s, {sep}, from) == Some(i)
    requires Join([s[from..i]] + PiecesFrom(s, sep, i + 1), sep) + Trailer(s[from..i] + [sep] + s[i + 1..], sep)
             == s[from..i] + [sep] + s[i + 1..]
    ensures Join(PiecesFrom(s, sep, from), sep) + Trailer(s[from..], sep) == s[from..]
  {
    PiecesFromCut(s, sep, from, i);
    SliceAround(s, from, i);
  }

  lemma PiecesFromCut(s: String, sep: char, from: nat, i: nat)
    requires from <= i < |s| && FindFirstOf(s, {sep}, from) == Some(i)
    ensures PiecesFrom(s, sep, from) == [s[from..i]] + PiecesFrom(s, sep, i + 1)
  {
  }

  lemma SliceAround(s: String, from: nat, i: nat)
    requires from <= i < |s|
    ensures s[from..] == s[from..i] + [s[i]] + s[i + 1..]
  {
  }

  /** With no separator left, the one remaining piece is the rest of the text, which does not end with one. */
  lemma LastPieceJoin(s: String, sep: char, from: nat)
    requires from < |s| && FindFirstOf(s, {sep}, from).None?
    ensures Join(PiecesFrom(s, sep, from), sep) + Trailer(s[from..], sep) == s[from..]
  {
    assert PiecesFrom(s, sep, from) == [s[from..]];
    assert s[from..][|s[from..]| - 1] == s[|s| - 1];
  }

  /** A final separator, when the text ends with one. */
  function Trailer(s: String, sep: char): String
  {
    if s != [] && s[|s| - 1] == sep then [sep] else []
  }

  lemma PiecesJoinStep(head: String, rest: String, ps: seq<String>, sep: char)
    requires rest != [] <==> ps != []
    requires Join(ps, sep) + Trailer(rest, sep) == rest
    ensures Join([head] + ps, sep) + Trailer(head + [sep] + rest, sep) == head + [sep] + rest
  {
    var s := head + [sep] + rest;
    if rest == [] {
      assert [head] + ps == [head];
      assert Trailer(s, sep) == [sep];
    } else {
      assert ([head] + ps)[1..] == ps;
      assert Join([head] + ps, sep) == head + [sep] + Join(ps, sep);
      assert Trailer(s, sep) == Trailer(rest, sep);
    }
  }

  /** A piece with an '=': the text before the first '=' and all of the text after it, undecoded. */
  function Pair(piece: String): (r: Option<(String, String)>)
    ensures r.None? <==> '=' !in piece
  {
    match FindFirstOf(piece, {'='}, 0)
    case None => None
    case Some(e) => Some((piece[..e], piece[e + 1..]))
  }

  /** The key and the value of a piece are its text around its first '=', verbatim. */
  lemma PairSplits(piece: String)
    requires '=' in piece
    ensures '=' !in Pair(piece).value.0 && piece == Pair(piece).value.0 + "=" + Pair(piece).value.1
  {
    var e := FindFirstOf(piece, {'='}, 0).value;
    assert piece == piece[..e] + "=" + piece[e + 1..];
  }

  /** `piece` assigns the parameter `k`. */
  predicate Assigns(piece: String, k: String) {
    Pair(piece).Some? && Pair(piece).value.0 == k
  }

  /** `pieces[i]` is the last piece that assigns `k`. */
  predicate LastAssigns(pieces: seq<String>, i: int, k: String) {
    0 <= i < |pieces| && Assigns(pieces[i], k) && forall j :: i < j < |pieces| ==> !Assigns(pieces[j], k)
  }

  /** The map the assignments `params[key] = value` build, piece by piece. */
  function ParamsOf(pieces: seq<String>): map<String, String>
  {
    if pieces == [] then map[]
    else
      var m := ParamsOf(pieces[..|pieces| - 1]);
      match Pair(pieces[|pieces| - 1])
      case None => m
      case Some(kv) => m[kv.0 := kv.1]
  }

  /** A key is present exactly when some piece assigns it; pieces without '=' contribute nothing. */
  lemma {:induction false} ParamsOfKeys(pieces: seq<String>, k: String)
    ensures k in ParamsOf(pieces) <==> exists i :: 0 <= i < |pieces| && Assigns(pieces[i], k)
  {
    if pieces != [] {
      var init := pieces[..|pieces| - 1];
      var last := pieces[|pieces| - 1];
      ParamsOfKeys(init, k);
      assert forall i :: 0 <= i < |init| ==> init[i] == pieces[i];
      if Assigns(last, k) {
        assert k in ParamsOf(pieces);
      } else {
        assert k in ParamsOf(pieces) <==> k in ParamsOf(init);
      }
    }
  }

  /** The value of a key is the one given by the last piece that assigns it. */
  lemma {:induction false} ParamsOfLastValue(pieces: seq<String>, k: String, i: int)
    requires LastAssigns(pieces, i, k)
    ensures k in ParamsOf(pieces) && ParamsOf(pieces)[k] == Pair(pieces[i]).value.1
  {
    var init := pieces[..|pieces| - 1];
    var last := pieces[|pieces| - 1];
    if i == |pieces| - 1 {
      assert ParamsOf(pieces) == ParamsOf(init)[k := Pair(last).value.1];
    } else {
      assert !Assigns(last, k);
      assert LastAssigns(init, i, k) by {
        assert forall j :: 0 <= j < |init| ==> init[j] == pieces[j];
      }
      ParamsOfLastValue(init, k, i);
      assert k in ParamsOf(pieces) <==> k in ParamsOf(init);
      assert ParamsOf(pieces)[k] == ParamsOf(init)[k];
    }
  }

  /** The parameters of the request line: empty without a target or without a '?' in it. */
  function RequestParams(request: String): (r: map<String, String>)
    ensures RequestTarget(request).None? ==> r == map[]
    ensures RequestTarget(request).Some? && '?' !in RequestTarget(request).value ==> r == map[]
  {
    match RequestTarget(request)
    case None => map[]
    case Some(target) =>
      match FindFirstOf(target, {'?'}, 0)
      case None => map[]
      case Some(q) => ParamsOf(Pieces(target[q + 1..], '&'))
  }

  /** The parameters of a request line are those of the query after the first '?' of its target. */
  lemma ParamsOfLine(verb: String, path: String, query: String, rest: String)
    requires ' ' !in verb && ' ' !in path && ' ' !in query && '?' !in path
    ensures RequestParams(verb + " " + path + " " + rest) == map[]
    ensures RequestParams(verb + " " + path + "?" + query + " " + rest) == ParamsOf(Pieces(query, '&'))
  {
    RequestTargetOfLine(verb, path, rest);
    var target := path + "?" + query;
    assert ' ' !in target;
    RequestTargetOfLine(verb, target, rest);
    assert verb + " " + path + "?" + query + " " + rest == verb + " " + target + " " + rest;
    assert forall j :: 0 <= j < |path| ==> target[j] == path[j];
    FindFirstOfAt(target, {'?'}, 0, |path|);
    assert target[|path| + 1..] == query;
  }

  /** One more piece read: the pieces still to read lose it, and its assignment, if any, is applied last. */
  lemma ReadStep(read: seq<String>, piece: String, later: seq<String>)
    ensures (read + [piece]) + later == read + ([piece] + later)
    ensures ParamsOf(read + [piece]) == match Pair(piece)
                                        case None => ParamsOf(read)
                                        case Some(kv) => ParamsOf(read)[kv.0 := kv.1]
  {
    assert (read + [piece])[..|read|] == read;
  }

  /** `getParamsFromRequest`: the getline loop over the query, last assignment of a key wins. */
  method GetParams(request: String) returns (params: map<String, String>)
    ensures params == RequestParams(request)
  {
    params := map[];
    var target := RequestTarget(request);
    if target.None? {
      return;
    }
    var qmark := FindFirstOf(target.value, {'?'}, 0);
    if qmark.None? {
      return;
    }
    var query := target.value[qmark.value + 1..];
    params := ReadQuery(query);
  }

  /** The getline loop over the query: each piece with an '=' assigns its key, the last assignment winning. */
  method ReadQuery(query: String) returns (params: map<String, String>)
    ensures params == ParamsOf(Pieces(query, '&'))
  {
    params := map[];
    var from := 0;
    ghost var read: seq<String> := [];
    while from < |query|
      invariant from <= |query|
      invariant read + PiecesFrom(query, '&', from) == Pieces(query, '&')
      invariant params == ParamsOf(read)
      decreases |query| - from
    {
      ghost var start := from;
      var cut := FindFirstOf(query, {'&'}, from);
      var piece := if cut.None? then query[from..] else query[from..cut.value];
      from := if cut.None? then |query| else cut.value + 1;
      assert PiecesFrom(query, '&', start) == [piece] + PiecesFrom(query, '&', from);
      ghost var before := read;
      read := read + [piece];
      ReadStep(before, piece, PiecesFrom(query, '&', from));
      var eq := FindFirstOf(piece, {'='}, 0);
      if eq.Some? {
        params := params[piece[..eq.value] := piece[eq.value + 1..]];
      }
    }
    assert read + [] == read;
  }

  // ---------------------------------------------------------------------------
  // Routing
  // ---------------------------------------------------------------------------

  /** What `handleAPI` ends with: a body, or an exception out of `std::stoi` that nothing catches. */
  datatype Outcome = Served(body: String) | Aborted

  const MissingRange: String := "{\"error\": \"Missing start or end parameters\"}"
  const Running: String := "{\"status\": \"running\"}"
  const UnknownUrl: String := "{\"error\": \"Unknown url\"}"
  const DefaultLimit: int := 1000

  /** The four routes that read a [start, end] range. */
  predicate RangeRoute(path: String) {
    path == "/api/statistics" || path == "/api/raw" || path == "/api/hourly" || path == "/api/daily"
  }

  predicate KnownRoute(path: String) {
    path == "/api/current" || RangeRoute(path) || path == "/"
  }

  predicate HasRange(params: map<String, String>) {
    "start" in params && "end" in params
  }

  /** `operator<<` on an int. */
  function IntText(n: int): (r: String)
    ensures r != []
  {
    if n < 0 then "-" + Decimal(-n) else Decimal(n)
  }

  /** The limit of /api/raw: 1000 when absent, else `std::stoi` of the value (None when it throws). */
  function RawLimit(params: map<String, String>, stoi: String -> Option<int>): Option<int>
  {
    if "limit" in params then stoi(params["limit"]) else Some(DefaultLimit)
  }

  /** A comma-separated JSON array: no comma before the first item or after the last. */
  function ArrayBody(items: seq<String>): String
  {
    "[" + Join(items, ',') + "]"
  }

  function RawItem(r: Reading, fmt: real -> String): String
  {
    "{\"timestamp\": \"" + r.timestamp + "\", \"temperature\": " + fmt(r.temperature) + "}"
  }

  /** An average row; `field` is "timestamp" for hours and "date" for days. */
  function AverageItem(field: String, p: (String, real), fmt: real -> String): String
  {
    "{\"" + field + "\": \"" + p.0 + "\", \"temperature\": " + fmt(p.1) + "}"
  }

  function RawItems(rows: seq<Reading>, fmt: real -> String): (r: seq<String>)
    ensures |r| == |rows| && forall i :: 0 <= i < |rows| ==> r[i] == RawItem(rows[i], fmt)
  {
    seq(|rows|, i requires 0 <= i < |rows| => RawItem(rows[i], fmt))
  }

  function AverageItems(field: String, rows: seq<(String, real)>, fmt: real -> String): (r: seq<String>)
    ensures |r| == |rows| && forall i :: 0 <= i < |rows| ==> r[i] == AverageItem(field, rows[i], fmt)
  {
    seq(|rows|, i requires 0 <= i < |rows| => AverageItem(field, rows[i], fmt))
  }

  function CurrentBody(t: real, fmt: real -> String): String
  {
    "{\"temperature\": " + fmt(t) + "}"
  }

  function StatisticsBody(st: Summary, fmt: real -> String): String
  {
    "{\"average\": " + fmt(st.avg) + ",\"min\": " + fmt(st.min) + ",\"max\": " + fmt(st.max) +
    ",\"samples\": " + IntText(st.count) + "}"
  }

  /**
   * The body `handleAPI` writes for `path` and `params` against a store in the given
   * state. `fmt` is the stream's fixed two-decimal output of a double.
   */
  function ApiBody(path: String, params: map<String, String>, fmt: real -> String, stoi: String -> Option<int>,
                   isOpen: bool, raw: seq<Reading>, hourly: seq<AggregateRow>, daily: seq<AggregateRow>): Outcome
  {
    if path == "/api/current" then
      Served(CurrentBody(if isOpen then LatestTemperature(raw) else 0.0, fmt))
    else if RangeRoute(path) && !HasRange(params) then
      Served(MissingRange)
    else if path == "/api/statistics" then
      var st := if isOpen then StatisticsOf(raw, params["start"], params["end"]) else Summary(0.0, 0.0, 0.0, 0);
      Served(StatisticsBody(st, fmt))
    else if path == "/api/raw" then
      match RawLimit(params, stoi)
      case None => Aborted
      case Some(limit) =>
        var rows := if isOpen then SelectRaw(raw, params["start"], params["end"], limit) else [];
        Served(ArrayBody(RawItems(rows, fmt)))
    else if path == "/api/hourly" then
      var rows := if isOpen then KeyAndAverage(AggregateCursor(hourly, HourlyTable, params["start"], params["end"])) else [];
      Served(ArrayBody(AverageItems("timestamp", rows, fmt)))
    else if path == "/api/daily" then
      var rows := if isOpen then KeyAndAverage(AggregateCursor(daily, DailyTable, params["start"], params["end"])) else [];
      Served(ArrayBody(AverageItems("date", rows, fmt)))
    else if path == "/" then
      Served(Running)
    else
      Served(UnknownUrl)
  }

  /** The `for` loop that writes an array: each item, then a comma unless it is the last. */
  method RenderArray(items: seq<String>) returns (r: String)
    ensures r == ArrayBody(items)
  {
    r := "[";
    var i := 0;
    while i < |items|
      invariant 0 <= i <= |items|
      invariant r == "[" + Join(items[..i], ',') + (if 0 < i < |items| then "," else "")
    {
      if i > 0 {
        JoinSnoc(items[..i], items[i], ',');
      }
      assert items[..i + 1] == items[..i] + [items[i]];
      r := r + items[i];
      if i < |items| - 1 {
        r := r + ",";
      }
      i := i + 1;
    }
    assert items[..i] == items;
    r := r + "]";
  }

  /** `handleAPI`: routes the path, querying the store only for the routes that need it. */
  method HandleApi(db: Database, path: String, params: map<String, String>, fmt: real -> String,
                   stoi: String -> Option<int>) returns (r: Outcome)
    ensures r == ApiBody(path, params, fmt, stoi, db.isOpen, db.raw, db.hourly, db.daily)
  {
    if path == "/api/current" {
      var t := db.GetCurrentTemperature();
      return Served(CurrentBody(t, fmt));
    }
    if RangeRoute(path) && !HasRange(params) {
      return Served(MissingRange);
    }
    if path == "/api/statistics" {
      var st := db.GetStatistics(params["start"], params["end"]);
      return Served(StatisticsBody(st, fmt));
    }
    if path == "/api/raw" {
      var limit := DefaultLimit;
      if "limit" in params {
        var parsed := stoi(params["limit"]);
        if parsed.None? {
          return Aborted;
        }
        limit := parsed.value;
      }
      var records := db.GetRawData(params["start"], params["end"], limit);
      var text := RenderArray(RawItems(records, fmt));
      return Served(text);
    }
    if path == "/api/hourly" {
      var averages := db.GetHourlyAverages(params["start"], params["end"]);
      var text := RenderArray(AverageItems("timestamp", averages, fmt));
      return Served(text);
    }
    if path == "/api/daily" {
      var averages := db.GetDailyAverages(params["start"], params["end"]);
      var text := RenderArray(AverageItems("date", averages, fmt));
      return Served(text);
    }
    if path == "/" {
      return Served(Running);
    }
    return Served(UnknownUrl);
  }

  /**
   * The four range routes answer a request without `start` or `end` with the error
   * body, whatever the store holds.
   */
  lemma MissingRangeAnswered(path: String, params: map<String, String>, fmt: real -> String,
                             stoi: String -> Option<int>, isOpen: bool, raw: seq<Reading>,
                             hourly: seq<AggregateRow>, daily: seq<AggregateRow>)
    requires RangeRoute(path) && !HasRange(params)
    ensures ApiBody(path, params, fmt, stoi, isOpen, raw, hourly, daily) == Served(MissingRange)
  {
  }

  /** "/" reports the server running; a path that no route matches gets the unknown-url error. */
  lemma FixedRoutes(path: String, params: map<String, String>, fmt: real -> String,
                    stoi: String -> Option<int>, isOpen: bool, raw: seq<Reading>,
                    hourly: seq<AggregateRow>, daily: seq<AggregateRow>)
    ensures path == "/" ==> ApiBody(path, params, fmt, stoi, isOpen, raw, hourly, daily) == Served(Running)
    ensures !KnownRoute(path) ==> ApiBody(path, params, fmt, stoi, isOpen, raw, hourly, daily) == Served(UnknownUrl)
  {
  }

  /** Only a `limit` on /api/raw that `std::stoi` rejects makes the handler fail. */
  lemma AbortedOnlyOnBadLimit(path: String, params: map<String, String>, fmt: real -> String,
                              stoi: String -> Option<int>, isOpen: bool, raw: seq<Reading>,
                              hourly: seq<AggregateRow>, daily: seq<AggregateRow>)
    ensures ApiBody(path, params, fmt, stoi, isOpen, raw, hourly, daily) == Aborted <==>
            path == "/api/raw" && HasRange(params) && "limit" in params && stoi(params["limit"]).None?
  {
  }

  /**
   * /api/raw with a range lists the rows of the raw query in response order, with the
   * limit 1000 when none is given, so at most 1000 items then.
   */
  lemma RawRoute(params: map<String, String>, fmt: real -> String, stoi: String -> Option<int>,
                 isOpen: bool, raw: seq<Reading>, hourly: seq<AggregateRow>, daily: seq<AggregateRow>)
    requires HasRange(params) && "limit" !in params
    ensures var rows := if isOpen then SelectRaw(raw, params["start"], params["end"], DefaultLimit) else [];
            && ApiBody("/api/raw", params, fmt, stoi, isOpen, raw, hourly, daily) == Served(ArrayBody(RawItems(rows, fmt)))
            && |rows| <= DefaultLimit
  {
    SelectRawOrderAndSize(raw, params["start"], params["end"], DefaultLimit);
  }

  /** An empty listing is "[]"; a non-empty one has exactly one comma between consecutive items and none after the last. */
  lemma {:induction false} ArrayShape(items: seq<String>, x: String)
    ensures ArrayBody([]) == "[]"
    ensures ArrayBody([x]) == "[" + x + "]"
    ensures items != [] ==> ArrayBody(items + [x]) == "[" + Join(items, ',') + "," + x + "]"
  {
    if items != [] {
      JoinSnoc(items, x, ',');
    }
  }

  /** Apart from the commas inside the items, a listing of n items holds n - 1 commas. */
  lemma ArrayCommas(items: seq<String>)
    requires items != []
    ensures Occurrences(ArrayBody(items), ',') == OccurrencesIn(items, ',') + |items| - 1
  {
    JoinSeparatorCount(items, ',');
    OccurrencesConcat("[" + Join(items, ','), "]", ',');
    OccurrencesConcat("[", Join(items, ','), ',');
    assert Occurrences("[", ',') == 0 && Occurrences("]", ',') == 0;
  }

  // ---------------------------------------------------------------------------
  // Response framing
  // ---------------------------------------------------------------------------

  const StatusLine: String := "HTTP/1.1 200 OK"
  const ContentType: String := "Content-Type: application/json"
  const ContentLength: String := "Content-Length: "
  const AllowOrigin: String := "Access-Control-Allow-Origin: *"
  const ConnectionClose: String := "Connection: close"

  /** The status line and the four header lines of a response whose body has `n` characters. */
  function HeaderLines(n: nat): seq<String>
  {
    [StatusLine, ContentType, ContentLength + Decimal(n), AllowOrigin, ConnectionClose]
  }

  /** Each line followed by CRLF. */
  function Block(lines: seq<String>): String
  {
    if lines == [] then [] else lines[0] + "\r\n" + Block(lines[1..])
  }

  /** `handleRequest`'s framing: the header block, the blank line, the body. */
  function Response(body: String): String
  {
    Block(HeaderLines(|body|)) + "\r\n" + body
  }

  /** A header line is not empty and holds no CR. */
  predicate HeaderLine(l: String) {
    l != [] && '\r' !in l
  }

  /** Every response carries the 200 status line first, whatever the route answered. */
  lemma ResponseStatus(body: String)
    ensures |Response(body)| >= 17 && Response(body)[..17] == "HTTP/1.1 200 OK\r\n"
  {
    var lines := HeaderLines(|body|);
    var rest := Block(lines[1..]) + "\r\n" + body;
    assert Block(lines) == StatusLine + "\r\n" + Block(lines[1..]);
    assert Response(body) == (StatusLine + "\r\n") + rest;
    assert StatusLine + "\r\n" == "HTTP/1.1 200 OK\r\n";
    PrefixOfConcat(StatusLine + "\r\n", rest);
  }

  lemma PrefixOfConcat(a: String, b: String)
    ensures (a + b)[..|a|] == a
  {
  }

  /** The fixed header lines are CR-free and not empty. */
  lemma FixedHeaderLines()
    ensures HeaderLine(StatusLine) && HeaderLine(ContentType) && HeaderLine(AllowOrigin) && HeaderLine(ConnectionClose)
    ensures ContentLength != [] && '\r' !in ContentLength
  {
    StatusLineFine();
    ContentTypeFine();
    AllowOriginFine();
    ConnectionCloseFine();
    ContentLengthFine();
  }

  // One lemma per fixed line keeps each character check small.
  lemma StatusLineFine()
    ensures HeaderLine(StatusLine)
  {
  }

  lemma ContentTypeFine()
    ensures HeaderLine(ContentType)
  {
  }

  lemma AllowOriginFine()
    ensures HeaderLine(AllowOrigin)
  {
  }

  lemma ConnectionCloseFine()
    ensures HeaderLine(ConnectionClose)
  {
  }

  lemma ContentLengthFine()
    ensures ContentLength != [] && '\r' !in ContentLength
  {
  }

  /** Every header line is a CR-free, non-empty line (the length is decimal digits). */
  lemma HeaderLinesWellFormed(n: nat)
    ensures forall k :: 0 <= k < |HeaderLines(n)| ==> HeaderLine(HeaderLines(n)[k])
  {
    var lines := HeaderLines(n);
    FixedHeaderLines();
    var d := Decimal(n);
    assert '\r' !in d by {
      forall k | 0 <= k < |d| ensures d[k] != '\r' {
        assert IsDigit(d[k]);
      }
    }
    assert HeaderLine(lines[2]);
  }

  /**
   * The framing a client relies on: the first blank line of a response ends the header
   * block and everything after it is the body.
   */
  lemma ResponseBody(body: String)
    ensures var b := Block(HeaderLines(|body|));
            && |b| >= 2
            && Find(Response(body), "\r\n\r\n", 0) == Some(|b| - 2)
            && Response(body)[|b| + 2..] == body
  {
    var lines := HeaderLines(|body|);
    HeaderLinesWellFormed(|body|);
    BlankLineEndsBlock(lines, body);
    assert Response(body) == Block(lines) + ("\r\n" + body);
  }

  /** The Content-Length header reads back as the number of characters in the body. */
  lemma ContentLengthIsBodyLength(body: String)
    ensures var d := Decimal(|body|);
            && HeaderLines(|body|)[2] == "Content-Length: " + d
            && (forall k :: 0 <= k < |d| ==> IsDigit(d[k]))
            && DecimalValue(d) == |body|
  {
    DecimalRoundTrip(|body|);
  }

  /** An occurrence in a suffix is an occurrence in the whole text, moved by the prefix length. */
  lemma OccursShifted(a: String, b: String, p: String, k: nat)
    ensures OccursAt(a + b, p, |a| + k) <==> OccursAt(b, p, k)
  {
    if |a| + k + |p| <= |a + b| {
      assert (a + b)[|a| + k..|a| + k + |p|] == b[k..k + |p|];
    }
  }

  /** No CRLF CRLF starts inside a CR-free line, nor at its CRLF when the next character is no CR. */
  lemma LineClear(l: String, tail: String, j: nat)
    requires '\r' !in l
    requires j < |l| || (j < |l| + 2 && tail != [] && tail[0] != '\r')
    ensures !OccursAt(l + "\r\n" + tail, "\r\n\r\n", j)
  {
    var s := l + "\r\n" + tail;
    if j + 4 <= |s| {
      if j < |l| {
        assert s[j] == l[j];
      } else if j == |l| {
        assert s[j + 2] == tail[0];
      } else {
        assert s[j] == '\n';
      }
    }
  }

  /** A block of header lines starts with the first line's first character. */
  lemma BlockStart(lines: seq<String>, body: String)
    requires lines != [] && HeaderLine(lines[0])
    ensures var t := Block(lines) + "\r\n" + body; t != [] && t[0] == lines[0][0] && t[0] != '\r'
  {
    assert Block(lines) == lines[0] + "\r\n" + Block(lines[1..]);
  }

  /** The last header line: its CRLF and the blank line's CRLF are the first CRLF CRLF. */
  lemma LastLineEndsBlock(l: String, rest: String)
    requires HeaderLine(l)
    ensures Find(l + "\r\n" + ("\r\n" + rest), "\r\n\r\n", 0) == Some(|l|)
  {
    var s := l + "\r\n" + ("\r\n" + rest);
    var p := "\r\n\r\n";
    forall j: nat | j < |l| ensures !OccursAt(s, p, j) {
      LineClear(l, "\r\n" + rest, j);
    }
    assert s[|l|..|l| + 4] == p;
    FindAt(s, p, 0, |l|);
  }

  /** In front of a text whose first CRLF CRLF is at `i`, a header line adds none before `|l| + 2 + i`. */
  lemma LineBeforeClear(l: String, tail: String, i: nat, j: nat)
    requires HeaderLine(l) && tail != [] && tail[0] != '\r'
    requires Find(tail, "\r\n\r\n", 0) == Some(i)
    requires j < |l| + 2 + i
    ensures !OccursAt(l + "\r\n" + tail, "\r\n\r\n", j)
  {
    if j < |l| + 2 {
      LineClear(l, tail, j);
    } else {
      var k := j - |l| - 2;
      assert !OccursAt(tail, "\r\n\r\n", k);
      OccursShifted(l + "\r\n", tail, "\r\n\r\n", k);
      assert |l + "\r\n"| + k == j;
    }
  }

  /** A header line in front of a text whose first CRLF CRLF is at `i` moves it by the line and its CRLF. */
  lemma LineBeforeFind(l: String, tail: String, i: nat)
    requires HeaderLine(l) && tail != [] && tail[0] != '\r'
    requires Find(tail, "\r\n\r\n", 0) == Some(i)
    ensures Find(l + "\r\n" + tail, "\r\n\r\n", 0) == Some(|l + "\r\n"| + i)
  {
    NoneBefore(l, tail, i);
    FindShifted(l + "\r\n", tail, "\r\n\r\n", i);
  }

  /** A prefix with no occurrence starting in it or straddling into the suffix moves the first occurrence by its length. */
  lemma FindShifted(a: String, b: String, p: String, i: nat)
    requires Find(b, p, 0) == Some(i)
    requires forall j: nat :: 0 <= j < |a| + i ==> !OccursAt(a + b, p, j)
    ensures Find(a + b, p, 0) == Some(|a| + i)
  {
    OccursShifted(a, b, p, i);
    FindAt(a + b, p, 0, |a| + i);
  }

  /** No CRLF CRLF starts before the shifted first one of the tail. */
  lemma NoneBefore(l: String, tail: String, i: nat)
    requires HeaderLine(l) && tail != [] && tail[0] != '\r'
    requires Find(tail, "\r\n\r\n", 0) == Some(i)
    ensures forall j: nat :: 0 <= j < |l + "\r\n"| + i ==> !OccursAt(l + "\r\n" + tail, "\r\n\r\n", j)
  {
    forall j: nat | j < |l + "\r\n"| + i
      ensures !OccursAt(l + "\r\n" + tail, "\r\n\r\n", j)
    {
      LineBeforeClear(l, tail, i, j);
    }
  }

  /** Header lines without CR: the first CRLF CRLF of block + CRLF + body is the one that ends the block. */
  lemma {:induction false} BlankLineEndsBlock(lines: seq<String>, body: String)
    requires lines != [] && forall k :: 0 <= k < |lines| ==> HeaderLine(lines[k])
    ensures |Block(lines)| >= 2
    ensures Find(Block(lines) + "\r\n" + body, "\r\n\r\n", 0) == Some(|Block(lines)| - 2)
  {
    var l, rest := lines[0], lines[1..];
    BlockCons(lines, body);
    if rest == [] {
      assert Block(rest) + "\r\n" + body == "\r\n" + body;
      LastLineEndsBlock(l, body);
    } else {
      TailHeaderLines(lines);
      BlankLineEndsBlock(rest, body);
      BlockStep(lines, body);
    }
  }

  /** The first CRLF CRLF after the other lines' block shifts by the first line and its CRLF. */
  lemma {:induction false} BlockStep(lines: seq<String>, body: String)
    requires |lines| >= 2 && HeaderLine(lines[0]) && HeaderLine(lines[1])
    requires |Block(lines[1..])| >= 2
    requires Find(Block(lines[1..]) + "\r\n" + body, "\r\n\r\n", 0) == Some(|Block(lines[1..])| - 2)
    ensures Find(Block(lines) + "\r\n" + body, "\r\n\r\n", 0) == Some(|Block(lines)| - 2)
  {
    var rest := lines[1..];
    assert rest[0] == lines[1];
    BlockCons(lines, body);
    BlockStart(rest, body);
    LineBeforeFind(lines[0], Block(rest) + "\r\n" + body, |Block(rest)| - 2);
  }

  /** A block is its first line, a CRLF, and the block of the other lines. */
  lemma BlockCons(lines: seq<String>, body: String)
    requires lines != []
    ensures Block(lines) + "\r\n" + body == lines[0] + "\r\n" + (Block(lines[1..]) + "\r\n" + body)
    ensures |Block(lines)| == |lines[0] + "\r\n"| + |Block(lines[1..])|
  {
  }

  /** The lines after the first of a run of header lines are header lines. */
  lemma TailHeaderLines(lines: seq<String>)
    requires lines != [] && forall k :: 0 <= k < |lines| ==> HeaderLine(lines[k])
    ensures forall k :: 0 <= k < |lines[1..]| ==> HeaderLine(lines[1..][k])
  {
    forall k | 0 <= k < |lines[1..]| ensures HeaderLine(lines[1..][k]) {
      assert lines[1..][k] == lines[k + 1];
    }
  }

  /** `handleRequest`: the path and the parameters of the request line, routed and framed. */
  method HandleRequest(db: Database, request: String, fmt: real -> String, stoi: String -> Option<int>)
    returns (r: Outcome)
    ensures r == match ApiBody(GetPath(request), RequestParams(request), fmt, stoi, db.isOpen, db.raw, db.hourly, db.daily)
                 case Served(body) => Served(Response(body))
                 case Aborted => Aborted
  {
    var path := GetPath(request);
    var params := GetParams(request);
    var body := HandleApi(db, path, params, fmt, stoi);
    if body.Aborted? {
      return Aborted;
    }
    return Served(Response(body.body));
  }
}
