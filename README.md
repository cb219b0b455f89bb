# Temperature logger: a Dafny model

This project models the data path of a set of small C++ programs that log the
readings of a serial thermometer.

- **lab6 logger** (`temperature_logger.hpp`). It reads JSON frames line by line from a serial port. It checks each frame's checksum and stores the reading in a three-table SQLite store (`database.hpp`). Readings are also buffered by hour and by date, and averaged into the hourly and daily tables when an hour or a day has passed. `stop()` drains both buffers.
- **lab6 HTTP server** (`httpserver.hpp`). It answers `GET` requests on `/api/current`, `/api/statistics`, `/api/raw`, `/api/hourly` and `/api/daily` with JSON built from the store.
- **lab4 logger** (`logger.cpp`). This is the earlier file-based logger. It cuts the serial stream into `}\r\n`-terminated frames. It keeps a raw log file, an hourly log file and a daily log file, each rewritten or appended as readings come in.
- **lab2 launcher** (`background.hpp`). It builds a command line, with quoting on Windows, and keeps the list of programs it started.
- **Qt thermometer driver** (`TempWindow.cpp`). It cuts the number out of a `Temp: … Celsius` line. The window has a data indicator and a connection indicator, plus the polling timer.

The model is organised as follows.

- Pure code (parsers, routing, rendering) is modelled as functions over values.
- Code that updates objects in place is modelled as classes whose methods are proved against specification functions of the old state: `Storage.Database`, `LoggerCore.TemperatureLogger`, `LegacyLogger.TemperatureLogger`, `Background.Launcher`, `TempDriver.TempDeviceDriver` and `TempDriver.TempWindow`.
- Loops that build a result step by step are modelled as methods with loop invariants, proved equal to a function. This covers the line splitting, the query loops, `buildCommandLine`, `write_raw_log`'s filter and the `getline` loop over the query string.

Behaviour outside the programs is passed in as parameters:

- number parsing (`stod`, `stof`, `stoi`, `QByteArray::toDouble`) and number formatting;
- the clock and the retention checks;
- whether a port or a database could be opened;
- what process creation returns.

Modules, one file each:

| file | module | what it holds |
|---|---|---|
| wrappers.dfy | Wrappers | `Option` |
| text.dfy | Text | `find`, `find_first_of`, `substr`, splitting and joining, text ordering, decimal rendering |
| sorting.dfy | Sorting | insertion sort by a text key (the `ORDER BY` of the queries) |
| stats.dfy | Stats | sum/min/max/mean as the C++ loops compute them, grouping into buckets |
| storage.dfy | Storage | the three-table store of `database.hpp` |
| frame_parser.dfy | FrameParser | lab6 `parse_json` |
| logger_core.dfy | LoggerCore | lab6 `TemperatureLogger` |
| http_api.dfy | HttpApi | lab6 request parsing, API routing and response framing |
| legacy_logger.dfy | LegacyLogger | lab4 `TemperatureLogger` and the frame loop of `read_from_port` |
| background.dfy | Background | lab2 `BackgroundLauncher` |
| temp_driver.dfy | TempDriver | the Qt `TempDeviceDriver` and `TempWindow` |

## Model

| member | source | states |
|---|---|---|
| Text.FindFromStart | lab6/temperature_logger.hpp:39-41 | `find` from 0 reports the first occurrence of the pattern, and `npos` exactly when the pattern occurs nowhere |
| Text.Find | lab6/temperature_logger.hpp:39-46 | `std::string::find` from a position: a reported position is an occurrence at or after it with none between; `npos` means none at or after it |
| Text.FindFirstOf | lab6/temperature_logger.hpp:64 | `find_first_of` from a position: a reported position holds one of the characters, none comes between; `npos` means none follows |
| Text.Quoted | lab4/logger.cpp:69-74 | the text from a position up to the next `"`: it holds no quote, is followed by one, and exists exactly when a quote follows |
| Text.DecimalRoundTrip | lab6/httpserver.hpp:235 | the decimal rendering of a length reads back as that length |
| Sorting.SortCorrect | lab6/database.hpp:248 | the key-ordered rows are sorted by the key (ascending or descending) and are a permutation of the input |
| Stats.MinMaxAreBounds | lab6/temperature_logger.hpp:142-150 | the running minimum and maximum of a non-empty group are samples of the group and bound every sample |
| Stats.SummaryOfBounds | lab6/temperature_logger.hpp:142-153 | the aggregate of a group counts its samples and has min <= avg <= max, with min and max taken from the group |
| Stats.Summarize | lab6/temperature_logger.hpp:142-153 | the sum/min/max loop computes exactly the group's aggregate |
| Stats.GroupIntoCorrect | lab6/temperature_logger.hpp:131-134 | `map[key].push_back(sample)` over a run of pairs gives each key mentioned in the run, or already present, its old samples followed by that key's samples in order |
| Stats.GroupSummariesCorrect | lab6/temperature_logger.hpp:136-156 | one aggregate per non-empty bucket (empty buckets are skipped), with the count and bounds of that bucket |
| Storage.InTimeRangeCounts | lab6/database.hpp:245-247 | `WHERE timestamp BETWEEN ? AND ?` keeps every in-range row as often as it occurs and drops every other row |
| Storage.Limit | lab6/database.hpp:249 | `LIMIT n` keeps the first n rows, or all rows when n is negative or at least the row count |
| Storage.SelectRawRows | lab6/database.hpp:245-249 | the raw query returns only table rows, all with timestamps in [start, end] |
| Storage.SelectRawOrderAndSize | lab6/database.hpp:245-249 | the raw query returns newest first; its size is the limit, or the number of in-range rows when the limit is negative or larger; with no cut it returns all in-range rows |
| Storage.SelectRawKeepsNewest | lab6/database.hpp:245-249 | a row that the limit cuts off is no newer than any returned row |
| Storage.LatestTemperatureCorrect | lab6/database.hpp:346-351 | the current temperature is 0.0 on an empty table, else the temperature of a row whose timestamp is the greatest |
| Storage.StatisticsCorrect | lab6/database.hpp:374-381 | the statistics count the in-range rows, are all zero when there are none, and otherwise have min <= avg <= max, with min and max attained by in-range rows and bounding all of them |
| Storage.RetainSinceCorrect | lab6/database.hpp:407-409 | cleanup removes exactly the rows dated before the cutoff and keeps every other row as often as it occurred |
| Storage.AsMapKeys | lab6/database.hpp:112-125 | the key view of an aggregate table has exactly the keys of its rows |
| Storage.RemoveKey | lab6/database.hpp:118 | the replaced row of a key: every other row stays, and no row of the key remains |
| Storage.NoDuplicateKeys | lab6/database.hpp:118 | under the UNIQUE key constraint no two rows of a query result share a key |
| Storage.RemoveKeyAsMap | lab6/database.hpp:185-186 | deleting the rows of a key removes exactly that key from the key view |
| Storage.UpsertCorrect | lab6/database.hpp:185-189 | `INSERT OR REPLACE` keeps keys unique, sets the key's aggregate in the key view, and keeps every row of another key |
| Storage.UpsertTwice | lab6/database.hpp:185-189 | upserting one key twice is upserting the later values once |
| Storage.RemoveKeyIdempotent | lab6/database.hpp:185-186 | deleting a key a second time deletes nothing more |
| Storage.AggregateQueryAscending | lab6/database.hpp:283-286 | the hourly and daily queries return strictly ascending keys |
| Storage.AggregateQueryContents | lab6/database.hpp:283-286 | each returned pair is an in-range key with its stored average, and every in-range key is returned |
| Storage.Database.Open | lab6/database.hpp:51-73 | an open store stays open and reports success; otherwise the store is open exactly when opening succeeded |
| Storage.Database.constructor | lab6/database.hpp:44 | a new store is closed, with three empty tables |
| Storage.Database.Close | lab6/database.hpp:75-83 | the store is closed afterwards |
| Storage.Database.InsertRawData | lab6/database.hpp:140-175 | on an open store the record is appended and success reported; on a closed one nothing changes and false is returned |
| Storage.Database.InsertHourlyAverage | lab6/database.hpp:177-204 | on an open store the hourly table becomes the upsert of the row; otherwise unchanged, with false |
| Storage.Database.InsertDailyAverage | lab6/database.hpp:206-233 | the same for the daily table, keyed by the date |
| Storage.Database.GetRawData | lab6/database.hpp:235-272 | the row-copying loop returns the raw query's rows, or nothing on a closed store |
| Storage.Database.GetHourlyAverages | lab6/database.hpp:274-305 | the pair-building loop returns (hour, average) for the in-range rows in key order, or nothing on a closed store |
| Storage.Database.GetDailyAverages | lab6/database.hpp:307-338 | the same for the daily table |
| Storage.Database.GetCurrentTemperature | lab6/database.hpp:340-364 | the latest temperature, or 0.0 on a closed store |
| Storage.Database.GetStatistics | lab6/database.hpp:366-399 | the range statistics, or zero statistics on a closed store |
| Storage.Database.CleanupOldData | lab6/database.hpp:401-421 | on an open store the rows dated before the cutoff are deleted and success reported |
| FrameParser.NumberText | lab6/temperature_logger.hpp:62-65 | a number field is the text from its start up to the first `,` or `}`; it holds neither, and the field is missing exactly when no delimiter follows |
| FrameParser.ParseJsonAccepted | lab6/temperature_logger.hpp:38-123 | an accepted frame has both number fields, the temperature parses to the reading's value, the checksum is within 0.01 of it, and the timestamp and its date and hour buckets come from the timestamp field |
| FrameParser.ParseJsonFromFields | lab6/temperature_logger.hpp:62-119 | fields that parse and agree within 0.01 give exactly the reading built from them |
| FrameParser.ChecksumMismatchRejected | lab6/temperature_logger.hpp:86-90 | a frame whose temperature and checksum differ by more than 0.01 is rejected |
| FrameParser.KeySetSelection | lab6/temperature_logger.hpp:39-60 | with all three verbose keys the values are read 14, 11 and 13 past them; when some verbose key is missing and all three compact keys occur, the values are read 7 past each compact key; when a verbose key and a compact key are both missing the frame is rejected |
| FrameParser.CompactChecksumOffset | lab6/temperature_logger.hpp:43-55 | when some verbose key is missing and the compact keys occur, the frame's positions are chosen; the temperature and timestamp values start right after `"temp":` and `"time":`, the checksum value one character past the end of `"chk":` |
| FrameParser.CompactSpacedTimestamp | lab6/temperature_logger.hpp:92-99 | a compact timestamp written with a space after `"time":` reads as the empty text |
| FrameParser.HourKeyExtendsDateKey | lab6/temperature_logger.hpp:103-115 | for a timestamp of at least 13 characters the hour bucket has 23 characters and starts with the date bucket |
| FrameParser.BucketKeysIdempotent | lab6/temperature_logger.hpp:103-115 | bucketing a bucket key again gives the same key, whatever the clock says |
| FrameParser.EmulatorObjectText | lab4/emulator.cpp:59-65 | what the message stream receives, insertion by insertion, is one text: the temperature key and number, the quoted timestamp, the checksum key and number, and the closing brace |
| FrameParser.FrameQuotes | lab4/emulator.cpp:61-65 | in an emulator frame with plain values and a quote-free tail, the only quotes followed by a letter are the three that open the keys |
| FrameParser.EmulatorKeys | lab4/emulator.cpp:61-65 | each verbose key is first found exactly where the emulator writes it |
| FrameParser.ValuePositionsOf | lab6/temperature_logger.hpp:39-60 | once all three verbose keys are found, the value offsets are 14, 11 and 13 past them |
| FrameParser.SameNumberAccepted | lab6/temperature_logger.hpp:62-119 | a frame whose temperature and checksum fields hold the same number text, which converts, is accepted as that value with its timestamp and buckets |
| FrameParser.EmulatorPositions | lab4/emulator.cpp:61-65 | in the emulator's frame the three verbose keys are found, at known positions |
| FrameParser.EmulatorFrameAccepted | lab4/emulator.cpp:61-65 | the emulator's frame (with any quote-free tail) parses to its temperature and timestamp |
| LoggerCore.CString | lab6/temperature_logger.hpp:242-243 | appending the read buffer takes the chunk up to its first NUL |
| LoggerCore.LinesCorrect | lab6/temperature_logger.hpp:245-247 | the line-splitting loop cuts the buffer into '\n'-free lines plus a '\n'-free rest that rejoin to the buffer |
| LoggerCore.StripLine | lab6/temperature_logger.hpp:249-251 | the erase loop removes exactly the leading '\r', '\n', ' ' and '\t' |
| LoggerCore.AdmittedSound | lab6/temperature_logger.hpp:253-258 | each admitted reading is the parse of one non-empty stripped line, and there are at most as many readings as lines |
| LoggerCore.HourlyFlushKeys | lab6/temperature_logger.hpp:131-158 | the hourly flush writes a row for exactly the hours of the buffered records |
| LoggerCore.HourlyFlushValues | lab6/temperature_logger.hpp:131-158 | each hourly row counts that hour's records and bounds them, with min <= avg <= max |
| LoggerCore.EmulatorLine | lab6/temperature_logger.hpp:245-247 | one emulator frame read in one chunk is one complete line (ending in '\r') and leaves nothing pending |
| LoggerCore.EmulatorLineAdmitted | lab6/temperature_logger.hpp:249-261 | that line, once stripped, yields the frame's reading |
| LoggerCore.TemperatureLogger.constructor | lab6/temperature_logger.hpp:196-200 | the three check times start at the construction time, with empty buffers and a closed store |
| LoggerCore.TemperatureLogger.Initialize | lab6/temperature_logger.hpp:206-225 | initialisation succeeds exactly when the store and then the port open; the port is only tried on an open store |
| LoggerCore.TemperatureLogger.ProcessHourlyBuffer | lab6/temperature_logger.hpp:126-159 | the hourly table becomes the upsert of one aggregate per hour of the buffer; the buffer is cleared; nothing else changes |
| LoggerCore.TemperatureLogger.ProcessDailyBuffer | lab6/temperature_logger.hpp:161-189 | the daily table becomes the upsert of one aggregate per non-empty date bucket; the buckets are cleared |
| LoggerCore.TemperatureLogger.HandleLine | lab6/temperature_logger.hpp:249-266 | a line that strips to a parsing frame adds its reading to the raw table and both buffers (on an open store); any other line changes nothing |
| LoggerCore.TemperatureLogger.ReceiveChunk | lab6/temperature_logger.hpp:241-268 | a chunk appends the readings of its complete lines to the raw table, the hourly buffer and the date buckets, and keeps the incomplete rest pending |
| LoggerCore.TemperatureLogger.Tick | lab6/temperature_logger.hpp:273-288 | each of the hourly flush, the daily flush and the cleanup runs exactly when its period has passed, and then resets its check time |
| LoggerCore.TemperatureLogger.Stop | lab6/temperature_logger.hpp:295-310 | stopping drains both buffers into the tables, then closes the port and the store |
| HttpApi.RequestTarget | lab6/httpserver.hpp:85-91 | the text between the first two spaces; missing exactly when the request has fewer than two spaces |
| HttpApi.GetPath | lab6/httpserver.hpp:84-99 | the path is non-empty and holds no space and no '?'; it is "/" when the request line is malformed and when the target is empty or starts with '?' |
| HttpApi.PathOfLine | lab6/httpserver.hpp:84-99 | for `VERB path[?query] ...` the path is `path` |
| HttpApi.PiecesJoin | lab6/httpserver.hpp:118 | the `getline` pieces rejoin, with their separators, to the query |
| HttpApi.PairSplits | lab6/httpserver.hpp:119-123 | a piece with '=' splits at its first '=' into a key without '=' and the value |
| HttpApi.ParamsOfKeys | lab6/httpserver.hpp:118-125 | a key is a parameter exactly when some piece assigns it |
| HttpApi.ParamsOfLastValue | lab6/httpserver.hpp:118-125 | a parameter's value comes from the last piece that assigns it |
| HttpApi.ParamsOfLine | lab6/httpserver.hpp:101-129 | a target without '?' has no parameters; with a query the parameters are those of its pieces |
| HttpApi.GetParams | lab6/httpserver.hpp:101-129 | the parameter loop computes the parameters of the request |
| HttpApi.ReadQuery | lab6/httpserver.hpp:114-126 | the `getline` loop over the query computes the parameters of its pieces |
| HttpApi.RenderArray | lab6/httpserver.hpp:170-176 | the item loop writes the items between brackets, with a comma between every two |
| HttpApi.HandleApi | lab6/httpserver.hpp:132-223 | the handler returns the routed body for the store's current contents |
| HttpApi.MissingRangeAnswered | lab6/httpserver.hpp:143-145 | a range route without `start` or `end` answers the missing-parameters error |
| HttpApi.FixedRoutes | lab6/httpserver.hpp:215-220 | "/" answers the running status and an unknown path the unknown-url error |
| HttpApi.AbortedOnlyOnBadLimit | lab6/httpserver.hpp:160-166 | the handler is cut short exactly when `/api/raw` has a range and a `limit` that does not parse |
| HttpApi.RawRoute | lab6/httpserver.hpp:155-177 | `/api/raw` without a limit renders at most 1000 rows of the raw query |
| HttpApi.ArrayShape | lab6/httpserver.hpp:170-176 | "[]" for no items, the item in brackets for one, comma-joined items otherwise |
| HttpApi.ArrayCommas | lab6/httpserver.hpp:170-176 | the array adds exactly one comma between each pair of items |
| HttpApi.ResponseStatus | lab6/httpserver.hpp:233 | the response starts with the `HTTP/1.1 200 OK` status line |
| HttpApi.HeaderLinesWellFormed | lab6/httpserver.hpp:233-237 | every header line is non-empty and holds no '\r' |
| HttpApi.ResponseBody | lab6/httpserver.hpp:233-239 | the first blank line ends the header block, and the body follows it unchanged |
| HttpApi.ContentLengthIsBodyLength | lab6/httpserver.hpp:235 | the Content-Length header is the decimal length of the body |
| HttpApi.BlankLineEndsBlock | lab6/httpserver.hpp:233-238 | in a block of well-formed header lines the first CRLFCRLF is the end of the last line |
| HttpApi.HandleRequest | lab6/httpserver.hpp:225-242 | the response frames the routed body, or the handler is cut short |
| LegacyLogger.ParseJson | lab4/logger.cpp:49-56 | a frame without the temperature key or without the timestamp key is rejected |
| LegacyLogger.ParseJsonAccepted | lab4/logger.cpp:49-75 | an accepted frame's temperature is the parse of the text from 14 past the key to the next ',', and its timestamp is the quote-free text from 14 past its key up to the next quote |
| LegacyLogger.ParseJsonFromFields | lab4/logger.cpp:57-74 | fields that are found and parse give exactly that sample |
| LegacyLogger.ParseJsonMissingDelimiter | lab4/logger.cpp:58-71 | no ',' after the temperature, or no closing quote for the timestamp, rejects the frame |
| LegacyLogger.EmulatorFrameAccepted | lab4/emulator.cpp:61-64 | the emulator's object parses to its temperature and timestamp |
| LegacyLogger.FramesRoundTrip | lab4/logger.cpp:339-342 | the frame loop cuts the buffer into frames ending in '}' with no `}\r\n` inside, and a rest without `}\r\n`; frames and rest rejoin to the buffer |
| LegacyLogger.EmulatorFrameCut | lab4/logger.cpp:339-342 | an emulator frame at the front of the buffer is cut off as one frame |
| LegacyLogger.RetainedMembers | lab4/logger.cpp:86-90 | a line survives retention exactly when it is in the file, non-empty and passes the check |
| LegacyLogger.RetainedConcat | lab4/logger.cpp:86-90 | retention works line by line, so it distributes over concatenation (order kept) |
| LegacyLogger.RetainedIdempotent | lab4/logger.cpp:86-90 | filtering a filtered log again changes nothing |
| LegacyLogger.AddDataRawLog | lab4/logger.cpp:77-105 | after add_data the raw log is the retained old lines, with the new line last |
| LegacyLogger.AddDataBuffers | lab4/logger.cpp:267-273 | with no period due, the sample is appended to the hour buffer and to its date bucket, and no other bucket changes |
| LegacyLogger.AddDataHourlyCheck | lab4/logger.cpp:279-283 | when an hour has passed, the hour buffer including the new sample is averaged into the hourly log and cleared, and the check time reset; otherwise nothing hourly changes |
| LegacyLogger.AddDataDailyCheck | lab4/logger.cpp:285-289 | when a day has passed the check time is reset and at most one daily line is added; only yesterday's bucket can disappear |
| LegacyLogger.HourlyFlushEffect | lab4/logger.cpp:133-184 | an empty hour buffer changes nothing; otherwise the hourly log is the retained old lines followed by the first sample's hour and the mean, and the buffer is cleared |
| LegacyLogger.HourKeyShape | lab4/logger.cpp:145 | the hour key is the first 13 characters of the first timestamp followed by `:00:00.000` |
| LegacyLogger.DailyFlushEffect | lab4/logger.cpp:213-264 | only the given date's bucket is read and erased, with its mean appended to the daily log; a missing or empty bucket changes nothing; other dates stay |
| LegacyLogger.DailyFlushIdempotent | lab4/logger.cpp:229-262 | flushing the same date twice is flushing it once |
| LegacyLogger.CleanupEffect | lab4/logger.cpp:292-313 | cleanup drains the hour buffer into the hourly log and drops the given date's bucket without logging it; other dates stay |
| LegacyLogger.ParseAndAddOutcome | lab4/logger.cpp:316-323 | a frame that does not parse changes nothing; one that parses adds its raw log line |
| LegacyLogger.AddFramesConcat | lab4/logger.cpp:339-348 | handling two runs of frames in turn is handling their concatenation |
| LegacyLogger.TemperatureLogger.constructor | lab4/logger.cpp:262-265 | both check times start at the construction time, with empty buffers and the given log files |
| LegacyLogger.TemperatureLogger.WriteRawLog | lab4/logger.cpp:77-105 | the raw log becomes the retained old lines plus the new line |
| LegacyLogger.TemperatureLogger.ProcessHourlyAverage | lab4/logger.cpp:133-184 | the state becomes the hourly flush of the old state |
| LegacyLogger.TemperatureLogger.ProcessDailyAverage | lab4/logger.cpp:213-259 | the state becomes the daily flush of the given date |
| LegacyLogger.TemperatureLogger.AddSampleData | lab4/logger.cpp:267-290 | the state becomes add_data of the old state |
| LegacyLogger.TemperatureLogger.CleanupData | lab4/logger.cpp:292-313 | the state becomes the cleanup of the old state |
| LegacyLogger.TemperatureLogger.ParseAndAddData | lab4/logger.cpp:316-323 | returns true exactly when the frame parses, and adds the sample in that case |
| LegacyLogger.TemperatureLogger.ReceiveRead | lab4/logger.cpp:333-348 | a failed or empty read changes nothing; otherwise every complete frame of buffer + chunk is handled in order, and the rest is kept |
| LegacyLogger.FilterLines | lab4/logger.cpp:85-92 | the read loop keeps exactly the retained lines |
| LegacyLogger.AverageTemperature | lab4/logger.cpp:138-142 | the summing loop computes the mean of the buffered temperatures |
| LegacyLogger.Average | lab4/logger.cpp:234-239 | the summing loop computes the mean of the day's temperatures |
| Background.WordRoundTrip | lab2/background.hpp:30-34 | a word is changed exactly when it holds a space on Windows; it is then wrapped in double quotes and can be read back |
| Background.CommandLineIsJoin | lab2/background.hpp:25-53 | the command line is the words of the program and the arguments joined by single spaces |
| Background.PosixCommandLine | lab2/background.hpp:36-48 | on POSIX it is the program and then " " + arg for each argument, in order |
| Background.PosixCommandLineSplits | lab2/background.hpp:36-48 | on POSIX, with no space inside any word, splitting at spaces gives back the program and the arguments |
| Background.SeparatorCount | lab2/background.hpp:39-40 | exactly one separating space is added per argument |
| Background.BuildCommandLine | lab2/background.hpp:25-53 | the loop builds the command line, quoting on Windows the program and each argument that holds a space |
| Background.Launcher.constructor | lab2/background.hpp:19-23 | the list of started processes starts empty |
| Background.Launcher.Launch | lab2/background.hpp:120-135 | a start that succeeds (pid > 0 on POSIX, non-NULL handle on Windows) is appended and reported true; a failed one is not recorded and reports false |
| Background.Launcher.WaitForAll | lab2/background.hpp:171-187 | the list of recorded processes is returned as waited for (on POSIX one `waitpid` per process, in list order), and the list is empty afterwards |
| TempDriver.TrimmedSlice | code_examples/6.qt-serial/TempDriver/TempWindow.cpp:69 | trimming keeps one slice without white space at its ends and removes only white space |
| TempDriver.TrimmedIdempotent | code_examples/6.qt-serial/TempDriver/TempWindow.cpp:69 | text without white space at its ends is not changed by trimming, so trimming twice is trimming once |
| TempDriver.Mid | code_examples/6.qt-serial/TempDriver/TempWindow.cpp:69 | `mid(pos, len)` is the slice of `len` characters, or the rest of the text when `len` is negative or too long |
| TempDriver.NumberTextFound | code_examples/6.qt-serial/TempDriver/TempWindow.cpp:56-67 | a read succeeds exactly when "Temp:" occurs and "Celsius" occurs at or after the end of its first occurrence |
| TempDriver.MissingStartMarker | code_examples/6.qt-serial/TempDriver/TempWindow.cpp:56-59 | without "Temp:" only a failure is reported and no temperature is published |
| TempDriver.MissingEndMarker | code_examples/6.qt-serial/TempDriver/TempWindow.cpp:61-67 | without "Celsius" after "Temp:" only a failure is reported |
| TempDriver.NumberTextCut | code_examples/6.qt-serial/TempDriver/TempWindow.cpp:61-69 | the number text starts right after "Temp:" and stops one character before "Celsius", trimmed; when the markers touch, the rest of the line is taken |
| TempDriver.SignalOrder | code_examples/6.qt-serial/TempDriver/TempWindow.cpp:71-72 | a successful read emits one temperature and then success; a failed one only failure |
| TempDriver.TempDeviceDriver.constructor | code_examples/6.qt-serial/TempDriver/TempWindow.cpp:16-18 | a new driver has a closed port with no name and has emitted nothing |
| TempDriver.EmulatorLineRead | code_examples/6.qt-serial/TempEmulator/TempDeviceEmulator.cpp:29 | an emulator line publishes its number text and reports success |
| TempDriver.TempDeviceDriver.Connect | code_examples/6.qt-serial/TempDriver/TempWindow.cpp:20-38 | an empty name emits a failed attempt and returns false without touching the port; otherwise the port is renamed, reopened, and the outcome emitted and returned |
| TempDriver.TempDeviceDriver.ReadData | code_examples/6.qt-serial/TempDriver/TempWindow.cpp:51-73 | the signals for the line are emitted in order and the port is left alone |
| TempDriver.LineSignals | code_examples/6.qt-serial/TempDriver/TempWindow.cpp:54-60 | the first search: without "Temp:" the result is a lone DataReadResult(false); otherwise the signals of `ReadSignals` for the line |
| TempDriver.SignalsAfterStart | code_examples/6.qt-serial/TempDriver/TempWindow.cpp:61-72 | once "Temp:" is found, the search for "Celsius" after it and the cut give exactly the signals of `ReadSignals` |
| TempDriver.IndicatorAfterResults | code_examples/6.qt-serial/TempDriver/TempWindow.cpp:115-127 | after a run of read results the indicator shows data exactly when the last or the one before was a success, and the previous result is the last one |
| TempDriver.TimerFollowsAttempt | code_examples/6.qt-serial/TempDriver/TempWindow.cpp:99-113 | after a connection attempt the timer runs and the box is checked exactly when it succeeded |
| TempDriver.EmulatorLineShown | code_examples/6.qt-serial/TempDriver/TempWindow.cpp:86-89 | delivering an emulator line's signals shows its number and turns the indicator on |
| TempDriver.TempWindow.constructor | code_examples/6.qt-serial/TempDriver/TempWindow.cpp:86-96 | a new window shows no data, is not connected, has its timer stopped, and the previous result is false |
| TempDriver.TempWindow.Display | code_examples/6.qt-serial/TempDriver/TempWindow.cpp:86 | a temperature reaches the display and changes nothing else |
| TempDriver.TempWindow.ConnectionAttempt | code_examples/6.qt-serial/TempDriver/TempWindow.cpp:99-113 | a failure stops the timer and unchecks the box; a success checks it and starts the timer |
| TempDriver.TempWindow.DataReadResult | code_examples/6.qt-serial/TempDriver/TempWindow.cpp:115-127 | data is shown when this or the previous result is true, and this result becomes the previous one |
| TempDriver.TempWindow.Deliver | code_examples/6.qt-serial/TempDriver/TempWindow.cpp:86-90 | signals reach the connected slots in the order they were emitted |

## Left out

- **Hardware and OS I/O.** The serial ports, sockets, threads and mutexes, sleeps, `std::cout`/`std::cerr` and message boxes are not modelled. A read, an open or a process start is represented by its result, which is a parameter.
- **SQLite internals.** The SQLite engine, the statement preparation failures and the table DDL are not modelled. Only the row semantics that the SQL text states are modelled, with one exception: among rows with equal timestamps the model fixes an order, which SQLite does not promise (see the next line). `date(timestamp)` is taken as the first ten characters, and NULL when the text is shorter.
- **Floating point.** Numbers are Dafny reals. `stod`, `stof`, `stoi`, `toDouble` and `setprecision(2)` formatting are parameters, and no rounding behaviour is claimed. The checksum tolerance 0.01 is exact.
- **Wall-clock time.** `time`, `localtime`, `strftime`, `mktime` and `date('now', …)` are replaced by parameters:
  - a clock value with the current seconds and the date and hour texts;
  - the cleanup cutoff date;
  - yesterday's date key;
  - the retention checks `is_entry_within_24h` and `is_entry_within_month`, taken as predicates on a log line.
- Storage.Database.Open: opening never loads rows that a database file already holds. The tables start empty, as for a new file.
- **lab6 hour text from the clock.** `parse_json` formats the clock's hour into `char hour_buffer[14]`, which is too small for the 23 characters of `"%Y-%m-%d %H:00:00.000"`. `strftime` then returns 0 and leaves the buffer's contents indeterminate. The model therefore leaves the clock's hour text unconstrained: it is whatever text the parameter holds.
- Storage.Database.GetRawData, Storage.Database.GetCurrentTemperature, HttpApi.HandleApi: the raw table has no UNIQUE constraint on `timestamp`, so rows can share one. For such ties `ORDER BY timestamp DESC` leaves the order unspecified, and so does the choice of tied rows that `LIMIT ?` keeps. The model fixes one answer: the stable sort keeps tied rows in table order. The facts that hold for every tie order are stated apart, in SelectRawOrderAndSize, SelectRawKeepsNewest and LatestTemperatureCorrect: the rows come newest first, they are in-range table rows, the size is fixed, and the current temperature is that of some row with the greatest timestamp.
- **lab4 log files.** Each file is a sequence of lines. The rewrite or append of a file is the new sequence.
- LegacyLogger.AddDataRawLog, LegacyLogger.TemperatureLogger.WriteRawLog: every entry written to a log file is assumed to hold no '\n'. A frame is cut only at `}\r\n` and its timestamp is the text up to the next quote, so a timestamp can hold '\n'. The source would then read that one entry back as two lines, each checked on its own. The model keeps it as one line. The same holds for the hourly and daily lines built from the timestamp (`HourKey`, the date key).
- LoggerCore.TemperatureLogger.ReceiveChunk: one clock value (its date and hour texts) serves every line of a chunk. The source calls `time(nullptr)` again for each frame whose timestamp is too short (lab6/temperature_logger.hpp:106 and :116), so two frames of one read can fall into different buckets. The model does not show that.
- LegacyLogger.TemperatureLogger.ReceiveRead: one environment (clock and retention checks) serves every frame of one read. The source asks the clock again for each frame.
- **lab4 locking.** `add_data` holds `data_mutex` while `process_hourly_average` and `process_daily_average` lock it again. The model runs them without locks, so this self-deadlock is not represented.
- Background.Launcher.Launch: the child-process side is outside the model. `launchUnix` forks before it creates a pipe, so a failing `pipe()` returns -1 in both processes. `execvp` failing in the child is also outside the model. `launchAndWait` and exit codes are not modelled.
- Background.Launcher.WaitForAll: the waits themselves (`waitpid`, `WaitForMultipleObjects`, `CloseHandle`) are shown only as the list of processes waited for. On Windows there is no order: a single `WaitForMultipleObjects(n, …, TRUE, INFINITE)` call waits for all the handles at once, and its result is not checked. With more than 64 handles (`MAXIMUM_WAIT_OBJECTS`) that call fails at once, so the handles are closed and the list is cleared without any wait. The model does not show this.
- HttpApi.ContentLengthIsBodyLength: the body is counted in characters. For the ASCII bodies the server writes, this is the byte count.
- **Empty compact timestamp.** As written, a compact frame with a space after `"time":` has its timestamp position on that space. The search for the closing quote then starts at the opening quote itself, so the timestamp is empty and both buckets come from the clock. The model keeps this behaviour.
- FrameParser.CompactChecksumOffset: the compact `"chk":` key is 6 characters long, but its value is read from 7 characters past the key, as written. No correction is modelled, because `stod` skips the space that usually follows.
- **Parsers that throw.** A failing `stoi` on the `limit` parameter throws out of `handleAPI`. Nothing on the server's thread catches it, so it ends the whole process through `std::terminate`. That outcome is `Aborted`.
- TempDriver.TempWindow.constructor: the initial connection to the last listed port is left to the caller, since the port list comes from `AvailablePorts`. The indicator therefore starts off.
- **Not in this model:** the GUI parts (`temperature_monitor_gui.*`, `main_gui.cpp`, the Win32 demo), the widget captions and colours in `TempWindow.cpp`, `TempDeviceDriver::AvailablePorts`, the network examples under `code_examples/3.network`, lab3, lab5, and the emulators beyond their message layout.
