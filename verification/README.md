# DDoS score ingestion and preprocessing helpers — a Dafny model

This project models two small, deterministic cores of a DDoS-detection dashboard backend.

**The ingestion-and-broadcast server (`backend/server.js`).** A directory watcher reacts
to files named `predictions-*.csv`. For each such file, the server reads the `DDOS%`
column of the last CSV row and sends `JSON.stringify({ ddosPercentage })` to every
WebSocket client whose `readyState` is OPEN. The model has these parts:

- the file-name guard;
- the fold the `data` handler performs, which starts from `null`;
- the `null` guard;
- the OPEN-only fan-out;
- the connection handler, which does nothing;
- the two ways a read can fail: the CSV parser's `error` event, which rejects the
  promise, and the file stream's own `error` event, which `.pipe()` does not forward;
  with no listener it is thrown and ends the process;
- a trace of connection, state-change and watch events. Over this trace, a late joiner
  provably receives only later broadcasts.

The watch callback and the trace take a `Mode`. `AsWritten` is the code as it stands,
where a file-stream error ends the process. `CatchSourceErrors` is the evidently intended
behaviour, where that error also reaches the `.catch` and is logged (see "## Findings").
The broadcast and trace lemmas hold in both modes.

The message text is modelled down to JSON string escaping. A decoder gives the value
back, which is what a subscriber's `JSON.parse(text).ddosPercentage` reads. A round-trip
lemma links the two.

**The array helpers (`backend/util_functions.py`).** These are:

- the `protocols`, `powers_of_two` and `feature_list` constants;
- `static_min_max`, including its mutation of the module-global table;
- `find_min_max`;
- `padding` and `normalize_and_padding`, where only the shape matters and scaling is a
  parameter;
- `count_packets_in_dataset`;
- `all_same`.

Samples are `Matrix(width, rows)` values over exact reals. Python's errors on these paths
are `Result` values: IndexError for an empty list or zero columns, and ValueError for a
width mismatch in `np.vstack` or a negative pad amount in `np.pad`. The errors of the scaling step are not modelled (see "## Left out").

Files:

- `results.dfy`: `Option` and `Result`.
- `message.dfy`: the broadcast text and its decoder.
- `ddos_reader.dfy`: `readDdosPercentage`.
- `ws_clients.dfy`: client states and the fan-out.
- `server.dfy`: the watch callback, the connection handler and the event trace.
- `matrices.dfy`: numpy shape operations.
- `util_functions.dfy`: the Python helpers.

Facts about the code that the model follows:

- The value broadcast is the raw cell text of the last row (`backend/server.js:54`, `:76`).
  The server neither clamps nor scales it; the clamp to [0, 1] and the ×100 happen only
  in the dashboard, at `frontend/src/components/sections/dashboard/earnings/Earnings.tsx:34`.
- A last row without a `DDOS%` cell yields `undefined`. That value passes the
  `!== null` guard at `backend/server.js:72`, and `JSON.stringify` drops an `undefined`
  property, so the text `{}` is broadcast to every OPEN client.
- A failed send does not evict a client. The code passes no send callback and never
  removes clients itself.
- A parser error rejects the read, and the `.catch` only logs it; there is no retry.
  A file-stream error (the file deleted before the read, no permission) is not forwarded
  by `.pipe()` to the parser, so the promise never settles and the unlistened `error`
  event ends the process.

## Model

| member | source | states |
|---|---|---|
| Message.Stringify | backend/server.js:76 | the broadcast text is `{}` exactly when the value is `undefined`: an `undefined` property is dropped from the object |
| Message.UnescapeEscape | backend/server.js:76 | JSON.parse reads back exactly the string that JSON.stringify's quoting wrote, for every string |
| Message.ReadFieldStringify | backend/server.js:76 | a subscriber that parses the broadcast text and reads `ddosPercentage` gets the sent value back: a string, `undefined` or `null` |
| Message.StringifyInjective | backend/server.js:76 | two different values never go out as the same text |
| DdosReader.Field | backend/server.js:54 | `row['DDOS%']` is exactly the row's cell text when the row has that key and `undefined` otherwise; it is never `null` |
| DdosReader.Latest | backend/server.js:50-55 | after the data handler has seen the rows, the variable holds the last row's field, or its starting value if there were no rows |
| DdosReader.ReadDdosPercentage | backend/server.js:48-61 | as written: a file-stream error is thrown uncaught, exactly when the source stream fails; a parser error rejects, exactly when the parser fails; the error is carried through; otherwise the promise resolves to `null` for zero rows and to the last row's field otherwise |
| DdosReader.ReadDdosPercentageGuarded | backend/server.js:48-61 | with file-stream errors forwarded: the read fails exactly when the stream does not end normally, with that error; otherwise `null` for zero rows and the last row's field |
| DdosReader.GuardedAgreesUnlessSourceFails | backend/server.js:51-59 | the guarded read agrees with the read as written, result for result and error for error, unless the file stream fails; then the original is thrown and the guarded one rejects |
| DdosReader.EarlierRowsIrrelevant | backend/server.js:50-55 | rows before the last, and the starting value, do not influence the result |
| DdosReader.ReadNullIffNoRows | backend/server.js:50-57 | a completed read yields `null` if and only if the file had no data rows |
| DdosReader.MissingColumnIsUndefined | backend/server.js:54-57 | a last row without the `DDOS%` key resolves to `undefined`, not `null` |
| Clients.FanOut | backend/server.js:74-78 | the sends number at most the clients; every send carries the same text to an OPEN client; every OPEN client is sent that text |
| Clients.FanOutExactlyOnce | backend/server.js:74-78 | with distinct clients, an OPEN client receives exactly one send and a client in any other state receives none |
| Server.HandledIffShaped | backend/server.js:66 | a name passes the guard exactly when it is `predictions-` + stem + `.csv`; the prefix and suffix cannot overlap |
| Server.OnWatchEvent | backend/server.js:65-83 | an event is ignored, with nothing read, exactly when the guard fails; otherwise the file `output/<name>` is read; the process crashes exactly when, as written, the file stream fails; the read is logged as failed exactly on a parser error, or on a file-stream error when those are caught; zero rows send nothing; otherwise the last row's value is fanned out |
| Server.NoSendsUnlessRead | backend/server.js:66-81 | a rejected name, any read error (parser or file stream, in either mode) or an empty file produces no send |
| Server.MissingColumnStillBroadcasts | backend/server.js:72-78 | a last row without `DDOS%` still broadcasts, and each OPEN client receives `{}` |
| Server.BroadcastDeliversValue | backend/server.js:72-78 | every send of one broadcast parses back to the raw last-row value, and each OPEN client gets it exactly once |
| Server.OnConnection | backend/server.js:43-45 | a connection sends nothing; the new client is added as OPEN after the existing clients, which are unchanged |
| Server.Step | backend/server.js:43-83 | a watch event leaves the client set unchanged; every send of a step goes to a client that was OPEN; the process stops exactly on a handled watch event whose file stream fails, as written |
| Server.RunFromAppend | backend/server.js:43-83 | running two event traces one after the other is the same as running their concatenation |
| Server.RunFromExtends | backend/server.js:43-83 | from any outcome, later events never retract or reorder a send: the sends so far are a prefix of the sends afterwards |
| Server.UnknownClientReceivesNothing | backend/server.js:74-78 | later events only append sends, and a client that is not in the set and does not connect during them receives none of the appended sends |
| Server.LateJoinerSeesOnlyLater | backend/server.js:43-45 | a client receives nothing up to and including its own connection; the whole trace is the joined outcome continued by the later events, whose sends extend the joined ones, and every message the client receives lies in that extension |
| Server.SourceErrorEndsBroadcasting | backend/server.js:51-59 | as written, a handled event whose file stream fails stops the process: no later event sends anything and the client set stays as it was |
| Server.DeletedFileSilencesServer | backend/server.js:51-81 | for a deleted `predictions-1.csv` followed by a scored `predictions-2.csv`, the OPEN client receives nothing as written, and the second file's score when file-stream errors are caught |
| Server.GuardedKeepsBroadcasting | backend/server.js:65-83 | with file-stream errors caught, the process is alive after any trace, and a later watch event sends exactly what its own handling sends |
| Matrices.TakeRows | backend/util_functions.py:89-90 | `sample[:n]` keeps the width and has exactly the first `n` rows |
| Matrices.PadRows | backend/util_functions.py:104-105 | `np.pad` keeps the original rows and appends all-zero rows of the same width up to `n` rows |
| Matrices.MapElems | backend/util_functions.py:93-94 | the element-wise scaling keeps the shape and maps each value with its column |
| Matrices.TakePad | backend/util_functions.py:100-107 | cutting a padded sample back to its original length returns the original sample |
| UtilFunctions.ProtocolMaskInRange | backend/util_functions.py:12-21 | `powers_of_two[i]` is 2^i; any 12-protocol bit set weighted by them lies in the declared `protocols` range [0, 1<<12) |
| UtilFunctions.StaticMinMax | backend/util_functions.py:56-68 | two arrays of length 11; every min is 0; max[0] is the time window and every other max is the declared upper bound; the global timestamp bound becomes the time window |
| UtilFunctions.StaticMinMaxHistoryFree | backend/util_functions.py:56-57 | the overwritten bound persists in the global table, yet a call's result does not depend on earlier calls |
| UtilFunctions.MaxRows | backend/util_functions.py:76-77 | the column-wise max of the accumulator and the rows bounds each of them from above, and each column equals the accumulator or some row's value |
| UtilFunctions.MinRows | backend/util_functions.py:78-79 | the column-wise min bounds the accumulator and every row from below, and each column equals the accumulator or some row's value |
| UtilFunctions.MaxSamples | backend/util_functions.py:75-77 | over all samples, each column's max is at least every value of that column and the start, and is one of them |
| UtilFunctions.MinSamples | backend/util_functions.py:75-79 | over all samples, each column's min is at most every value of that column and the start, and is one of them |
| UtilFunctions.FindMinMax | backend/util_functions.py:70-84 | succeeds exactly when there is a first sample with at least one column and all samples share its width; an empty list gives IndexError and a width mismatch gives ValueError; column 0 is forced to [0, time_window]; every other max is at least 0 and at least every value in its column; every other min is at most every value |
| UtilFunctions.FindMinMaxTight | backend/util_functions.py:70-84 | outside column 0, a max is 0 or a value of its column; a min is `inf` exactly when there are no rows, and otherwise is a value of its column |
| UtilFunctions.Padding | backend/util_functions.py:100-107 | ValueError exactly when a sample is longer than `max_flow_len`; otherwise one sample per input, each with exactly `max_flow_len` rows, the original rows first and all-zero rows after |
| UtilFunctions.NormalizeSample | backend/util_functions.py:88-96 | of the cut and the padding, only the padding can fail: ValueError exactly when padding with a negative length; with the scaling taken as shape-preserving, the sample keeps its width; it has `max_flow_len` rows when padded, otherwise the rows the Python slice keeps; kept rows are scaled and padded rows are zero |
| UtilFunctions.NormalizeAndPadding | backend/util_functions.py:86-98 | the output list has one sample per input, each processed as above; with scaling taken as total, an error occurs exactly when padding a non-empty list to a negative length |
| UtilFunctions.NormalizeShape | backend/util_functions.py:87-98 | for `max_flow_len >= 0`: `max_flow_len` rows when padding, `min(rows, max_flow_len)` otherwise; a longer sample keeps its first `max_flow_len` rows, scaled |
| UtilFunctions.NormalizeAgreesWithPadding | backend/util_functions.py:86-107 | with scaling taken as the identity, `normalize_and_padding` with padding equals `padding` on every list that `padding` accepts |
| UtilFunctions.NonZeroRows | backend/util_functions.py:48-49 | the count equals the number of row indices whose sum is non-zero; hence at most the rows, 0 exactly when every row sums to 0, and full exactly when none does |
| UtilFunctions.CountPackets | backend/util_functions.py:48-49 | the count equals the number of (sample, row) positions whose row sum is non-zero; hence at most the positions, with the same two if-and-only-ifs |
| UtilFunctions.CountPacketsInDataset | backend/util_functions.py:45-51 | one count per input dataset, each equal to the number of its non-zero (sample, row) positions and at most the number of positions |
| UtilFunctions.TotalRowsUniform | backend/util_functions.py:45-51 | when every sample has `h` rows, the count is at most samples × `h` |
| UtilFunctions.DefaultArguments | backend/util_functions.py:8-9 | `TIME_WINDOW` equals the declared timestamp bound, so from the declared table `static_min_max()` with the default window leaves the table as declared; `find_min_max` with the default window sets max[0] to 10 and min[0] to 0 whatever the data; `normalize_and_padding(..., MAX_FLOW_LEN, padding=True)` always succeeds with 100 rows per sample |
| UtilFunctions.AllSame | backend/util_functions.py:53-54 | true exactly when the items are pairwise equal; the empty list gives true |

## Left out

- `fs.watch`, `fs.createReadStream`, Express and the `ws` server object are I/O. Their effects are parameters instead: the file name of an event, the rows and end of the parse stream, and the client set.
- `path.join` normalisation is not modelled. `FilePath` concatenates `output/` and the name, whereas `path.join` would also resolve `.` and `..` segments inside a name. `fs.watch` reports base names.
- CSV tokenisation, including a truncated final row, happens inside `csv-parser`, which is not part of this model. The model starts from the parsed rows.
- `/cpu-usage` and `/network-usage` are thin wrappers over `systeminformation`, with float division.
- Asynchronous interleaving of overlapping watch events and promise resolutions is concurrency. Each event is handled atomically, against the client set at the time its read resolves.
- Client bookkeeping inside `ws` is library behaviour: adding a client on handshake, `readyState` transitions, removal on close, and asynchronous send failures. It appears only as `Connection` and `StateChange` events.
- Console logging is not modelled. A rejected read is logged and has no other effect. The process ending on an uncaught `error` event is modelled only as the trace stopping; exit codes are not modelled.
- `backend/ddos_detector.py` (the OpenFlow controller and pcap writing) is framework and I/O code.
- `load_dataset` is h5py and glob I/O.
- NormalizeSample: the `mins` and `maxs` arguments are not modelled, and neither are two effects of numpy broadcasting in `scale_linear_bycolumn`: the ValueError raised when their length is neither the sample's width nor 1, and the widening of a width-1 sample to their length k (the result then has k columns). The scaling is a total, shape-preserving parameter, so the error conditions stated for `NormalizeSample` and `NormalizeAndPadding` are those of the cut and the padding only, and "keeps its width" holds for the model's scaling only.
- NormalizeAndPadding: for the same reason, its error condition leaves out the scaling's broadcast ValueError for `mins`/`maxs` of the wrong length.
- `scale_linear_bycolumn` and `np.nan_to_num` involve float arithmetic, including division by a zero range. They are the parameter `scale` of `NormalizeSample`, which sees each value with its column index.
- Floating point is modelled as exact reals. Data holds no NaN or `inf`, so a row sum of 0 is exact; in floats, cancellation or NaN could change `count_nonzero`.
- The encoder that combines protocol bits with `powers_of_two` is not part of this model. `ProtocolMaskInRange` states the range property for the weighted sum such an encoder computes.
- The constants `SEED` and `TRAIN_SIZE` are not used by any modelled function.
- The dashboard's clamp-and-×100 of the received value is display code. The model follows the server, which sends the raw text.

## Findings

| source | as written | input that shows it | evidently intended | confidence | as-written member | corrected member |
|---|---|---|---|---|---|---|
| backend/server.js:51-59 | `fs.createReadStream(filePath).pipe(csv())` attaches the only `error` listener to the parser; `.pipe()` does not forward the file stream's `error`, so it is thrown and ends the process | a watch event for `predictions-1.csv` after the file was deleted (ENOENT), followed by `predictions-2.csv` with a score: that score is never broadcast | a file error rejects the promise and is logged by the `.catch` at `backend/server.js:81`, and later files are still broadcast | not executed; high | Server.DeletedFileSilencesServer | Server.GuardedKeepsBroadcasting |
