# GPS tracker ingestion, modelled in Dafny

This project models the ingestion path of the balloon GPS web tracker (`GPSWebTracker`) and
proves properties of it. The path has these parts:

- **Stream framer.** It cuts `<data>…</data>` envelopes out of the text received from the GPS data server.
- **Report extractor.** `parse_gps_data` and `_extract_gps_point` turn one message tree into position records.
- **Per-sender history.** `store_gps_data` and `load_historical_data` keep a bounded, in-memory
  history for each sender, together with that sender's latest position.
- **Sender summary.** `get_sender_summary` and `_calculate_altitude_trend` derive the summary and the altitude trend.
- **Configuration check.** `Config.validate` checks the settings and supplies the history cap.

Modules, one per file:

| module | file | models |
|---|---|---|
| `Common` | common.dfy | `Option`, `Result`, one sequence lemma |
| `Text` | text.dfy | `str.find` and `in` on strings |
| `Xml` | xml.dfy | an already parsed element tree: `find`, `findall`, `get` |
| `Records` | records.dfy | the position record (the dict built per point), the sender key |
| `Framing` | framing.dfy | the framer loop inside `listen`, as written and corrected |
| `Extraction` | extraction.dfy | `parse_gps_data`, `_extract_gps_point` |
| `History` | history.dfy | the in-memory part of `store_gps_data`, the grouping loop of `load_historical_data`, as class `Tracker` over the two maps |
| `Summary` | summary.dfy | `get_sender_summary`, `_calculate_altitude_trend` |
| `Configuration` | configuration.dfy | `Config.validate` |
| `Ingest` | ingest.dfy | one receive step of `listen`: frame, parse, store |

How the model represents the source:

- **Senders.** A sender is `Option<string>`. ElementTree gives `None` as the text of an empty
  `<sender/>`, and the code goes on to store such points under the key `None`.
- **Retention cap.** The slice `lst[-cap:]` is written out: with a cap of 0 it keeps the whole list.
- **Number conversion.** `float()` and `int()` on text are function parameters that may fail (`Option`).
- **Rounding.** `round(x, 1)` is round-half-to-even at tenths on reals.

## Model

| member | source | states |
|---|---|---|
| Framing.Guard | gps_web_tracker.py:546 | the inner loop's guard: `<data>` and `</data>` both occur somewhere in the buffer |
| Framing.Start | gps_web_tracker.py:547 | `start`: the index of the first `<data>`, or -1 |
| Framing.End | gps_web_tracker.py:548 | `end`: the index of the first `</data>` at or after `start`, plus 7 (so 6 when there is none) |
| Framing.Advances | gps_web_tracker.py:550 | the body's test `start != -1 and end > start`, under which a pass emits a message and shrinks the buffer |
| Framing.Terminates | gps_web_tracker.py:546-552 | the loop as written ends from this buffer: whenever the guard holds the body advances, and it ends again from `buffer[end:]` |
| Framing.StallsIff | gps_web_tracker.py:546-550 | the body makes no progress while the guard holds exactly when no `</data>` occurs at or after the first `<data>` |
| Framing.StallIsPermanent | gps_web_tracker.py:546-550 | a buffer on which the body makes no progress keeps the guard true and the loop never exits |
| Framing.TerminatesIff | gps_web_tracker.py:546-552 | the loop as written terminates on a buffer exactly when the remainder left once every complete envelope is cut off fails the loop guard (no `<data>` or no `</data>` left); otherwise it spins forever |
| Framing.StepEmitsEnvelope | gps_web_tracker.py:547-552 | one pass emits the slice from the first `<data>` to just past the first `</data>` after it; the slice begins with `<data>`, ends with `</data>` and holds no earlier `</data>` |
| Framing.FramesWellFramed | gps_web_tracker.py:546-552 | every message the loop emits is a complete envelope |
| Framing.FramesRest | gps_web_tracker.py:546-552 | the buffer the loop leaves is a suffix of its input and fails the loop guard |
| Framing.FramesSound | gps_web_tracker.py:546-552 | both of the above together |
| Framing.Drain | gps_web_tracker.py:546-552 | the loop as written, on a buffer from which it terminates: returns the emitted messages and the kept buffer, every message a complete envelope, the guard false on what is kept |
| Framing.Frames | gps_web_tracker.py:546-552 | the reference definition of the loop as written: while the guard holds, emit `buffer[start:end]` and continue on `buffer[end:]`; defined only on buffers from which the loop terminates |
| Framing.FramesUnfold | gps_web_tracker.py:547-552 | one pass on a terminating buffer emits `buffer[start:end]` and continues on `buffer[end:]` |
| Framing.LeadingCloseStalls | gps_web_tracker.py:546-550 | `"</data><data>"` makes the loop as written spin forever, while the corrected loop keeps it untouched |
| Framing.CorrectedAgrees | gps_web_tracker.py:546-552 | on every buffer from which the loop as written terminates, the corrected loop gives the same messages and buffer |
| Framing.FramesCorrected | gps_web_tracker.py:546-552 | the reference definition of the corrected loop: while some `</data>` follows the first `<data>`, emit `buffer[start:end]` and continue on `buffer[end:]` |
| Framing.FramesCorrectedWellFramed | gps_web_tracker.py:546-552 | every message of the corrected loop is a complete envelope |
| Framing.FramesCorrectedRest | gps_web_tracker.py:546-552 | what the corrected loop keeps is a suffix of its input holding no `<data>` followed by `</data>` |
| Framing.FramesCorrectedSound | gps_web_tracker.py:546-552 | both of the above together |
| Framing.DrainCorrected | gps_web_tracker.py:546-552 | the corrected loop always returns; its messages are complete envelopes, what it keeps holds no complete envelope, and it agrees with the loop as written whenever that one terminates |
| Framing.PartialEnvelopeKept | gps_web_tracker.py:543-552 | for every complete envelope and every read that stops before its end, both loops emit nothing and keep the whole buffer |
| Framing.CompletedEnvelopeEmitted | gps_web_tracker.py:546-552 | for every complete envelope, a buffer holding exactly it makes both loops emit it once and keep nothing |
| Framing.SplitEnvelopeEmittedOnce | gps_web_tracker.py:543-552 | for every complete envelope split at any point before its end across two reads, the loop as written emits nothing after the first read and, on the kept buffer plus the second read, emits the envelope once and keeps nothing |
| Framing.PrefixHasNoClose | gps_web_tracker.py:546 | a read that stops before the end of an envelope holds no `</data>` |
| Framing.EnvelopeBounds | gps_web_tracker.py:547-548 | on a complete envelope `start` is 0 and `end` is its length |
| Extraction.ChildText | gps_web_tracker.py:283-299 | `elem.text` of `element.find(name)`: none when the child is missing or has no text |
| Extraction.FloatField | gps_web_tracker.py:255-256 | `float(elem.text)` under the `try`: none when the child is missing, has no text or does not convert |
| Extraction.IntField | gps_web_tracker.py:290-294 | `int(elem.text)` under the `try`: none when the child is missing, has no text or does not convert |
| Extraction.EmergencyField | gps_web_tracker.py:296-297 | the emergency field is absent without an `emer` child, and true exactly when its text is `1` |
| Text.Find | gps_web_tracker.py:547-548 | `str.find`: -1 when the pattern does not occur at or after the start index, otherwise the least index where it does |
| Xml.FindChild | gps_web_tracker.py:191-207 | `find`: none exactly when no direct child has the tag, otherwise a direct child with that tag |
| Xml.FindChildIsFirst | gps_web_tracker.py:191-207 | `find` returns the first matching child: no child before it has the tag |
| Xml.WithTag | gps_web_tracker.py:228 | `findall` on the children: only children with the tag, and every such child |
| Xml.WithTagAppend | gps_web_tracker.py:228 | `findall` keeps document order: the matches among two runs of children are the first run's matches followed by the second's |
| Xml.FindAll | gps_web_tracker.py:228 | `findall('point')`: the direct children with the tag, as `WithTag` gives them |
| Xml.Get | gps_web_tracker.py:200 | `get` with a default: the attribute's value when present, otherwise the default |
| Extraction.ExtractGpsPoint | gps_web_tracker.py:246-305 | a record exists exactly when `lat` and `lng` are present, convert and lie in range; it carries the message's sender data; each optional field is kept only when it is present and converts |
| Extraction.PointRecords | gps_web_tracker.py:229-237 | a point gives no record exactly when its extraction fails, and otherwise exactly the extracted record; that record has valid coordinates and the message's sender |
| Extraction.Collect | gps_web_tracker.py:228-232 | every record of a run of points is the extraction of one of those points; there are at most as many records as points, each with valid coordinates and the message's sender |
| Extraction.CollectAppend | gps_web_tracker.py:229-232 | points are extracted independently: the records of two runs of points are concatenated |
| Extraction.PointKeptAmongSiblings | gps_web_tracker.py:229-232 | a point that yields a record keeps it in place, whatever its siblings yield |
| Extraction.FirstReport | gps_web_tracker.py:217-225 | the first tag of the fixed list that the message has, with none of the earlier tags present; -1 when none is present |
| Extraction.ParseGpsData | gps_web_tracker.py:185-240 | no result exactly when `meta` or `meta/sender` is missing or a non-empty target sender differs from the sender; otherwise only the first report present counts, at most one record per `point` of a collection report and at most one for the others; all records have valid coordinates and the message's sender |
| Extraction.MetaOf | gps_web_tracker.py:190-207 | no sender data exactly when `meta` or `meta/sender` is missing; otherwise the sender is the text of `meta/sender`, its type the `type` attribute (`Unknown` when absent), and the time and protocol the texts of `meta/time` and `meta/protocol` |
| Extraction.FilteredOut | gps_web_tracker.py:210 | a message is dropped when a non-empty target sender is given and differs from the message's sender |
| Extraction.ReportRecords | gps_web_tracker.py:223-240 | the reference definition of the report loop: the records of the `point` children of the first report present when it is a collection report, of the report itself otherwise, none when no report is present |
| Extraction.ReportPoints | gps_web_tracker.py:223-237 | the candidate points of the first report present: its `point` children for a collection report, the report itself otherwise, none when no report is present |
| Extraction.ChosenReportRecordKept | gps_web_tracker.py:223-238 | a point of the chosen collection report that yields a record contributes it, in document order, between the records of the points before and after it; a single-point report that yields a record is the whole result |
| Extraction.ParsedRecordsExtracted | gps_web_tracker.py:223-237 | every record of a parsed message is the extraction of one of the chosen report's candidate points; nothing else is added |
| Extraction.ReportTypesDistinct | gps_web_tracker.py:217-221 | the report tags are pairwise different |
| Extraction.LowerPriorityReportIgnored | gps_web_tracker.py:223-238 | adding a lower-priority report anywhere in a message that already holds a report changes nothing |
| History.HistoryOf | gps_web_tracker.py:39 | `gps_data[sender]` of the defaultdict: the stored list, or the empty list for a sender never seen |
| History.Trim | gps_web_tracker.py:320-321 | for a cap of at least 1, the list is cut to its last `cap` elements; a cap of 0 leaves the list whole |
| History.TrimKeepsLast | gps_web_tracker.py:320-321 | with a cap of at least 1, the cut list still ends with the newest point |
| History.AppendPoint | gps_web_tracker.py:314-324 | the reference definition of one pass of the store loop: append the point to its sender's list, cut the list to the cap, make the point the latest position |
| History.AppendBatch | gps_web_tracker.py:309-324 | the reference definition of `store_gps_data` on the two dictionaries: the points appended one at a time, in order; an empty batch changes nothing |
| History.OfSender | gps_web_tracker.py:313-317 | the points it keeps are batch points of that one sender, and no more than the batch holds |
| History.OfSenderStep | gps_web_tracker.py:313-317 | the filter step: a point of the sender is appended right after the sender's earlier points, any other point is skipped |
| History.OfSenderPrefix | gps_web_tracker.py:313-317 | the sender's points among a prefix of the batch come first in the filtered list, in the same order |
| History.OfSenderKeepsAll | gps_web_tracker.py:313-317 | every batch point of the sender is kept |
| History.OfSenderLast | gps_web_tracker.py:313-324 | the last batch point of the sender ends the filtered list |
| History.TrimAppend | gps_web_tracker.py:317-321 | cutting the list to the cap before an append and again after it equals cutting it once after it |
| History.AppendPointConsistent | gps_web_tracker.py:313-324 | storing a point keeps every history non-empty, within the cap, of one sender and ending with that sender's latest position |
| History.AppendBatchConsistent | gps_web_tracker.py:309-324 | storing a batch keeps that invariant |
| History.AppendPointData | gps_web_tracker.py:317-321 | a stored point goes to the end of its sender's list, which is then cut to the cap |
| History.AppendBatchSplit | gps_web_tracker.py:313-324 | storing two batches in turn equals storing their concatenation |
| History.AppendBatchPerSender | gps_web_tracker.py:309-324 | after a batch, a sender absent from it keeps its list; any other sender's list is its old list followed by its batch points, cut to the cap |
| History.AppendBatchHistory | gps_web_tracker.py:309-324 | a sender with points in the batch has a list afterwards: its old list followed by its batch points, cut to the cap |
| History.LatestPerSender | gps_web_tracker.py:309-324 | after a batch, a sender's latest position is its last batch point, and unchanged when it is absent from the batch |
| History.CapEvictsOldest | gps_web_tracker.py:317-324 | storing cap+5 points of one sender keeps only the last cap, and the latest position is the last point |
| History.ZeroCapNeverEvicts | gps_web_tracker.py:320-321 | with a cap of 0 the slice keeps everything: the list grows by every batch point |
| History.RowToRecord | gps_web_tracker.py:127-141 | each record field is its row column (sender, sender type, latitude, longitude, altitude, speed, course, timestamp, GPS time, fix type, satellites, protocol); a NULL emergency reads as false |
| History.Install | gps_web_tracker.py:121-124 | the reference definition of the install block: the run cut to its last `cap` records, its last record the latest position |
| History.Flush | gps_web_tracker.py:120-124 | the run of the current sender is installed only when the sender is truthy and the run non-empty |
| History.Truthy | gps_web_tracker.py:121 | the loader's truthiness test on `current_sender`: neither None nor the empty string |
| History.LoadRow | gps_web_tracker.py:117-142 | the reference definition of one pass of the row loop: on a change of sender flush and start a new run, then add the row's record to the run |
| History.LoadFold | gps_web_tracker.py:115-142 | the loader's accumulators after the loop has read the rows, starting from no sender and an empty run |
| History.LoadRows | gps_web_tracker.py:115-147 | the reference definition of the grouping part of `load_historical_data`: the loop over the rows, then the final run installed |
| History.FlushConsistent | gps_web_tracker.py:120-124 | installing a sender's run keeps the store invariant |
| History.LoadRowsConsistent | gps_web_tracker.py:115-147 | loading rows keeps the store invariant |
| History.FlushLoadRow | gps_web_tracker.py:117-142 | with a non-empty sender, one row of the loader has the effect of storing that row's record; a row with an empty sender is dropped |
| History.LoadShape | gps_web_tracker.py:115-142 | after any rows the loader's current sender is the last row's sender, its run is non-empty, and only senders of the rows are keys of the store |
| History.LoadMatchesReplay | gps_web_tracker.py:115-147 | bulk loading rows grouped by sender into an empty store equals appending the rows with a non-empty sender, one by one |
| History.Tracker.constructor | gps_web_tracker.py:39-45 | a new tracker has empty history and latest maps and the given cap |
| History.Tracker.StorePoint | gps_web_tracker.py:314-324 | one iteration of the store loop |
| History.Tracker.StoreGpsData | gps_web_tracker.py:307-324 | the new state is the old state with the batch appended one point at a time, and the invariant is kept |
| History.Tracker.InstallRun | gps_web_tracker.py:120-124 | installs the current sender's run, cut to the cap, with its last point as the latest position, when the sender and run are non-empty |
| History.Tracker.LoadHistoricalData | gps_web_tracker.py:115-147 | the new state is the fold of the loader over the rows, and the invariant is kept |
| Summary.RoundTenths | gps_web_tracker.py:608 | the rounded value lies within 0.05 of its argument and is a whole number of tenths |
| Summary.RoundTenthsOfTenths | gps_web_tracker.py:608 | a whole number of tenths rounds to itself |
| Summary.Recent | gps_web_tracker.py:615 | the last min(5, n) points |
| Summary.Altitudes | gps_web_tracker.py:616-621 | the altitudes present, at most one per point; all of them when every point has one, none exactly when no point has one |
| Summary.AltitudesFirst | gps_web_tracker.py:616-621 | the first altitude collected is that of the first point that has one |
| Summary.AltitudesLast | gps_web_tracker.py:616-621 | the last altitude collected is that of the last point that has one |
| Summary.CurrentAltitude | gps_web_tracker.py:604-608 | present exactly when the last point has an altitude, and then that altitude rounded to tenths |
| Summary.TrendOf | gps_web_tracker.py:632-638 | rising exactly when the change exceeds 5.0, falling exactly when it is below -5.0 |
| Summary.AltitudeTrend | gps_web_tracker.py:592-640 | with fewer than two altitudes among the recent points the trend is stable with change 0.0; otherwise the trend is decided by the unrounded last-minus-first change, and the reported change is that change rounded to tenths; the current altitude is as `CurrentAltitude` states |
| Summary.ChangeAgreesWithTrend | gps_web_tracker.py:628-638 | a rising trend reports a change of at least 5.0, a falling one at most -5.0, a stable one between them |
| Summary.RoundedChangeAgrees | gps_web_tracker.py:628-638 | rounding a change to tenths keeps it on the same side of the 5.0 gate as the unrounded change |
| Summary.TrendIgnoresOlderPoints | gps_web_tracker.py:605-615 | with at least five points, earlier points do not affect the result |
| Summary.StableExample | tests/test_gps_web_tracker.py:8-17 | 500, 502, 498 give stable, current altitude 498.0, change -2.0 |
| Summary.RisingExample | tests/test_gps_web_tracker.py:19-28 | 100, 110, 120 give rising, current altitude 120.0, change 20.0 |
| Summary.FallingExample | tests/test_gps_web_tracker.py:30-39 | 200, 190, 180 give falling, current altitude 180.0, change -20.0 |
| Summary.SummaryOf | gps_web_tracker.py:575-589 | the point count, the last position, the last point's time and emergency flag (false when absent), and the current altitude, trend and change of the altitude trend of the list |
| Summary.Summaries | gps_web_tracker.py:570-590 | a summary for exactly the senders with a non-empty list |
| Summary.SummaryAt | gps_web_tracker.py:574-589 | a sender with a non-empty list is summarised with its point count and its last position |
| Summary.SummariesOfConsistentStore | gps_web_tracker.py:570-590 | in a store that keeps its invariant, every sender has a summary counting between 1 and cap points and showing its latest position |
| Summary.HistoryAfterBatch | gps_web_tracker.py:309-324 | after a batch, a sender in it has a non-empty list ending with its last batch point: its old list followed by its batch points, cut to the cap |
| Summary.SummaryAfterBatch | gps_web_tracker.py:570-590 | after a batch, a sender in it is summarised with its last batch position and its old count plus its batch count, capped |
| Configuration.Validate | config.py:32-40 | succeeds, with true, exactly when both ports lie in 1..65535 and the cap is at least 1; otherwise fails with one of the three messages |
| Configuration.ErrorNamesFirstBadSetting | config.py:34-39 | the checks run in order: GPS port, then web port, then cap |
| Configuration.DefaultsAndBoundsAccepted | tests/test_config.py:8-10 | the default settings validate, and ports 1 and 65535 are accepted |
| Configuration.OutOfRangeRejected | tests/test_config.py:12-37 | GPS port 70000, web port 0 and cap 0 are each rejected with their own message |
| Configuration.ValidatedCapBoundsStore | config.py:38-39 | with a validated cap, storing any batch keeps every history within the cap |
| Ingest.MessageRecords | gps_web_tracker.py:554-557 | a message that does not parse, lacks `meta/sender` or is filtered out contributes none; otherwise its records are those of its first report; all have valid coordinates |
| Ingest.AllRecords | gps_web_tracker.py:546-557 | the records of a run of messages all have valid coordinates |
| Ingest.AllRecordsAppend | gps_web_tracker.py:546-557 | messages are handled independently and in order: the records of two runs of messages are the first run's records followed by the second's |
| Ingest.ReceiveChunk | gps_web_tracker.py:543-557 | one read: the buffer kept is the corrected framer's rest, and the tracker's new state is the old state with every record of every framed message appended in order |
| Ingest.IncompleteChunkStoresNothing | gps_web_tracker.py:543-552 | a read that completes no envelope stores nothing and keeps the whole buffer |

## Left out

- Sockets are left out: `connect`, `disconnect`, `recv`, the timeout handling, the `running` and `connected` flags, and threads with `data_lock`. Each store operation is treated as atomic.
- UTF-8 decoding of received bytes is left out. The model starts from decoded text.
- SQLite is not part of this model: creating the tables, writing each point, and the query behind `load_historical_data`. Loading starts from the rows, already ordered by sender.
- `ET.fromstring` is not modelled. The extractor takes an already parsed element tree. In `ReceiveChunk` the parser is a parameter, and a message that fails to parse gives no records.
- Python's `float()` and `int()` on text are parameters that may fail. Infinities and NaN are not modelled.
- Float representation is left out. Coordinates and altitudes are reals, and `round(x, 1)` is exact half-to-even rounding at tenths.
- Extraction.ExtractGpsPoint: a `time` or `fix` element without text and a missing one both leave the field as None. The dict, in contrast, holds the key with the value `None`.
- `create_map_html`, Flask and SocketIO routes, the `socketio.emit` push, logging, `main`, `cli.py`, `setup.py` and reading settings from the environment are left out.
- History.Tracker.constructor: requires a cap of at least 1, the only kind `Config.validate` lets through. `Trim` and `ZeroCapNeverEvicts` state what a cap of 0 would do.
- History.Tracker.LoadHistoricalData: it is a separate call on the tracker, not part of the constructor.
- History.LoadMatchesReplay: it is stated for a cap of at least 1. It requires the rows to be grouped by sender, which the query's ordering gives.
- Framing.Drain: it is specified only on buffers from which the loop as written terminates. On the others the source itself loops forever; `TerminatesIff` says which buffers those are, and `LeadingCloseStalls` exhibits one.

## Findings

| source | as written | input that shows it | evidently intended | confidence | as-written member | corrected member |
|---|---|---|---|---|---|---|
| gps_web_tracker.py:546-552 | the inner loop's guard asks only that both tags occur somewhere in the buffer; when every `</data>` precedes the first `<data>`, `find` returns -1, `end` is 6, the body changes nothing and the loop spins forever | a buffer `</data><data>` (a stream joined after the end of one message) | leave the buffer to wait for more data when no `</data>` follows the first `<data>` | high, not executed | Framing.LeadingCloseStalls | Framing.DrainCorrected |
