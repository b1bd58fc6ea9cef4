# Verified model of the agent telemetry pipeline

A Dafny model of how coding-agent sessions travel from a local index file to telemetry servers, and proofs of what
that journey keeps. Four connected cores are modelled, each in the form its code has: loops and updates in place
are methods and classes proved against functions, protocols are step machines whose every run is reasoned about.

* **The session index.** Processes rewrite one file under a lock (`IndexLock`, `IndexChanges`, `IndexHistory`,
  `PinSafety`, `IrregularLines`); each line is re-encoded field by field and decoded (`JsonLine`, `SessionDecoder`, `EntryText`,
  `SessionOps`, `OpMeaning`);
  backfill applies a whole batch to the latest lines in one pass (`BatchApply`, `BatchTheorems`, `DecoderGap`,
  `BatchFile`); `IrregularExamples` holds lines that show each exact condition failing; `IndexText` is the file as text.
* **The flush.** The event log is cut into byte-capped batches (`BatchSplitting`), turned into OTLP records and back
  (`Wire`, `EventRecords`), stored by an insert-or-ignore server (`EventStore`, `EventRows`), under a network that
  loses, delays and repeats (`FlushProtocol`, `FlushInvariant`, `FlushDelivery`, `FlushProgress`), to several targets
  (`FlushRun`).
  `MetricsFlush` and `Gauge` are the gauge half.
* **The backfill scheduler.** Candidate selection and its cursor (`Selection`, `Backlog`), groups and their cap
  (`Grouping`), the parallel fetch (`ParallelFetch`, `CollectedBatch`), what becomes of a candidate (`BackfillOutcome`), and
  how long a metadata refresh can wait (`MetaFairness`).
* **Sync and configuration.** Content ids and "latest by sequence" (`SyncDb`); the configuration parser (`Config`,
  `ConfigReadBack`, `TextLines`).

`Common` and `Ordering` hold shared vocabulary. `dafny verify dfyconfig.toml` checks everything.

## How to read the machines

Every machine is a predicate `Takes(s, t, step)`; a run is a sequence of states that starts in `Start` or `Init` and
moves by steps, and the theorems hold at every position of every run. What the environment decides (which batch is
lost, when it arrives, who crashes, which snapshot of the state file is written back) is a choice of step. The flush
machine also records history: how much of the log a target has answered 200, which ids were stored, and which were
lost to a database error.

Assumptions the code forces on the flush machine: sequence numbers are never reused inside a run, event ids of
different clients are disjoint, no event of the client uses one of the four reserved attribute keys, and a start state
whose stored cursors are right (a new client, or an upgraded one whose single cursor was right). The log is the part
of the event table that belongs to one agent.

## Where the code and its documentation differ

* The documented delivery contract lets the cursor advance on every 2xx, counting on failures to answer otherwise.
  `internal/serverpipe/handler.go:114-117` answers 200 when the database failed, so the client advances past lost events
  (`FlushDelivery.DatabaseErrorLosesEvents`).
* The documented rule for event ids says a changed content gets a new row. A content that returns to an earlier value does not
  (`SyncDb.ReturningIsHidden`); the exact condition is `SyncDb.LatestIsLastExactly`.
* The documentation of the state file says the cursor of a removed target is dropped at the next save. The code keeps it, as
  `FlushRun.Cursors.Run` states for ids that are not targets.
* `docs/design.md:248` expects oldest-checked-first to rule out starvation. URLs that can never be fetched keep their
  check time, so with as many of them as the cap the others are refreshed at most once
  (`MetaFairness.RefreshedAtMostOnce`), and the wait is bounded if and only if there are fewer
  (`MetaFairness.BoundedWaitingExactly`).
* A batch stands for the single operations in one pass. `internal/sessionindex/update.go:222-228` decodes lines more
  leniently than `ReadAll`, and not right after the marking; where that shows is `DecoderGap.BatchAgreementIsExact`,
  and lines that show it are `IrregularExamples.MixedURLsShow`, `RepeatedIdShows` and `TwoSpellingsShow` there.
* `docs/design.md:158` lets nothing but another pin touch a pinned session. Decoding accumulates the values of a repeated
  key and matches keys regardless of case, while rewriting keeps the last value of each distinct key and puts the
  schema's own spelling first. So a line that repeats a key or spells a field in two cases may read differently after
  any rewrite: `{"Session_ID":"t","session_id":"s"}` is session s until it is first rewritten, and t from then on. The
  exact conditions are `IrregularLines.SessionKeptExactly`, `PinKeptExactly` and `AccountKeptExactly` there, and
  `PinSafety.PinFitsExactly`; lines that fail them are in `IrregularExamples`. No line the tool writes is of that kind.

## Model

| member | source | states |
|---|---|---|
| BatchSplitting.SplitBatches | internal/serverclient/flush.go:560-592 | The splitting loop returns the greedy split, a contiguous split into admissible batches none of which was closed early; it produces nothing at all exactly when some item cannot be encoded |
| BatchSplitting.GreedyIsMaximalSplit | internal/serverclient/flush.go:560-592 | The batches concatenate to exactly the input, none is empty, only a single item may exceed the cap, and every batch had no room for the item after it |
| BatchSplitting.GreedyIsOptimal | internal/serverclient/flush.go:560-592 | For every size that is monotone under extension, no contiguous split obeying the same rule has fewer batches |
| BatchSplitting.ArrayBodyIsMonotone | internal/serverclient/flush.go:594-633 | The JSON size of a log payload is such a monotone size |
| Wire.ParseFormatInt | internal/serverclient/flush.go:653-655 | A decimal int64 string reads back as the same integer exactly when it fits 64 bits (OTLP, section JSON Protobuf Encoding) |
| Wire.EncodingsAgreeExactly | internal/serverclient/proto.go:93-103 | The protobuf value of an attribute equals the server's reading of its JSON form, except exactly for digits that are no 64-bit integer (and differ from the string or come with a true flag) |
| Wire.ValueTravels | internal/serverclient/flush.go:635-647 | Through JSON with empty fields left out, and through protobuf, every attribute value arrives as the same typed value: false as the empty string, numbers truncated, composite values as their text |
| Wire.SurvivesExactly | internal/serverpipe/handler.go:181-195 | Exactly strings, true and integers of 64 bits arrive unchanged |
| Wire.TruncatesTowardZero | internal/serverclient/flush.go:635-647 | A number is cut off toward zero, on both sides of it, and becomes the smallest integer beyond 64 bits |
| Wire.ArrivesAs | internal/serverclient/flush.go:635-647 | Case by case what a JSON value arrives as: text as itself, true as true, false as the empty string, a number cut to an integer |
| EventRecords.BuildRecord | internal/serverclient/flush.go:596-622 | The record of an event is its four identifying attributes followed by its own in key order, whatever order the map yields; undecodable attributes give none |
| EventRecords.RecordExactly | internal/serverclient/flush.go:596-622 | Field by field what is sent for an event: its time and name, the four identifying attributes with their values, then each own attribute once in ascending order of the keys |
| EventRecords.SplitLogAttrs | internal/serverpipe/handler.go:173-210 | The attribute loop equals the one-attribute-at-a-time reading that the lemmas below speak about |
| EventRecords.SplitTakesLast | internal/serverpipe/handler.go:181-209 | For every key the last attribute wins, a non-string identifier reads as empty, and reserved keys never enter the stored attributes |
| EventRecords.LastValueExactly | internal/serverpipe/handler.go:181-209 | The last attribute with a key is one that no other with that key follows, and none is missing |
| EventRecords.RoundTripExactly | internal/serverclient/flush.go:594-633 | After building, sending and splitting, event id, session, agent and exactly the event's attributes arrive, if and only if no attribute uses a reserved key |
| EventRecords.IdArrivesExactly | internal/serverpipe/handler.go:196-198 | An event keeps its id on the server exactly when no attribute of its own replaces it by something else |
| EventRecords.ToProtoAttrs | internal/serverclient/proto.go:76-85 | The conversion loop keeps order and keys and gives each attribute its protobuf value |
| EventRecords.EncodingsAgreeOnRecord | internal/serverclient/proto.go:76-103 | Every attribute of every record gets the same typed value in both encodings |
| EventStore.InsertedKeeps | internal/serverpipe/handler.go:146-166 | The event table only grows, never holds an id twice, and gains exactly the ids the request carries |
| EventStore.RedeliveryIsNoOp | internal/serverpipe/handler.go:135-137 | A request delivered again, at any later time, changes nothing |
| EventStore.EveryRecordIsAccountedFor | internal/serverpipe/handler.go:143-166 | Every record of a request is either added, ignored as a duplicate, or counted as rejected |
| EventStore.AcceptableExactly | internal/serverpipe/handler.go:148-153 | A record is kept if and only if its last event id, session and agent attributes are strings that are not empty, and so is its name |
| EventStore.RowExactly | internal/serverpipe/handler.go:146-166 | The row of a record, column by column |
| EventStore.ReasonsExactly | internal/serverpipe/handler.go:149-153 | There is one reason per record that is not acceptable, in order, and each names a gap |
| EventStore.Store.InsertLogs | internal/serverpipe/handler.go:129-171 | All acceptable records are inserted, or none when the database fails anywhere; the reasons are those of the records looked at until then |
| EventStore.Store.ServeLogs | internal/serverpipe/handler.go:92-122 | Only unreadable requests are refused; a database failure is answered 200 with the table unchanged, and the reasons for the rejected records are appended to the log of rejections |
| EventStore.StoredAfterReplyExactly | internal/serverpipe/handler.go:109-121 | After a 200 every acceptable record is stored exactly when the database did not fail or all were stored before |
| EventRows.InsertedIsAbsorb | internal/serverpipe/handler.go:146-166 | Encoding a batch of events, sending it as JSON and inserting it stores exactly the rows of its valid new events |
| EventRows.RowShowsEvent | internal/serverpipe/handler.go:146-166 | A valid event that arrives where it is not yet stored is stored as a row with its own id, time, session, agent, name and attributes |
| EventRows.AbsorbBatch | internal/serverpipe/handler.go:146-166 | A batch that starts at or before the end of the stored prefix of the log extends that prefix, in order, and changes nothing else |
| FlushInvariant.StepInv | internal/serverclient/flush.go:332-380 | Appending, loading, batching, posting, late or repeated delivery, database errors, acknowledgements, saves from any snapshot and crashes all keep the per-target invariant |
| FlushDelivery.DeliveryIsInsertion | internal/serverpipe/handler.go:129-171 | In every run a delivered batch stores exactly what the server inserts for the records of the message |
| FlushDelivery.StoredUpToTheCursor | internal/serverclient/flush.go:332-380 | In every run a valid event at or below a target's persisted cursor is stored there once, or was answered 200 by a server whose database failed |
| FlushDelivery.StoredExactly | internal/serverclient/flush.go:332-380 | In every run a valid event is in a target's store exactly when it was there at the start or one of the steps delivered a batch that holds it |
| FlushDelivery.HonestExactly | internal/serverpipe/handler.go:109-121 | The persisted cursor is honest exactly when every batch that a step of the run lost behind a 200 was, up to the cursor, stored by some step |
| FlushDelivery.HonestWithoutErrors | internal/serverclient/flush.go:332-380 | In a run without a database error answered 200 by the target, its cursor is honest |
| FlushDelivery.DatabaseErrorLosesEvents | internal/serverpipe/handler.go:114-117 | Because a failed database is answered 200, every valid event has a run in which it is never stored although the saved cursor has passed it |
| FlushDelivery.RowsAreAPrefix | internal/serverclient/flush.go:521-592 | Until a database error the server's rows from this client are those of a prefix of its valid events in sequence order, covering at least everything up to the cursor |
| FlushDelivery.LatestAgrees | internal/serverpipe/handler.go:146-166 | The latest row per session and event name on the server is the client's answer on that prefix, and the client's answer outright once the cursor is at the last event |
| FlushDelivery.LatestRowExactly | internal/serverpipe/handler.go:146-166 | The latest row of a session and name is one about them that no other follows |
| FlushProgress.EverythingCanBeDelivered | internal/serverclient/flush.go:332-380 | From every reachable state, if what waits can be decoded, the run goes on to one where the saved cursor is at the end of the log and the target has every valid event but those its database lost before |
| FlushProgress.FlushLogsIsAFlush | internal/serverclient/flush.go:332-380 | When FlushLogs moves a cursor, the machine can flush the same events to that target and ends with exactly the cursors that FlushLogs leaves |
| FlushProgress.MessagesCanArrive | internal/serverpipe/handler.go:109-121 | Any message ever posted can be stored, or meet a failing database, at any later moment and again |
| FlushProgress.ProcessesAreFree | internal/serverclient/flush.go:296-316 | Any process can die at any moment, and one that holds a snapshot of the state file, however old, can write it back |
| FlushRun.Cursors.FlushLogs | internal/serverclient/flush.go:332-380 | A logs flush moves the target's cursor exactly to the sequence of the last event of the log, when something was sent, the endpoint is a URL and every post is accepted, and otherwise changes nothing |
| FlushRun.NothingIsSkipped | internal/serverclient/flush.go:371-378 | Once a logs flush has moved the cursor, the events after it are exactly those appended since, whatever is appended |
| FlushRun.NothingIsUnmeasured | internal/serverclient/flush.go:390-466 | The same for the metrics cursor of what was measured at the end of the log |
| FlushRun.RunMovesToTheEnd | internal/serverclient/flush.go:248-316 | Over a run of all targets a logs cursor stays or moves to the end of the log, and moves only for a configured target that wants logs |
| FlushRun.RunReachesTheEnd | internal/serverclient/flush.go:248-316 | It does move for every configured target that wants logs and accepts every post, when there is something to send that can be decoded |
| FlushRun.RunMeasuresToTheEnd | internal/serverclient/flush.go:301-316 | Likewise a metrics cursor stays or moves to the end of the log |
| FlushRun.RunMeasuresAll | internal/serverclient/flush.go:301-316 | It does move for every configured target that wants metrics, is behind and accepts every post |
| FlushRun.FirstFlushAfterUpgrade | internal/serverclient/flush.go:497-505 | With only the older, single cursor the server gets what came after it, and any other target everything |
| FlushRun.Cursors.FlushMetrics | internal/serverclient/flush.go:390-466 | A metrics flush moves the target's metrics cursor to the largest sequence read at its start when views and payloads could be built, the endpoint is a URL and every post is accepted, and otherwise changes nothing |
| FlushRun.Cursors.SendBatches | internal/serverclient/flush.go:473-490 | Sending succeeds exactly when the endpoint is a URL and every post is accepted; rejected records do not stop it and are added up to the first failure |
| FlushRun.Cursors.Run | internal/serverclient/flush.go:248-316 | With distinct ids a run over all targets is the product of one flush per target, for logs and for metrics cursors |
| FlushRun.LogsAreIndependent | internal/serverclient/flush.go:296-305 | Over any number of runs a target's logs cursor is the same whatever the other targets are and answer |
| FlushRun.MetricsAreIndependent | internal/serverclient/flush.go:301-305 | The same for its metrics cursor |
| FlushRun.CanAdvanceExactly | internal/serverclient/flush.go:348-380 | A target's cursor can advance, for some answers, exactly when there is something to send, all of it can be decoded and the endpoint is a URL |
| FlushRun.MetricsCanAdvanceExactly | internal/serverclient/flush.go:390-420 | A metrics cursor can advance, for some answers, exactly when some event lies beyond it or the flush is in full, and there are payloads for a URL |
| FlushRun.UndecodableEventBlocks | internal/serverclient/flush.go:348-380 | One undecodable event holds a target's cursor over any number of runs, whatever is answered and appended, as long as it is in the log |
| FlushRun.LoadedTargetsAreDistinct | internal/serverclient/config.go:273-282 | Every configuration that loads gives the run targets with distinct ids |
| FlushRun.TargetExactly | internal/serverclient/config.go:77-104 | A described target gets nothing without an endpoint, logs unless it asks for other signals only, and metrics only if it asks for them |
| FlushRun.GreedyBatchesAreLoadedEvents | internal/serverclient/flush.go:341-351 | The batches a flush posts are non-empty and concatenate to exactly the events loaded, as the flush machine requires |
| MetricsFlush.UpToDateIsFresh | internal/serverclient/flush.go:390-466 | With one flusher, appends at any moment and old snapshots written back by anyone, whenever the flush says up to date the target's last value of every current row of both views is its current value, unless it was rejected behind a 200 or overtaken by a post given up earlier |
| MetricsFlush.StepInv | internal/serverclient/flush.go:390-466 | Appending, measuring, evaluating, sending, losing, late arrival, rejection, saving and writing back old snapshots keep every cursor anywhere an honest one |
| MetricsFlush.FlushBringsUpToDate | internal/serverclient/flush.go:390-466 | From every reachable state a flush whose post is accepted leaves a cursor that says up to date, with every current row's last value current at the target, whatever went stale before |
| MetricsFlush.PostsComeLate | internal/serverclient/flush.go:473-490 | A post that was given up can still arrive later, on top of newer values |
| MetricsFlush.PostsCanFail | internal/serverclient/flush.go:473-490 | Any post can fail without a trace at the target |
| MetricsFlush.SnapshotsComeBack | internal/serverclient/flush.go:296-316 | A snapshot of the state file can be written back at any later moment, whatever the file says by then |
| Gauge.BuildPayload | internal/serverclient/metrics.go:195-235 | The nested loops build the metric-major payload of the rows, with no empty metric |
| Gauge.PayloadExactly | internal/serverclient/metrics.go:195-235 | There is one metric for every column with points, in column order |
| Gauge.PointsExactly | internal/serverclient/metrics.go:199-222 | A metric's points are those of the rows with a value, in row order, each with its row's tags |
| Gauge.PayloadIsComplete | internal/serverclient/metrics.go:195-235 | The transposed payload carries exactly the multiset of (metric, tags, value) samples of its rows; NULL ratios contribute none |
| Gauge.GaugeBatchesAreComplete | internal/serverclient/metrics.go:241-275 | Over all byte-capped batches the samples are exactly those of the unsplit rows |
| Gauge.GaugeBatchesAreFewest | internal/serverclient/metrics.go:252-275 | The size of a gauge payload is monotone in its rows, so no split into capped batches of rows has fewer batches |
| Gauge.PRRowSamples | internal/serverclient/metrics.go:70-90 | A pull request's row is sent as 13 counts, each under its own name, and as the ratios that are not NULL under theirs, all with the five tags of the row |
| Gauge.WeeklyRowSamples | internal/serverclient/session_metrics.go:59-65 | A week's row is always sent as five samples under their own names, with week and agent as tags |
| Gauge.NumberTravelsExactly | internal/serverclient/proto.go:139-158 | The protobuf form of a data point's value is the value itself, exactly for ratios and for counts of 64 bits |
| JsonLine.FieldOrderIsStrictTotal | internal/sessionindex/update.go:386-418 | The comparator of the re-encoder is a strict total order on distinct keys |
| JsonLine.CanonicalOrder | internal/sessionindex/update.go:381-418 | The keys of a rewritten line are those of one literal list that are present, in its order, and then all other keys by name |
| JsonLine.RewrittenLine | internal/sessionindex/update.go:419-431 | Token for token what a rewritten line looks like: a blank before each key and value, colons, commas and braces, and each key's raw value |
| Ordering.LexLessExactly | internal/sessionindex/update.go:416-417 | Names are compared by their first difference, a prefix first |
| Ordering.SortedListingIsUnique | internal/sessionindex/update.go:406-418 | Sorting distinct keys by a strict total order has exactly one outcome, so map order cannot show |
| JsonLine.RemarshalWithUpdate | internal/sessionindex/update.go:362-431 | The re-encoding loop yields the one canonical text of the object with the field set, for every map order, and fails exactly on text that is no object |
| JsonLine.PrintParse | internal/sessionindex/update.go:419-431 | Reading the printed object back gives the same map of raw values |
| JsonLine.ObjectTextExactly | internal/sessionindex/update.go:362-370 | A text is read as an object with certain pairs if and only if its tokens, blanks aside, are exactly those pairs with their colons and commas inside braces |
| JsonLine.LastValueCounts | internal/sessionindex/update.go:362-370 | Of a repeated key the value that comes last is kept |
| JsonLine.RemarshalChangesOnlyTheKey | internal/sessionindex/update.go:362-373 | Setting a field changes only that key and keeps every other key's raw value, unknown keys included |
| JsonLine.RemarshalCommutes | internal/sessionindex/update.go:362-431 | Updates of different keys commute byte for byte |
| JsonLine.RemarshalIsIdempotent | internal/sessionindex/update.go:362-431 | Repeating an update leaves every byte alone |
| SessionDecoder.DecodesByField | internal/sessionindex/update.go:222-228 | Decoding fills every field with the values of exactly the keys that are its name or, failing that, its name in another case, in text order |
| SessionDecoder.DistinctKeysAreRegular | internal/sessionindex/update.go:222-228 | A line with distinct keys none of which is a field in another case decodes to exactly what a rewrite keeps of it, and without an error exactly when every value has its field's type |
| SessionDecoder.KeptOrLost | internal/sessionindex/update.go:362-373 | Whatever keys a line repeats, as long as it spells no field in another case, a rewrite keeps each decoded field or loses it, and introduces no type error |
| SessionDecoder.RewriteInventsNothing | internal/sessionindex/update.go:362-373 | Whatever the spellings, a plain field reads after a rewrite as its zero value or as a value the line offers for it |
| SessionDecoder.MarshalSessionRoundTrip | internal/sessionindex/sessionindex.go:169-172 | What MarshalSession wrote decodes, without an error, to the same value of every schema field |
| EntryText.MarshalSessionWrites | internal/sessionindex/sessionindex.go:12-33 | An entry is written as its fields in declaration order, each with its value, four of them only when they are set |
| IndexText.WriteAll | internal/sessionindex/sessionindex.go:101-149 | The writing loop produces the lines separated by newlines with one newline at the end, and a lone newline for no lines |
| IndexText.ReadAll | internal/sessionindex/sessionindex.go:65-92 | The reading loop returns the trimmed non-blank lines before the first one that does not fit the buffer |
| IndexText.KeptExactly | internal/sessionindex/sessionindex.go:75-92 | Of the scanned lines those that are not blank are kept, in order, without the white space around them |
| TextLines.ScanFailsExactly | internal/sessionindex/sessionindex.go:73-92 | The scanner fails if and only if some line reaches the limit |
| TextLines.ScanExactly | internal/sessionindex/sessionindex.go:73-92 | It yields the lines before the first one that reaches the limit, each without its carriage return |
| TextLines.RawLinesUnterminated | internal/sessionindex/sessionindex.go:73-92 | A last line without a newline counts |
| IndexText.ReadAfterWriteExactly | internal/sessionindex/sessionindex.go:65-149 | ReadAll after WriteAll returns the same lines exactly when every line is trimmed, non-blank, free of newlines and under the size limit |
| SessionOps.AppendUniqueURLs | internal/sessionindex/update.go:12-30 | The merge keeps the existing list as it is and appends each URL it lacks once, one before another exactly when it occurs first in what is added; it reports a change exactly when some URL was new |
| SessionOps.NormalizeRepoExactly | internal/sessionindex/sessionindex.go:164-166 | One .git at the end of a repository does not count, and nothing else is dropped |
| OpMeaning.MarkShows | internal/sessionindex/update.go:276-290 | Marking sets the mark of the listed sessions and nothing else |
| OpMeaning.PinShows | internal/sessionindex/update.go:250-274 | A pin replaces all URLs of its session by one and pins it, whether or not it was pinned, and touches nothing else |
| OpMeaning.AddShows | internal/sessionindex/update.go:230-248 | URLs are merged in their order into the session they are for, unless it is pinned |
| OpMeaning.BranchShows | internal/sessionindex/update.go:100-127 | A URL is added to every unpinned session of the branch and repository that lacks it |
| OpMeaning.EndShows | internal/sessionindex/update.go:292-315 | Ending sets time and reason of its session |
| OpMeaning.MetaShows | internal/sessionindex/update.go:317-358 | Every session with the URL shows its metadata, and a new title only if there is one |
| SessionOps.ApplyToLines | internal/sessionindex/update.go:230-358 | The loop shared by all operations gives every line the outcome decided from its entry, reports whether any line changed, or stops at a line that cannot be rewritten |
| SessionOps.LineOpRewrites | internal/sessionindex/update.go:38-146 | On any line without a type error an operation cannot fail for non-empty identifiers, and a line it changes becomes the canonical text of its object with the operation's fields set, again without a type error |
| SessionOps.LineOpSpares | internal/sessionindex/update.go:38-146 | Every field the operation does not set reads afterwards as a rewrite alone would have left it |
| SessionOps.LineOpMeaning | internal/sessionindex/update.go:38-146 | On a regular line the rewrites have the effect of the operation on the decoded entry and keep the line regular |
| BatchApply.ApplyBatchToRaw | internal/sessionindex/update.go:174-220 | The batch, with each map in any order and no fresh decode after the marking, leaves every line as the run of its operations does, or fails on a line |
| DecoderGap.BatchRefinesSingleOperations | internal/sessionindex/update.go:174-220 | On an agreeable line the single pass is, byte for byte and in what it reports, the operations one by one with a fresh decode each, for every map order |
| DecoderGap.BatchAgreementIsExact | internal/sessionindex/update.go:174-228 | The batch agrees with the single operations on a line for every batch if and only if the line is agreeable: with a type error, it holds neither a session id nor a URL; without one, it has no session, is marked already, or what the step after the marking reads before and after the rewrite has the same effect on the line |
| IrregularExamples.RepeatedIdShows | internal/sessionindex/update.go:222-228 | A session id repeated as null is decoded, lost in the first rewrite, changes the line's session and breaks the agreement |
| IrregularExamples.TwoSpellingsShow | internal/sessionindex/update.go:386-418 | So does a session id that stands under its own key after one in another case: the rewrite puts the other spelling last, and the line becomes the other session's |
| IrregularExamples.SpelledSessionID | internal/sessionindex/update.go:222-228 | The key Session_ID is such a spelling |
| IrregularExamples.SpelledBeyondASCII | internal/sessionindex/update.go:222-228 | So are keys with the long s or the Kelvin sign for an s or a k |
| IrregularExamples.OldTextShows | internal/sessionindex/update.go:222-228 | A list that is decoded again keeps the old text where an element is null, until a null for the whole list |
| IrregularExamples.MixedURLsShow | internal/sessionindex/update.go:222-228 | A URL list with an element that is no string is empty for ReadAll, filled for the batch, and breaks the agreement |
| BatchFile.PassSucceeds | internal/sessionindex/update.go:174-220 | The single pass over a file of regular lines cannot fail, for any order of the maps |
| BatchFile.PassIgnoresOrder | internal/sessionindex/update.go:174-220 | It leaves the same bytes and the same report for every order of the maps, when no line holds URLs with different metadata |
| BatchFile.ReportsAgree | internal/sessionindex/update.go:174-220 | Whether it reports a change does not depend on the order of the maps, whatever the metadata |
| BatchFile.PassOrderIsExact | internal/sessionindex/update.go:174-220 | The entries it leaves are the same for every order of the maps if and only if, on every line, the metadata updates that hit it are pairwise compatible |
| BatchFile.SecondPassIsNoOp | internal/sessionindex/update.go:174-220 | Under that proviso a second pass, in any order of the maps, leaves every byte alone and reports no change |
| BatchFile.PinWinsInPass | internal/sessionindex/update.go:187-210 | A session both pinned and URL-resolved in one batch ends the pass with exactly the pinned URL |
| OpMeaning.PassShowsBatch | internal/sessionindex/update.go:174-220 | Field by field what one pass leaves of every regular line, whatever the order of the maps: marks, pins, merges in order, ends, and the metadata of the URLs it then has, all of it if compatible |
| BatchTheorems.OpSettles | internal/sessionindex/update.go:230-358 | An operation has nothing left to do on an entry it has just been applied to |
| BatchTheorems.OrderDoesNotMatter | internal/sessionindex/update.go:187-220 | Every order of the maps gives the same bytes when no line holds URLs with different metadata updates |
| BatchTheorems.OrderIndependenceIsExact | internal/sessionindex/update.go:211-218 | The final entry is independent of map order if and only if the metadata updates that hit it are pairwise compatible |
| BatchTheorems.SecondApplicationIsNoOp | internal/sessionindex/update.go:174-220 | Under that proviso a second application, in any order, reports no change and leaves every byte alone |
| IndexChanges.FillUsers | internal/syncdb/syncdb.go:203-219 | The user write-back loop over the latest lines equals the change used by the lock machine, line by line and in what it reports |
| IndexChanges.FilledEntry | internal/syncdb/syncdb.go:192-197 | Filling in the user leaves every other schema field of the entry as it was |
| IndexChanges.FilledUser | internal/syncdb/syncdb.go:203-219 | A session without a user gets the resolved one, and every other line stays as it is |
| IndexChanges.AppendKeepsLines | internal/sessionindex/sessionindex.go:155-161 | A new line goes to the end and leaves all others as they are |
| IndexChanges.ChangeKeepsLines | internal/sessionindex/lock.go:72-102 | Whatever the lines hold, no change removes one or makes it unreadable, and a field written once, such as the session id, reads as before or as a rewrite of the line reads |
| IndexLock.NoLostUpdate | internal/sessionindex/lock.go:72-102 | In every interleaving of lockers, try-lockers, crashes and readers the file is the initial contents with the committed changes applied in commit order |
| IndexLock.RenameTakesEffect | internal/sessionindex/lock.go:72-102 | A process that took the lock for a change and got to its rename without dying has replaced the contents by what its callback made of them, and nobody else has changed them meanwhile |
| IndexLock.UpdateCanTakeEffect | internal/sessionindex/lock.go:72-102 | From every reachable state with the lock free, any process can carry any change through: a run ends with the lock free and the callback's lines as contents |
| IndexLock.OnlyRenamesPublish | internal/sessionindex/sessionindex.go:101-149 | No step but a rename changes the contents |
| IndexLock.ProcessCanDie | internal/sessionindex/lock.go:51-62 | A process can die wherever it is; then the lock is free and the contents are as they were |
| IndexLock.ReaderCanReadContents | internal/sessionindex/sessionindex.go:65-92 | At any moment a reader without the lock can read the contents as they are |
| IndexLock.MutualExclusion | internal/sessionindex/lock.go:21-62 | Two processes are never inside the locked section at once |
| IndexLock.ReadersSeeOneVersion | internal/sessionindex/sessionindex.go:101-149 | A reader without the lock reads, whole or up to the line it has reached, the version that was committed when it opened the file |
| IndexLock.CommitsGrow | internal/sessionindex/lock.go:72-102 | A committed change is never taken back |
| IndexLock.RunChains | internal/sessionindex/lock.go:72-102 | Whatever relation between an earlier and a later version every single change establishes, and that chains, holds between any two moments of a run |
| IndexHistory.LinesAreNeverRemoved | internal/sessionindex/lock.go:72-102 | Between any two moments of a run no line is removed or gets a type error, and a field written once reads as before or as a rewrite of the earlier line reads |
| IrregularLines.SessionKeptExactly | internal/sessionindex/update.go:362-373 | A line belongs to its session through every well-formed change if and only if a rewrite keeps its session id or no change can reach it: it holds no session id and no URL, and is not found by its branch |
| IndexHistory.PinsAreSafe | internal/sessionindex/update.go:74-79 | Over whole runs a pinned line whose pin a rewrite keeps has exactly one URL, which changes only when a change committed in between pins that session again, whatever the other lines hold |
| IndexHistory.PinnedLinesHaveOneURL | internal/sessionindex/update.go:66-73 | If every line, when it is new, has one URL if pinned, keeps its pin in a rewrite and shows one URL once pinned, every pinned line has exactly one URL at every moment of a run |
| IndexHistory.PinnedURLReachesSync | internal/syncdb/syncdb.go:237-243 | Once such a line without a type error is pinned, every later sync stores the pinned URL for it, or nothing if it is the dummy one, until its session is pinned again |
| PinSafety.ChangeKeepsPin | internal/sessionindex/update.go:187-274 | One change keeps a line's pin, even on a line with type errors, if a rewrite of the line does, and a line that can be pinned well stays so |
| PinSafety.PinFitsExactly | internal/sessionindex/update.go:250-274 | Pinning a line leaves it exactly one URL if and only if no other spelling of the list sets a length, or the line reads as one URL anyway |
| IrregularLines.PinKeptExactly | internal/sessionindex/update.go:187-274 | A pinned line with one URL keeps its pin through every well-formed change if and only if a rewrite keeps its session, pin and URLs, or no operation can find it |
| IrregularExamples.RepeatedPinShows | internal/sessionindex/update.go:362-373 | A line pinned to one URL whose pin is repeated as null loses it to a change that pins nothing |
| IrregularExamples.HiddenListShows | internal/sessionindex/update.go:250-274 | A session whose two URLs stand under another spelling of the list's key only is pinned to both of them by a pin |
| IrregularExamples.SpelledPRURLs | internal/sessionindex/update.go:222-228 | The key PR_URLs is such a spelling |
| PinSafety.PinWinsInBatch | internal/sessionindex/update.go:187-210 | A session both pinned and URL-resolved in one batch ends with exactly the pinned URL |
| Selection.SelectTarget | internal/backfill/backfill.go:162-171 | The list a run considers is everything after the cursor followed by the pending entries before it |
| Selection.TargetExactly | internal/backfill/backfill.go:157-171 | From a valid offset the list is what follows it and then the entries before it without a URL and a mark; with recheck, in a garbage collection or from an offset beyond the end it is the whole index |
| Selection.CollectEntries | internal/backfill/backfill.go:236-257 | The collecting loop keeps exactly the entries that pass the candidate test, in order |
| Selection.CollectedExactly | internal/backfill/backfill.go:236-257 | Collected are the sessions off the default branch without a pin and a URL, marked ones on recheck only |
| Selection.CountBacklog | internal/doctor/doctor.go:289-305 | The doctor's count is the number of candidates in the index |
| Selection.CursorIsTransparent | internal/backfill/backfill.go:157-171 | For every stored offset, even beyond the end, a run without recheck collects exactly the candidates of the whole index, as many as the doctor counts |
| Backlog.CandidatesLeaveOnlyResolved | internal/backfill/backfill.go:157-257 | Between any two moments of a run a candidate stays one until it gains a URL, is pinned or is marked, if a rewrite of its line does not move it to the default branch; on a line without a type error, until then every backfill run collects its entry for every stored offset, and a recheck even after it is marked |
| Backlog.ResolvedForGood | internal/backfill/backfill.go:236-257 | A session that has a URL, is pinned or is marked stays so between any two moments of a run, if a rewrite of its line leaves it so |
| IrregularLines.AccountKeptExactly | internal/backfill/backfill.go:236-257 | A resolved session, and likewise one that is resolved or a candidate, stays so through every well-formed change if and only if a rewrite of its line leaves it so, or the line holds neither session id nor URL and is not found by its branch either, or found so that an added URL shows |
| IrregularExamples.RepeatedMarkShows | internal/sessionindex/update.go:362-373 | A checked session whose mark is repeated as null returns to the backlog by a change that has nothing to do with it |
| Grouping.GroupEntries | internal/backfill/backfill.go:264-276 | Two entries lie in one group if and only if repository and branch are equal, every group holds all its entries in order, and those with neither of the two empty are all in one |
| Grouping.GroupsPartition | internal/backfill/backfill.go:264-276 | The groups partition the entries with a repository and a branch |
| Grouping.ChooseGroups | internal/backfill/backfill.go:264-282 | The kept groups respect the budget, and no group left out is newer than a kept one, however the sort breaks ties |
| Grouping.NewestMeans | internal/backfill/backfill.go:277-282 | A session of a group left out is no later than the latest one of every group kept |
| ParallelFetch.AtMostEightRun | internal/backfill/backfill.go:298-312 | At most 8 fetches run at once, and the channel holds no result twice |
| ParallelFetch.EightCanRun | internal/backfill/backfill.go:298-312 | Eight fetches can run at once when there are that many groups |
| ParallelFetch.NoSendAfterClose | internal/backfill/backfill.go:314-317 | No result is sent on the closed channel |
| ParallelFetch.EveryGroupOnce | internal/backfill/backfill.go:298-339 | When the collector stops it has received exactly one result for every group, and each is the answer for its own group |
| ParallelFetch.EveryRunFinishes | internal/backfill/backfill.go:298-339 | No deadlock: however n groups are scheduled, a run takes at most 5n + 2 steps and can always go on until the collector has stopped |
| CollectedBatch.CollectResults | internal/backfill/backfill.go:319-339 | The collecting loop folds the results into the batch in arrival order |
| CollectedBatch.BatchHoldsTheAnswers | internal/backfill/backfill.go:319-339 | In a finished run the batch holds a URL for exactly the sessions of groups one was found for, the metadata of exactly the URLs found, and marks for exactly the sessions of hopeless groups |
| CollectedBatch.OrderIndependentExactly | internal/backfill/backfill.go:319-339 | The batch is the same for every completion order exactly when sessions in two resolved groups got one URL and equal URLs carry equal metadata |
| CollectedBatch.FetchIsDeterministic | internal/backfill/backfill.go:298-339 | Two finished runs of the parallel fetch over the same groups and answers give the same batch, under that proviso |
| BackfillOutcome.CandidatesAreSettledExactly | internal/backfill/backfill.go:234-339 | From the fetch to the index: a candidate on a regular line leaves the backlog if and only if a URL was found for its group, the group was given up, or the batch pins it; unless pinned, it gets a URL found for its group |
| MetaFairness.CollectTargets | internal/backfill/backfill.go:388-401 | The loop gathers the last URL of every unmerged session exactly once, with its check time and the directory of the first such session |
| MetaFairness.UnmergedExactly | internal/backfill/backfill.go:388-401 | A URL is up for refresh if it is the last one of a session that is not merged |
| MetaFairness.UncheckedGoFirst | internal/backfill/backfill.go:402-412 | While a URL that was never checked is left out, none that was checked is taken |
| MetaFairness.ChooseTargets | internal/backfill/backfill.go:388-412 | A run takes as many unmerged URLs as the cap allows, and none it leaves out was checked longer ago, for every way the unstable sort may break ties |
| MetaFairness.BoundedWaiting | internal/backfill/backfill.go:407-477 | With n unmerged URLs of which f can never be fetched, and a cap c > f, every other URL is refreshed within any ceil((n-f)/(c-f)) consecutive runs |
| MetaFairness.BoundedWaitingWithoutFailures | internal/backfill/backfill.go:407-477 | When every fetch succeeds, within any ceil(n/c) consecutive runs |
| MetaFairness.BoundedWaitingExactly | internal/backfill/backfill.go:407-477 | Some number of runs is enough to refresh every fetchable URL, from any state, if and only if fewer URLs than the cap can never be fetched |
| MetaFairness.RefreshedAtMostOnce | internal/backfill/backfill.go:470-477 | With at least as many unfetchable URLs as the cap, no other URL is refreshed twice in any sequence of runs |
| MetaFairness.Starvation | internal/backfill/backfill.go:470-477 | With f >= c and the failing URLs oldest, no other URL is refreshed in any number of runs |
| SyncDb.ContentTextIsInjective | internal/syncdb/schema/views.sql:129-139 | The text a content id is computed from determines event name, agent, session and content |
| SyncDb.IdTextExactly | internal/syncdb/schema/views.sql:129-139 | An id is computed from the kind of event, the agent, the session and the content, in this order |
| SyncDb.CollisionsAreHashCollisions | internal/syncdb/schema/funcs.go:11-45 | Two different observations share an id only where the hash itself collides |
| SyncDb.RerunAppendsNothing | internal/syncdb/syncdb.go:234-285 | Running sync again over observations written before, in any order and at any later time, appends nothing |
| SyncDb.LatestIsLastExactly | internal/syncdb/schema/views.sql:20-57 | The latest row of a session, agent and event name shows the content written last exactly when no other content first appeared since that one did |
| SyncDb.NeverReturningIsShown | internal/syncdb/schema/views.sql:20-57 | Sources whose contents never return to an earlier value are always shown as last written |
| SyncDb.ReturningIsHidden | internal/syncdb/schema/views.sql:116-123 | A content that comes back after another one is not shown: its old row is not written again |
| SyncDb.LatestIgnoresSessionOrder | internal/syncdb/syncdb.go:223-287 | For every history of runs the latest content of every key is independent of the map order in which sessions are written |
| SyncDb.RunWrites | internal/syncdb/schema/views.sql:116-139 | A run writes each session's contents under its own keys, what has ended only if it has |
| SyncDb.StoredURLExactly | internal/syncdb/syncdb.go:237-243 | However many URLs a session has, the last one is stored, and the dummy stands for none |
| SyncDb.Deduplicate | internal/syncdb/syncdb.go:223-230 | For each session id the entry that no other of that id follows is kept, and entries without an id are skipped |
| Config.LoadConfig | internal/serverclient/config.go:127-204 | The scanning loop with its accumulators computes the function of the text that the lemmas below speak about, error cases included |
| Config.AcceptedExactly | internal/serverclient/config.go:179-204 | A file is accepted exactly when every export has an id, no two targets share one, and all encodings and signals are known; it then yields the normalized targets |
| Config.NormalizeExactly | internal/serverclient/config.go:228-247 | What a target leaves open is filled in with the documented defaults, the scheme only for the default header, and everything it gives is kept |
| Config.ExpandEnvExactly | internal/serverclient/config.go:308-316 | A token that is a reference stands for its variable, and any other for itself |
| Config.MissingIdExactly | internal/serverclient/config.go:185-190 | A file with an export without id is refused for that before anything else |
| Config.DuplicateIdIs | internal/serverclient/config.go:273-282 | A repeated id is reported for the first target that repeats one |
| Config.UnknownIs | internal/serverclient/config.go:255-268 | An unknown encoding or signal is reported for the first target that has one, the encoding first |
| Config.TooLongExactly | internal/serverclient/config.go:143-177 | A file is refused for a long line exactly when it has one |
| ConfigReadBack.DocumentReadsBackExactly | internal/serverclient/config.go:127-355 | Export blocks, the older server section and foreign sections in any order, with any spacing, order and repetition of keys, blank lines and comments, values with or without quotes, quoted ones holding '#', '=' or '[', and tokens from the environment, load as exactly the normalized targets they describe, if and only if those are acceptable |

## Left out

- HTTP transport, gzip, headers, TLS and timeouts: a post is an arbitrary outcome.
- SQL text of the views and the reports derived from them: a view is any function of the event log, and the client's store is append-if-id-absent.
- Rebuilding the database after a schema change: it restarts sequence numbers, which the flush machine assumes never happens inside a run.
- `gh` and `git` calls, process spawning, the worker cooldown, paths and environment lookup: their answers are arbitrary inputs.
- Time formatting and parsing: timestamps are opaque ordered numbers, and a session's time is any function of it; the row's time of receipt is not kept.
- Draining of the URL backlog: newest-first with endless retry gives no such guarantee, so none is claimed; the 24-hour horizon of the drain option is not modelled.
- Pin lookup through `gh pr view` and the end times read from transcripts: they only add entries to the batch, which is arbitrary here.
- Transcript parsing, annotation, dashboards, setup and the remaining doctor checks: simple folds or user interface.
- Config: environment lookup is any function; text is one character per byte with ASCII white space, so multi-byte white space is not trimmed.
- IndexText: as for the configuration, text is one character per byte with ASCII white space.
- JsonLine: a line is a sequence of JSON tokens; strings are not tokenized further, and a `null` line counts as malformed.
- SessionDecoder: keys fold case as far as it can lead to a field's name, which includes the two letters beyond ASCII that fold into ASCII ones.
- BatchTheorems.OrderDoesNotMatter: for regular lines, which have no type error, spell no field in another case, and decode alike before and after a rewrite; the same holds for OrderIndependenceIsExact, SecondApplicationIsNoOp and PinWinsInBatch. Lines with distinct, exactly spelled keys and no type error are regular, and so is every line the tool writes. These four speak of the operations one by one; BatchFile states them for the single pass.
- BatchTheorems.OrderIndependenceIsExact: regular lines only, as above.
- BatchTheorems.SecondApplicationIsNoOp: regular lines only, as above.
- PinSafety.PinWinsInBatch: regular lines only, as above.
- BatchFile.PassIgnoresOrder: files of regular lines only, as above, and likewise PassSucceeds, ReportsAgree, PassOrderIsExact and SecondPassIsNoOp; PinWinsInPass needs it of the line it speaks about.
- SessionDecoder.KeptOrLost: for lines that spell no field in another case; with another spelling a rewrite can show a third value, as IrregularExamples.TwoSpellingsShow does.
- Backlog.ResolvedForGood: for lines whose resolution a rewrite keeps; IrregularLines.AccountKeptExactly and IrregularExamples.RepeatedMarkShows show that this cannot be dropped.
- Backlog.CandidatesLeaveOnlyResolved: for lines that a rewrite does not move to the default branch, with the same exact condition.
- IndexHistory.PinsAreSafe: for lines whose pin a rewrite keeps and that show one URL when pinned, in particular those with distinct, exactly spelled keys; IrregularExamples.RepeatedPinShows and HiddenListShows show that neither can be dropped.
- IndexHistory.PinnedURLReachesSync: for such lines, as above.
- EntryText.MarshalSessionWrites: an entry without a URL list is written with an empty one; the code writes null for a list that was never there, and both decode alike.
- BackfillOutcome.CandidatesAreSettledExactly: regular lines only; pins and ends are whatever the other parts of the run put into the batch.
- OpMeaning.PassShowsBatch: regular lines only, as above.
- JsonLine.PrintParse: nested values are raw tokens that are carried but not looked into.
- Wire.ValueTravels: a number outside 64 bits becomes the smallest integer, as on amd64; other platforms may choose another value.
- EventStore.Store.ServeLogs: resource and scope nesting is flattened to the list of records, since the server does the same; the log of rejections always opens.
- EventRecords.BuildRecord: resource attributes and the constant severity are not modelled.
- FlushProtocol: events of other clients are arbitrary rows with other ids; a negative cursor in a hand-edited state file is outside the start states.
- FlushDelivery.LatestAgrees: compares this client's rows; rows of other clients about the same session id would compete on the server.
- MetricsFlush.UpToDateIsFresh: one flusher at a time, which the code does not enforce; with two, an older evaluation may be sent last. The last value is the one that arrived last; a target that orders by time stamp would ignore a late post.
- FlushRun.Cursors.Run: a failing query of the event table or of the state file, which ends the whole run, is not modelled.
- FlushRun.Cursors.FlushMetrics: which of evaluating, encoding and splitting failed is not told apart.
- MetaFairness.BoundedWaiting: the set of unmerged URLs stays the same over the runs considered, and every run's state is saved.
- ParallelFetch: the fetch itself is an arbitrary answer per group; goroutine scheduling is any interleaving.
- IndexLock: a write or rename error shows as giving the lock up without a commit; leftover temporary files stay unnamed and are never read.
- Selection: a negative stored offset, which makes the original fail, is excluded by the type.
- SyncDb.LatestIgnoresSessionOrder: a run holds each session of an agent once, as one index file does after the merge by session id.
- SyncDb.LatestIsLastExactly: the hash is any function without a collision among the observations at hand.
