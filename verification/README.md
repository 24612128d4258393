# Models of the trace analysers, the output watcher, the session broker and the root planner

Dafny models of the stateful Python tools of this repository, and proofs about them:

* **The I/O-trace analysers** (`tools/analyze-io-trace.py`, `tools/analyze-io-trace-deep.py`, `tools/analyze-vfs-reuse.py`).
  They stream span records in the order of completion, children before parents, and compute facts about the span tree from
  a `pending` map in one pass. The specification of each table is a definition over the ancestors in the file, and the code
  is proved against it for every stream of records, well linked or not. For files written by well-behaved tracers
  (`SpanTrees`), the ancestors are those of an explicit tree. Beside this stand the record format with its encoder
  (`tools/test-io-trace.py`), interval union and intersection, the histogram percentiles, the batched path table and the
  list of the sixty slowest waits.
* **The output watcher** (`tools/init_pool.py`): a substring search over two chunked streams with resume offsets and
  buffers that forget, against a search of the complete streams.
* **The session broker** (`config/session.py`): control frames, terminals with queued input and poll masks, exits, and the
  descendants to stop.
* **The root planner** (`tools/prepare-root.py`): the worklist that closes a set of files under their ELF dependencies, and
  the recursive copying of locked packages.

| files | contents |
|---|---|
| `Tallies`, `Collections`, `Spans`, `SpanTrees` | sums of calls and time; records, ancestors, forests; explicit trees and the order they are written in |
| `NearestVfs`, `DeepAnalysis`, `Callers`, `ExclusiveTime` | the streamed tables |
| `Intervals`, `Percentiles`, `PathTables`, `PathSummaries`, `SlowWaits` | what else the analysers compute |
| `Frames`, `Packing`, `Layout`, `TraceRecords` | the binary record format |
| `OutputWatch` | the watches of the pool |
| `ControlFrames`, `Broker`, `Delivery`, `Descendants` | the broker |
| `Installation`, `Plans`, `RootSteps`, `RootPlan` | the planner: its inputs, its invariants, its steps, its methods |

Verify everything with `dafny verify dfyconfig.toml`.

Code that changes things in place is modelled by methods and classes proved against specification functions; the lemmas are
about those functions. Operating-system answers (descriptors, pids, chunks, how much a write took) are arguments, and the
parsers and path operations of the planner are given functions.

## Findings

Where a property does not hold of the code, the model keeps the code and the exact condition is proved.

* The deep analyser assigns `metrics[op]` instead of adding (`tools/analyze-io-trace-deep.py:162`). A native event is lost
  when a span above it, on the way to its owner, has the same name, and stranded when its parent is missing or outside the
  window. The final assertion holds exactly when neither happens (`DeepAnalysis.Analysis.AttributionExact`); it fails on
  the two small traces of `DeepAnalysis.CheckFails`. What was overwritten is exactly what credits and `pending` lack of
  the totals (`DeepAnalysis.TablesBalance`).
* Watches are removed by value (`tools/init_pool.py:166-168` and `:181-183`), so a run can take out an equal watch of
  another run (`OutputWatch.LaterRunRemovesEarlierWatch`); a watch removes itself exactly when no earlier entry is equal to
  it (`OutputWatch.Pool.Remove`).
* Markers of more than 32 MiB + 1 bytes can be missed: for each there is a run that does (`OutputWatch.LongMarkerIsMissed`),
  and the pool is exact for a marker on all runs if and only if it is no longer than that (`OutputWatch.ExactIffShort`).
* `docs/persistent-sessions.md:79` allows control frames of up to 1 MiB. The limit is on the buffer before lines are taken
  off, so whole frames are safe up to 1 MiB - 65536 bytes and no further (`ControlFrames.SafeBound`).
* Empty input to an open terminal with an empty queue leaves it polled for output with nothing to write
  (`Broker.InputKeepsQuiet`, and the run of `Broker.EmptyInputKeepsPolling`). An exit is recorded for the first terminal
  with the pid, which with a reused pid is the wrong one (`Broker.ExitIsItsOwn`, and the run of
  `Broker.ReusedPidIsMistaken`). Starting an empty command is not refused: the IndexError at `config/session.py:132` is not
  caught, and the broker ends (`Broker.Session.Start`).
* Members of a JAR are told apart by archive and name. Of two members with one name only the first is looked at: the plan
  is closed although the second has unresolved dependencies (`RootPlanning.SecondMemberIsSkipped`). A queued file or member
  has found everything if and only if it needs no more than the first one with its label (`Plans.CompleteIff`).

## Model

| member | source | states |
|---|---|---|
| Spans.FrontIsAncestor | tools/analyze-io-trace-deep.py:143-212 | the record that the pop-and-merge chain has reached is exactly the ancestor by parent links |
| Spans.AwaitedIffBelow | tools/analyze-vfs-reuse.py:41-60 | a parent id is still awaited if and only if some record's way up stops below it |
| Spans.ForestParent | tools/analyze-io-trace-deep.py:143-212 | with distinct nonzero ids and parents after children, the next link is the record with the parent's id |
| SpanTrees.TracesAreForests | tools/analyze-io-trace-deep.py:131-143 | the records of an explicit tree, written children first, are a forest in which every parent is present |
| SpanTrees.CreditsAreAttributed | tools/analyze-io-trace-deep.py:161-204 | on such a file the streamed row (owner, op) equals the attribution computed from the roots down, handing each span its owner and the names passed since |
| SpanTrees.ExactIffNothingNested | tools/analyze-io-trace-deep.py:233-236 | on such files the attribution is exact if and only if no native event lies below a same-named span within its owner's reach |
| Tallies.Combine | tools/analyze-io-trace-deep.py:23-29 | merging two tables adds them row by row |
| Tallies.AddEntries | tools/analyze-io-trace-deep.py:179-180 | crediting a metrics map to one owner adds exactly its entries to the owner's rows |
| NearestVfs.FateMeaning | tools/analyze-io-trace-deep.py:161-204 | where the stream takes a metric: credited to the closest boundary, overwritten exactly when a same-named span lies on the way, else still waiting |
| NearestVfs.NearestRowIsOwned | tools/analyze-io-trace-deep.py:177-180 | the events a row stands for are the native events whose closest self-or-ancestor boundary has that owner and that no same-named span shadows |
| NearestVfs.CaptureIsClosest | tools/analyze-io-trace-deep.py:177-204 | what captures an event is the first VFS call or root at or above it, and there is none when the way up ends before one |
| NearestVfs.ShadowIsBelowOwner | tools/analyze-io-trace-deep.py:161-164 | an event is shadowed if and only if a span of its name lies above it with no VFS call or root before that |
| NearestVfs.VfsRowIsPlain | tools/analyze-io-trace-deep.py:177-180 | the row of a VFS call holds exactly the unshadowed native events that are captured by a record of that name |
| NearestVfs.UnscopedRowIsPlain | tools/analyze-io-trace-deep.py:177-180 | the row "(unscoped native)" holds exactly those that a native record captures |
| NearestVfs.ScopesArePlain | tools/analyze-io-trace-deep.py:171-182 | a scope row holds the VFS calls and roots of that name, native roots under "(unscoped native)", by whether one of the three metadata operations is among them and what is below |
| NearestVfs.TracksAppend | tools/analyze-io-trace-deep.py:143-212 | after every record `pending` holds, for each awaited parent, exactly the metrics stalled below it and whether metadata was touched there |
| NearestVfs.NearestRowAppend | tools/analyze-io-trace-deep.py:177-180 | one record changes a nearest row by exactly the events newly owned |
| NearestVfs.StalledAppend | tools/analyze-io-trace-deep.py:201-204 | one record changes what waits below a parent by exactly what it releases and what newly stalls |
| NearestVfs.ScopeRowAppend | tools/analyze-io-trace-deep.py:182-182 | a scope row counts exactly the boundaries of that owner, split by whether they or a descendant touched regular-file metadata |
| DeepAnalysis.RecordStep | tools/analyze-io-trace-deep.py:143-212 | one iteration keeps the nearest, total and scope tables exact and `pending` in step, on any stream |
| DeepAnalysis.Analysis.ProcessRecord | tools/analyze-io-trace-deep.py:143-212 | the loop body computes that step: the new tables and the new `pending` |
| DeepAnalysis.ReadingIsExact | tools/analyze-io-trace-deep.py:135-212 | so all of them are, after every record of every file |
| DeepAnalysis.Analysis.ProcessFile | tools/analyze-io-trace-deep.py:131-215 | after a file the tables are exact for all files so far, each cut to the records starting in the window, and balanced; every row, in plain terms, is that of the events below, and of the calls named, by the callers' names |
| DeepAnalysis.TablesArePlain | tools/analyze-io-trace-deep.py:177-182 | exact tables say, for every caller and operation, how many unshadowed events that caller captured and how long they took, and how many calls it made with and without regular-file metadata |
| DeepAnalysis.WindowIsPlain | tools/analyze-io-trace-deep.py:136-137 | the window keeps every record that starts in it, as often as it occurs, and no other |
| DeepAnalysis.WindowKeepsOrder | tools/analyze-io-trace-deep.py:135-137 | and in their order |
| NearestVfs.HeldIsWaiting | tools/analyze-io-trace-deep.py:201-204 | on every stream the metrics in `pending`, added up over its rows, are those of the events that still wait |
| DeepAnalysis.TablesBalance | tools/analyze-io-trace-deep.py:161-215 | conservation, per operation: the totals are the nearest rows, plus what is in `pending` now and was left there by earlier files, plus what was overwritten |
| DeepAnalysis.ReadingBalances | tools/analyze-io-trace-deep.py:135-214 | and so they are after every record |
| DeepAnalysis.CreditsAndPending | tools/analyze-io-trace-deep.py:161-215 | when nothing lies below a same-named span, credits and what is pending are all native time |
| DeepAnalysis.CheckFails | tools/analyze-io-trace-deep.py:162-162 | the final check fails on a trace with an overwritten event, and on one with a stranded event |
| DeepAnalysis.ExactIffAllAttributed | tools/analyze-io-trace-deep.py:233-236 | the credits equal the totals if and only if every native event of every file is captured and not shadowed |
| DeepAnalysis.AttributedIffNothingLeft | tools/analyze-io-trace-deep.py:161-215 | all events are attributed if and only if no `pending` holds a metric at the end of a file and nothing was overwritten |
| DeepAnalysis.Analysis.AttributionExact | tools/analyze-io-trace-deep.py:233-236 | the final check passes if and only if no native event was lost or stranded, that is, if and only if nothing was left pending or overwritten |
| Callers.TracksAppend | tools/analyze-vfs-reuse.py:41-60 | the sparse `pending` (entries only for parents with something selected below) stays exact: all selected events below, those immediately below |
| Callers.AncestorPairsGrow | tools/analyze-vfs-reuse.py:42-43 | a completing record gains as ancestor pairs exactly the selected events of which it is a proper ancestor |
| Callers.DirectPairsGrow | tools/analyze-vfs-reuse.py:44-45 | and as direct pairs exactly the selected events whose parent it is |
| Callers.PairsArePlain | tools/analyze-vfs-reuse.py:42-60 | the pairs counted are those of an event of the phase, with one of the six operations and this name, and a record named as the caller that is its ancestor, or its parent |
| Callers.RunsSplit | tools/analyze-vfs-reuse.py:35-38 | the runs make up the log in order, each is of one file, and neighbouring runs are of different files |
| Callers.AncestorRowStep | tools/analyze-vfs-reuse.py:42-43 | an ancestor row grows by the calls and time of those events |
| Callers.DirectRowStep | tools/analyze-vfs-reuse.py:44-45 | a direct row likewise |
| Callers.ExpectingIsMissing | tools/analyze-vfs-reuse.py:36-61 | the parents left in `pending` are the missing ones with a selected event below them |
| Callers.ProcessRow | tools/analyze-vfs-reuse.py:39-60 | one row keeps both tables and `pending` exact |
| Callers.Callers | tools/analyze-vfs-reuse.py:27-61 | the ancestor and direct tables are the sums over all pairs of all runs, without empty rows, and `unresolved` counts the missing parents |
| ExclusiveTime.Conservation | tools/analyze-io-trace.py:110-115 | on every stream raw exclusive time sums to root time plus the time whose parent never came |
| ExclusiveTime.ClampingCost | tools/analyze-io-trace.py:110-113 | clamping never lowers the sum, and keeps it exactly when no span is negative |
| ExclusiveTime.ReadingRows | tools/analyze-io-trace.py:109-120 | after every record each row (phase, operation) is the clamped sum over its records, and there is a row for each pair met |
| ExclusiveTime.PhaseIsFirst | tools/analyze-io-trace.py:109-109 | a time belongs to the first phase whose window holds it, both ends included, and else to "outside-phases" |
| ExclusiveTime.ChargeIsPlain | tools/analyze-io-trace.py:109-120 | a record adds its exclusive time, or nothing when that is negative, to the row of its operation in that phase, and to no other row |
| ExclusiveTime.ChargeOutside | tools/analyze-io-trace.py:109-120 | likewise outside the phases |
| ExclusiveTime.Summary.ProcessFile | tools/analyze-io-trace.py:95-120 | over all files the rows are those sums, their total is the clamped sum, and the counter the number of negative spans |
| ExclusiveTime.Summary.ReportIsExactIffNoNegative | tools/analyze-io-trace.py:110-120 | the report is at least the raw sum, with equality if and only if `negative_exclusive_spans` is 0 |
| Intervals.MergeIntervals | tools/analyze-io-trace-deep.py:44-51 | same points, strict gaps, and size equal to the measure of the union, at most the sum of the lengths |
| Intervals.Intersection | tools/analyze-io-trace-deep.py:58-66 | on two separated lists, the number of points both cover |
| Intervals.DropFirst | tools/analyze-io-trace-deep.py:60-65 | dropping the interval that ends first skips no overlap |
| Intervals.SizeIsMeasure | tools/analyze-io-trace-deep.py:54-55 | the size of a separated list is the number of points it covers |
| Intervals.SizeBound | tools/analyze-io-trace-deep.py:54-55 | the size of any list is at least that |
| Intervals.PointsIgnoreOrder | tools/analyze-io-trace-deep.py:44-51 | the union does not depend on the order of the recorded intervals |
| Intervals.Overlap | tools/analyze-io-trace-deep.py:237-271 | the overlap figures satisfy inclusion and exclusion on the recorded intervals |
| Percentiles.BitLengthBounds | tools/analyze-io-trace.py:46-46 | a positive sample with bit length e lies in [2^(e-1), 2^e) |
| Percentiles.QuantileBucket | tools/analyze-io-trace.py:61-66 | the bucket where the count reaches the threshold is that of the k-th smallest sample, k the least rank at or above it |
| Percentiles.Percentile | tools/analyze-io-trace.py:61-67 | the upper end bounds the true quantile within a factor of two; 0 exactly when no bucket reaches the threshold |
| Percentiles.RankExists | tools/analyze-io-trace.py:61-67 | whenever the threshold is within the count there is such a rank |
| Percentiles.Stats.Add | tools/analyze-io-trace.py:41-58 | counters, maximum, bytes, result classes and histogram stay the aggregates of all samples |
| Percentiles.OutcomeIs | tools/analyze-io-trace.py:49-56 | which results are unknown, a code of their own, pending and a success |
| Percentiles.CountsAre | tools/analyze-io-trace.py:49-56 | the counter of a class is the number of calls in it |
| Percentiles.BytesAre | tools/analyze-io-trace.py:57-58 | the bytes are the sum of the positive results of the four operations that move bytes |
| Percentiles.Stats.Report | tools/analyze-io-trace.py:60-72 | the 50 % and 95 % figures bound the true quantiles of all samples |
| PathTables.RecordStep | tools/analyze-io-trace-deep.py:150-158 | table plus batch stay the exact aggregates when an event enters the batch |
| PathTables.RowIs | tools/analyze-io-trace-deep.py:150-158 | the aggregate of a key is the number of its events, the sum of their elapsed times, and that of their positive exclusive times; events without a path have none |
| PathTables.FlushKeepsExact | tools/analyze-io-trace-deep.py:117-121 | upserting the batch changes nothing of that sum |
| PathTables.PathTable.Record | tools/analyze-io-trace-deep.py:150-160 | table plus batch are exact after every event, wherever the 20000-entry flushes fall, and the batch stays below that size |
| PathTables.PathTable.Finish | tools/analyze-io-trace-deep.py:220-220 | after the last flush the table alone is the aggregate of all events per key |
| PathSummaries.RefusedWhenFull | tools/analyze-io-trace.py:121-126 | a key is left out of the 20000 summary rows only when they are all taken, and rows are never exceeded |
| PathSummaries.FirstKeysGetRows | tools/analyze-io-trace.py:121-126 | only keys that were seen get rows, all of them up to 20000, and a row stays |
| PathSummaries.Summary.Record | tools/analyze-io-trace.py:121-126 | the rows are the first keys (phase, operation, path) seen, each with the statistics of all calls of its key, and the overflow counter counts the rest |
| SlowWaits.GreatestIsUnique | tools/analyze-io-trace-deep.py:193-199 | there is only one set of the sixty greatest, so the order of arrival does not matter |
| SlowWaits.Keep | tools/analyze-io-trace-deep.py:195-199 | push, replace or ignore keeps exactly the greatest sixty |
| SlowWaits.KeptAreLongest | tools/analyze-io-trace-deep.py:193-199 | a qualifying scope that is not kept has a wait at most as long as any kept one, with equal waits a file number at most as high, and then a lower id |
| SlowWaits.SlowList.Offer | tools/analyze-io-trace-deep.py:193-199 | after every offer the list is the sixty greatest scopes with a wait of more than 10 ms of all offered, or all of them; what was left out waited no longer, with the ties stated in integers |
| SlowWaits.SlowList.Report | tools/analyze-io-trace-deep.py:266-266 | they are reported from the longest wait down, then by falling file number and id, each once |
| Packing.UnpackPack | tools/test-io-trace.py:12-16 | unpacking the little-endian fields of a packed header returns them |
| Packing.PackUnpack | tools/analyze-io-trace.py:25-25 | and packing what was unpacked returns the bytes |
| Packing.LittleEndian | tools/analyze-io-trace.py:16-16 | the value of two, four and eight bytes, lowest byte first |
| Packing.UnpackedAt | tools/analyze-io-trace.py:25-25 | every field is the value of the bytes that follow the widths of those before it |
| TraceRecords.FormatLaws | tools/analyze-io-trace.py:20-32 | the reader and the encoder invert each other on readable records, and the size field comes first |
| TraceRecords.EncodedStands | tools/analyze-io-trace.py:16-32 | every part of a readable record stands at its own byte offset in what is written for it |
| TraceRecords.ReadRecords | tools/analyze-io-trace.py:20-32 | any input splits in exactly one way into records, a rest and the reason for stopping; that is what is read, and by byte offsets: every field of every record is the value of its own bytes, the records stand one after the other, and the reason is that of the bytes after the last |
| TraceRecords.EventIsReadable | tools/test-io-trace.py:12-16 | what `event` packs is readable if and only if its numbers fit their fields and it is at most 16384 bytes long |
| TraceRecords.RoundTrip | tools/test-io-trace.py:12-16 | what is encoded is read back, all of it |
| TraceRecords.CutRecords | tools/analyze-io-trace.py:22-30 | of a cut file exactly the complete records are read, and reading ends without error if and only if the cut is on a boundary |
| TraceRecords.OversizeIsRefused | tools/analyze-io-trace.py:26-27 | an encoded record over 16384 bytes is refused |
| OutputWatch.BufferSearch | tools/init_pool.py:99-101 | searching the kept buffer from the resume offset finds a marker exactly when it occurs in the whole stream from there |
| OutputWatch.NewOccurrence | tools/init_pool.py:102-105 | the new resume offset skips no occurrence that a later chunk may complete |
| OutputWatch.ObserveKeeps | tools/init_pool.py:96-105 | a watch keeps its meaning: stamped with the first chunk after which the marker occurs, in either whole stream, from its registration on |
| OutputWatch.RebaseKeeps | tools/init_pool.py:106-112 | so it does when all but the last 32 MiB are discarded |
| OutputWatch.WatchTracks | tools/init_pool.py:89-112 | after any run of chunks a watch, wherever it was registered, has the stamp and the resume offsets that the complete streams give |
| OutputWatch.LongMarkerIsMissed | tools/init_pool.py:92-112 | for every marker over 32 MiB + 1 bytes a run of one-byte reads, at most 64 MiB longer than the marker, is given in which it occurs and is never stamped |
| OutputWatch.ExactIffShort | tools/init_pool.py:89-112 | over all runs of reads of at most 65536 bytes and all registrations, the stamp is the first completing chunk's if and only if the marker has at most 32 MiB + 1 bytes |
| OutputWatch.Pool.Receive | tools/init_pool.py:89-112 | every chunk takes all watches and buffers to what the run of chunks gives, within 64 MiB, and all stamps are true |
| OutputWatch.Pool.Register | tools/init_pool.py:150-157 | new watches start at the ends of both streams and keep the others as they are |
| OutputWatch.Pool.Remove | tools/init_pool.py:181-183 | the first entry equal in value goes, and nothing else changes; a watch removes itself if and only if no earlier entry is equal |
| OutputWatch.LaterRunRemovesEarlierWatch | tools/init_pool.py:164-168 | with two equal watches registered, an earlier one is removed in place of another; the pool keeps the later one |
| ControlFrames.LinesAreThePieces | config/session.py:213-214 | lines and rest are the pieces of the bytes at the newlines |
| ControlFrames.Extend | config/session.py:206-214 | the lines of two stretches are those of the first, then those of its rest with the second: chunking does not matter |
| ControlFrames.Partition | config/session.py:214-214 | `partition` splits at the first newline |
| ControlFrames.Connection.Receive | config/session.py:206-220 | dispatched lines and buffer are always the lines and the rest of all bytes received; it fails exactly when the buffer would exceed the limit |
| ControlFrames.SafeBound | config/session.py:206-214 | frames of at most bound bytes survive every chunking into reads of at most 65536 bytes if and only if bound is at most 1 MiB - 65536 |
| ControlFrames.SmallFramesSurvive | config/session.py:206-214 | the size error is unreachable within that bound |
| ControlFrames.LargerFrameCanFail | config/session.py:206-214 | beyond it a delivery that fails is given |
| Descendants.Descendants | config/session.py:256-271 | exactly the pids whose parent chain reaches the broker, without the broker, on any parent map, cyclic ones too |
| Descendants.ClosedHoldsAll | config/session.py:267-271 | a set closed under children holds everything that reaches it |
| Broker.SpawnKeeps | config/session.py:64-105 | starting keeps: at most 128 terminals, one master each, bounded queues, accepted = written + pending, queued input is polled for |
| Broker.InputKeeps | config/session.py:137-145 | so does input, also to a terminal that is closed by now |
| Broker.InputKeepsQuiet | config/session.py:137-145 | polling for output stays tied to queued input if and only if queue and data are not both empty |
| Broker.WritableKeeps | config/session.py:221-231 | so does a partial write, and it ends the polling with the queue |
| Broker.CloseKeeps | config/session.py:241-248 | so does closing |
| Broker.ReapKeeps | config/session.py:107-121 | so does an exit |
| Broker.ExitIsItsOwn | config/session.py:115-121 | an exit is recorded for a terminal if and only if no earlier one has its pid |
| Broker.ReapIs | config/session.py:115-121 | an exit is recorded for the earliest terminal with the pid; nothing else changes, and nothing at all when no terminal has it |
| Broker.RunsAreSound | config/session.py:60-248 | all of this holds in every state of every run, for any answers of the system |
| Broker.RunsAreQuiet | config/session.py:137-145 | in runs without empty input nothing is polled for output without input queued |
| Delivery.InputArrives | config/session.py:137-145 | in every run what was written to a terminal, with what is queued, is exactly the input that was sent while it had room: in order, once, to the right terminal |
| Delivery.ClosedForGood | config/session.py:244-246 | in every run a terminal whose read gave nothing stays closed, nothing more is written to it, and its input is answered with an error, that for the missing master when there is room |
| Broker.EmptyInputKeepsPolling | config/session.py:137-145 | a run from the start in which empty input leaves a terminal polled for output with nothing to write |
| Broker.ReusedPidIsMistaken | config/session.py:115-121 | a run from the start in which an exit is recorded for a terminal that had exited, and not for the one whose process it was |
| Broker.Session.Spawn | config/session.py:64-105 | a known name is answered with its pid and status, or refused to another command; a new one is refused by 128 terminals, or opens a terminal with an empty queue, last in the order, on the new master, polled for input |
| Broker.Session.Start | config/session.py:129-136 | the same for a command with absolute paths; others are refused and change nothing, and an empty command ends the broker |
| Broker.Session.Enqueue | config/session.py:137-145 | which of the four replies is given, and when; the bytes join the queue of that terminal and no other unless it would exceed 1 MiB, and its master, and no other, is polled for output; a closed terminal keeps them and the reply is an error |
| Broker.Session.Writable | config/session.py:221-231 | what was written leaves the front of the queue of that terminal and no other; polling for output ends with the queue |
| Broker.Session.Close | config/session.py:244-246 | the master leaves both tables, and all other masters, the terminals and their queues stay as they are |
| Broker.Session.Reap | config/session.py:115-121 | the first terminal with the pid gets the status |
| Plans.TargetsAndNamesAreUnique | tools/prepare-root.py:34-68 | everything ever added for one target, and all planned loadable files with one SONAME, have the same content |
| RootPlanning.RootPlan.Add | tools/prepare-root.py:34-68 | succeeds exactly when the file fits; fails on a target exactly when it is planned with another content, on a SONAME exactly when it is taken. What it writes: the entry with the package that brought it, an old one only when a package is given, and for a new loadable file the owner of its SONAME, with the same package |
| RootPlanning.RootPlan.Inspect | tools/prepare-root.py:69-83 | queues exactly the Linux libraries of an archive, in order, or fails when one does not fit |
| Plans.NativesAre | tools/prepare-root.py:69-83 | and those are the members that are libraries for this machine, each under its name |
| Installation.LoadableBytes | tools/prepare-root.py:50-57 | a file is loaded when it starts with the ELF magic, unless its bytes 4 to 6 and 16 to 19 are those of a 64-bit x86-64 relocatable object |
| RootPlanning.RootPlan.CopyPackage | tools/prepare-root.py:89-101 | terminates; on success no requirement cycle is reachable and the package is copied, and the cycle error means that one is; when the packages in reach load and their files can be planned together, it fails if and only if a cycle is reachable, and with that error. Every entry and SONAME that is new or has changed names a newly copied package that installs that file there |
| RootSteps.ReadyOn | tools/prepare-root.py:34-68 | files that fit the plan and each other still do after one of them is planned |
| Installation.LayeredHasNoCycle | tools/prepare-root.py:89-101 | packages listed after what they require reach no cycle |
| Installation.BackEdgeIsCycle | tools/prepare-root.py:92-93 | requiring a package that is being copied closes a cycle reachable from the one asked for |
| Plans.FinishKeeps | tools/prepare-root.py:96-101 | a copied package has its requirements copied before it and all its files planned, and stays so |
| RootPlanning.FindLocal | tools/prepare-root.py:134-145 | the first candidate that is a file inside the source, which must be readable ELF |
| RootPlanning.RootPlan.Resolve | tools/prepare-root.py:147-172 | adds one edge to the provider that comes first: module, planned SONAME, source, locked package; absent exactly when there is none, and then nothing has changed. What is planned on the way names a newly copied package that installs it, or is the file at that place of the source |
| RootPlanning.RootPlan.Request | tools/prepare-root.py:293-299 | a name asked for outside the queue gets its edge too, and what was answered stays so |
| RootSteps.StaysResolvable | tools/prepare-root.py:147-172 | a name that has a provider keeps one while the plan grows |
| RootPlanning.RootPlan.Answer | tools/prepare-root.py:180-183 | every name an item needs gets its edge |
| RootSteps.LookedForWith | tools/prepare-root.py:180-183 | the names on the list are looked for with the run paths of the file, its interpreter without |
| Installation.NeedsAre | tools/prepare-root.py:180-183 | a name is needed when it is listed, or is the interpreter |
| RootPlanning.RootPlan.CloseDependencies | tools/prepare-root.py:174-183 | terminates although it enlarges its queue; then every label seen is answered and every edge ends at a module or a planned target. An absent name is one that a queued item needs and nothing provides; when everything in reach loads, fits together and is readable, without requirement cycles, it succeeds if and only if no such name is left |
| Plans.FewerUnplanned | tools/prepare-root.py:174-183 | resolving either plans a new target of a finite universe or queues nothing |
| Plans.AnsweredOn | tools/prepare-root.py:174-183 | answered labels stay answered while queue, entries and edges grow |
| Plans.FilesAreComplete | tools/prepare-root.py:174-183 | in a closed plan every planned loadable file has an edge for everything it needs, when no queued path holds a "!" |
| Plans.CompleteIff | tools/prepare-root.py:176-179 | a queued item has found everything if and only if it needs no more than the first one with its label |
| RootPlanning.SecondMemberIsSkipped | tools/prepare-root.py:69-83 | a JAR with two members of one name closes with the second one's dependency unresolved |

## Left out

The analysers:

- Package windows, errors, I/O groups, executions, thread rows, startup and process samples of the deep analysis: sums per key of one record each.
- The deep analysis's own `children_ns`, direct table and count of unresolved parents: the same fold is modelled in `ExclusiveTime` and `Callers`.
- Which records become wait or fork intervals: `Intervals` takes the collected lists.
- The heap array and `sorted`: the slow list is a set whose least element is found by a search, and sorting is a specification function.
- SlowWaits.SlowList.Offer: takes scopes with distinct (wait, file number, id); with equal ones the tool would compare dictionaries and stop with a TypeError.
- The wait sum of a scope is an argument of the slow list; its qualifying threshold is modelled.
- Percentiles.Percentile: takes the product of count and fraction as an exact number; the rounding of the float product, and the conversions to milliseconds and microseconds, are not modelled.
- UTF-8 decoding, CSV, gzip, JSON and SQLite: payloads are bytes or strings, and the upsert is addition per key. The integer widths of the header fields are modelled, integers in the tables are unbounded as in Python.
- Grouping of `Stats` by phase and operation in `analyze`, checkpoints, and errors that end a file early: one `Stats` and whole files are modelled.
- The account tables and report rows of `tools/analyze-vfs-reuse.py`.

The output watcher:

- Launching, timing, the control pipe and the resource samples of the pool; the lock is modelled by taking chunks and registrations one at a time.

The broker:

- fork, exec, openpty, signals, resizing, the process list, shutdown, the startup script and the deadlines of the final stop; reading PTY output, which changes no table unless it ends.
- JSON decoding of frames and the dispatch by operation name; a frame is handed on as bytes.
- Broker.Session.Spawn: the environment and the default working directory are part of the given specification, and a failing fork or openpty is not modelled; an error while the configured terminals start ends the broker, which the model leaves to the caller.
- Broker.RunsAreSound: the system hands out only descriptors that are not open.

The planner:

- The list of candidate paths with run paths and `$ORIGIN`, path normalisation, symbolic links, and ELF and ZIP parsing are given functions. Install paths of locked packages and paths of resolved source files are taken to be normalised already. That the ELF parser accepts no relocatable object (`tools/guest-deps/guest_deps.py:57-60`) is part of the conditions under which `RootPlanning.RootPlan.CopyPackage` meets every cycle and `RootPlanning.RootPlan.CloseDependencies` fails only on absent names.
- Content hashes: `same_content` compares the contents themselves.
- Downloading and checking packages: a locked package either loads, with its files, or does not. The provenance record is the package's name.
- The list of native JAR members for the report, `copy_tree`, and installing the files.
- What is in the plan after a failure: every failure ends the tool.
- RootPlanning.RootPlan.CopyPackage: when a package in reach does not load, or its files do not fit, it may stop there before it meets a cycle.
- RootPlanning.RootPlan.CloseDependencies: the condition under which it fails only on absent names is on everything in reach, a set the caller names; without it another failure may come first.
- Plans.FilesAreComplete: file labels that look like a JAR member's are covered by `Plans.CompleteIff` only.
