# CsvConverter model

A Dafny model of the CSV-to-binary converter of XPlaneGen,
`CsvConverter<T>` in `src/XPlaneGenConsole/IO/CsvConverter.cs`. It converts a
telemetry log (a header line and comma-separated data lines) into a binary
payload of parsed records sorted by `(DateTime, Timestamp)`. The output is
named after the hash of the input.

The source runs a reader thread, one worker thread per core and a writer
thread, coordinated by two barriers. Apart from scheduling, a run is a
fold over the lines. The model runs it sequentially:

- **Reader** (`ProducerThread`). `CsvConverter.Produce` skips the header
  and enqueues every later line once, in file order.
- **Worker** (`ThreadRead`). `CsvConverter.ProcessLine`, `Step` and
  `Drain` split each dequeued line on `,` with empty fields kept, then
  classify it:
  - exactly the schema's field count: one record, and the valid-line
    counter goes up by one;
  - four fields with `"POWER ON"` in the fourth: one flight marker;
  - anything else: dropped.
- **Interleaving**. `ParseInterleaved` interleaves reader steps with
  worker attempts under any schedule, and shows that the outcome does not
  depend on the schedule.
- **Writer** (`ConsumerThread`). `CsvConverter.Consume` enumerates the
  records in the order of the query `orderby dp.DateTime, dp.Timestamp`.
  That order is a stable sort, `Ordering.OrderByKey`. Each record's
  encoding is appended to the payload, and the index path is derived.
- **Invocation** (`Load`). `CsvConverter.Load` names the output, resets
  the run state, fails with `FileNotFound` when there is no input, and
  reports:
  - the valid-line count;
  - the flight count;
  - the paths;
  - the payload and its uncompressed size.

The static fields the source shares between threads become the fields of
one `CsvConverter` object:

- `InputQueue`, `OutputQueue` and `FlightTimes` are sequences;
- `validLineCount` is an integer.

The foreign collaborators are the fields of `Lines.Schema` (the field count and three functions):

- the `CsvRecordAttribute` field count;
- `CsvParser.GetParser<T>`;
- the `AsDateTime`/`AsTimeSpan`/`AsInt` reading of a power-on line;
- `BinaryDatapoint.GetWriteAction<T>`.

The hash from `Hash.ComputeHash` is a parameter of `Load`, and so is the
input file, given as its sequence of lines (or none, when the file is
missing).

Modules, one file each:

- `Bytes`: the `byte` type.
- `Text`: .NET `String.Split`, `Contains` and `Replace`, on which the
  other modules build.
- `Naming`: `BitConverterString` and `DirectoryName` render the hex name
  of line 44, `OutputPath` its `Path.Combine`, and `IndexPath` the rewrite
  of line 125.
- `Lines`: `Classify` renders the three branches of lines 222-243 and
  `Body` the header skip of line 181; `Records` and `Markers` are the
  specification functions of what the worker loop appends.
- `Ordering`: `OrderByKey` renders the ordering query of lines 120-122.
- `Converter`: `Payload` renders the write loop of lines 138-141; the
  class holds the state, and its methods the reader, the worker, the
  writer and the run.

At several points one might expect something else (lower-case hex, a
directory holding a file named after the input, a counter per run); the
code does otherwise, and the model follows the code:

- **Hex case.** The output name is the UPPER-case hexadecimal of the hash.
  `BitConverter.ToString` writes `"AB-01-…"`, and the dashes are then removed.
- **Output location.** The writer opens `Path.Combine(root, HEX)` itself
  as the output file. It is not a directory holding a file named after
  the input. For an empty hash the output location is the root itself.
- **Index path.** The index path is `filePath.Replace(".output", ".index")`.
  Applied to that output location, it equals the output location unless
  the root contains `.output` (`Naming.IndexPathOfOutputPath`).
- **Valid-line counter.** `validLineCount` is never reset between runs in
  one process (see Findings).
- **Header-only file.** The reader releases the start barrier only after
  its first enqueue. With a header-only file the source's workers therefore
  wait forever, and the run does not complete. The sequential model
  completes that run with zero records.

## Model

| member | source | states |
|---|---|---|
| Text.Split | src/XPlaneGenConsole/IO/CsvConverter.cs:222 | splitting with `StringSplitOptions.None` yields exactly one more field than there are commas (so never zero fields), and no field contains a comma |
| Text.JoinSplit | src/XPlaneGenConsole/IO/CsvConverter.cs:222 | the fields of a line, glued back with commas, are the line itself, so no character is lost by the split |
| Text.SplitJoin | src/XPlaneGenConsole/IO/CsvConverter.cs:222 | splitting a comma-join of comma-free fields yields those fields again, so empty fields are kept |
| Text.ContainsIff | src/XPlaneGenConsole/IO/CsvConverter.cs:232 | the `Contains` scan answers true exactly when the token occurs at some position of the field |
| Text.ReplaceAbsent | src/XPlaneGenConsole/IO/CsvConverter.cs:125 | `Replace` leaves a string with no occurrence of the pattern unchanged |
| Text.ReplaceCharConcat | src/XPlaneGenConsole/IO/CsvConverter.cs:44 | replacing a one-character pattern (the `"-"` of line 44) acts on each part of a concatenation separately |
| Naming.DirectoryNameIsHex | src/XPlaneGenConsole/IO/CsvConverter.cs:44 | `BitConverter.ToString(hash).Replace("-", "")` equals the two-digit forms of the bytes concatenated with no separator |
| Naming.DirectoryNameShape | src/XPlaneGenConsole/IO/CsvConverter.cs:44 | the name is twice as long as the hash and consists of upper-case hexadecimal digits only |
| Naming.DecodeHexOf | src/XPlaneGenConsole/IO/CsvConverter.cs:44 | reading the digit pairs back gives the hash bytes (round trip) |
| Naming.DirectoryNameInjective | src/XPlaneGenConsole/IO/CsvConverter.cs:44 | different hashes give different names |
| Naming.OutputPathShape | src/XPlaneGenConsole/IO/CsvConverter.cs:44 | `Path.Combine(root, name)` is the root, one `\` unless the root is empty or already ends in a separator, then the hex name; for an empty hash it is the root |
| Naming.OutputPathInjective | src/XPlaneGenConsole/IO/CsvConverter.cs:44 | under one root, different hashes give different output locations |
| Naming.IndexPathRewritesAll | src/XPlaneGenConsole/IO/CsvConverter.cs:125 | no `.output` is left in the index path: every occurrence was rewritten |
| Naming.IndexPathUnchanged | src/XPlaneGenConsole/IO/CsvConverter.cs:125 | a path without `.output` is its own index path |
| Naming.IndexPathOfOutputPath | src/XPlaneGenConsole/IO/CsvConverter.cs:115-125 | the index path of the output location equals the output location when the root has no `.output` |
| Lines.ClassifyRecord | src/XPlaneGenConsole/IO/CsvConverter.cs:222-231 | a line is a record line exactly when it has one comma fewer than the schema's field count; its fields then number the field count and glue back to the line |
| Lines.ClassifyMarker | src/XPlaneGenConsole/IO/CsvConverter.cs:224-239 | a line is a marker line exactly when it lacks the schema's arity, has four fields, and its fourth field contains `POWER ON`; with a four-field schema no line is a marker |
| Lines.ClassifyDropped | src/XPlaneGenConsole/IO/CsvConverter.cs:240-243 | a dropped line has at least one field, not the schema's count, and if it has four fields then its fourth lacks `POWER ON` |
| Lines.SingleLine | src/XPlaneGenConsole/IO/CsvConverter.cs:222-243 | one line yields one record when it has the schema's arity, otherwise one marker when it is a power-on line, otherwise nothing |
| Lines.OneLine | src/XPlaneGenConsole/IO/CsvConverter.cs:224-243 | no line yields both a record and a marker; a record appears exactly at schema arity, a marker exactly for marker lines |
| Lines.RecordsConcat | src/XPlaneGenConsole/IO/CsvConverter.cs:218-245 | the records of a concatenation of line sequences are the records of each part, in order |
| Lines.MarkersConcat | src/XPlaneGenConsole/IO/CsvConverter.cs:218-245 | the markers of a concatenation of line sequences are the markers of each part, in order |
| Lines.RecordsCount | src/XPlaneGenConsole/IO/CsvConverter.cs:224-230 | the number of records equals the number of lines with exactly the schema's field count |
| Lines.MarkersCount | src/XPlaneGenConsole/IO/CsvConverter.cs:232-238 | the number of markers (the flight count) equals the number of lines with exactly three commas, whose field count is not the schema's, and whose text after the third comma contains "POWER ON" |
| Lines.RecordsWellFormed | src/XPlaneGenConsole/IO/CsvConverter.cs:224-229 | every record has the schema's number of fields and the key the parser assigns to them |
| Lines.FiveFieldScenario | src/XPlaneGenConsole/IO/CsvConverter.cs:181-243 | header, three five-field rows, a power-on row and a three-field row under a five-field schema: the three records in row order, one marker, the three-field row dropped |
| Ordering.OrderByKeySorted | src/XPlaneGenConsole/IO/CsvConverter.cs:120-122 | the query enumerates the records in ascending (DateTime, Timestamp) order |
| Ordering.OrderByKeyPermutes | src/XPlaneGenConsole/IO/CsvConverter.cs:120-122 | the query enumerates every record exactly as often as it is in the queue (a permutation) |
| Ordering.OrderByKeyStable | src/XPlaneGenConsole/IO/CsvConverter.cs:120-122 | records with equal keys keep their queue order (LINQ `OrderBy`/`ThenBy` is stable) |
| Ordering.OrderByKeyOfSorted | src/XPlaneGenConsole/IO/CsvConverter.cs:120-122 | a queue already in key order is enumerated as it is |
| Converter.PayloadConcat | src/XPlaneGenConsole/IO/CsvConverter.cs:138-141 | the payload of a concatenation of record sequences is the payload of each part, in order |
| Converter.PayloadLength | src/XPlaneGenConsole/IO/CsvConverter.cs:138-144 | the uncompressed size is the sum of the records' encoded sizes |
| Converter.CsvConverter.constructor | src/XPlaneGenConsole/IO/CsvConverter.cs:21-29 | the counter at zero (line 26) and the schema fixed; the queues, which have no initialiser and stay null until the first `Load` creates them (lines 49-51), are modelled as empty |
| Converter.CsvConverter.BeginRunAsWritten | src/XPlaneGenConsole/IO/CsvConverter.cs:49-53 | `Load`'s reset as written: fresh empty queues, `validLineCount` unchanged |
| Converter.CsvConverter.BeginRun | src/XPlaneGenConsole/IO/CsvConverter.cs:49-53 | the corrected reset: fresh empty queues and the counter at zero |
| Converter.CsvConverter.Produce | src/XPlaneGenConsole/IO/CsvConverter.cs:172-194 | the pending queue gains exactly the lines after the header, each once, in file order; nothing for an empty file; the returned count is their number; nothing else changes |
| Converter.CsvConverter.Enqueue | src/XPlaneGenConsole/IO/CsvConverter.cs:185 | one line is appended to the pending queue and nothing else changes |
| Converter.CsvConverter.ProcessLine | src/XPlaneGenConsole/IO/CsvConverter.cs:222-243 | the record queue, the flight list and the counter grow by what the line yields, the counter by exactly the number of records added |
| Converter.CsvConverter.Step | src/XPlaneGenConsole/IO/CsvConverter.cs:218-244 | a worker attempt takes the head of the queue exactly when the queue is non-empty and adds what that line yields |
| Converter.CsvConverter.Drain | src/XPlaneGenConsole/IO/CsvConverter.cs:218-245 | the worker loop empties the queue; records, markers and counter grow by what the pending lines yield, in queue order, so counter minus records is preserved |
| Converter.CsvConverter.ParseInterleaved | src/XPlaneGenConsole/IO/CsvConverter.cs:165-245 | under any interleaving of reader steps and worker attempts, every line after the header is processed exactly once, with the same outcome as reading first and draining after |
| Converter.CsvConverter.Consume | src/XPlaneGenConsole/IO/CsvConverter.cs:115-145 | the payload is the writer's output for the records in key order, its length is the uncompressed size, the index path is the `.output`→`.index` rewrite |
| Converter.CsvConverter.Load | src/XPlaneGenConsole/IO/CsvConverter.cs:41-113 | no input gives `FileNotFound`; otherwise, with the counter reset (`BeginRun`, see Findings), the report gives the numbers of records and of markers of the lines after the header, the hex-named output path, its index path, and the payload of the records in key order with its length; the queues are released afterwards |
| Converter.RepeatedRunOverCounts | src/XPlaneGenConsole/IO/CsvConverter.cs:26-89 | with the reset as written, a second run over a header and one valid line reports two valid lines for one record |
| Converter.RepeatedRunCountsEach | src/XPlaneGenConsole/IO/CsvConverter.cs:26-89 | with the corrected reset, the same second run reports one valid line for its one record |

## Findings

| source | as written | input that shows it | evidently intended | confidence | as-written member | corrected member |
|---|---|---|---|---|---|---|
| src/XPlaneGenConsole/IO/CsvConverter.cs:26 | `validLineCount` is a static field initialised once; `Load` recreates the queues (lines 49-51) but never resets the counter, and reports it as "Valid Lines" (line 89) | two `Load` calls on the same `CsvConverter<T>`, each on a file with a header and one line that has the schema's field count: the second reports 2 valid lines while it parsed 1 record | each run reports the valid lines of that run, equal to the records it parsed | not executed; high | Converter.RepeatedRunOverCounts | Converter.CsvConverter.BeginRun |

The as-written reset is `Converter.CsvConverter.BeginRunAsWritten`. The
corrected `BeginRun` is what `Converter.CsvConverter.Load` uses: its
contract ties the reported count to the records of that run, whatever
ran before. `Converter.RepeatedRunCountsEach` shows this on the same input.

## Left out

- Threads and barriers (`Thread`, `Barrier.SignalAndWait`, `Interlocked`, `Thread.Abort`, `LoadAsync`): the model is sequential, with one worker. With several workers the sort fixes the output order except among records with equal (DateTime, Timestamp) keys: these keep the order the workers queued them in (`Ordering.OrderByKeyStable`), which depends on scheduling. The model's single worker queues them in file order, and that is the order its payload states.
- The busy-poll exit of the workers (line 218). A worker that sees a momentarily empty queue leaves early. This is a scheduling race and is not modelled: `Drain` runs until the queue is empty.
- The start-barrier deadlock on a header-only file. It is a concurrency effect; see above.
- File I/O. The input is already split into a sequence of lines; `StreamReader` line breaking and text decoding are not modelled. The missing-file check is an `Option` parameter. In the source the `FileNotFoundException` is raised on the reader thread (line 169) and nothing catches it there, so the source's `Load` never returns a failure: a .NET Framework process ends on an unhandled thread exception, while the workers started at lines 62-70 wait on the start barrier. Only when the hash of line 43 throws first, on the caller's thread, does the caller see the error. `Failure(FileNotFound)` is the abstraction of that outcome.
- GZip compression, the compressed size, the compression ratio (floating point; it divides by zero for an empty payload), elapsed time, the `messages` text, the events and `Console` output.
- Foreign calls (`Hash.ComputeHash`, `CsvParser.GetParser<T>`, `BinaryDatapoint.GetWriteAction<T>`, the `CsvRecordAttribute` reflection, `AsDateTime`/`AsTimeSpan`/`AsInt`). They are parameters of `Load` or fields of `Lines.Schema`, and their sources are not part of this model. So the record writer's round trip with a reader is not modelled either.
- Lines.Key: `DateTime` and `Timestamp` are integers (ticks). Their comparison is the integer order.
- Converter.CsvConverter.Drain: `validLineCount` is an unbounded integer. The source's 32-bit `Interlocked.Increment` would wrap after 2^31-1 valid lines.
- Naming.PathCombine: it follows the .NET Framework rules on Windows. Argument validation (null, invalid path characters) and other platforms' separators are not modelled.
- The parser filling a fresh mutable `T` instance (`Activator.CreateInstance`, `parser(dp, value)`) is a value, `Lines.RecordOf`.
- `src/XPlaneGenConsole/Data/Temperature/Fahrenheit.cs`: floating-point unit conversion and thin `Convert.*` wrappers.
- `src/XPlaneGenConsole/Datapoint/Base/CSVDatapoint.cs`: abstract members and empty classes, with no behaviour.
