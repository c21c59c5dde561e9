/**
  The CSV-to-binary converter `CsvConverter<T>`, run sequentially: the
  reader (`ProducerThread`) fills the pending-line queue, one worker
  (`ThreadRead`) drains it into the record queue and the flight list, and
  the writer (`ConsumerThread`) serializes the records in key order.
  The static fields the source shares between its threads are the fields
  of one `CsvConverter` object.
 */
module Converter {
  import opened Bytes
  import opened Text
  import opened Naming
  import opened Lines
  import opened Ordering

  datatype Option<T> = None | Some(value: T)

  datatype Result<T, E> = Success(value: T) | Failure(error: E)

  /** The run's fatal error: the input file does not exist. */
  datatype Error = FileNotFound

  /** What a run reports: the counters of the message buffer, the paths and the uncompressed payload. */
  datatype RunReport = RunReport(
    validLines: int,
    flights: nat,
    outputPath: string,
    indexPath: string,
    payload: seq<byte>,
    uncompressedSize: nat)

  /** The bytes the writer loop produces for `records`, one writer call per record, in order. */
  function Payload(records: seq<Record>, write: Record -> seq<byte>): seq<byte>
  {
    if records == [] then []
    else Payload(records[..|records| - 1], write) + write(records[|records| - 1])
  }

  /** The payload of a concatenation is the concatenation of the payloads. */
  lemma {:induction false} PayloadConcat(a: seq<Record>, b: seq<Record>, write: Record -> seq<byte>)
    ensures Payload(a + b, write) == Payload(a, write) + Payload(b, write)
    decreases |b|
  {
    if b == [] {
      assert a + b == a;
    } else {
      var b' := b[..|b| - 1];
      assert (a + b)[..|a + b| - 1] == a + b';
      assert (a + b)[|a + b| - 1] == b[|b| - 1];
      PayloadConcat(a, b', write);
    }
  }

  /** The payload is as long as the encodings of the records put together. */
  lemma {:induction false} PayloadLength(records: seq<Record>, write: Record -> seq<byte>)
    ensures |Payload(records, write)| == SizeOf(records, write)
    decreases |records|
  {
    if records != [] {
      PayloadLength(records[..|records| - 1], write);
    }
  }

  /** Sum of the encoded sizes of the records. */
  function SizeOf(records: seq<Record>, write: Record -> seq<byte>): nat
  {
    if records == [] then 0
    else SizeOf(records[..|records| - 1], write) + |write(records[|records| - 1])|
  }

  class CsvConverter {
    /** The record type's field count, parser, power-on reading and writer. */
    const schema: Schema
    /** Lines read but not yet classified. */
    var InputQueue: seq<string>
    /** Records parsed so far. */
    var OutputQueue: seq<Record>
    /** Power-on markers found so far. */
    var FlightTimes: seq<FlightMarker>
    /** Lines that became records, as counted by the workers. */
    var validLineCount: int

    /** The type's static initialiser: empty queues and a zero counter. */
    constructor (schema: Schema)
      ensures this.schema == schema
      ensures InputQueue == [] && OutputQueue == [] && FlightTimes == [] && validLineCount == 0
    {
      this.schema := schema;
      InputQueue, OutputQueue, FlightTimes := [], [], [];
      validLineCount := 0;
    }

    /** The state reset at the start of `Load` as written: fresh queues, the counter kept. */
    method BeginRunAsWritten()
      modifies this
      ensures InputQueue == [] && OutputQueue == [] && FlightTimes == []
      ensures validLineCount == old(validLineCount)
    {
      InputQueue, OutputQueue, FlightTimes := [], [], [];
    }

    /** The state reset at the start of a run, with the counter reset as well. */
    method BeginRun()
      modifies this
      ensures InputQueue == [] && OutputQueue == [] && FlightTimes == [] && validLineCount == 0
    {
      BeginRunAsWritten();
      validLineCount := 0;
    }

    /**
      The reader: skips the header line and enqueues every later line once,
      in file order; `count` is the number of lines enqueued.
     */
    method Produce(file: seq<string>) returns (count: nat)
      modifies this
      ensures InputQueue == old(InputQueue) + Body(file)
      ensures count == |Body(file)|
      ensures OutputQueue == old(OutputQueue) && FlightTimes == old(FlightTimes)
      ensures validLineCount == old(validLineCount)
    {
      count := 0;
      if |file| == 0 {
        return;
      }
      var i := 1;
      while i < |file|
        invariant 1 <= i <= |file|
        invariant InputQueue == old(InputQueue) + file[1..i]
        invariant count == i - 1
        invariant OutputQueue == old(OutputQueue) && FlightTimes == old(FlightTimes)
        invariant validLineCount == old(validLineCount)
      {
        InputQueue := InputQueue + [file[i]];
        count := count + 1;
        i := i + 1;
      }
    }

    /**
      The body of the worker loop for one dequeued line: a record and one
      more valid line, or a flight marker, or nothing.
     */
    method ProcessLine(line: string)
      modifies this
      ensures OutputQueue == old(OutputQueue) + Records([line], schema)
      ensures FlightTimes == old(FlightTimes) + Markers([line], schema)
      ensures validLineCount == old(validLineCount) + |Records([line], schema)|
      ensures InputQueue == old(InputQueue)
    {
      SingleLine(line, schema);
      var value := Split(line, Delimiter);
      if |value| == schema.fieldCount {
        var dp := RecordOf(schema, value);
        OutputQueue := OutputQueue + [dp];
        validLineCount := validLineCount + 1;
      } else if |value| == MarkerArity && Contains(value[3], PowerOnToken) {
        FlightTimes := FlightTimes + [schema.marker(value)];
      }
    }

    /** One attempt of the worker: take the head of the queue, if any, and process it. */
    method Step() returns (taken: bool)
      modifies this
      ensures taken == (old(InputQueue) != [])
      ensures var n := if taken then 1 else 0;
        && InputQueue == old(InputQueue)[n..]
        && OutputQueue == old(OutputQueue) + Records(old(InputQueue)[..n], schema)
        && FlightTimes == old(FlightTimes) + Markers(old(InputQueue)[..n], schema)
        && validLineCount == old(validLineCount) + |Records(old(InputQueue)[..n], schema)|
    {
      if InputQueue == [] {
        taken := false;
        assert InputQueue[..0] == [];
      } else {
        var line := InputQueue[0];
        assert old(InputQueue)[..1] == [line];
        InputQueue := InputQueue[1..];
        ProcessLine(line);
        taken := true;
      }
    }

    /**
      The worker loop run to the end: every pending line is processed once,
      in queue order, and the counter grows by exactly the number of records.
     */
    method Drain()
      modifies this
      ensures InputQueue == []
      ensures OutputQueue == old(OutputQueue) + Records(old(InputQueue), schema)
      ensures FlightTimes == old(FlightTimes) + Markers(old(InputQueue), schema)
      ensures validLineCount == old(validLineCount) + |Records(old(InputQueue), schema)|
    {
      ghost var pending := InputQueue;
      ghost var k := 0;
      while InputQueue != []
        invariant 0 <= k <= |pending| && InputQueue == pending[k..]
        invariant OutputQueue == old(OutputQueue) + Records(pending[..k], schema)
        invariant FlightTimes == old(FlightTimes) + Markers(pending[..k], schema)
        invariant validLineCount == old(validLineCount) + |Records(pending[..k], schema)|
        decreases |InputQueue|
      {
        var _ := Step();
        assert pending[..k + 1] == pending[..k] + [pending[k]];
        RecordsConcat(pending[..k], [pending[k]], schema);
        MarkersConcat(pending[..k], [pending[k]], schema);
        k := k + 1;
      }
      assert pending[..k] == pending;
    }

    /**
      The reader and one worker interleaved: at each entry of `schedule`
      the reader enqueues its next line (true) or the worker makes one
      attempt (false); then both run to the end. Whatever the schedule,
      every line after the header is processed exactly once, in file order.
     */
    method ParseInterleaved(file: seq<string>, schedule: seq<bool>)
      modifies this
      ensures InputQueue == []
      ensures OutputQueue == old(OutputQueue) + Records(old(InputQueue) + Body(file), schema)
      ensures FlightTimes == old(FlightTimes) + Markers(old(InputQueue) + Body(file), schema)
      ensures validLineCount == old(validLineCount) + |Records(old(InputQueue) + Body(file), schema)|
    {
      ghost var start := Snapshot();
      var lines := Body(file);
      ghost var done: seq<string> := [];
      var i := 0;
      var t := 0;
      assert lines[..0] == [];
      while t < |schedule| || i < |lines|
        invariant 0 <= i <= |lines| && 0 <= t <= |schedule|
        invariant Accounts(start, lines[..i], done)
        decreases |schedule| - t + |lines| - i
      {
        if t == |schedule| || schedule[t] {
          if i < |lines| {
            EnqueueAccounted(start, lines[..i], done, lines[i]);
            assert lines[..i + 1] == lines[..i] + [lines[i]];
            i := i + 1;
          }
        } else {
          done := StepAccounted(start, lines[..i], done);
        }
        if t < |schedule| {
          t := t + 1;
        }
      }
      assert lines[..i] == lines;
      ghost var rest := InputQueue;
      Drain();
      RecordsConcat(done, rest, schema);
      MarkersConcat(done, rest, schema);
    }

    /** The four pieces of run state, for bookkeeping in proofs. */
    ghost function Snapshot(): (seq<string>, seq<Record>, seq<FlightMarker>, int)
      reads this
    {
      (InputQueue, OutputQueue, FlightTimes, validLineCount)
    }

    /**
      Starting from `start`, the lines `fed` have been enqueued and the
      lines `done` processed: the pending queue holds the rest, and the
      outputs and the counter hold what `done` yields.
     */
    ghost predicate Accounts(start: (seq<string>, seq<Record>, seq<FlightMarker>, int), fed: seq<string>, done: seq<string>)
      reads this
    {
      && start.0 + fed == done + InputQueue
      && OutputQueue == start.1 + Records(done, schema)
      && FlightTimes == start.2 + Markers(done, schema)
      && validLineCount == start.3 + |Records(done, schema)|
    }

    /** A reader step keeps the accounts, with one more line fed. */
    method EnqueueAccounted(ghost start: (seq<string>, seq<Record>, seq<FlightMarker>, int),
                            ghost fed: seq<string>, ghost done: seq<string>, line: string)
      requires Accounts(start, fed, done)
      modifies this
      ensures Accounts(start, fed + [line], done)
    {
      Enqueue(line);
      assert start.0 + (fed + [line]) == (start.0 + fed) + [line];
    }

    /** A worker attempt keeps the accounts, with the taken line, if any, added to `done`. */
    method StepAccounted(ghost start: (seq<string>, seq<Record>, seq<FlightMarker>, int),
                         ghost fed: seq<string>, ghost done: seq<string>) returns (ghost done': seq<string>)
      requires Accounts(start, fed, done)
      modifies this
      ensures Accounts(start, fed, done')
    {
      ghost var before := InputQueue;
      var taken := Step();
      ghost var n := if taken then 1 else 0;
      assert before == before[..n] + InputQueue;
      RecordsConcat(done, before[..n], schema);
      MarkersConcat(done, before[..n], schema);
      done' := done + before[..n];
    }

    /** `InputQueue.Enqueue`: the reader appends one line. */
    method Enqueue(line: string)
      modifies this
      ensures InputQueue == old(InputQueue) + [line]
      ensures OutputQueue == old(OutputQueue) && FlightTimes == old(FlightTimes)
      ensures validLineCount == old(validLineCount)
    {
      InputQueue := InputQueue + [line];
    }

    /**
      The writer: the payload is the writer's output for the records in
      ascending (DateTime, Timestamp) order, its length is the reported
      uncompressed size, and the index path rewrites ".output" to ".index".
     */
    method Consume(filePath: string) returns (data: seq<byte>, normalSize: nat, indexPath: string)
      ensures data == Payload(OrderByKey(OutputQueue), schema.write)
      ensures normalSize == |data|
      ensures indexPath == IndexPath(filePath)
    {
      var ordered := OrderByKey(OutputQueue);
      indexPath := IndexPath(filePath);
      data := [];
      var i := 0;
      while i < |ordered|
        invariant 0 <= i <= |ordered|
        invariant data == Payload(ordered[..i], schema.write)
      {
        assert ordered[..i + 1][..i] == ordered[..i];
        data := data + schema.write(ordered[i]);
        i := i + 1;
      }
      assert ordered[..i] == ordered;
      normalSize := |data|;
    }

    /**
      One invocation: name the output after the hash, reset the run state,
      fail with FileNotFound when there is no input, otherwise read, parse
      and write, and report the counters; the queues are released at the end.
     */
    method Load(file: Option<seq<string>>, hash: seq<byte>, outputRoot: string) returns (r: Result<RunReport, Error>)
      modifies this
      ensures file.None? ==> r == Failure(FileNotFound)
      ensures file.Some? ==>
        var recs := Records(Body(file.value), schema);
        var payload := Payload(OrderByKey(recs), schema.write);
        r == Success(RunReport(
          |recs|,
          |Markers(Body(file.value), schema)|,
          OutputPath(outputRoot, hash),
          IndexPath(OutputPath(outputRoot, hash)),
          payload,
          |payload|))
      ensures InputQueue == [] && OutputQueue == [] && FlightTimes == []
      ensures validLineCount == if file.Some? then |Records(Body(file.value), schema)| else 0
    {
      var outputDirectory := PathCombine(outputRoot, DirectoryName(hash));
      BeginRun();
      if file.None? {
        return Failure(FileNotFound);
      }
      var _ := Produce(file.value);
      Drain();
      ghost var recs := Records(Body(file.value), schema);
      assert [] + Body(file.value) == Body(file.value);
      assert [] + recs == recs;
      assert OutputQueue == recs;
      assert FlightTimes == Markers(Body(file.value), schema);
      var validLines, flights := validLineCount, |FlightTimes|;
      var data, normalSize, indexPath := Consume(outputDirectory);
      OutputQueue, FlightTimes := [], [];
      r := Success(RunReport(validLines, flights, outputDirectory, indexPath, data, normalSize));
    }
  }

  /**
    Two runs in one process over a header and one valid line, with the
    reset `Load` performs as written: the second run reports two valid
    lines while it parsed one record.
   */
  method RepeatedRunOverCounts() returns (reported: int, records: nat)
    ensures reported == 2 && records == 1
  {
    var schema := Schema(1, _ => Key(0, 0), _ => FlightMarker(0, 0), _ => []);
    var c := new CsvConverter(schema);
    SingleLine("a", schema);
    assert Body(["H", "a"]) == ["a"];
    c.BeginRunAsWritten();
    var read := c.Produce(["H", "a"]);
    c.Drain();
    c.BeginRunAsWritten();
    read := c.Produce(["H", "a"]);
    c.Drain();
    reported, records := c.validLineCount, |c.OutputQueue|;
  }

  /** The same two runs with the counter reset: each run reports its own records. */
  method RepeatedRunCountsEach() returns (reported: int, records: nat)
    ensures reported == 1 && records == 1
  {
    var schema := Schema(1, _ => Key(0, 0), _ => FlightMarker(0, 0), _ => []);
    var c := new CsvConverter(schema);
    SingleLine("a", schema);
    assert Body(["H", "a"]) == ["a"];
    c.BeginRun();
    var read := c.Produce(["H", "a"]);
    c.Drain();
    c.BeginRun();
    read := c.Produce(["H", "a"]);
    c.Drain();
    reported, records := c.validLineCount, |c.OutputQueue|;
  }
}
