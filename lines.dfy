/**
  What the worker loop of the converter (`ThreadRead`) does with one line:
  split it on ',', keep it as a record when it has the schema's number of
  fields, as a flight marker when it is a four-field "POWER ON" line, and
  drop it otherwise. The record parser, the marker parser and the record
  writer are foreign factories; they are the function-typed fields of `Schema`,
  beside its field count.
 */
module Lines {
  import opened Bytes
  import opened Text

  /** The sort key of a record: its `DateTime` and its `Timestamp`. */
  datatype Key = Key(date: int, timestamp: int)

  /** A parsed record: the key the parser found and the raw fields it came from. */
  datatype Record = Record(key: Key, fields: seq<string>)

  /** An entry of `FlightTimes`: the power-on instant and the number read from the fourth field. */
  datatype FlightMarker = FlightMarker(start: int, flight: int)

  /**
    The per-record-type collaborators, resolved once per run: the field
    count of the `CsvRecordAttribute`, the parser, the reading of a
    power-on line, and the binary writer.
   */
  datatype Schema = Schema(
    fieldCount: int,
    parse: seq<string> -> Key,
    marker: seq<string> -> FlightMarker,
    write: Record -> seq<byte>)

  const Delimiter: char := ','
  const MarkerArity: nat := 4
  const PowerOnToken: string := "POWER ON"

  /** The outcome of classifying one line. */
  datatype LineKind =
    | RecordLine(fields: seq<string>)
    | MarkerLine(fields: seq<string>)
    | Dropped(arity: nat)

  /** The branches of `ThreadRead`, in the order the source tests them. */
  function Classify(line: string, fieldCount: int): LineKind
  {
    var value := Split(line, Delimiter);
    if |value| == fieldCount then RecordLine(value)
    else if |value| == MarkerArity && Contains(value[3], PowerOnToken) then MarkerLine(value)
    else Dropped(|value|)
  }

  /** The record a record line becomes. */
  function RecordOf(schema: Schema, fields: seq<string>): Record
  {
    Record(schema.parse(fields), fields)
  }

  /** The records a sequence of lines yields, in line order. */
  function Records(lines: seq<string>, schema: Schema): seq<Record>
  {
    if lines == [] then []
    else
      (match Classify(lines[0], schema.fieldCount)
       case RecordLine(v) => [RecordOf(schema, v)]
       case _ => [])
      + Records(lines[1..], schema)
  }

  /** The flight markers a sequence of lines yields, in line order. */
  function Markers(lines: seq<string>, schema: Schema): seq<FlightMarker>
  {
    if lines == [] then []
    else
      (match Classify(lines[0], schema.fieldCount)
       case MarkerLine(v) => [schema.marker(v)]
       case _ => [])
      + Markers(lines[1..], schema)
  }

  /** The lines the reader hands on: all but the header line. */
  function Body(file: seq<string>): (r: seq<string>)
  {
    if file == [] then [] else file[1..]
  }

  /** Lines whose number of commas is one less than `fieldCount`. */
  function CountArity(lines: seq<string>, fieldCount: int): nat
  {
    if lines == [] then 0
    else (if CountChar(lines[0], Delimiter) + 1 == fieldCount then 1 else 0) + CountArity(lines[1..], fieldCount)
  }

  /**
    Lines with exactly three commas, not the schema's arity, whose text
    after the third comma contains "POWER ON".
   */
  function CountPowerOn(lines: seq<string>, fieldCount: int): nat
  {
    if lines == [] then 0
    else
      var n := CountChar(lines[0], Delimiter);
      (if n == 3 && n + 1 != fieldCount && Contains(Split(lines[0], Delimiter)[3], PowerOnToken) then 1 else 0)
      + CountPowerOn(lines[1..], fieldCount)
  }

  /**
    A line is a record line exactly when it has one comma fewer than the
    schema has fields; the fields are then the split pieces, which glue
    back to the line.
   */
  lemma ClassifyRecord(line: string, fieldCount: int)
    ensures Classify(line, fieldCount).RecordLine? <==> CountChar(line, Delimiter) + 1 == fieldCount
    ensures Classify(line, fieldCount).RecordLine? ==>
              |Classify(line, fieldCount).fields| == fieldCount
              && Join(Classify(line, fieldCount).fields, Delimiter) == line
  {
    JoinSplit(line, Delimiter);
  }

  /**
    Schema arity wins: a line with the schema's field count is a record
    even when it also looks like a power-on line, and a line is a marker
    exactly when it has four fields, a fourth field containing "POWER ON",
    and not the schema's arity.
   */
  lemma ClassifyMarker(line: string, fieldCount: int)
    ensures Classify(line, fieldCount).MarkerLine? <==>
              CountChar(line, Delimiter) + 1 != fieldCount
              && CountChar(line, Delimiter) + 1 == MarkerArity
              && Contains(Split(line, Delimiter)[3], PowerOnToken)
    ensures fieldCount == MarkerArity ==> !Classify(line, fieldCount).MarkerLine?
  {
  }

  /** Every line has at least one field, so no line is dropped for having none. */
  lemma ClassifyDropped(line: string, fieldCount: int)
    ensures Classify(line, fieldCount).Dropped? ==>
              Classify(line, fieldCount).arity == CountChar(line, Delimiter) + 1 >= 1
              && Classify(line, fieldCount).arity != fieldCount
              && (Classify(line, fieldCount).arity == MarkerArity ==>
                    !Contains(Split(line, Delimiter)[3], PowerOnToken))
  {
  }

  /** Record extraction distributes over concatenation of line sequences. */
  lemma {:induction false} RecordsConcat(a: seq<string>, b: seq<string>, schema: Schema)
    ensures Records(a + b, schema) == Records(a, schema) + Records(b, schema)
  {
    if a == [] {
      assert a + b == b;
    } else {
      assert (a + b)[0] == a[0];
      assert (a + b)[1..] == a[1..] + b;
      RecordsConcat(a[1..], b, schema);
    }
  }

  /** Marker extraction distributes over concatenation of line sequences. */
  lemma {:induction false} MarkersConcat(a: seq<string>, b: seq<string>, schema: Schema)
    ensures Markers(a + b, schema) == Markers(a, schema) + Markers(b, schema)
  {
    if a == [] {
      assert a + b == b;
    } else {
      assert (a + b)[0] == a[0];
      assert (a + b)[1..] == a[1..] + b;
      MarkersConcat(a[1..], b, schema);
    }
  }

  /**
    One line yields at most one output: a record when it has the schema's
    arity, otherwise a marker when it is a power-on line, otherwise nothing.
   */
  lemma OneLine(line: string, schema: Schema)
    ensures |Records([line], schema)| + |Markers([line], schema)| <= 1
    ensures |Records([line], schema)| == 1 <==> CountChar(line, Delimiter) + 1 == schema.fieldCount
    ensures |Markers([line], schema)| == 1 <==> Classify(line, schema.fieldCount).MarkerLine?
  {
    assert [line][1..] == [];
  }

  /** The number of records is the number of lines with exactly the schema's field count. */
  lemma {:induction false} RecordsCount(lines: seq<string>, schema: Schema)
    ensures |Records(lines, schema)| == CountArity(lines, schema.fieldCount)
  {
    if lines != [] {
      RecordsCount(lines[1..], schema);
    }
  }

  /** The number of markers is the number of power-on lines that lack the schema's arity. */
  lemma {:induction false} MarkersCount(lines: seq<string>, schema: Schema)
    ensures |Markers(lines, schema)| == CountPowerOn(lines, schema.fieldCount)
  {
    if lines != [] {
      MarkersCount(lines[1..], schema);
    }
  }

  /** Every record has the schema's number of fields and carries the key the parser gives them. */
  lemma {:induction false} RecordsWellFormed(lines: seq<string>, schema: Schema)
    ensures forall i :: 0 <= i < |Records(lines, schema)| ==>
              |Records(lines, schema)[i].fields| == schema.fieldCount
              && Records(lines, schema)[i].key == schema.parse(Records(lines, schema)[i].fields)
  {
    if lines != [] {
      RecordsWellFormed(lines[1..], schema);
    }
  }

  /**
    A header, three rows with the five fields of the schema, one power-on
    row and one three-field row: three records in row order, one marker,
    and the three-field row is dropped.
   */
  lemma {:induction false} FiveFieldScenario(schema: Schema, h: string, r1: string, r2: string, r3: string, p: string, m: string)
    requires schema.fieldCount == 5
    requires CountChar(r1, Delimiter) == 4 && CountChar(r2, Delimiter) == 4 && CountChar(r3, Delimiter) == 4
    requires CountChar(p, Delimiter) == 3 && Contains(Split(p, Delimiter)[3], PowerOnToken)
    requires CountChar(m, Delimiter) == 2
    ensures Records(Body([h, r1, r2, p, r3, m]), schema)
         == [RecordOf(schema, Split(r1, Delimiter)), RecordOf(schema, Split(r2, Delimiter)), RecordOf(schema, Split(r3, Delimiter))]
    ensures Markers(Body([h, r1, r2, p, r3, m]), schema) == [schema.marker(Split(p, Delimiter))]
  {
    var body := [r1, r2, p, r3, m];
    assert Body([h, r1, r2, p, r3, m]) == body;
    var tail2 := [r3] + [m];
    var tail1 := [p] + tail2;
    var tail0 := [r2] + tail1;
    assert body == [r1] + tail0;
    RecordRow(r1, schema);
    RecordRow(r2, schema);
    RecordRow(r3, schema);
    PowerOnRow(p, schema);
    DroppedRow(m, schema);
    assert Records(body, schema) == [RecordOf(schema, Split(r1, Delimiter)), RecordOf(schema, Split(r2, Delimiter)), RecordOf(schema, Split(r3, Delimiter))] by {
      RecordsConcat([r3], [m], schema);
      RecordsConcat([p], tail2, schema);
      RecordsConcat([r2], tail1, schema);
      RecordsConcat([r1], tail0, schema);
    }
    assert Markers(body, schema) == [schema.marker(Split(p, Delimiter))] by {
      MarkersConcat([r3], [m], schema);
      MarkersConcat([p], tail2, schema);
      MarkersConcat([r2], tail1, schema);
      MarkersConcat([r1], tail0, schema);
    }
  }

  /** A row with the schema's arity yields its record and no marker. */
  lemma RecordRow(line: string, schema: Schema)
    requires CountChar(line, Delimiter) + 1 == schema.fieldCount
    ensures Records([line], schema) == [RecordOf(schema, Split(line, Delimiter))]
    ensures Markers([line], schema) == []
  {
    SingleLine(line, schema);
  }

  /** A four-field power-on row without the schema's arity yields its marker and no record. */
  lemma PowerOnRow(line: string, schema: Schema)
    requires CountChar(line, Delimiter) + 1 != schema.fieldCount
    requires CountChar(line, Delimiter) == 3 && Contains(Split(line, Delimiter)[3], PowerOnToken)
    ensures Records([line], schema) == []
    ensures Markers([line], schema) == [schema.marker(Split(line, Delimiter))]
  {
    SingleLine(line, schema);
  }

  /** A row with neither the schema's arity nor four fields yields nothing. */
  lemma DroppedRow(line: string, schema: Schema)
    requires CountChar(line, Delimiter) + 1 != schema.fieldCount
    requires CountChar(line, Delimiter) != 3
    ensures Records([line], schema) == [] && Markers([line], schema) == []
  {
    SingleLine(line, schema);
  }

  /** What `Records` and `Markers` make of a single line. */
  lemma {:induction false} SingleLine(line: string, schema: Schema)
    ensures Records([line], schema)
         == if CountChar(line, Delimiter) + 1 == schema.fieldCount then [RecordOf(schema, Split(line, Delimiter))] else []
    ensures Markers([line], schema)
         == if Classify(line, schema.fieldCount).MarkerLine? then [schema.marker(Split(line, Delimiter))] else []
  {
    assert [line][1..] == [];
  }
}
