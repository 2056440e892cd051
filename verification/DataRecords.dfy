/** Immutable dataset and operation records (shared/data_records.py): payload validation, canonical
    projections and the references taken over them. */
module DataRecords {
  import opened Foundations
  import Utf8
  import opened Binary64
  import opened CanonicalJson
  import opened CanonicalHash
  import opened JsonObjects
  import CanonicalTimestamp

  const MAX_DATASET_ROWS: nat := 40_000
  const MAX_DATASET_COLUMNS: nat := 128
  const MAX_CELL_BYTES: nat := 65_536

  const DATASET_PAYLOAD_HASH_DOMAIN: string := "mcp.dataset.payload.v1"
  const DATASET_RECORD_HASH_DOMAIN: string := "mcp.dataset.v1"
  const OPERATION_RECORD_HASH_DOMAIN: string := "mcp.operation.v1"

  // ----- dataset payloads -----

  datatype DataType = NumberType | IntegerType | StringType | BooleanType | TimestampType

  function TypeName(t: DataType): string {
    match t
    case NumberType => "number"
    case IntegerType => "integer"
    case StringType => "string"
    case BooleanType => "boolean"
    case TimestampType => "timestamp"
  }

  datatype PayloadColumn = PayloadColumn(fieldId: Text, dataType: DataType)

  datatype DatasetPayload = DatasetPayload(columns: seq<PayloadColumn>, rows: seq<seq<Value>>)

  /** `_validate_cell`. */
  predicate ValidCell(v: Value, t: DataType) {
    v.Null?
    || (!v.Arr? && !v.Obj?
        && (v.Str? ==> Utf8.Encodable(v.s) && |Utf8.Encode(v.s)| <= MAX_CELL_BYTES)
        && match t
           case BooleanType => v.Bool?
           case IntegerType => v.Num? && v.x.Int? && Abs(v.x.n) <= MAX_SAFE_INTEGER
           case NumberType => v.Num? && Accepted(v.x)
           case StringType => v.Str?
           case TimestampType => v.Str? && CanonicalTimestamp.IsCanonical(v.s))
  }

  predicate ValidPayload(p: DatasetPayload) {
    && 1 <= |p.columns| <= MAX_DATASET_COLUMNS
    && 1 <= |p.rows| <= MAX_DATASET_ROWS
    && NoRepeats(seq(|p.columns|, i requires 0 <= i < |p.columns| => p.columns[i].fieldId))
    && (forall r :: 0 <= r < |p.rows| ==> |p.rows[r]| == |p.columns|)
    && (forall r, c :: 0 <= r < |p.rows| && 0 <= c < |p.columns| && c < |p.rows[r]| ==>
          ValidCell(p.rows[r][c], p.columns[c].dataType))
  }

  const PAYLOAD_COLUMN_NAMES: seq<string> := ["field_id", "data_type"]

  lemma {:induction false} PayloadColumnNames()
    ensures DistinctNames(PAYLOAD_COLUMN_NAMES)
  {
    DistinctByMark(PAYLOAD_COLUMN_NAMES);
  }

  function PayloadColumnValues(c: PayloadColumn): (values: seq<Value>)
    ensures |values| == 2
  {
    [Str(c.fieldId), Str(Lit(TypeName(c.dataType)))]
  }

  function PayloadColumnProjection(c: PayloadColumn): Value {
    PayloadColumnNames();
    FieldsAreWellFormed(PAYLOAD_COLUMN_NAMES, PayloadColumnValues(c));
    Fields(PAYLOAD_COLUMN_NAMES, PayloadColumnValues(c))
  }

  function PayloadColumnsProjection(columns: seq<PayloadColumn>): Value {
    List(seq(|columns|, i requires 0 <= i < |columns| => PayloadColumnProjection(columns[i])))
  }

  function RowsProjection(rows: seq<seq<Value>>): Value {
    List(seq(|rows|, i requires 0 <= i < |rows| => List(rows[i])))
  }

  const PAYLOAD_NAMES: seq<string> := ["schema_version", "serialization", "columns", "rows"]

  lemma {:induction false} PayloadNames()
    ensures DistinctNames(PAYLOAD_NAMES)
  {
    DistinctByMark(PAYLOAD_NAMES);
  }

  function PayloadValues(p: DatasetPayload): (values: seq<Value>)
    ensures |values| == 4
  {
    [Whole(1), Str(Lit("dq-table-v1")), PayloadColumnsProjection(p.columns), RowsProjection(p.rows)]
  }

  function PayloadProjection(p: DatasetPayload): Value {
    PayloadNames();
    FieldsAreWellFormed(PAYLOAD_NAMES, PayloadValues(p));
    Fields(PAYLOAD_NAMES, PayloadValues(p))
  }

  function PayloadDigest(sha256: Bytes -> Text, p: DatasetPayload): Option<Text> {
    CanonicalHash.CanonicalHash(sha256, PayloadProjection(p), Lit(DATASET_PAYLOAD_HASH_DOMAIN))
  }

  lemma {:induction false} TypeIff(s: DataType, t: DataType)
    ensures Equiv(Str(Lit(TypeName(s))), Str(Lit(TypeName(t)))) <==> s == t
  {
    TextIff(Lit(TypeName(s)), Lit(TypeName(t)));
    if Lit(TypeName(s)) == Lit(TypeName(t)) {
      assert s != t ==> Mark(TypeName(s)) != Mark(TypeName(t));
      assert Lit(TypeName(s))[0] == Lit(TypeName(t))[0];
    }
  }

  lemma {:induction false} PayloadColumnIff(a: PayloadColumn, b: PayloadColumn)
    ensures Equiv(PayloadColumnProjection(a), PayloadColumnProjection(b)) <==> a == b
  {
    PayloadColumnNames();
    FieldsIff(PAYLOAD_COLUMN_NAMES, PayloadColumnValues(a), PayloadColumnValues(b));
    AllEquivOf2(PayloadColumnValues(a), PayloadColumnValues(b));
    TextIff(a.fieldId, b.fieldId);
    TypeIff(a.dataType, b.dataType);
  }

  lemma {:induction false} PayloadColumnsIff(a: seq<PayloadColumn>, b: seq<PayloadColumn>)
    ensures Equiv(PayloadColumnsProjection(a), PayloadColumnsProjection(b)) <==> a == b
  {
    var x, y := PayloadColumnsProjection(a).items, PayloadColumnsProjection(b).items;
    ListIff(x, y);
    forall i | 0 <= i < |a| && i < |b| ensures Equiv(x[i], y[i]) <==> a[i] == b[i] {
      PayloadColumnIff(a[i], b[i]);
    }
  }

  ghost predicate SameRows(a: seq<seq<Value>>, b: seq<seq<Value>>) {
    |a| == |b| && forall r :: 0 <= r < |a| ==> AllEquiv(a[r], b[r])
  }

  lemma {:induction false} RowsIff(a: seq<seq<Value>>, b: seq<seq<Value>>)
    ensures Equiv(RowsProjection(a), RowsProjection(b)) <==> SameRows(a, b)
  {
    var x, y := RowsProjection(a).items, RowsProjection(b).items;
    ListIff(x, y);
    forall r | 0 <= r < |a| && r < |b| ensures Equiv(x[r], y[r]) <==> AllEquiv(a[r], b[r]) {
      ListIff(a[r], b[r]);
    }
  }

  /** The same table: the same columns, and cells that are equal as canonical values. */
  ghost predicate SameTable(a: DatasetPayload, b: DatasetPayload) {
    a.columns == b.columns && SameRows(a.rows, b.rows)
  }

  lemma {:induction false} PayloadIff(a: DatasetPayload, b: DatasetPayload)
    ensures Equiv(PayloadProjection(a), PayloadProjection(b)) <==> SameTable(a, b)
  {
    PayloadNames();
    FieldsIff(PAYLOAD_NAMES, PayloadValues(a), PayloadValues(b));
    AllEquivOf4(PayloadValues(a), PayloadValues(b));
    WholeIff(1, 1);
    TextIff(Lit("dq-table-v1"), Lit("dq-table-v1"));
    PayloadColumnsIff(a.columns, b.columns);
    RowsIff(a.rows, b.rows);
  }

  /** Payload digests are equal exactly for the same table. */
  lemma {:induction false} PayloadDigestIff(sha256: Bytes -> Text, a: DatasetPayload, b: DatasetPayload)
    requires CollisionFree(sha256) && PayloadDigest(sha256, a).Some?
    ensures PayloadDigest(sha256, a) == PayloadDigest(sha256, b) <==> SameTable(a, b)
  {
    SameDomainIffEquiv(sha256, PayloadProjection(a), PayloadProjection(b), Lit(DATASET_PAYLOAD_HASH_DOMAIN));
    PayloadIff(a, b);
  }

  // ----- dataset records -----

  /** Where the rows came from; a CSV file has its delimiter and always a header. */
  datatype Source =
    | InlineRows(provenance: Value)
    | InlineJson(provenance: Value)
    | LocalCsv(delimiter: Text, provenance: Value)
    | LocalJson(provenance: Value)

  datatype EventCode =
    | JsonMissingFieldToNull
    | CsvEmptyFieldToNull
    | CsvNumberParsed
    | CsvIntegerParsed
    | CsvBooleanParsed
    | TimestampToCanonicalUtc

  function CodeName(c: EventCode): string {
    match c
    case JsonMissingFieldToNull => "json_missing_field_to_null"
    case CsvEmptyFieldToNull => "csv_empty_field_to_null"
    case CsvNumberParsed => "csv_number_parsed"
    case CsvIntegerParsed => "csv_integer_parsed"
    case CsvBooleanParsed => "csv_boolean_parsed"
    case TimestampToCanonicalUtc => "timestamp_to_canonical_utc"
  }

  datatype Event = Event(code: EventCode, fieldId: Text, count: nat)

  datatype RecordColumn = RecordColumn(sourceName: Text, fieldId: Text, dataType: DataType, role: Text,
                                       semanticPort: Value)

  datatype Bounds = Bounds(first: Text, last: Text)

  datatype DatasetRecord = DatasetRecord(
    payloadSha: Text, rawSourceSha: Text, source: Source, externalPreprocessing: Value, columns: seq<RecordColumn>,
    semantics: Value, rowCount: nat, columnCount: nat, bounds: Option<Bounds>, events: seq<Event>, normalizer: Value)

  const RECORD_NAMES: seq<string> := [
    "host_schema_version", "record_kind", "payload", "raw_source_sha256", "source", "external_preprocessing",
    "columns", "semantics", "row_count", "column_count", "observation_bounds", "normalization_events", "findings",
    "normalizer"]

  lemma {:induction false} RecordNames()
    ensures DistinctNames(RECORD_NAMES)
  {
    var n := RECORD_NAMES;
    assert Mark(n[0]) == (19, 'h', 'n') && Mark(n[1]) == (11, 'r', 'd')
        && Mark(n[2]) == (7, 'p', 'd') && Mark(n[3]) == (17, 'r', '6')
        && Mark(n[4]) == (6, 's', 'e') && Mark(n[5]) == (22, 'e', 'g')
        && Mark(n[6]) == (7, 'c', 's') && Mark(n[7]) == (9, 's', 's')
        && Mark(n[8]) == (9, 'r', 't') && Mark(n[9]) == (12, 'c', 't')
        && Mark(n[10]) == (18, 'o', 's') && Mark(n[11]) == (20, 'n', 's')
        && Mark(n[12]) == (8, 'f', 's') && Mark(n[13]) == (10, 'n', 'r');
    DistinctByMark(n);
  }

  const PAYLOAD_BINDING_NAMES: seq<string> := ["serialization", "sha256"]

  lemma {:induction false} PayloadBindingNames()
    ensures DistinctNames(PAYLOAD_BINDING_NAMES)
  {
    DistinctByMark(PAYLOAD_BINDING_NAMES);
  }

  function PayloadBindingValues(sha: Text): (values: seq<Value>)
    ensures |values| == 2
  {
    [Str(Lit("dq-table-v1")), Str(sha)]
  }

  function PayloadBindingProjection(sha: Text): Value {
    PayloadBindingNames();
    FieldsAreWellFormed(PAYLOAD_BINDING_NAMES, PayloadBindingValues(sha));
    Fields(PAYLOAD_BINDING_NAMES, PayloadBindingValues(sha))
  }

  lemma {:induction false} SourceNames()
    ensures DistinctNames(["kind", "provenance"])
    ensures DistinctNames(["kind", "format", "provenance"])
    ensures DistinctNames(["kind", "format", "csv", "provenance"])
  {
    DistinctByMark(["kind", "provenance"]);
    DistinctByMark(["kind", "format", "provenance"]);
    DistinctByMark(["kind", "format", "csv", "provenance"]);
  }

  const CSV_NAMES: seq<string> := ["delimiter", "header"]

  lemma {:induction false} CsvNames()
    ensures DistinctNames(CSV_NAMES)
  {
    DistinctByMark(CSV_NAMES);
  }

  function CsvValues(delimiter: Text): (values: seq<Value>)
    ensures |values| == 2
  {
    [Str(delimiter), Bool(true)]
  }

  function CsvProjection(delimiter: Text): Value {
    CsvNames();
    FieldsAreWellFormed(CSV_NAMES, CsvValues(delimiter));
    Fields(CSV_NAMES, CsvValues(delimiter))
  }

  function SourceFields(s: Source): (fields: (seq<string>, seq<Value>))
    ensures |fields.0| == |fields.1|
  {
    match s
    case InlineRows(provenance) => (["kind", "provenance"], [Str(Lit("inline_rows")), provenance])
    case InlineJson(provenance) => (["kind", "provenance"], [Str(Lit("inline_json")), provenance])
    case LocalCsv(delimiter, provenance) =>
      (["kind", "format", "csv", "provenance"],
       [Str(Lit("local_file")), Str(Lit("csv")), CsvProjection(delimiter), provenance])
    case LocalJson(provenance) =>
      (["kind", "format", "provenance"], [Str(Lit("local_file")), Str(Lit("json")), provenance])
  }

  /** `_record_source_projection`. */
  function SourceProjection(s: Source): Value {
    SourceNames();
    var (names, values) := SourceFields(s);
    FieldsAreWellFormed(names, values);
    Fields(names, values)
  }

  const COLUMN_NAMES: seq<string> := ["source_name", "field_id", "data_type", "role", "semantic_port"]

  lemma {:induction false} ColumnNames()
    ensures DistinctNames(COLUMN_NAMES)
  {
    DistinctByMark(COLUMN_NAMES);
  }

  function ColumnValues(c: RecordColumn): (values: seq<Value>)
    ensures |values| == 5
  {
    [Str(c.sourceName), Str(c.fieldId), Str(Lit(TypeName(c.dataType))), Str(c.role), c.semanticPort]
  }

  function ColumnProjection(c: RecordColumn): Value {
    ColumnNames();
    FieldsAreWellFormed(COLUMN_NAMES, ColumnValues(c));
    Fields(COLUMN_NAMES, ColumnValues(c))
  }

  const BOUNDS_NAMES: seq<string> := ["first", "last"]

  lemma {:induction false} BoundsNames()
    ensures DistinctNames(BOUNDS_NAMES)
  {
    DistinctByMark(BOUNDS_NAMES);
  }

  function BoundsValues(b: Bounds): (values: seq<Value>)
    ensures |values| == 2
  {
    [Str(b.first), Str(b.last)]
  }

  function BoundsProjection(b: Option<Bounds>): Value {
    match b
    case None => Null
    case Some(bounds) =>
      BoundsNames();
      FieldsAreWellFormed(BOUNDS_NAMES, BoundsValues(bounds));
      Fields(BOUNDS_NAMES, BoundsValues(bounds))
  }

  const EVENT_NAMES: seq<string> := ["code", "field_id", "count"]

  lemma {:induction false} EventNames()
    ensures DistinctNames(EVENT_NAMES)
  {
    assert Mark("code") != Mark("count");
    DistinctByMark(EVENT_NAMES);
  }

  function EventValues(e: Event): (values: seq<Value>)
    ensures |values| == 3
  {
    [Str(Lit(CodeName(e.code))), Str(e.fieldId), Whole(e.count)]
  }

  function EventProjection(e: Event): Value {
    EventNames();
    FieldsAreWellFormed(EVENT_NAMES, EventValues(e));
    Fields(EVENT_NAMES, EventValues(e))
  }

  function ColumnsProjection(columns: seq<RecordColumn>): Value {
    List(seq(|columns|, i requires 0 <= i < |columns| => ColumnProjection(columns[i])))
  }

  function EventsProjection(events: seq<Event>): Value {
    List(seq(|events|, i requires 0 <= i < |events| => EventProjection(events[i])))
  }

  function RecordIdentity(r: DatasetRecord): (values: seq<Value>)
    ensures |values| == 6
  {
    [Whole(1), Str(Lit("dataset")), PayloadBindingProjection(r.payloadSha), Str(r.rawSourceSha),
     SourceProjection(r.source), r.externalPreprocessing]
  }

  function RecordTable(r: DatasetRecord): (values: seq<Value>)
    ensures |values| == 8
  {
    [ColumnsProjection(r.columns), r.semantics, Whole(r.rowCount), Whole(r.columnCount), BoundsProjection(r.bounds),
     EventsProjection(r.events), List([]), r.normalizer]
  }

  function RecordValues(r: DatasetRecord): (values: seq<Value>)
    ensures |values| == 14
  {
    RecordIdentity(r) + RecordTable(r)
  }

  function DatasetProjection(r: DatasetRecord): Value {
    RecordNames();
    FieldsAreWellFormed(RECORD_NAMES, RecordValues(r));
    Fields(RECORD_NAMES, RecordValues(r))
  }

  datatype RecordKind = DatasetKind | OperationKind

  /** A version 1 content reference. */
  datatype Reference = Reference(kind: RecordKind, digest: Text)

  function ReferenceText(r: Reference): Text {
    (match r.kind case DatasetKind => Lit("dqds:v1:") case OperationKind => Lit("dqop:v1:")) + r.digest
  }

  lemma {:induction false} ReferenceTextIsInjective(a: Reference, b: Reference)
    requires ReferenceText(a) == ReferenceText(b)
    ensures a == b
  {
    var x, y := ReferenceText(a), ReferenceText(b);
    assert x[2] == y[2];
    assert x[8..] == a.digest && y[8..] == b.digest;
  }

  function DatasetReference(sha256: Bytes -> Text, r: DatasetRecord): Option<Reference> {
    match CanonicalHash.CanonicalHash(sha256, DatasetProjection(r), Lit(DATASET_RECORD_HASH_DOMAIN))
    case None => None
    case Some(digest) => Some(Reference(DatasetKind, digest))
  }

  predicate IsTimestampColumn(c: RecordColumn) {
    c.role == Lit("timestamp")
  }

  /** The index of the first timestamp-role column at or after `from`. */
  function TimestampIndex(columns: seq<RecordColumn>, from: nat): (i: Option<nat>)
    requires from <= |columns|
    ensures i.Some? ==> from <= i.value < |columns| && IsTimestampColumn(columns[i.value])
    ensures i.None? ==> forall k :: from <= k < |columns| ==> !IsTimestampColumn(columns[k])
    decreases |columns| - from
  {
    if from == |columns| then None
    else if IsTimestampColumn(columns[from]) then Some(from)
    else TimestampIndex(columns, from + 1)
  }

  /** The cells of one column that are not null, in row order. */
  function Observations(rows: seq<seq<Value>>, column: nat): seq<Value>
    requires forall r :: 0 <= r < |rows| ==> column < |rows[r]|
  {
    if rows == [] then []
    else (if rows[0][column].Null? then [] else [rows[0][column]]) + Observations(rows[1..], column)
  }

  /** The bounds a record gives are the ends of its timestamp column. */
  predicate BoundsMatch(columns: seq<RecordColumn>, b: Option<Bounds>, rows: seq<seq<Value>>)
    requires forall r :: 0 <= r < |rows| ==> |rows[r]| == |columns|
  {
    match TimestampIndex(columns, 0)
    case None => b.None?
    case Some(i) =>
      var seen := Observations(rows, i);
      && seen != [] && (forall k :: 0 <= k < |seen| ==> seen[k].Str?)
      && b == Some(Bounds(seen[0].s, seen[|seen| - 1].s))
  }

  /** `validate_payload` on a payload of rectangular shape. */
  predicate MatchesRecord(sha256: Bytes -> Text, record: DatasetRecord, p: DatasetPayload)
    requires forall r :: 0 <= r < |p.rows| ==> |p.rows[r]| == |p.columns|
  {
    && PayloadDigest(sha256, p) == Some(record.payloadSha)
    && |p.rows| == record.rowCount && |p.columns| == record.columnCount
    && |p.columns| == |record.columns|
    && (forall i :: 0 <= i < |p.columns| ==>
          p.columns[i] == PayloadColumn(record.columns[i].fieldId, record.columns[i].dataType))
    && BoundsMatch(record.columns, record.bounds, p.rows)
  }

  ghost predicate FirstTimestamp(columns: seq<RecordColumn>, i: nat) {
    && i < |columns| && columns[i].role == Lit("timestamp")
    && forall k: nat :: k < i ==> columns[k].role != Lit("timestamp")
  }

  /** The first value of a column that is not null. */
  ghost predicate IsFirst(rows: seq<seq<Value>>, i: nat, v: Value)
    requires forall r :: 0 <= r < |rows| ==> i < |rows[r]|
  {
    exists f: nat :: f < |rows| && rows[f][i] == v && !v.Null? && forall k: nat :: k < f ==> rows[k][i].Null?
  }

  ghost predicate IsLast(rows: seq<seq<Value>>, i: nat, v: Value)
    requires forall r :: 0 <= r < |rows| ==> i < |rows[r]|
  {
    exists l: nat :: l < |rows| && rows[l][i] == v && !v.Null? && forall k: nat :: l < k < |rows| ==> rows[k][i].Null?
  }

  ghost predicate InColumn(rows: seq<seq<Value>>, i: nat, v: Value)
    requires forall r :: 0 <= r < |rows| ==> i < |rows[r]|
  {
    exists r :: 0 <= r < |rows| && rows[r][i] == v
  }

  /** The first and the last value of a column that is not null are these texts, and between them stand
      texts and nulls only. */
  ghost predicate Spans(rows: seq<seq<Value>>, i: nat, b: Bounds)
    requires forall r :: 0 <= r < |rows| ==> i < |rows[r]|
  {
    && IsFirst(rows, i, Str(b.first)) && IsLast(rows, i, Str(b.last))
    && forall v :: InColumn(rows, i, v) ==> v.Null? || v.Str?
  }

  lemma {:induction false} FirstTimestampIs(columns: seq<RecordColumn>, from: nat)
    requires from <= |columns| && forall k: nat :: k < from ==> columns[k].role != Lit("timestamp")
    ensures var i := TimestampIndex(columns, from);
      && (i.Some? ==> FirstTimestamp(columns, i.value))
      && (i.None? ==> forall k: nat :: !FirstTimestamp(columns, k))
    decreases |columns| - from
  {
    if from < |columns| && !IsTimestampColumn(columns[from]) {
      FirstTimestampIs(columns, from + 1);
    }
  }

  lemma {:induction false} ObservationsAre(rows: seq<seq<Value>>, i: nat, v: Value)
    requires forall r :: 0 <= r < |rows| ==> i < |rows[r]|
    ensures v in Observations(rows, i) <==> InColumn(rows, i, v) && !v.Null?
  {
    if rows != [] {
      ObservationsAre(rows[1..], i, v);
      if InColumn(rows, i, v) && rows[0][i] != v {
        var r :| 0 <= r < |rows| && rows[r][i] == v;
        assert rows[1..][r - 1] == rows[r];
      }
      if InColumn(rows[1..], i, v) {
        var r :| 0 <= r < |rows[1..]| && rows[1..][r][i] == v;
        assert rows[r + 1][i] == v;
      }
    }
  }

  lemma {:induction false} FirstIs(rows: seq<seq<Value>>, i: nat)
    requires forall r :: 0 <= r < |rows| ==> i < |rows[r]|
    ensures Observations(rows, i) != [] ==> IsFirst(rows, i, Observations(rows, i)[0])
  {
    if rows != [] && rows[0][i].Null? && Observations(rows, i) != [] {
      var tail := rows[1..];
      FirstIs(tail, i);
      var v := Observations(tail, i)[0];
      var f: nat :| f < |tail| && tail[f][i] == v && !v.Null? && forall k: nat :: k < f ==> tail[k][i].Null?;
      forall k: nat | k < f + 1 ensures rows[k][i].Null? {
        assert k > 0 ==> tail[k - 1] == rows[k];
      }
      assert rows[f + 1][i] == v;
    }
  }

  lemma {:induction false} LastOfTail(rows: seq<seq<Value>>, i: nat, v: Value)
    requires rows != [] && forall r :: 0 <= r < |rows| ==> i < |rows[r]|
    requires IsLast(rows[1..], i, v)
    ensures IsLast(rows, i, v)
  {
    var tail := rows[1..];
    var l: nat :| l < |tail| && tail[l][i] == v && !v.Null? && forall k: nat :: l < k < |tail| ==> tail[k][i].Null?;
    forall k: nat | l + 1 < k < |rows| ensures rows[k][i].Null? {
      assert tail[k - 1] == rows[k];
    }
    assert rows[l + 1][i] == v;
  }

  lemma {:induction false} LastOfOne(rows: seq<seq<Value>>, i: nat)
    requires rows != [] && forall r :: 0 <= r < |rows| ==> i < |rows[r]|
    requires Observations(rows[1..], i) == [] && !rows[0][i].Null?
    ensures IsLast(rows, i, rows[0][i])
  {
    forall k: nat | 0 < k < |rows| ensures rows[k][i].Null? {
      assert rows[1..][k - 1] == rows[k];
      ObservationsAre(rows[1..], i, rows[k][i]);
    }
  }

  lemma {:induction false} LastIs(rows: seq<seq<Value>>, i: nat)
    requires forall r :: 0 <= r < |rows| ==> i < |rows[r]|
    ensures var seen := Observations(rows, i); seen != [] ==> IsLast(rows, i, seen[|seen| - 1])
  {
    if rows != [] {
      LastIs(rows[1..], i);
      var rest := Observations(rows[1..], i);
      if rest != [] {
        LastOfTail(rows, i, rest[|rest| - 1]);
      } else if !rows[0][i].Null? {
        LastOfOne(rows, i);
      }
    }
  }

  lemma {:induction false} OneFirstOneLast(rows: seq<seq<Value>>, i: nat, v: Value, w: Value)
    requires forall r :: 0 <= r < |rows| ==> i < |rows[r]|
    ensures IsFirst(rows, i, v) && IsFirst(rows, i, w) ==> v == w
    ensures IsLast(rows, i, v) && IsLast(rows, i, w) ==> v == w
  {
  }

  lemma {:induction false} SpansIff(rows: seq<seq<Value>>, i: nat, b: Bounds)
    requires forall r :: 0 <= r < |rows| ==> i < |rows[r]|
    ensures var seen := Observations(rows, i);
      Spans(rows, i, b) <==>
        && seen != [] && (forall k :: 0 <= k < |seen| ==> seen[k].Str?)
        && b == Bounds(seen[0].s, seen[|seen| - 1].s)
  {
    var seen := Observations(rows, i);
    FirstIs(rows, i);
    LastIs(rows, i);
    forall v ensures v in seen <==> InColumn(rows, i, v) && !v.Null? {
      ObservationsAre(rows, i, v);
    }
    assert Spans(rows, i, b) ==> InColumn(rows, i, Str(b.first));
    if seen != [] {
      OneFirstOneLast(rows, i, seen[0], Str(b.first));
      OneFirstOneLast(rows, i, seen[|seen| - 1], Str(b.last));
      assert forall k :: 0 <= k < |seen| ==> seen[k] in seen;
    }
  }

  lemma {:induction false} BoundsMatchIff(columns: seq<RecordColumn>, b: Option<Bounds>, rows: seq<seq<Value>>)
    requires forall r :: 0 <= r < |rows| ==> |rows[r]| == |columns|
    ensures BoundsMatch(columns, b, rows) <==>
              && (b.None? <==> forall i: nat :: !FirstTimestamp(columns, i))
              && (forall i: nat :: b.Some? && FirstTimestamp(columns, i) ==> Spans(rows, i, b.value))
  {
    FirstTimestampIs(columns, 0);
    var found := TimestampIndex(columns, 0);
    if b.Some? && found.Some? {
      SpansIff(rows, found.value, b.value);
      assert forall i: nat :: FirstTimestamp(columns, i) ==> i == found.value;
    }
  }

  /** A payload is a record's exactly when its digest, its size and its columns are the record's, and the
      record's bounds are the ends of the first timestamp column, or absent without one. */
  lemma {:induction false} MatchesIff(sha256: Bytes -> Text, record: DatasetRecord, p: DatasetPayload)
    requires forall r :: 0 <= r < |p.rows| ==> |p.rows[r]| == |p.columns|
    ensures MatchesRecord(sha256, record, p) <==>
              && PayloadDigest(sha256, p) == Some(record.payloadSha)
              && |p.rows| == record.rowCount && |p.columns| == record.columnCount == |record.columns|
              && (forall i :: 0 <= i < |p.columns| ==>
                    && p.columns[i].fieldId == record.columns[i].fieldId
                    && p.columns[i].dataType == record.columns[i].dataType)
              && (record.bounds.None? <==> forall i: nat :: !FirstTimestamp(record.columns, i))
              && (forall i: nat :: record.bounds.Some? && FirstTimestamp(record.columns, i) ==>
                    Spans(p.rows, i, record.bounds.value))
  {
    if |p.columns| == |record.columns| {
      BoundsMatchIff(record.columns, record.bounds, p.rows);
    }
  }

  // ----- when two dataset records are the same -----

  ghost predicate SameSource(s: Source, t: Source) {
    match s
    case InlineRows(provenance) => t.InlineRows? && Equiv(provenance, t.provenance)
    case InlineJson(provenance) => t.InlineJson? && Equiv(provenance, t.provenance)
    case LocalCsv(delimiter, provenance) => t.LocalCsv? && delimiter == t.delimiter && Equiv(provenance, t.provenance)
    case LocalJson(provenance) => t.LocalJson? && Equiv(provenance, t.provenance)
  }

  ghost predicate SameColumn(a: RecordColumn, b: RecordColumn) {
    && a.sourceName == b.sourceName && a.fieldId == b.fieldId && a.dataType == b.dataType && a.role == b.role
    && Equiv(a.semanticPort, b.semanticPort)
  }

  ghost predicate SameColumns(a: seq<RecordColumn>, b: seq<RecordColumn>) {
    |a| == |b| && forall i :: 0 <= i < |a| ==> SameColumn(a[i], b[i])
  }

  /** Two records agree in every field: JSON values as canonical values, everything else outright. */
  ghost predicate SameRecord(a: DatasetRecord, b: DatasetRecord) {
    && a.payloadSha == b.payloadSha && a.rawSourceSha == b.rawSourceSha && SameSource(a.source, b.source)
    && Equiv(a.externalPreprocessing, b.externalPreprocessing)
    && SameColumns(a.columns, b.columns) && Equiv(a.semantics, b.semantics)
    && a.rowCount == b.rowCount && a.columnCount == b.columnCount && a.bounds == b.bounds && a.events == b.events
    && Equiv(a.normalizer, b.normalizer)
  }

  lemma {:induction false} PayloadBindingIff(a: Text, b: Text)
    ensures Equiv(PayloadBindingProjection(a), PayloadBindingProjection(b)) <==> a == b
  {
    PayloadBindingNames();
    FieldsIff(PAYLOAD_BINDING_NAMES, PayloadBindingValues(a), PayloadBindingValues(b));
    AllEquivOf2(PayloadBindingValues(a), PayloadBindingValues(b));
    TextIff(Lit("dq-table-v1"), Lit("dq-table-v1"));
    TextIff(a, b);
  }

  lemma {:induction false} CsvIff(a: Text, b: Text)
    ensures Equiv(CsvProjection(a), CsvProjection(b)) <==> a == b
  {
    CsvNames();
    FieldsIff(CSV_NAMES, CsvValues(a), CsvValues(b));
    AllEquivOf2(CsvValues(a), CsvValues(b));
    TextIff(a, b);
    FlagIff(true, true);
  }

  lemma {:induction false} DifferentSizes(names: seq<string>, a: seq<Value>, others: seq<string>, b: seq<Value>)
    requires |names| == |a| && |others| == |b| && |a| != |b|
    ensures !Equiv(Fields(names, a), Fields(others, b))
  {
  }

  lemma {:induction false} SourceFieldsIff(s: Source, t: Source)
    requires SourceFields(s).0 == SourceFields(t).0
    ensures AllEquiv(SourceFields(s).1, SourceFields(t).1) <==> SameSource(s, t)
  {
    var x, y := SourceFields(s).1, SourceFields(t).1;
    TextIff(Lit("local_file"), Lit("local_file"));
    TextIff(Lit("csv"), Lit("csv"));
    TextIff(Lit("json"), Lit("json"));
    if |x| == 2 {
      AllEquivOf2(x, y);
      InlineKindsDiffer();
    } else if |x| == 3 {
      AllEquivOf3(x, y);
    } else {
      AllEquivOf4(x, y);
      CsvIff(s.delimiter, t.delimiter);
    }
  }

  lemma {:induction false} InlineKindsDiffer()
    ensures Equiv(Str(Lit("inline_rows")), Str(Lit("inline_rows")))
    ensures Equiv(Str(Lit("inline_json")), Str(Lit("inline_json")))
    ensures !Equiv(Str(Lit("inline_rows")), Str(Lit("inline_json")))
    ensures !Equiv(Str(Lit("inline_json")), Str(Lit("inline_rows")))
  {
    assert Lit("inline_rows")[7] == 'r' as int && Lit("inline_json")[7] == 'j' as int;
  }

  lemma {:induction false} SourceIff(s: Source, t: Source)
    ensures Equiv(SourceProjection(s), SourceProjection(t)) <==> SameSource(s, t)
  {
    SourceNames();
    var (names, x) := SourceFields(s);
    var (others, y) := SourceFields(t);
    if |names| == |others| {
      FieldsIff(names, x, y);
      SourceFieldsIff(s, t);
    } else {
      DifferentSizes(names, x, others, y);
    }
  }

  lemma {:induction false} ColumnIff(a: RecordColumn, b: RecordColumn)
    ensures Equiv(ColumnProjection(a), ColumnProjection(b)) <==> SameColumn(a, b)
  {
    ColumnNames();
    FieldsIff(COLUMN_NAMES, ColumnValues(a), ColumnValues(b));
    AllEquivOf5(ColumnValues(a), ColumnValues(b));
    TextIff(a.sourceName, b.sourceName);
    TextIff(a.fieldId, b.fieldId);
    TypeIff(a.dataType, b.dataType);
    TextIff(a.role, b.role);
  }

  lemma {:induction false} ColumnsIff(a: seq<RecordColumn>, b: seq<RecordColumn>)
    ensures Equiv(ColumnsProjection(a), ColumnsProjection(b)) <==> SameColumns(a, b)
  {
    var x, y := ColumnsProjection(a).items, ColumnsProjection(b).items;
    ListIff(x, y);
    forall i | 0 <= i < |a| && i < |b| ensures Equiv(x[i], y[i]) <==> SameColumn(a[i], b[i]) {
      ColumnIff(a[i], b[i]);
    }
  }

  lemma {:induction false} BoundsIff(a: Option<Bounds>, b: Option<Bounds>)
    ensures Equiv(BoundsProjection(a), BoundsProjection(b)) <==> a == b
  {
    if a.Some? && b.Some? {
      BoundsNames();
      FieldsIff(BOUNDS_NAMES, BoundsValues(a.value), BoundsValues(b.value));
      AllEquivOf2(BoundsValues(a.value), BoundsValues(b.value));
      TextIff(a.value.first, b.value.first);
      TextIff(a.value.last, b.value.last);
    }
  }

  lemma {:induction false} CodesDiffer(a: EventCode, b: EventCode)
    requires a != b
    ensures var x, y := CodeName(a), CodeName(b);
      |x| > 4 && |y| > 4 && (|x| != |y| || x[0] != y[0] || x[4] != y[4])
  {
  }

  lemma {:induction false} CodeIff(a: EventCode, b: EventCode)
    ensures Equiv(Str(Lit(CodeName(a))), Str(Lit(CodeName(b)))) <==> a == b
  {
    TextIff(Lit(CodeName(a)), Lit(CodeName(b)));
    if a != b {
      CodesDiffer(a, b);
      assert |Lit(CodeName(a))| == |CodeName(a)| && |Lit(CodeName(b))| == |CodeName(b)|;
      assert Lit(CodeName(a))[0] == CodeName(a)[0] as int && Lit(CodeName(b))[0] == CodeName(b)[0] as int;
      assert Lit(CodeName(a))[4] == CodeName(a)[4] as int && Lit(CodeName(b))[4] == CodeName(b)[4] as int;
    }
  }

  lemma {:induction false} EventIff(a: Event, b: Event)
    ensures Equiv(EventProjection(a), EventProjection(b)) <==> a == b
  {
    EventNames();
    FieldsIff(EVENT_NAMES, EventValues(a), EventValues(b));
    AllEquivOf3(EventValues(a), EventValues(b));
    CodeIff(a.code, b.code);
    TextIff(a.fieldId, b.fieldId);
    WholeIff(a.count, b.count);
  }

  lemma {:induction false} EventsIff(a: seq<Event>, b: seq<Event>)
    ensures Equiv(EventsProjection(a), EventsProjection(b)) <==> a == b
  {
    var x, y := EventsProjection(a).items, EventsProjection(b).items;
    ListIff(x, y);
    forall i | 0 <= i < |a| && i < |b| ensures Equiv(x[i], y[i]) <==> a[i] == b[i] {
      EventIff(a[i], b[i]);
    }
  }

  lemma {:induction false} RecordIdentityIff(a: DatasetRecord, b: DatasetRecord)
    ensures AllEquiv(RecordIdentity(a), RecordIdentity(b)) <==>
              && a.payloadSha == b.payloadSha && a.rawSourceSha == b.rawSourceSha && SameSource(a.source, b.source)
              && Equiv(a.externalPreprocessing, b.externalPreprocessing)
  {
    AllEquivOf6(RecordIdentity(a), RecordIdentity(b));
    WholeIff(1, 1);
    TextIff(Lit("dataset"), Lit("dataset"));
    PayloadBindingIff(a.payloadSha, b.payloadSha);
    TextIff(a.rawSourceSha, b.rawSourceSha);
    SourceIff(a.source, b.source);
  }

  lemma {:induction false} RecordTableIff(a: DatasetRecord, b: DatasetRecord)
    ensures AllEquiv(RecordTable(a), RecordTable(b)) <==>
              && SameColumns(a.columns, b.columns) && Equiv(a.semantics, b.semantics)
              && a.rowCount == b.rowCount && a.columnCount == b.columnCount
              && a.bounds == b.bounds && a.events == b.events && Equiv(a.normalizer, b.normalizer)
  {
    AllEquivOf8(RecordTable(a), RecordTable(b));
    ColumnsIff(a.columns, b.columns);
    WholeIff(a.rowCount, b.rowCount);
    WholeIff(a.columnCount, b.columnCount);
    BoundsIff(a.bounds, b.bounds);
    EventsIff(a.events, b.events);
    ListIff([], []);
  }

  /** The projection that is hashed is canonically equal exactly for records that agree in every field. */
  lemma {:induction false} RecordIff(a: DatasetRecord, b: DatasetRecord)
    ensures Equiv(DatasetProjection(a), DatasetProjection(b)) <==> SameRecord(a, b)
  {
    RecordNames();
    FieldsIff(RECORD_NAMES, RecordValues(a), RecordValues(b));
    AllEquivAppend(RecordIdentity(a), RecordIdentity(b), RecordTable(a), RecordTable(b));
    RecordIdentityIff(a, b);
    RecordTableIff(a, b);
  }

  /** One reference stands for exactly the records that agree in every field. */
  lemma {:induction false} DatasetReferenceIff(sha256: Bytes -> Text, a: DatasetRecord, b: DatasetRecord)
    requires CollisionFree(sha256) && DatasetReference(sha256, a).Some?
    ensures DatasetReference(sha256, a) == DatasetReference(sha256, b) <==> SameRecord(a, b)
  {
    SameDomainIffEquiv(sha256, DatasetProjection(a), DatasetProjection(b), Lit(DATASET_RECORD_HASH_DOMAIN));
    RecordIff(a, b);
  }

  // ----- operation records -----

  datatype MemberKind = NormalizedInput | ResultMember | ArtifactMember

  function KindName(k: MemberKind): string {
    match k case NormalizedInput => "normalized_input" case ResultMember => "result" case ArtifactMember => "artifact"
  }

  datatype OperationMember = OperationMember(kind: MemberKind, path: Text, sha256: Text, size: nat)

  datatype FieldMapping = FieldMapping(sourceField: Text, inputField: Text)

  datatype BindingSource = BindingSource(ref: Reference, mappings: seq<FieldMapping>)

  datatype Binding = Binding(literals: Object, source: Option<BindingSource>)

  datatype Renderer = Renderer(name: Text, version: Text)

  /** What a record copies from its manifest without looking inside. */
  datatype Head = Head(protocolVersion: Text, component: Value, operationHash: Text, runner: Value)

  datatype OperationRecord = OperationRecord(
    head: Head, manifestSha: Text, members: seq<OperationMember>, renderers: seq<Renderer>, binding: Binding,
    compatibility: seq<Value>)

  const OPERATION_NAMES: seq<string> := [
    "host_schema_version", "record_kind", "host_binding_version", "execution_mode", "protocol_version", "component",
    "operation_hash", "manifest_sha256", "members", "runner", "renderers", "binding", "compatibility"]

  lemma {:induction false} OperationNames()
    ensures DistinctNames(OPERATION_NAMES)
  {
    var n := OPERATION_NAMES;
    assert Mark(n[0]) == (19, 'h', 'n') && Mark(n[1]) == (11, 'r', 'd')
        && Mark(n[2]) == (20, 'h', 'n') && Mark(n[3]) == (14, 'e', 'e')
        && Mark(n[4]) == (16, 'p', 'n') && Mark(n[5]) == (9, 'c', 't')
        && Mark(n[6]) == (14, 'o', 'h') && Mark(n[7]) == (15, 'm', '6')
        && Mark(n[8]) == (7, 'm', 's') && Mark(n[9]) == (6, 'r', 'r')
        && Mark(n[10]) == (9, 'r', 's') && Mark(n[11]) == (7, 'b', 'g')
        && Mark(n[12]) == (13, 'c', 'y');
    DistinctByMark(n);
  }

  const MEMBER_NAMES: seq<string> := ["kind", "path", "sha256", "size_bytes"]

  lemma {:induction false} MemberNames()
    ensures DistinctNames(MEMBER_NAMES)
  {
    DistinctByMark(MEMBER_NAMES);
  }

  function MemberValues(m: OperationMember): (values: seq<Value>)
    ensures |values| == 4
  {
    [Str(Lit(KindName(m.kind))), Str(m.path), Str(m.sha256), Whole(m.size)]
  }

  function MemberProjection(m: OperationMember): Value {
    MemberNames();
    FieldsAreWellFormed(MEMBER_NAMES, MemberValues(m));
    Fields(MEMBER_NAMES, MemberValues(m))
  }

  const MAPPING_NAMES: seq<string> := ["source_field", "input_field"]

  lemma {:induction false} MappingNames()
    ensures DistinctNames(MAPPING_NAMES)
  {
    DistinctByMark(MAPPING_NAMES);
  }

  function MappingValues(m: FieldMapping): (values: seq<Value>)
    ensures |values| == 2
  {
    [Str(m.sourceField), Str(m.inputField)]
  }

  function MappingProjection(m: FieldMapping): Value {
    MappingNames();
    FieldsAreWellFormed(MAPPING_NAMES, MappingValues(m));
    Fields(MAPPING_NAMES, MappingValues(m))
  }

  function MappingsProjection(mappings: seq<FieldMapping>): Value {
    List(seq(|mappings|, i requires 0 <= i < |mappings| => MappingProjection(mappings[i])))
  }

  function ReferenceKindName(k: RecordKind): string {
    match k case DatasetKind => "dataset" case OperationKind => "operation"
  }

  const BINDING_SOURCE_NAMES: seq<string> := ["kind", "ref", "mappings"]

  lemma {:induction false} BindingSourceNames()
    ensures DistinctNames(BINDING_SOURCE_NAMES)
  {
    DistinctByMark(BINDING_SOURCE_NAMES);
  }

  function BindingSourceValues(s: BindingSource): (values: seq<Value>)
    ensures |values| == 3
  {
    [Str(Lit(ReferenceKindName(s.ref.kind))), Str(ReferenceText(s.ref)), MappingsProjection(s.mappings)]
  }

  function BindingSourceProjection(s: BindingSource): Value {
    BindingSourceNames();
    FieldsAreWellFormed(BINDING_SOURCE_NAMES, BindingSourceValues(s));
    Fields(BINDING_SOURCE_NAMES, BindingSourceValues(s))
  }

  const BINDING_NAMES: seq<string> := ["literals", "source"]

  lemma {:induction false} BindingNames()
    ensures DistinctNames(BINDING_NAMES) && DistinctNames(BINDING_NAMES[..1])
  {
    DistinctByMark(BINDING_NAMES);
    DistinctByMark(BINDING_NAMES[..1]);
  }

  function BindingValues(b: Binding): (values: seq<Value>)
    ensures |values| == if b.source.None? then 1 else 2
  {
    match b.source case None => [b.literals] case Some(s) => [b.literals, BindingSourceProjection(s)]
  }

  /** A binding without a source has no member for it. */
  function BindingProjection(b: Binding): Value {
    BindingNames();
    var names := BINDING_NAMES[..|BindingValues(b)|];
    FieldsAreWellFormed(names, BindingValues(b));
    Fields(names, BindingValues(b))
  }

  const RENDERER_NAMES: seq<string> := ["name", "version"]

  lemma {:induction false} RendererNames()
    ensures DistinctNames(RENDERER_NAMES)
  {
    DistinctByMark(RENDERER_NAMES);
  }

  function RendererValues(r: Renderer): (values: seq<Value>)
    ensures |values| == 2
  {
    [Str(r.name), Str(r.version)]
  }

  function RendererProjection(r: Renderer): Value {
    RendererNames();
    FieldsAreWellFormed(RENDERER_NAMES, RendererValues(r));
    Fields(RENDERER_NAMES, RendererValues(r))
  }

  function MembersProjection(members: seq<OperationMember>): Value {
    List(seq(|members|, i requires 0 <= i < |members| => MemberProjection(members[i])))
  }

  function RenderersProjection(renderers: seq<Renderer>): Value {
    List(seq(|renderers|, i requires 0 <= i < |renderers| => RendererProjection(renderers[i])))
  }

  function OperationIdentity(r: OperationRecord): (values: seq<Value>)
    ensures |values| == 8
  {
    [Whole(1), Str(Lit("operation")), Whole(1), Str(Lit("unmanaged")), Str(r.head.protocolVersion), r.head.component,
     Str(r.head.operationHash), Str(r.manifestSha)]
  }

  function OperationDetails(r: OperationRecord): (values: seq<Value>)
    ensures |values| == 5
  {
    [MembersProjection(r.members), r.head.runner, RenderersProjection(r.renderers), BindingProjection(r.binding),
     List(r.compatibility)]
  }

  function OperationValues(r: OperationRecord): (values: seq<Value>)
    ensures |values| == 13
  {
    OperationIdentity(r) + OperationDetails(r)
  }

  function OperationProjection(r: OperationRecord): Value {
    OperationNames();
    FieldsAreWellFormed(OPERATION_NAMES, OperationValues(r));
    Fields(OPERATION_NAMES, OperationValues(r))
  }

  function OperationReference(sha256: Bytes -> Text, r: OperationRecord): Option<Reference> {
    match CanonicalHash.CanonicalHash(sha256, OperationProjection(r), Lit(OPERATION_RECORD_HASH_DOMAIN))
    case None => None
    case Some(digest) => Some(Reference(OperationKind, digest))
  }

  // ----- when two operation records are the same -----

  ghost predicate SameBinding(a: Binding, b: Binding) {
    Equiv(a.literals, b.literals) && a.source == b.source
  }

  /** Two records agree in every field: JSON values as canonical values, everything else outright. */
  ghost predicate SameOperation(a: OperationRecord, b: OperationRecord) {
    && a.head.protocolVersion == b.head.protocolVersion && Equiv(a.head.component, b.head.component)
    && a.head.operationHash == b.head.operationHash && a.manifestSha == b.manifestSha
    && a.members == b.members && Equiv(a.head.runner, b.head.runner) && a.renderers == b.renderers
    && SameBinding(a.binding, b.binding) && AllEquiv(a.compatibility, b.compatibility)
  }

  lemma {:induction false} KindIff(a: MemberKind, b: MemberKind)
    ensures Equiv(Str(Lit(KindName(a))), Str(Lit(KindName(b)))) <==> a == b
  {
    var x, y := KindName(a), KindName(b);
    TextIff(Lit(x), Lit(y));
    if Lit(x) == Lit(y) {
      assert a != b ==> |x| != |y|;
      assert |Lit(x)| == |x| && |Lit(y)| == |y|;
    }
  }

  lemma {:induction false} MemberIff(a: OperationMember, b: OperationMember)
    ensures Equiv(MemberProjection(a), MemberProjection(b)) <==> a == b
  {
    MemberNames();
    FieldsIff(MEMBER_NAMES, MemberValues(a), MemberValues(b));
    AllEquivOf4(MemberValues(a), MemberValues(b));
    KindIff(a.kind, b.kind);
    TextIff(a.path, b.path);
    TextIff(a.sha256, b.sha256);
    WholeIff(a.size, b.size);
  }

  lemma {:induction false} MembersIff(a: seq<OperationMember>, b: seq<OperationMember>)
    ensures Equiv(MembersProjection(a), MembersProjection(b)) <==> a == b
  {
    var x, y := MembersProjection(a).items, MembersProjection(b).items;
    ListIff(x, y);
    forall i | 0 <= i < |a| && i < |b| ensures Equiv(x[i], y[i]) <==> a[i] == b[i] {
      MemberIff(a[i], b[i]);
    }
  }

  lemma {:induction false} RendererIff(a: Renderer, b: Renderer)
    ensures Equiv(RendererProjection(a), RendererProjection(b)) <==> a == b
  {
    RendererNames();
    FieldsIff(RENDERER_NAMES, RendererValues(a), RendererValues(b));
    AllEquivOf2(RendererValues(a), RendererValues(b));
    TextIff(a.name, b.name);
    TextIff(a.version, b.version);
  }

  lemma {:induction false} RenderersIff(a: seq<Renderer>, b: seq<Renderer>)
    ensures Equiv(RenderersProjection(a), RenderersProjection(b)) <==> a == b
  {
    var x, y := RenderersProjection(a).items, RenderersProjection(b).items;
    ListIff(x, y);
    forall i | 0 <= i < |a| && i < |b| ensures Equiv(x[i], y[i]) <==> a[i] == b[i] {
      RendererIff(a[i], b[i]);
    }
  }

  lemma {:induction false} MappingIff(a: FieldMapping, b: FieldMapping)
    ensures Equiv(MappingProjection(a), MappingProjection(b)) <==> a == b
  {
    MappingNames();
    FieldsIff(MAPPING_NAMES, MappingValues(a), MappingValues(b));
    AllEquivOf2(MappingValues(a), MappingValues(b));
    TextIff(a.sourceField, b.sourceField);
    TextIff(a.inputField, b.inputField);
  }

  lemma {:induction false} MappingsIff(a: seq<FieldMapping>, b: seq<FieldMapping>)
    ensures Equiv(MappingsProjection(a), MappingsProjection(b)) <==> a == b
  {
    var x, y := MappingsProjection(a).items, MappingsProjection(b).items;
    ListIff(x, y);
    forall i | 0 <= i < |a| && i < |b| ensures Equiv(x[i], y[i]) <==> a[i] == b[i] {
      MappingIff(a[i], b[i]);
    }
  }

  lemma {:induction false} ReferenceIff(a: Reference, b: Reference)
    ensures Equiv(Str(ReferenceText(a)), Str(ReferenceText(b))) <==> a == b
  {
    TextIff(ReferenceText(a), ReferenceText(b));
    if ReferenceText(a) == ReferenceText(b) {
      ReferenceTextIsInjective(a, b);
    }
  }

  lemma {:induction false} BindingSourceIff(a: BindingSource, b: BindingSource)
    ensures Equiv(BindingSourceProjection(a), BindingSourceProjection(b)) <==> a == b
  {
    BindingSourceNames();
    FieldsIff(BINDING_SOURCE_NAMES, BindingSourceValues(a), BindingSourceValues(b));
    AllEquivOf3(BindingSourceValues(a), BindingSourceValues(b));
    TextIff(Lit(ReferenceKindName(a.ref.kind)), Lit(ReferenceKindName(b.ref.kind)));
    ReferenceIff(a.ref, b.ref);
    MappingsIff(a.mappings, b.mappings);
  }

  lemma {:induction false} BindingIff(a: Binding, b: Binding)
    ensures Equiv(BindingProjection(a), BindingProjection(b)) <==> SameBinding(a, b)
  {
    BindingNames();
    var x, y := BindingValues(a), BindingValues(b);
    if |x| != |y| {
      DifferentSizes(BINDING_NAMES[..|x|], x, BINDING_NAMES[..|y|], y);
    } else {
      assert BINDING_NAMES[..2] == BINDING_NAMES;
      FieldsIff(BINDING_NAMES[..|x|], x, y);
      if a.source.Some? {
        AllEquivOf2(x, y);
        BindingSourceIff(a.source.value, b.source.value);
      } else {
        assert AllEquiv(x, y) <==> Equiv(x[0], y[0]);
      }
    }
  }

  lemma {:induction false} OperationKindIff(a: OperationRecord, b: OperationRecord)
    ensures AllEquiv(OperationIdentity(a)[..4], OperationIdentity(b)[..4])
  {
    AllEquivOf4(OperationIdentity(a)[..4], OperationIdentity(b)[..4]);
    WholeIff(1, 1);
    TextIff(Lit("operation"), Lit("operation"));
    TextIff(Lit("unmanaged"), Lit("unmanaged"));
  }

  lemma {:induction false} OperationIdentityIff(a: OperationRecord, b: OperationRecord)
    ensures AllEquiv(OperationIdentity(a), OperationIdentity(b)) <==>
              && a.head.protocolVersion == b.head.protocolVersion && Equiv(a.head.component, b.head.component)
              && a.head.operationHash == b.head.operationHash && a.manifestSha == b.manifestSha
  {
    var x, y := OperationIdentity(a), OperationIdentity(b);
    assert x == x[..4] + x[4..] && y == y[..4] + y[4..];
    AllEquivAppend(x[..4], y[..4], x[4..], y[4..]);
    OperationKindIff(a, b);
    AllEquivOf4(x[4..], y[4..]);
    TextIff(a.head.protocolVersion, b.head.protocolVersion);
    TextIff(a.head.operationHash, b.head.operationHash);
    TextIff(a.manifestSha, b.manifestSha);
  }

  lemma {:induction false} OperationDetailsIff(a: OperationRecord, b: OperationRecord)
    ensures AllEquiv(OperationDetails(a), OperationDetails(b)) <==>
              && a.members == b.members && Equiv(a.head.runner, b.head.runner) && a.renderers == b.renderers
              && SameBinding(a.binding, b.binding) && AllEquiv(a.compatibility, b.compatibility)
  {
    AllEquivOf5(OperationDetails(a), OperationDetails(b));
    MembersIff(a.members, b.members);
    RenderersIff(a.renderers, b.renderers);
    BindingIff(a.binding, b.binding);
    ListIff(a.compatibility, b.compatibility);
  }

  /** The projection that is hashed is canonically equal exactly for records that agree in every field. */
  lemma {:induction false} OperationIff(a: OperationRecord, b: OperationRecord)
    ensures Equiv(OperationProjection(a), OperationProjection(b)) <==> SameOperation(a, b)
  {
    OperationNames();
    FieldsIff(OPERATION_NAMES, OperationValues(a), OperationValues(b));
    AllEquivAppend(OperationIdentity(a), OperationIdentity(b), OperationDetails(a), OperationDetails(b));
    OperationIdentityIff(a, b);
    OperationDetailsIff(a, b);
  }

  /** One reference stands for exactly the records that agree in every field. */
  lemma {:induction false} OperationReferenceIff(sha256: Bytes -> Text, a: OperationRecord, b: OperationRecord)
    requires CollisionFree(sha256) && OperationReference(sha256, a).Some?
    ensures OperationReference(sha256, a) == OperationReference(sha256, b) <==> SameOperation(a, b)
  {
    SameDomainIffEquiv(sha256, OperationProjection(a), OperationProjection(b), Lit(OPERATION_RECORD_HASH_DOMAIN));
    OperationIff(a, b);
  }
}
