/** The dataset normaliser and its event ledger (shared/dataset_registry.py), and the independent
    validator the ledger must pass (shared/data_records.py). */
module Normalizer {
  import opened Foundations
  import Utf8
  import opened Binary64
  import opened CanonicalJson
  import opened JsonObjects
  import opened DataRecords
  import CanonicalTimestamp

  const MAX_LEDGER: nat := 768

  /** The number patterns with Python's `int` and `float`, and the normaliser of timestamps: each None
      where the text is refused. */
  datatype Lexer = Lexer(integer: Text -> Option<int>, number: Text -> Option<Value>, timestamp: Text -> Option<Text>)

  datatype Fault =
    | InvalidUnicode
    | DecodedCellBytes(actual: nat)
    | InvalidBooleanCell
    | InvalidIntegerCell
    | InvalidNumberCell
    | InvalidStringCell
    | InvalidTimestamp
    | DuplicateColumn
    | InvalidCsvSource
    | InvalidCsvHeader
    | InvalidCsvRowWidth
    | JsonRowNotObject
    | UndeclaredSourceField
    | EmptyDataset
    | DatasetRows(actual: nat)

  datatype Column = Column(sourceName: Text, fieldId: Text, dataType: DataType)

  datatype JsonRow = NotAnObject | Row(members: seq<(Text, Value)>)

  datatype Rows = Csv(lines: seq<seq<Text>>) | Objects(rows: seq<JsonRow>)

  /** A normalized cell with what happened to it: an event, and a rewritten timestamp. */
  datatype Cell = Cell(value: Value, event: Option<EventCode>, changed: bool)

  predicate Causes(c: Cell, code: EventCode) {
    c.event == Some(code) || (c.changed && code == TimestampToCanonicalUtc)
  }

  // ----- cells -----

  function CheckSize(t: Text): Option<Fault> {
    if !Utf8.Encodable(t) then Some(InvalidUnicode)
    else if |Utf8.Encode(t)| > MAX_CELL_BYTES then Some(DecodedCellBytes(|Utf8.Encode(t)|))
    else None
  }

  /** `_json_cell`; what is not changed keeps its value. */
  function JsonCell(lex: Lexer, v: Value, t: DataType): Result<Cell, Fault> {
    if v.Null? then Ok(Cell(Null, None, false))
    else
      match t
      case BooleanType => if v.Bool? then Ok(Cell(v, None, false)) else Err(InvalidBooleanCell)
      case IntegerType =>
        if v.Num? && v.x.Int? && Abs(v.x.n) <= MAX_SAFE_INTEGER then Ok(Cell(v, None, false))
        else Err(InvalidIntegerCell)
      case NumberType => if v.Num? && Accepted(v.x) then Ok(Cell(v, None, false)) else Err(InvalidNumberCell)
      case StringType =>
        if !v.Str? then Err(InvalidStringCell)
        else (match CheckSize(v.s) case Some(fault) => Err(fault) case None => Ok(Cell(v, None, false)))
      case TimestampType =>
        if !v.Str? then Err(InvalidTimestamp)
        else
          match CheckSize(v.s)
          case Some(fault) => Err(fault)
          case None =>
            match lex.timestamp(v.s)
            case None => Err(InvalidTimestamp)
            case Some(canonical) => Ok(Cell(Str(canonical), None, canonical != v.s))
  }

  /** A number that was read must be finite and canonical. */
  function NumberCell(v: Value, event: EventCode): Result<Cell, Fault> {
    if v.Num? && Accepted(v.x) then Ok(Cell(v, Some(event), false)) else Err(InvalidNumberCell)
  }

  /** `_csv_cell`. */
  function CsvCell(lex: Lexer, t: Text, dataType: DataType): Result<Cell, Fault> {
    match CheckSize(t)
    case Some(fault) => Err(fault)
    case None =>
      if t == [] && dataType != StringType then Ok(Cell(Null, Some(CsvEmptyFieldToNull), false))
      else
        match dataType
        case StringType => Ok(Cell(Str(t), None, false))
        case BooleanType =>
          if t == Lit("true") || t == Lit("false") then Ok(Cell(Bool(t == Lit("true")), Some(CsvBooleanParsed), false))
          else Err(InvalidBooleanCell)
        case IntegerType =>
          (match lex.integer(t)
           case None => Err(InvalidIntegerCell)
           case Some(n) =>
             if Abs(n) > MAX_SAFE_INTEGER then Err(InvalidIntegerCell)
             else Ok(Cell(Num(Int(n)), Some(CsvIntegerParsed), false)))
        case NumberType =>
          (match lex.number(t) case None => Err(InvalidNumberCell) case Some(x) => NumberCell(x, CsvNumberParsed))
        case TimestampType =>
          match lex.timestamp(t)
          case None => Err(InvalidTimestamp)
          case Some(canonical) => Ok(Cell(Str(canonical), None, canonical != t))
  }

  // ----- rows -----

  /** The position of a name in the header. */
  function Position(header: seq<Text>, name: Text): (i: Option<nat>)
    ensures i.Some? ==> i.value < |header| && header[i.value] == name
    ensures i.None? ==> name !in header
  {
    if header == [] then None
    else if header[|header| - 1] == name then Some(|header| - 1)
    else Position(header[..|header| - 1], name)
  }

  /** The cell of one column in one row: a CSV line under its header, or an object. */
  datatype RawRow = Line(header: seq<Text>, line: seq<Text>) | Object(members: seq<(Text, Value)>)

  function CellOf(lex: Lexer, row: RawRow, c: Column): Result<Cell, Fault> {
    match row
    case Line(header, line) =>
      var i := Position(header, c.sourceName);
      if i.None? || i.value >= |line| then Err(InvalidCsvHeader) else CsvCell(lex, line[i.value], c.dataType)
    case Object(members) =>
      match Lookup(members, c.sourceName)
      case None => Ok(Cell(Null, Some(JsonMissingFieldToNull), false))
      case Some(v) => JsonCell(lex, v, c.dataType)
  }

  function Prepend<T>(done: seq<T>, rest: Result<seq<T>, Fault>): Result<seq<T>, Fault> {
    match rest case Err(fault) => Err(fault) case Ok(more) => Ok(done + more)
  }

  lemma {:induction false} PrependSteps<T>(done: seq<T>, x: T, rest: Result<seq<T>, Fault>)
    ensures Prepend([], rest) == rest
    ensures Prepend(done, Prepend([x], rest)) == Prepend(done + [x], rest)
    ensures Prepend<T>(done, Ok([])) == Ok(done)
  {
    if rest.Ok? {
      assert done + ([x] + rest.value) == done + [x] + rest.value;
      assert [] + rest.value == rest.value;
    }
    assert done + [] == done;
  }

  /** Left to right; the first refused cell decides. */
  function CellsOf(lex: Lexer, row: RawRow, columns: seq<Column>): (r: Result<seq<Cell>, Fault>)
    ensures r.Ok? ==> |r.value| == |columns|
  {
    if columns == [] then Ok([])
    else
      match CellOf(lex, row, columns[0])
      case Err(fault) => Err(fault)
      case Ok(cell) => Prepend([cell], CellsOf(lex, row, columns[1..]))
  }

  predicate IsDeclaredName(columns: seq<Column>, name: Text) {
    exists i :: 0 <= i < |columns| && columns[i].sourceName == name
  }

  /** The checks on a row before its cells are read. */
  function Shape(row: RawRow, columns: seq<Column>): Option<Fault> {
    match row
    case Line(header, line) => if |line| != |header| then Some(InvalidCsvRowWidth) else None
    case Object(members) =>
      if forall i :: 0 <= i < |members| ==> IsDeclaredName(columns, members[i].0) then None
      else Some(UndeclaredSourceField)
  }

  /** The rows of a source, or the fault of the source itself. */
  function RawRows(source: Rows, columns: seq<Column>): Result<seq<Option<RawRow>>, Fault> {
    match source
    case Csv(lines) =>
      if lines == [] then Err(InvalidCsvSource)
      else
        var header := lines[0];
        if |header| != |columns| || !(forall i :: 0 <= i < |header| ==> IsDeclaredName(columns, header[i]))
           || !(forall i :: 0 <= i < |columns| ==> columns[i].sourceName in header)
        then Err(InvalidCsvHeader)
        else Ok(seq(|lines| - 1, i requires 0 <= i < |lines| - 1 => Some(Line(header, lines[i + 1]))))
    case Objects(rows) =>
      Ok(seq(|rows|, i requires 0 <= i < |rows| =>
        match rows[i] case NotAnObject => None case Row(members) => Some(Object(members))))
  }

  function RowCells(lex: Lexer, row: Option<RawRow>, columns: seq<Column>): (r: Result<seq<Cell>, Fault>)
    ensures r.Ok? ==> |r.value| == |columns|
  {
    if row.None? then Err(JsonRowNotObject)
    else match Shape(row.value, columns) case Some(fault) => Err(fault) case None => CellsOf(lex, row.value, columns)
  }

  type CellTable = seq<seq<Cell>>

  /** Row by row; the first refused row decides. */
  function TableCells(lex: Lexer, rows: seq<Option<RawRow>>, columns: seq<Column>): (r: Result<CellTable, Fault>)
    ensures r.Ok? ==> |r.value| == |rows| && forall i :: 0 <= i < |rows| ==> |r.value[i]| == |columns|
  {
    if rows == [] then Ok([])
    else
      match RowCells(lex, rows[0], columns)
      case Err(fault) => Err(fault)
      case Ok(cells) => Prepend([cells], TableCells(lex, rows[1..], columns))
  }

  // ----- counting events -----

  const CODES: seq<EventCode> := [
    JsonMissingFieldToNull, CsvEmptyFieldToNull, CsvNumberParsed, CsvIntegerParsed, CsvBooleanParsed,
    TimestampToCanonicalUtc]

  /** How many rows of the table caused an event in one column. */
  function CountOf(table: CellTable, code: EventCode, j: nat): nat
    requires forall i :: 0 <= i < |table| ==> j < |table[i]|
  {
    if table == [] then 0
    else
      CountOf(table[..|table| - 1], code, j)
      + if Causes(table[|table| - 1][j], code) then 1 else 0
  }

  type Counter = map<(EventCode, Text), nat>

  function Tally(counter: Counter, code: EventCode, field: Text): nat {
    if (code, field) in counter then counter[(code, field)] else 0
  }

  /** `events[(code, field)] += 1`. */
  function Increment(counter: Counter, code: EventCode, field: Text): Counter {
    counter[(code, field) := Tally(counter, code, field) + 1]
  }

  /** The increments of one cell. */
  function Bump(counter: Counter, cell: Cell, field: Text): Counter {
    var counted := if cell.event.Some? then Increment(counter, cell.event.value, field) else counter;
    if cell.changed then Increment(counted, TimestampToCanonicalUtc, field) else counted
  }

  ghost predicate Rectangular(table: CellTable, columns: seq<Column>) {
    forall i :: 0 <= i < |table| ==> |table[i]| == |columns|
  }

  ghost predicate FieldsDiffer(columns: seq<Column>) {
    forall i, j :: 0 <= i < j < |columns| ==> columns[i].fieldId != columns[j].fieldId
  }

  /** The counter holds the counts of the first `done` rows, and of the next one up to column `upto`. */
  ghost predicate CountsSoFar(counter: Counter, columns: seq<Column>, table: CellTable, row: seq<Cell>, upto: nat)
    requires Rectangular(table, columns) && |row| == upto <= |columns|
  {
    && (forall code, j :: 0 <= j < |columns| ==>
          Tally(counter, code, columns[j].fieldId)
          == CountOf(table, code, j) + if j < upto && Causes(row[j], code) then 1 else 0)
    && (forall code, field :: (code, field) in counter ==> counter[(code, field)] > 0 && IsField(columns, field))
  }

  predicate IsField(columns: seq<Column>, field: Text) {
    exists j :: 0 <= j < |columns| && columns[j].fieldId == field
  }

  lemma {:induction false} TallyAfterBump(counter: Counter, cell: Cell, field: Text, c: EventCode, f: Text)
    requires cell.event != Some(TimestampToCanonicalUtc)
    ensures Tally(Bump(counter, cell, field), c, f)
            == Tally(counter, c, f) + if f == field && Causes(cell, c) then 1 else 0
  {
  }

  lemma {:induction false} BumpKeepsCounts(counter: Counter, columns: seq<Column>, table: CellTable, row: seq<Cell>,
                                           cell: Cell)
    requires FieldsDiffer(columns) && Rectangular(table, columns) && |row| < |columns|
    requires cell.event != Some(TimestampToCanonicalUtc)
    requires CountsSoFar(counter, columns, table, row, |row|)
    ensures CountsSoFar(Bump(counter, cell, columns[|row|].fieldId), columns, table, row + [cell], |row| + 1)
  {
    var n := |row|;
    var next := Bump(counter, cell, columns[n].fieldId);
    forall code, j | 0 <= j < |columns|
      ensures Tally(next, code, columns[j].fieldId)
              == CountOf(table, code, j) + if j < n + 1 && Causes((row + [cell])[j], code) then 1 else 0
    {
      TallyAfterBump(counter, cell, columns[n].fieldId, code, columns[j].fieldId);
      if j < n { assert (row + [cell])[j] == row[j]; }
    }
    assert IsField(columns, columns[n].fieldId);
  }

  /** A finished row becomes part of the table. */
  lemma {:induction false} RowJoinsTable(counter: Counter, columns: seq<Column>, table: CellTable, row: seq<Cell>)
    requires Rectangular(table, columns) && |row| == |columns|
    requires CountsSoFar(counter, columns, table, row, |columns|)
    ensures Rectangular(table + [row], columns)
    ensures CountsSoFar(counter, columns, table + [row], [], 0)
  {
    assert (table + [row])[..|table|] == table;
  }

  lemma {:induction false} CellEvents(lex: Lexer, row: RawRow, c: Column)
    requires CellOf(lex, row, c).Ok?
    ensures var cell := CellOf(lex, row, c).value;
      && cell.event != Some(TimestampToCanonicalUtc)
      && (cell.event == Some(JsonMissingFieldToNull) ==> row.Object?)
      && (cell.event.Some? && cell.event != Some(JsonMissingFieldToNull) ==> row.Line?)
      && (cell.event == Some(CsvNumberParsed) ==> c.dataType == NumberType)
      && (cell.event == Some(CsvIntegerParsed) ==> c.dataType == IntegerType)
      && (cell.event == Some(CsvBooleanParsed) ==> c.dataType == BooleanType)
      && (cell.event == Some(CsvEmptyFieldToNull) ==> c.dataType != StringType)
      && (cell.changed ==> c.dataType == TimestampType)
  {
  }

  /** One row: its cells, and the counter with their events. */
  method NormalizeRow(lex: Lexer, row: RawRow, columns: seq<Column>, counter: Counter, ghost table: CellTable)
      returns (r: Result<seq<Cell>, Fault>, counted: Counter)
    requires FieldsDiffer(columns) && Rectangular(table, columns) && CountsSoFar(counter, columns, table, [], 0)
    ensures r == CellsOf(lex, row, columns)
    ensures r.Ok? ==> Rectangular(table + [r.value], columns) && CountsSoFar(counted, columns, table + [r.value], [], 0)
  {
    var cells: seq<Cell> := [];
    counted := counter;
    assert columns[0..] == columns && Prepend([], CellsOf(lex, row, columns)) == CellsOf(lex, row, columns) by {
      PrependSteps<Cell>([], Cell(Null, None, false), CellsOf(lex, row, columns));
    }
    for i := 0 to |columns|
      invariant |cells| == i
      invariant CellsOf(lex, row, columns) == Prepend(cells, CellsOf(lex, row, columns[i..]))
      invariant CountsSoFar(counted, columns, table, cells, i)
    {
      assert columns[i..][1..] == columns[i + 1..];
      var cell := CellOf(lex, row, columns[i]);
      if cell.Err? {
        return Err(cell.error), counted;
      }
      PrependSteps(cells, cell.value, CellsOf(lex, row, columns[i + 1..]));
      CellEvents(lex, row, columns[i]);
      BumpKeepsCounts(counted, columns, table, cells, cell.value);
      counted := Bump(counted, cell.value, columns[i].fieldId);
      cells := cells + [cell.value];
    }
    RowJoinsTable(counted, columns, table, cells);
    assert cells + [] == cells;
    r := Ok(cells);
  }

  /** Every row, with one counter for all of them. */
  method NormalizeTable(lex: Lexer, rows: seq<Option<RawRow>>, columns: seq<Column>)
      returns (r: Result<CellTable, Fault>, counted: Counter)
    requires FieldsDiffer(columns)
    ensures r == TableCells(lex, rows, columns)
    ensures r.Ok? ==> CountsSoFar(counted, columns, r.value, [], 0)
  {
    var table: CellTable := [];
    counted := map[];
    assert rows[0..] == rows && Prepend([], TableCells(lex, rows, columns)) == TableCells(lex, rows, columns) by {
      PrependSteps<seq<Cell>>([], [], TableCells(lex, rows, columns));
    }
    for i := 0 to |rows|
      invariant Rectangular(table, columns)
      invariant TableCells(lex, rows, columns) == Prepend(table, TableCells(lex, rows[i..], columns))
      invariant CountsSoFar(counted, columns, table, [], 0)
    {
      assert rows[i..][1..] == rows[i + 1..];
      if rows[i].None? {
        return Err(JsonRowNotObject), counted;
      }
      var fault := Shape(rows[i].value, columns);
      if fault.Some? {
        return Err(fault.value), counted;
      }
      var cells, next := NormalizeRow(lex, rows[i].value, columns, counted, table);
      if cells.Err? {
        return Err(cells.error), counted;
      }
      PrependSteps(table, cells.value, TableCells(lex, rows[i + 1..], columns));
      counted := next;
      table := table + [cells.value];
    }
    assert table + [] == table;
    r := Ok(table);
  }

  // ----- the ledger -----

  /** The place of a code's name in byte order. */
  function CodeRank(code: EventCode): nat {
    match code
    case CsvBooleanParsed => 0
    case CsvEmptyFieldToNull => 1
    case CsvIntegerParsed => 2
    case CsvNumberParsed => 3
    case JsonMissingFieldToNull => 4
    case TimestampToCanonicalUtc => 5
  }

  /** Where the name of a code first differs from every name after it. */
  function CodeSplit(code: EventCode): nat {
    match code
    case CsvBooleanParsed => 4
    case CsvEmptyFieldToNull => 4
    case CsvIntegerParsed => 4
    case CsvNumberParsed => 0
    case _ => 0
  }

  /** Ranks order the codes as the bytes of their names do. */
  lemma {:induction false} RankIsByteOrder(a: EventCode, b: EventCode)
    requires CodeRank(a) < CodeRank(b)
    ensures Less(Lit(CodeName(a)), Lit(CodeName(b))) && !Less(Lit(CodeName(b)), Lit(CodeName(a)))
  {
    var x, y := Lit(CodeName(a)), Lit(CodeName(b));
    var k := if CodeRank(b) <= 3 then CodeSplit(a) else 0;
    assert x[..k] == y[..k] && x[k] < y[k];
    LessAtDifference(x, y, k);
  }

  predicate EventLess(a: Event, b: Event) {
    CodeRank(a.code) < CodeRank(b.code) || (a.code == b.code && Less(a.fieldId, b.fieldId))
  }

  function EventsOf(columns: seq<Column>, table: CellTable, code: EventCode, j: nat): seq<Event>
    requires (forall i :: 0 <= i < |table| ==> |table[i]| == |columns|) && j <= |columns|
    decreases |columns| - j
  {
    if j == |columns| then []
    else
      var n := CountOf(table, code, j);
      (if n > 0 then [Event(code, columns[j].fieldId, n)] else []) + EventsOf(columns, table, code, j + 1)
  }

  function AllEvents(columns: seq<Column>, table: CellTable, codes: seq<EventCode>): seq<Event>
    requires forall i :: 0 <= i < |table| ==> |table[i]| == |columns|
  {
    if codes == [] then [] else EventsOf(columns, table, codes[0], 0) + AllEvents(columns, table, codes[1..])
  }

  /** One event for each code and column with a positive count, in byte order. */
  function Ledger(columns: seq<Column>, table: CellTable): seq<Event>
    requires forall i :: 0 <= i < |table| ==> |table[i]| == |columns|
  {
    Sort(EventLess, AllEvents(columns, table, CODES))
  }

  /** The items of the counter for one code. */
  method ItemsOf(counter: Counter, columns: seq<Column>, code: EventCode,
                 ghost table: CellTable) returns (items: seq<Event>)
    requires Rectangular(table, columns) && CountsSoFar(counter, columns, table, [], 0)
    ensures items == EventsOf(columns, table, code, 0)
  {
    items := [];
    ghost var all := EventsOf(columns, table, code, 0);
    for j := 0 to |columns|
      invariant all == items + EventsOf(columns, table, code, j)
    {
      EventsStep(counter, columns, table, code, j, items);
      var field := columns[j].fieldId;
      if (code, field) in counter {
        items := items + [Event(code, field, counter[(code, field)])];
      }
    }
    assert items + [] == items;
  }

  lemma {:induction false} EventsStep(counter: Counter, columns: seq<Column>, table: CellTable, code: EventCode, j: nat,
                                      items: seq<Event>)
    requires Rectangular(table, columns) && CountsSoFar(counter, columns, table, [], 0) && j < |columns|
    ensures var field := columns[j].fieldId;
      var next := if (code, field) in counter then items + [Event(code, field, counter[(code, field)])] else items;
      items + EventsOf(columns, table, code, j) == next + EventsOf(columns, table, code, j + 1)
  {
    assert Tally(counter, code, columns[j].fieldId) == CountOf(table, code, j);
  }

  /** `sorted(events.items())`. */
  method SortedLedger(counter: Counter, columns: seq<Column>, ghost table: CellTable) returns (ledger: seq<Event>)
    requires Rectangular(table, columns) && CountsSoFar(counter, columns, table, [], 0)
    ensures ledger == Ledger(columns, table)
  {
    var items := AllItems(counter, columns, CODES, table);
    ledger := Sort(EventLess, items);
  }

  method AllItems(counter: Counter, columns: seq<Column>, codes: seq<EventCode>, ghost table: CellTable)
      returns (items: seq<Event>)
    requires Rectangular(table, columns) && CountsSoFar(counter, columns, table, [], 0)
    ensures items == AllEvents(columns, table, codes)
  {
    items := [];
    ghost var all := AllEvents(columns, table, codes);
    for k := 0 to |codes|
      invariant all == items + AllEvents(columns, table, codes[k..])
    {
      assert codes[k..][1..] == codes[k + 1..];
      var more := ItemsOf(counter, columns, codes[k], table);
      items := items + more;
    }
    assert items + [] == items;
  }

  // ----- normalize -----

  datatype Normalized = Normalized(rows: seq<seq<Value>>, ledger: seq<Event>)

  function Values(cells: seq<Cell>): (values: seq<Value>)
    ensures |values| == |cells|
  {
    seq(|cells|, j requires 0 <= j < |cells| => cells[j].value)
  }

  function TableValues(table: CellTable): (rows: seq<seq<Value>>)
    ensures |rows| == |table|
  {
    seq(|table|, i requires 0 <= i < |table| => Values(table[i]))
  }

  predicate ColumnsDiffer(columns: seq<Column>) {
    forall i, j :: 0 <= i < j < |columns| ==>
      columns[i].sourceName != columns[j].sourceName && columns[i].fieldId != columns[j].fieldId
  }

  function Normalize(lex: Lexer, source: Rows, columns: seq<Column>): Result<Normalized, Fault> {
    if !ColumnsDiffer(columns) then Err(DuplicateColumn)
    else
      match RawRows(source, columns)
      case Err(fault) => Err(fault)
      case Ok(rows) =>
        match TableCells(lex, rows, columns)
        case Err(fault) => Err(fault)
        case Ok(table) =>
          if table == [] then Err(EmptyDataset)
          else if |table| > MAX_DATASET_ROWS then Err(DatasetRows(|table|))
          else Ok(Normalized(TableValues(table), Ledger(columns, table)))
  }

  /** `_normalized_rows`. */
  method NormalizedRows(lex: Lexer, source: Rows, columns: seq<Column>) returns (r: Result<Normalized, Fault>)
    ensures r == Normalize(lex, source, columns)
  {
    if !ColumnsDiffer(columns) {
      return Err(DuplicateColumn);
    }
    var rows := RawRows(source, columns);
    if rows.Err? {
      return Err(rows.error);
    }
    var table, counter := NormalizeTable(lex, rows.value, columns);
    if table.Err? {
      return Err(table.error);
    }
    if table.value == [] {
      return Err(EmptyDataset);
    }
    if |table.value| > MAX_DATASET_ROWS {
      return Err(DatasetRows(|table.value|));
    }
    var ledger := SortedLedger(counter, columns, table.value);
    r := Ok(Normalized(TableValues(table.value), ledger));
  }

  // ----- the ledger is exact -----

  lemma {:induction false} EventsAre(columns: seq<Column>, table: CellTable, code: EventCode, from: nat, e: Event)
    requires Rectangular(table, columns) && from <= |columns|
    ensures e in EventsOf(columns, table, code, from) <==> e.code == code && IsCounted(columns, table, from, e)
    ensures |EventsOf(columns, table, code, from)| <= |columns| - from
    decreases |columns| - from
  {
    if from < |columns| {
      EventsAre(columns, table, code, from + 1, e);
      var n := CountOf(table, code, from);
      assert IsCounted(columns, table, from, e) <==>
             IsCounted(columns, table, from + 1, e)
             || (columns[from].fieldId == e.fieldId && CountOf(table, e.code, from) == e.count && e.count > 0);
    }
  }

  /** The event counts the rows that caused it in some column from `from` on. */
  ghost predicate IsCounted(columns: seq<Column>, table: CellTable, from: nat, e: Event)
    requires Rectangular(table, columns)
  {
    && e.count > 0
    && exists j ::
         from <= j < |columns| && columns[j].fieldId == e.fieldId && CountOf(table, e.code, j) == e.count
  }

  lemma {:induction false} AllEventsAre(columns: seq<Column>, table: CellTable, codes: seq<EventCode>, e: Event)
    requires Rectangular(table, columns)
    ensures e in AllEvents(columns, table, codes) <==> e.code in codes && IsCounted(columns, table, 0, e)
  {
    if codes != [] {
      EventsAre(columns, table, codes[0], 0, e);
      AllEventsAre(columns, table, codes[1..], e);
      assert codes == [codes[0]] + codes[1..];
    }
  }

  lemma {:induction false} AllEventsAreFew(columns: seq<Column>, table: CellTable, codes: seq<EventCode>)
    requires Rectangular(table, columns)
    ensures |AllEvents(columns, table, codes)| <= |codes| * |columns|
  {
    if codes != [] {
      EventsAre(columns, table, codes[0], 0, Event(codes[0], [], 0));
      AllEventsAreFew(columns, table, codes[1..]);
      assert |codes| * |columns| == |columns| + |codes[1..]| * |columns|;
    }
  }

  lemma {:induction false} CodesAreAll(code: EventCode)
    ensures code in CODES
  {
    var k := match code
      case JsonMissingFieldToNull => 0
      case CsvEmptyFieldToNull => 1
      case CsvNumberParsed => 2
      case CsvIntegerParsed => 3
      case CsvBooleanParsed => 4
      case TimestampToCanonicalUtc => 5;
    assert CODES[k] == code;
  }

  /** The ledger has exactly one event for each code and column that some row caused, with the number
      of rows that caused it. */
  lemma {:induction false} LedgerIsExact(columns: seq<Column>, table: CellTable, e: Event)
    requires Rectangular(table, columns)
    ensures e in Ledger(columns, table) <==> IsCounted(columns, table, 0, e)
    ensures |Ledger(columns, table)| <= 6 * |columns|
  {
    AllEventsAre(columns, table, CODES, e);
    AllEventsAreFew(columns, table, CODES);
    CodesAreAll(e.code);
  }

  lemma {:induction false} EventLessIsStrict()
    ensures StrictOrder(EventLess)
  {
    forall a: Event ensures !EventLess(a, a) {
      LessIsIrreflexive(a.fieldId);
    }
    forall a: Event, b: Event, c: Event | EventLess(a, b) && EventLess(b, c) ensures EventLess(a, c) {
      if a.code == b.code == c.code { LessIsTransitive(a.fieldId, b.fieldId, c.fieldId); }
    }
  }

  ghost predicate KeysDiffer(events: seq<Event>) {
    forall i, j :: 0 <= i < j < |events| ==> events[i].code != events[j].code || events[i].fieldId != events[j].fieldId
  }

  lemma {:induction false} EventsDiffer(columns: seq<Column>, table: CellTable, code: EventCode, from: nat)
    requires Rectangular(table, columns) && FieldsDiffer(columns) && from <= |columns|
    ensures KeysDiffer(EventsOf(columns, table, code, from))
    decreases |columns| - from
  {
    if from < |columns| {
      EventsDiffer(columns, table, code, from + 1);
      var rest := EventsOf(columns, table, code, from + 1);
      forall i | 0 <= i < |rest| ensures rest[i].fieldId != columns[from].fieldId {
        EventsAre(columns, table, code, from + 1, rest[i]);
        assert rest[i] in rest;
      }
    }
  }

  ghost predicate CodesDiffer(codes: seq<EventCode>) {
    forall i, j :: 0 <= i < j < |codes| ==> codes[i] != codes[j]
  }

  lemma {:induction false} AllEventsDiffer(columns: seq<Column>, table: CellTable, codes: seq<EventCode>)
    requires Rectangular(table, columns) && FieldsDiffer(columns) && CodesDiffer(codes)
    ensures KeysDiffer(AllEvents(columns, table, codes))
  {
    if codes != [] {
      EventsDiffer(columns, table, codes[0], 0);
      AllEventsDiffer(columns, table, codes[1..]);
      var first, rest := EventsOf(columns, table, codes[0], 0), AllEvents(columns, table, codes[1..]);
      forall i | 0 <= i < |first| ensures first[i].code == codes[0] {
        EventsAre(columns, table, codes[0], 0, first[i]);
        assert first[i] in first;
      }
      forall i | 0 <= i < |rest| ensures rest[i].code != codes[0] {
        AllEventsAre(columns, table, codes[1..], rest[i]);
        assert rest[i] in rest;
      }
    }
  }

  lemma {:induction false} LedgerIsSorted(columns: seq<Column>, table: CellTable)
    requires Rectangular(table, columns) && FieldsDiffer(columns)
    ensures Sorted(EventLess, Ledger(columns, table))
  {
    var all := AllEvents(columns, table, CODES);
    AllEventsDiffer(columns, table, CODES);
    forall i, j | 0 <= i < j < |all| ensures EventLess(all[i], all[j]) || EventLess(all[j], all[i]) {
      LessIsTotal(all[i].fieldId, all[j].fieldId);
      assert CodeRank(all[i].code) == CodeRank(all[j].code) ==> all[i].code == all[j].code;
    }
    EventLessIsStrict();
    SortSorts(EventLess, all);
  }

  // ----- the independent validator -----

  /** The checks of `DatasetRecordV1._validate_record` on one event. */
  ghost predicate EventIsValid(columns: seq<Column>, isCsv: bool, rowCount: nat, e: Event) {
    exists j ::
      0 <= j < |columns| && columns[j].fieldId == e.fieldId && EventFits(columns[j].dataType, isCsv, rowCount, e)
  }

  predicate EventFits(t: DataType, isCsv: bool, rowCount: nat, e: Event) {
    && 1 <= e.count <= rowCount
    && (e.code == JsonMissingFieldToNull ==> !isCsv)
    && (e.code in {CsvEmptyFieldToNull, CsvNumberParsed, CsvIntegerParsed, CsvBooleanParsed} ==> isCsv)
    && (e.code == CsvNumberParsed ==> t == NumberType)
    && (e.code == CsvIntegerParsed ==> t == IntegerType)
    && (e.code == CsvBooleanParsed ==> t == BooleanType)
    && (e.code == CsvEmptyFieldToNull ==> t != StringType)
    && (e.code == TimestampToCanonicalUtc ==> t == TimestampType)
  }

  /** Unique, in canonical order, short enough, and every event fits. */
  ghost predicate LedgerIsValid(columns: seq<Column>, isCsv: bool, rowCount: nat, ledger: seq<Event>) {
    && |ledger| <= MAX_LEDGER
    && Sorted(EventLess, ledger)
    && KeysDiffer(ledger)
    && forall i :: 0 <= i < |ledger| ==> EventIsValid(columns, isCsv, rowCount, ledger[i])
  }

  lemma {:induction false} CountIsBounded(table: CellTable, code: EventCode, j: nat)
    requires forall i :: 0 <= i < |table| ==> j < |table[i]|
    ensures CountOf(table, code, j) <= |table|
    ensures CountOf(table, code, j) > 0 <==> exists i :: 0 <= i < |table| && Causes(table[i][j], code)
  {
    if table != [] {
      var n := |table| - 1;
      CountIsBounded(table[..n], code, j);
      assert (exists i :: 0 <= i < |table| && Causes(table[i][j], code)) <==>
             (exists i :: 0 <= i < n && Causes(table[..n][i][j], code)) || Causes(table[n][j], code);
    }
  }

  lemma {:induction false} CellIs(lex: Lexer, row: RawRow, columns: seq<Column>, j: nat)
    requires CellsOf(lex, row, columns).Ok? && j < |columns|
    ensures CellOf(lex, row, columns[j]) == Ok(CellsOf(lex, row, columns).value[j])
  {
    if j > 0 {
      CellIs(lex, row, columns[1..], j - 1);
    }
  }

  lemma {:induction false} TableCellIs(lex: Lexer, rows: seq<Option<RawRow>>, columns: seq<Column>, i: nat, j: nat)
    requires TableCells(lex, rows, columns).Ok? && i < |rows| && j < |columns|
    ensures rows[i].Some? && CellOf(lex, rows[i].value, columns[j]) == Ok(TableCells(lex, rows, columns).value[i][j])
    decreases i
  {
    if i == 0 {
      CellIs(lex, rows[0].value, columns, j);
    } else {
      TableCellIs(lex, rows[1..], columns, i - 1, j);
    }
  }

  lemma {:induction false} CountedEventFits(lex: Lexer, source: Rows, columns: seq<Column>, j: nat, e: Event)
    requires RawRows(source, columns).Ok? && TableCells(lex, RawRows(source, columns).value, columns).Ok?
    requires j < |columns| && e.count > 0
    requires e.count == CountOf(TableCells(lex, RawRows(source, columns).value, columns).value, e.code, j)
    ensures EventFits(columns[j].dataType, source.Csv?, |RawRows(source, columns).value|, e)
  {
    var rows := RawRows(source, columns).value;
    var table := TableCells(lex, rows, columns).value;
    CountIsBounded(table, e.code, j);
    var i :| 0 <= i < |table| && Causes(table[i][j], e.code);
    TableCellIs(lex, rows, columns, i, j);
    CellEvents(lex, rows[i].value, columns[j]);
    assert source.Csv? <==> rows[i].value.Line?;
  }

  /** Whatever the normaliser produces, its ledger passes the record's validator. */
  lemma {:induction false} LedgerPassesValidator(lex: Lexer, source: Rows, columns: seq<Column>)
    requires Normalize(lex, source, columns).Ok? && |columns| <= MAX_DATASET_COLUMNS
    ensures var n := Normalize(lex, source, columns).value;
      LedgerIsValid(columns, source.Csv?, |n.rows|, n.ledger)
  {
    var table := TableCells(lex, RawRows(source, columns).value, columns).value;
    var ledger := Ledger(columns, table);
    LedgerIsExact(columns, table, Event(JsonMissingFieldToNull, [], 0));
    LedgerIsSorted(columns, table);
    EventLessIsStrict();
    forall i | 0 <= i < |ledger| ensures EventIsValid(columns, source.Csv?, |table|, ledger[i]) {
      LedgerIsExact(columns, table, ledger[i]);
      assert ledger[i] in ledger;
      var j :| 0 <= j < |columns| && columns[j].fieldId == ledger[i].fieldId
               && CountOf(table, ledger[i].code, j) == ledger[i].count;
      CountedEventFits(lex, source, columns, j, ledger[i]);
    }
    forall i, j | 0 <= i < j < |ledger|
      ensures ledger[i].code != ledger[j].code || ledger[i].fieldId != ledger[j].fieldId
    {
      assert EventLess(ledger[i], ledger[j]);
      LessIsIrreflexive(ledger[i].fieldId);
    }
  }

  // ----- the rows are valid payload rows -----

  /** The text of a cell that is normalized as a timestamp. */
  function TimestampText(row: RawRow, c: Column): Option<Text> {
    if c.dataType != TimestampType then None
    else
      match row
      case Line(header, line) =>
        var i := Position(header, c.sourceName);
        if i.None? || i.value >= |line| || line[i.value] == [] then None else Some(line[i.value])
      case Object(members) =>
        match Lookup(members, c.sourceName)
        case Some(v) => if v.Str? then Some(v.s) else None
        case None => None
  }

  /** A cell is no timestamp, or one whose year in UTC has four digits of its own. */
  predicate CellYearIsLong(row: RawRow, c: Column) {
    var t := TimestampText(row, c);
    t.Some? ==> CanonicalTimestamp.HasLongYear(t.value)
  }

  predicate YearsAreLong(source: Rows, columns: seq<Column>) {
    var rows := RawRows(source, columns);
    rows.Ok? ==> RowYearsAreLong(rows.value, columns)
  }

  predicate RowYearsAreLong(rows: seq<Option<RawRow>>, columns: seq<Column>) {
    forall i, j :: 0 <= i < |rows| && 0 <= j < |columns| && rows[i].Some? ==>
      CellYearIsLong(rows[i].value, columns[j])
  }

  /** An accepted cell is unchanged when it is normalized again as a JSON value. */
  predicate IsStable(lex: Lexer, v: Value, t: DataType) {
    JsonCell(lex, v, t) == Ok(Cell(v, None, false))
  }

  lemma {:induction false} OtherCellIsValid(lex: Lexer, row: RawRow, c: Column)
    requires CellOf(lex, row, c).Ok? && TimestampText(row, c).None?
    ensures var v := CellOf(lex, row, c).value.value; ValidCell(v, c.dataType) && IsStable(lex, v, c.dataType)
  {
  }

  lemma {:induction false} TimestampCell(lex: Lexer, row: RawRow, c: Column)
    requires CellOf(lex, row, c).Ok? && TimestampText(row, c).Some?
    ensures var v := CellOf(lex, row, c).value.value;
      v.Str? && c.dataType == TimestampType && lex.timestamp(TimestampText(row, c).value) == Some(v.s)
  {
  }

  lemma {:induction false} StableTimestamp(lex: Lexer, t: Text)
    requires Utf8.Encodable(t) && |Utf8.Encode(t)| <= MAX_CELL_BYTES
    ensures IsStable(lex, Str(t), TimestampType) <==> lex.timestamp(t) == Some(t)
    ensures ValidCell(Str(t), TimestampType) <==> CanonicalTimestamp.IsCanonical(t)
  {
  }

  lemma {:induction false} CellIsValid(lex: Lexer, padsYears: bool, row: RawRow, c: Column)
    requires lex.timestamp == CanonicalTimestamp.Reader(padsYears) && CellOf(lex, row, c).Ok?
    ensures var v := CellOf(lex, row, c).value.value;
      && (ValidCell(v, c.dataType) <==> padsYears || CellYearIsLong(row, c))
      && (IsStable(lex, v, c.dataType) <==> padsYears || CellYearIsLong(row, c))
  {
    if TimestampText(row, c).None? {
      OtherCellIsValid(lex, row, c);
    } else {
      TimestampCell(lex, row, c);
      var t, v := TimestampText(row, c).value, CellOf(lex, row, c).value.value.s;
      assert lex.timestamp(t) == CanonicalTimestamp.Canonical(padsYears, t);
      assert lex.timestamp(v) == CanonicalTimestamp.Canonical(padsYears, v);
      CanonicalTimestamp.CanonicalIff(padsYears, t, v);
      CanonicalTimestamp.CanonicalIsSmall(padsYears, t, v);
      StableTimestamp(lex, v);
    }
  }

  function PayloadColumns(columns: seq<Column>): (p: seq<PayloadColumn>)
    ensures |p| == |columns|
  {
    seq(|columns|, i requires 0 <= i < |columns| => PayloadColumn(columns[i].fieldId, columns[i].dataType))
  }

  ghost predicate AllValid(columns: seq<Column>, rows: seq<seq<Value>>)
    requires forall i :: 0 <= i < |rows| ==> |rows[i]| == |columns|
  {
    forall i, j :: 0 <= i < |rows| && 0 <= j < |columns| ==> ValidCell(rows[i][j], columns[j].dataType)
  }

  ghost predicate AllStable(lex: Lexer, columns: seq<Column>, rows: seq<seq<Value>>)
    requires forall i :: 0 <= i < |rows| ==> |rows[i]| == |columns|
  {
    forall i, j :: 0 <= i < |rows| && 0 <= j < |columns| ==> IsStable(lex, rows[i][j], columns[j].dataType)
  }

  /** The normalized value of one cell, its validity and its stability, against the years. */
  ghost predicate CellFollowsYears(lex: Lexer, padsYears: bool, row: Option<RawRow>, c: Column, v: Value) {
    && row.Some?
    && (ValidCell(v, c.dataType) <==> padsYears || CellYearIsLong(row.value, c))
    && (IsStable(lex, v, c.dataType) <==> padsYears || CellYearIsLong(row.value, c))
  }

  lemma {:induction false} CellsFollowYears(lex: Lexer, padsYears: bool, raw: seq<Option<RawRow>>, columns: seq<Column>,
                                            i: nat, j: nat)
    requires lex.timestamp == CanonicalTimestamp.Reader(padsYears) && TableCells(lex, raw, columns).Ok?
    requires i < |raw| && j < |columns|
    ensures var rows := TableValues(TableCells(lex, raw, columns).value);
      |rows[i]| == |columns| && CellFollowsYears(lex, padsYears, raw[i], columns[j], rows[i][j])
  {
    TableCellIs(lex, raw, columns, i, j);
    CellIsValid(lex, padsYears, raw[i].value, columns[j]);
    var table := TableCells(lex, raw, columns).value;
    assert TableValues(table)[i] == Values(table[i]);
  }

  lemma {:induction false} RowsFollowYears(lex: Lexer, padsYears: bool, raw: seq<Option<RawRow>>, columns: seq<Column>,
                                           rows: seq<seq<Value>>)
    requires |rows| == |raw| && forall i :: 0 <= i < |rows| ==> |rows[i]| == |columns|
    requires forall i, j :: 0 <= i < |rows| && 0 <= j < |columns| ==>
               CellFollowsYears(lex, padsYears, raw[i], columns[j], rows[i][j])
    ensures AllValid(columns, rows) <==> padsYears || RowYearsAreLong(raw, columns)
    ensures AllStable(lex, columns, rows) <==> padsYears || RowYearsAreLong(raw, columns)
  {
    if !padsYears && !RowYearsAreLong(raw, columns) {
      var i, j :| 0 <= i < |raw| && 0 <= j < |columns| && raw[i].Some? && !CellYearIsLong(raw[i].value, columns[j]);
      assert CellFollowsYears(lex, padsYears, raw[i], columns[j], rows[i][j]);
    }
  }

  /** The cells of an accepted source are valid, and stable, exactly if years are padded or long. */
  lemma {:induction false} NormalizedCellsFollowYears(lex: Lexer, padsYears: bool, source: Rows, columns: seq<Column>)
    requires lex.timestamp == CanonicalTimestamp.Reader(padsYears) && Normalize(lex, source, columns).Ok?
    ensures var rows := Normalize(lex, source, columns).value.rows;
      && 1 <= |rows| <= MAX_DATASET_ROWS
      && (forall i :: 0 <= i < |rows| ==> |rows[i]| == |columns|)
      && (AllValid(columns, rows) <==> padsYears || YearsAreLong(source, columns))
      && (AllStable(lex, columns, rows) <==> padsYears || YearsAreLong(source, columns))
  {
    var raw := RawRows(source, columns).value;
    var rows := TableValues(TableCells(lex, raw, columns).value);
    forall i, j | 0 <= i < |rows| && 0 <= j < |columns|
      ensures |rows[i]| == |columns| && CellFollowsYears(lex, padsYears, raw[i], columns[j], rows[i][j])
    {
      CellsFollowYears(lex, padsYears, raw, columns, i, j);
    }
    RowsFollowYears(lex, padsYears, raw, columns, rows);
  }

  lemma {:induction false} ValidIffCells(columns: seq<Column>, rows: seq<seq<Value>>)
    requires ColumnsDiffer(columns) && 1 <= |columns| <= MAX_DATASET_COLUMNS && 1 <= |rows| <= MAX_DATASET_ROWS
    requires forall i :: 0 <= i < |rows| ==> |rows[i]| == |columns|
    ensures ValidPayload(DatasetPayload(PayloadColumns(columns), rows)) <==> AllValid(columns, rows)
  {
    var p := DatasetPayload(PayloadColumns(columns), rows);
    assert forall j :: 0 <= j < |columns| ==> p.columns[j].dataType == columns[j].dataType;
    if ValidPayload(p) {
      forall i, j | 0 <= i < |rows| && 0 <= j < |columns| ensures ValidCell(rows[i][j], columns[j].dataType) {
        assert ValidCell(p.rows[i][j], p.columns[j].dataType);
      }
    }
  }

  /** Normalized rows make a payload that passes its own validator, except where years are not padded
      and a timestamp of the source lies before year 1000 in UTC. */
  lemma {:induction false} NormalizedPayloadIsValid(lex: Lexer, padsYears: bool, source: Rows, columns: seq<Column>)
    requires lex.timestamp == CanonicalTimestamp.Reader(padsYears) && 1 <= |columns| <= MAX_DATASET_COLUMNS
    requires Normalize(lex, source, columns).Ok?
    ensures ValidPayload(DatasetPayload(PayloadColumns(columns), Normalize(lex, source, columns).value.rows))
            <==> padsYears || YearsAreLong(source, columns)
  {
    NormalizedCellsFollowYears(lex, padsYears, source, columns);
    ValidIffCells(columns, Normalize(lex, source, columns).value.rows);
  }

  // ----- what an output cell says -----

  /** What a source holds for a row and a column. */
  datatype SourceCell = Missing | Raw(text: Text) | Given(value: Value)

  function RowCount(source: Rows): nat {
    match source
    case Csv(lines) => if lines == [] then 0 else |lines| - 1
    case Objects(rows) => |rows|
  }

  /** The text under the column's name in the header, or the member of that name. */
  function SourceCellAt(source: Rows, c: Column, i: nat): SourceCell
    requires i < RowCount(source)
  {
    match source
    case Csv(lines) =>
      var k := Position(lines[0], c.sourceName);
      if k.None? || k.value >= |lines[i + 1]| then Missing else Raw(lines[i + 1][k.value])
    case Objects(rows) =>
      match rows[i]
      case NotAnObject => Missing
      case Row(members) => (match Lookup(members, c.sourceName) case None => Missing case Some(v) => Given(v))
  }

  ghost predicate SameMoment(a: Text, b: Text) {
    var p, q := CanonicalTimestamp.Parse(a), CanonicalTimestamp.Parse(b);
    p.Some? && q.Some? && CanonicalTimestamp.SameInstant(p.value, q.value)
  }

  /** A timestamp is rewritten to its canonical form, which denotes the same instant wherever it can be
      read back. */
  ghost predicate RendersTimestamp(padsYears: bool, t: Text, v: Value) {
    && v.Str? && CanonicalTimestamp.Canonical(padsYears, t) == Some(v.s)
    && (padsYears || CanonicalTimestamp.HasLongYear(t) ==> SameMoment(t, v.s))
  }

  /** A value of the output is the source's own: null where the source has nothing, JSON values and
      strings as they are, the other texts as what they spell. */
  ghost predicate Renders(lex: Lexer, padsYears: bool, c: SourceCell, t: DataType, v: Value) {
    match c
    case Missing => v.Null?
    case Given(x) =>
      if t == TimestampType && !x.Null? then x.Str? && RendersTimestamp(padsYears, x.s, v) else v == x
    case Raw(text) =>
      if t == StringType then v == Str(text)
      else if text == [] then v.Null?
      else
        match t
        case BooleanType => v.Bool? && (v.b <==> text == Lit("true")) && (!v.b <==> text == Lit("false"))
        case IntegerType => v.Num? && v.x.Int? && lex.integer(text) == Some(v.x.n)
        case NumberType => lex.number(text) == Some(v)
        case _ => RendersTimestamp(padsYears, text, v)
  }

  lemma {:induction false} CanonicalRenders(padsYears: bool, t: Text, c: Text)
    requires CanonicalTimestamp.Canonical(padsYears, t) == Some(c)
    ensures RendersTimestamp(padsYears, t, Str(c))
  {
    if padsYears || CanonicalTimestamp.HasLongYear(t) {
      CanonicalTimestamp.CanonicalIff(padsYears, t, c);
      CanonicalTimestamp.CanonicalIffSameInstant(padsYears, t, c);
    }
  }

  lemma {:induction false} JsonCellRenders(lex: Lexer, padsYears: bool, x: Value, t: DataType)
    requires lex.timestamp == CanonicalTimestamp.Reader(padsYears) && JsonCell(lex, x, t).Ok?
    ensures Renders(lex, padsYears, Given(x), t, JsonCell(lex, x, t).value.value)
  {
    if t == TimestampType && !x.Null? {
      var c := JsonCell(lex, x, t).value.value.s;
      assert lex.timestamp(x.s) == CanonicalTimestamp.Canonical(padsYears, x.s);
      CanonicalRenders(padsYears, x.s, c);
    }
  }

  lemma {:induction false} CsvCellRenders(lex: Lexer, padsYears: bool, text: Text, t: DataType)
    requires lex.timestamp == CanonicalTimestamp.Reader(padsYears) && CsvCell(lex, text, t).Ok?
    ensures Renders(lex, padsYears, Raw(text), t, CsvCell(lex, text, t).value.value)
  {
    assert Lit("true")[0] != Lit("false")[0];
    if t == TimestampType && text != [] {
      var c := CsvCell(lex, text, t).value.value.s;
      assert lex.timestamp(text) == CanonicalTimestamp.Canonical(padsYears, text);
      CanonicalRenders(padsYears, text, c);
    }
  }

  /** The row that is read at an index. */
  function RowAt(source: Rows, i: nat): Option<RawRow>
    requires i < RowCount(source)
  {
    match source
    case Csv(lines) => Some(Line(lines[0], lines[i + 1]))
    case Objects(rows) => (match rows[i] case NotAnObject => None case Row(members) => Some(Object(members)))
  }

  lemma {:induction false} RawRowIs(source: Rows, columns: seq<Column>, i: nat)
    requires RawRows(source, columns).Ok? && i < RowCount(source)
    ensures |RawRows(source, columns).value| == RowCount(source)
    ensures RawRows(source, columns).value[i] == RowAt(source, i)
  {
  }

  lemma {:induction false} RowRenders(lex: Lexer, padsYears: bool, source: Rows, c: Column, i: nat)
    requires lex.timestamp == CanonicalTimestamp.Reader(padsYears) && i < RowCount(source)
    requires RowAt(source, i).Some? && CellOf(lex, RowAt(source, i).value, c).Ok?
    ensures Renders(lex, padsYears, SourceCellAt(source, c, i), c.dataType,
                    CellOf(lex, RowAt(source, i).value, c).value.value)
  {
    match SourceCellAt(source, c, i) {
      case Missing =>
      case Raw(text) => CsvCellRenders(lex, padsYears, text, c.dataType);
      case Given(x) => JsonCellRenders(lex, padsYears, x, c.dataType);
    }
  }

  /** Every cell of the output renders the source's cell of the same row and column. */
  lemma {:induction false} OutputRendersSource(lex: Lexer, padsYears: bool, source: Rows, columns: seq<Column>)
    requires lex.timestamp == CanonicalTimestamp.Reader(padsYears) && Normalize(lex, source, columns).Ok?
    ensures var rows := Normalize(lex, source, columns).value.rows;
      && |rows| == RowCount(source)
      && (forall i :: 0 <= i < |rows| ==> |rows[i]| == |columns|)
      && forall i, j :: 0 <= i < |rows| && 0 <= j < |columns| ==>
           Renders(lex, padsYears, SourceCellAt(source, columns[j], i), columns[j].dataType, rows[i][j])
  {
    var raw := RawRows(source, columns).value;
    var table := TableCells(lex, raw, columns).value;
    var rows := TableValues(table);
    RawRowIs(source, columns, 0);
    forall i, j | 0 <= i < |rows| && 0 <= j < |columns|
      ensures Renders(lex, padsYears, SourceCellAt(source, columns[j], i), columns[j].dataType, rows[i][j])
    {
      TableCellIs(lex, raw, columns, i, j);
      RawRowIs(source, columns, i);
      RowRenders(lex, padsYears, source, columns[j], i);
      assert rows[i] == Values(table[i]);
    }
  }

  // ----- the order of CSV columns does not matter -----

  ghost predicate Covers(order: seq<nat>, i: nat) {
    exists k :: 0 <= k < |order| && order[k] == i
  }

  /** `order` rearranges positions 0 to n - 1. */
  ghost predicate Rearranges(order: seq<nat>, n: nat) {
    && |order| == n
    && (forall k :: 0 <= k < n ==> order[k] < n)
    && (forall i :: 0 <= i < n ==> Covers(order, i))
  }

  /** Line `b` is line `a` with its fields rearranged. */
  ghost predicate IsRearranged(order: seq<nat>, a: seq<Text>, b: seq<Text>) {
    |b| == |a| && (|a| == |order| ==> forall k :: 0 <= k < |order| && order[k] < |a| ==> b[k] == a[order[k]])
  }

  lemma {:induction false} PositionIs(header: seq<Text>, i: nat)
    requires NoRepeats(header) && i < |header|
    ensures Position(header, header[i]) == Some(i)
  {
    if i < |header| - 1 {
      PositionIs(header[..|header| - 1], i);
    }
  }

  lemma {:induction false} SetOfTexts(s: seq<Text>)
    ensures |set t | t in s| <= |s|
    ensures |set t | t in s| == |s| ==> NoRepeats(s)
  {
    if s != [] {
      var front, last := s[..|s| - 1], s[|s| - 1];
      SetOfTexts(front);
      assert s == front + [last];
      assert (set t | t in s) == (set t | t in front) + {last};
    }
  }

  lemma {:induction false} SetOfDistinct(s: seq<Text>)
    requires NoRepeats(s)
    ensures |set t | t in s| == |s|
  {
    if s != [] {
      var front, last := s[..|s| - 1], s[|s| - 1];
      SetOfDistinct(front);
      assert s == front + [last];
      assert (set t | t in s) == (set t | t in front) + {last};
    }
  }

  function Names(columns: seq<Column>): seq<Text> {
    seq(|columns|, i requires 0 <= i < |columns| => columns[i].sourceName)
  }

  /** An accepted header names every column once. */
  lemma {:induction false} AcceptedHeaderIsDistinct(lines: seq<seq<Text>>, columns: seq<Column>)
    requires ColumnsDiffer(columns) && RawRows(Csv(lines), columns).Ok?
    ensures NoRepeats(lines[0])
  {
    var header, names := lines[0], Names(columns);
    SetOfDistinct(names);
    SetOfTexts(header);
    assert forall i :: 0 <= i < |columns| ==> names[i] == columns[i].sourceName;
    assert (set t | t in header) == set t | t in names by {
      forall t ensures t in header <==> t in names {
        if t in names {
          var i :| 0 <= i < |names| && names[i] == t;
        }
        if t in header {
          var i :| 0 <= i < |header| && header[i] == t;
          assert IsDeclaredName(columns, header[i]);
        }
      }
    }
  }

  lemma {:induction false} RearrangedCell(lex: Lexer, order: seq<nat>, header: seq<Text>, line: seq<Text>,
                                          header2: seq<Text>, line2: seq<Text>, c: Column)
    requires Rearranges(order, |header|) && |line| == |header|
    requires NoRepeats(header) && NoRepeats(header2)
    requires IsRearranged(order, header, header2) && IsRearranged(order, line, line2)
    ensures CellOf(lex, Line(header, line), c) == CellOf(lex, Line(header2, line2), c)
  {
    assert forall k :: 0 <= k < |header2| ==> header2[k] == header[order[k]];
    var i := Position(header, c.sourceName);
    if i.Some? {
      assert Covers(order, i.value);
      var k :| 0 <= k < |order| && order[k] == i.value;
      PositionIs(header2, k);
    }
  }

  lemma {:induction false} RearrangedCells(lex: Lexer, order: seq<nat>, header: seq<Text>, line: seq<Text>,
                                           header2: seq<Text>, line2: seq<Text>, columns: seq<Column>)
    requires Rearranges(order, |header|) && |line| == |header|
    requires NoRepeats(header) && NoRepeats(header2)
    requires IsRearranged(order, header, header2) && IsRearranged(order, line, line2)
    ensures CellsOf(lex, Line(header, line), columns) == CellsOf(lex, Line(header2, line2), columns)
  {
    if columns != [] {
      RearrangedCell(lex, order, header, line, header2, line2, columns[0]);
      RearrangedCells(lex, order, header, line, header2, line2, columns[1..]);
    }
  }

  lemma {:induction false} RearrangedRow(lex: Lexer, order: seq<nat>, header: seq<Text>, line: seq<Text>,
                                         header2: seq<Text>, line2: seq<Text>, columns: seq<Column>)
    requires Rearranges(order, |header|) && NoRepeats(header) && NoRepeats(header2)
    requires IsRearranged(order, header, header2) && IsRearranged(order, line, line2)
    ensures RowCells(lex, Some(Line(header, line)), columns) == RowCells(lex, Some(Line(header2, line2)), columns)
  {
    if |line| == |header| {
      RearrangedCells(lex, order, header, line, header2, line2, columns);
    }
  }

  ghost predicate RowsAgree(lex: Lexer, columns: seq<Column>, a: seq<Option<RawRow>>, b: seq<Option<RawRow>>) {
    |a| == |b| && forall i :: 0 <= i < |a| ==> RowCells(lex, a[i], columns) == RowCells(lex, b[i], columns)
  }

  lemma {:induction false} AgreeingRowsSameTable(lex: Lexer, columns: seq<Column>, a: seq<Option<RawRow>>,
                                                 b: seq<Option<RawRow>>)
    requires RowsAgree(lex, columns, a, b)
    ensures TableCells(lex, a, columns) == TableCells(lex, b, columns)
  {
    if a != [] {
      AgreeingRowsSameTable(lex, columns, a[1..], b[1..]);
    }
  }

  lemma {:induction false} RearrangedHeader(order: seq<nat>, columns: seq<Column>, a: seq<seq<Text>>, b: seq<seq<Text>>)
    requires |a| == |b| > 0 && Rearranges(order, |a[0]|) && IsRearranged(order, a[0], b[0])
    ensures RawRows(Csv(a), columns).Ok? <==> RawRows(Csv(b), columns).Ok?
    ensures RawRows(Csv(a), columns).Err? ==> RawRows(Csv(a), columns) == RawRows(Csv(b), columns)
  {
    var header, header2 := a[0], b[0];
    forall t ensures t in header <==> t in header2 {
      if t in header {
        var i :| 0 <= i < |header| && header[i] == t;
        assert Covers(order, i);
        var k :| 0 <= k < |order| && order[k] == i;
        assert header2[k] == t;
      }
      if t in header2 {
        var k :| 0 <= k < |header2| && header2[k] == t;
        assert header[order[k]] == t;
      }
    }
    assert (forall i :: 0 <= i < |header| ==> IsDeclaredName(columns, header[i])) <==>
           (forall i :: 0 <= i < |header2| ==> IsDeclaredName(columns, header2[i])) by {
      assert (forall i :: 0 <= i < |header| ==> IsDeclaredName(columns, header[i])) <==>
             (forall t :: t in header ==> IsDeclaredName(columns, t));
      assert (forall i :: 0 <= i < |header2| ==> IsDeclaredName(columns, header2[i])) <==>
             (forall t :: t in header2 ==> IsDeclaredName(columns, t));
    }
  }

  lemma {:induction false} CsvRowIs(lines: seq<seq<Text>>, columns: seq<Column>, i: nat)
    requires RawRows(Csv(lines), columns).Ok? && i + 1 < |lines|
    ensures |RawRows(Csv(lines), columns).value| == |lines| - 1
    ensures RawRows(Csv(lines), columns).value[i] == Some(Line(lines[0], lines[i + 1]))
  {
  }

  lemma {:induction false} RearrangedRows(lex: Lexer, order: seq<nat>, columns: seq<Column>, a: seq<seq<Text>>,
                                          b: seq<seq<Text>>)
    requires |a| == |b| > 0 && Rearranges(order, |a[0]|) && NoRepeats(a[0]) && NoRepeats(b[0])
    requires forall i :: 0 <= i < |a| ==> IsRearranged(order, a[i], b[i])
    requires RawRows(Csv(a), columns).Ok? && RawRows(Csv(b), columns).Ok?
    ensures TableCells(lex, RawRows(Csv(a), columns).value, columns)
            == TableCells(lex, RawRows(Csv(b), columns).value, columns)
  {
    var x, y := RawRows(Csv(a), columns).value, RawRows(Csv(b), columns).value;
    assert |x| == |a| - 1 && |y| == |b| - 1;
    forall i | 0 <= i < |x| ensures RowCells(lex, x[i], columns) == RowCells(lex, y[i], columns) {
      CsvRowIs(a, columns, i);
      CsvRowIs(b, columns, i);
      var line, line2 := a[i + 1], b[i + 1];
      assert IsRearranged(order, line, line2) && IsRearranged(order, a[0], b[0]);
      RearrangedRow(lex, order, a[0], line, b[0], line2, columns);
    }
    AgreeingRowsSameTable(lex, columns, x, y);
  }

  /** Rearranging the columns of a CSV source, header and lines alike, changes neither the rows nor
      the ledger, nor the fault. */
  lemma {:induction false} ColumnOrderDoesNotMatter(lex: Lexer, order: seq<nat>, columns: seq<Column>,
                                                    a: seq<seq<Text>>, b: seq<seq<Text>>)
    requires |a| == |b| > 0 && Rearranges(order, |a[0]|)
    requires forall i :: 0 <= i < |a| ==> IsRearranged(order, a[i], b[i])
    ensures Normalize(lex, Csv(a), columns) == Normalize(lex, Csv(b), columns)
  {
    RearrangedHeader(order, columns, a, b);
    if ColumnsDiffer(columns) && RawRows(Csv(a), columns).Ok? {
      AcceptedHeaderIsDistinct(a, columns);
      AcceptedHeaderIsDistinct(b, columns);
      RearrangedRows(lex, order, columns, a, b);
    }
  }

  // ----- normalizing again -----

  /** A normalized row as a JSON object under the source names. */
  function AsMembers(columns: seq<Column>, values: seq<Value>): (members: seq<(Text, Value)>)
    requires |values| == |columns|
    ensures |members| == |columns|
  {
    seq(|columns|, j requires 0 <= j < |columns| => (columns[j].sourceName, values[j]))
  }

  lemma {:induction false} LookupAt(members: seq<(Text, Value)>, j: nat)
    requires j < |members| && forall i :: 0 <= i < j ==> members[i].0 != members[j].0
    ensures Lookup(members, members[j].0) == Some(members[j].1)
  {
    if j > 0 {
      LookupAt(members[1..], j - 1);
    }
  }

  ghost predicate IsFixed(lex: Lexer, columns: seq<Column>, values: seq<Value>) {
    |values| == |columns|
    && forall j :: 0 <= j < |columns| ==> IsStable(lex, values[j], columns[j].dataType)
  }

  function Quiet(values: seq<Value>): (cells: seq<Cell>)
    ensures |cells| == |values|
  {
    seq(|values|, j requires 0 <= j < |values| => Cell(values[j], None, false))
  }

  lemma {:induction false} CellsAgain(lex: Lexer, columns: seq<Column>, values: seq<Value>, from: nat)
    requires ColumnsDiffer(columns) && IsFixed(lex, columns, values) && from <= |columns|
    ensures CellsOf(lex, Object(AsMembers(columns, values)), columns[from..]) == Ok(Quiet(values[from..]))
    decreases |columns| - from
  {
    var members := AsMembers(columns, values);
    if from < |columns| {
      CellsAgain(lex, columns, values, from + 1);
      LookupAt(members, from);
      assert columns[from..][0] == columns[from] && columns[from..][1..] == columns[from + 1..];
      assert CellOf(lex, Object(members), columns[from]) == Ok(Cell(values[from], None, false));
      assert [Cell(values[from], None, false)] + Quiet(values[from + 1..]) == Quiet(values[from..]);
    }
  }

  lemma {:induction false} RowAgain(lex: Lexer, columns: seq<Column>, values: seq<Value>)
    requires ColumnsDiffer(columns) && IsFixed(lex, columns, values)
    ensures RowCells(lex, Some(Object(AsMembers(columns, values))), columns) == Ok(Quiet(values))
  {
    CellsAgain(lex, columns, values, 0);
    assert columns[0..] == columns && values[0..] == values;
    var members := AsMembers(columns, values);
    forall i | 0 <= i < |members| ensures IsDeclaredName(columns, members[i].0) {
      assert columns[i].sourceName == members[i].0;
    }
  }

  function QuietTable(rows: seq<seq<Value>>): (table: CellTable)
    ensures |table| == |rows|
  {
    seq(|rows|, i requires 0 <= i < |rows| => Quiet(rows[i]))
  }

  function AsRaw(columns: seq<Column>, rows: seq<seq<Value>>): (raw: seq<Option<RawRow>>)
    requires forall i :: 0 <= i < |rows| ==> |rows[i]| == |columns|
    ensures |raw| == |rows|
  {
    seq(|rows|, i requires 0 <= i < |rows| => Some(Object(AsMembers(columns, rows[i]))))
  }

  lemma {:induction false} TableAgain(lex: Lexer, columns: seq<Column>, rows: seq<seq<Value>>)
    requires ColumnsDiffer(columns) && forall i :: 0 <= i < |rows| ==> IsFixed(lex, columns, rows[i])
    requires forall i :: 0 <= i < |rows| ==> |rows[i]| == |columns|
    ensures TableCells(lex, AsRaw(columns, rows), columns) == Ok(QuietTable(rows))
  {
    if rows != [] {
      RowAgain(lex, columns, rows[0]);
      TableAgain(lex, columns, rows[1..]);
      assert AsRaw(columns, rows)[1..] == AsRaw(columns, rows[1..]);
      assert [Quiet(rows[0])] + QuietTable(rows[1..]) == QuietTable(rows);
    }
  }

  lemma {:induction false} QuietLedgerIsEmpty(columns: seq<Column>, rows: seq<seq<Value>>)
    requires forall i :: 0 <= i < |rows| ==> |rows[i]| == |columns|
    ensures Ledger(columns, QuietTable(rows)) == []
  {
    var ledger := Ledger(columns, QuietTable(rows));
    if ledger != [] {
      assert ledger[0] in ledger;
      LedgerIsExact(columns, QuietTable(rows), ledger[0]);
      var j :| 0 <= j < |columns| && CountOf(QuietTable(rows), ledger[0].code, j) == ledger[0].count;
      CountIsBounded(QuietTable(rows), ledger[0].code, j);
    }
  }

  function AsObjects(columns: seq<Column>, rows: seq<seq<Value>>): Rows
    requires forall i :: 0 <= i < |rows| ==> |rows[i]| == |columns|
  {
    Objects(seq(|rows|, i requires 0 <= i < |rows| => Row(AsMembers(columns, rows[i]))))
  }

  lemma {:induction false} UnchangedIsStable(lex: Lexer, v: Value, t: DataType)
    ensures IsStable(lex, v, t) <==> JsonCell(lex, v, t).Ok? && JsonCell(lex, v, t).value.value == v
  {
  }

  /** Rows that come out unchanged consist of stable cells. */
  lemma {:induction false} UnchangedRowsAreStable(lex: Lexer, columns: seq<Column>, rows: seq<seq<Value>>, i: nat,
                                                  j: nat)
    requires ColumnsDiffer(columns) && i < |rows| && j < |columns|
    requires forall k :: 0 <= k < |rows| ==> |rows[k]| == |columns|
    requires TableCells(lex, AsRaw(columns, rows), columns).Ok?
    requires TableValues(TableCells(lex, AsRaw(columns, rows), columns).value) == rows
    ensures IsStable(lex, rows[i][j], columns[j].dataType)
  {
    var raw := AsRaw(columns, rows);
    var table := TableCells(lex, raw, columns).value;
    TableCellIs(lex, raw, columns, i, j);
    var members := AsMembers(columns, rows[i]);
    assert raw[i] == Some(Object(members));
    LookupAt(members, j);
    assert JsonCell(lex, rows[i][j], columns[j].dataType) == Ok(table[i][j]);
    assert Values(table[i]) == rows[i];
    assert Values(table[i])[j] == table[i][j].value;
    UnchangedIsStable(lex, rows[i][j], columns[j].dataType);
  }

  lemma {:induction false} FixedRowsComeBack(lex: Lexer, columns: seq<Column>, rows: seq<seq<Value>>)
    requires ColumnsDiffer(columns) && 1 <= |rows| <= MAX_DATASET_ROWS
    requires forall i :: 0 <= i < |rows| ==> |rows[i]| == |columns|
    ensures Normalize(lex, AsObjects(columns, rows), columns) == Ok(Normalized(rows, []))
            <==> AllStable(lex, columns, rows)
  {
    var source := AsObjects(columns, rows);
    assert RawRows(source, columns).value == AsRaw(columns, rows);
    if AllStable(lex, columns, rows) {
      assert forall i :: 0 <= i < |rows| ==> IsFixed(lex, columns, rows[i]);
      TableAgain(lex, columns, rows);
      QuietLedgerIsEmpty(columns, rows);
      assert TableValues(QuietTable(rows)) == rows by {
        assert forall i :: 0 <= i < |rows| ==> Values(Quiet(rows[i])) == rows[i];
      }
    }
    if Normalize(lex, source, columns) == Ok(Normalized(rows, [])) {
      forall i, j | 0 <= i < |rows| && 0 <= j < |columns| ensures IsStable(lex, rows[i][j], columns[j].dataType) {
        UnchangedRowsAreStable(lex, columns, rows, i, j);
      }
    }
  }

  /** Normalizing is idempotent across formats: normalized rows, given back as JSON objects, come out
      unchanged and without a single event, except where years are not padded and a timestamp of the
      source lies before year 1000 in UTC. */
  lemma {:induction false} NormalizingAgainChangesNothing(lex: Lexer, padsYears: bool, source: Rows,
                                                          columns: seq<Column>)
    requires lex.timestamp == CanonicalTimestamp.Reader(padsYears) && Normalize(lex, source, columns).Ok?
    ensures var n := Normalize(lex, source, columns).value;
      && (forall i :: 0 <= i < |n.rows| ==> |n.rows[i]| == |columns|)
      && (Normalize(lex, AsObjects(columns, n.rows), columns) == Ok(Normalized(n.rows, []))
          <==> padsYears || YearsAreLong(source, columns))
  {
    NormalizedCellsFollowYears(lex, padsYears, source, columns);
    FixedRowsComeBack(lex, columns, Normalize(lex, source, columns).value.rows);
  }
}
