/** Which sources the normaliser accepts, what its ledger counts, and which fault a refusal names
    (shared/dataset_registry.py:172-509), in terms of the source's own cells. */
module NormalizerOutcome {
  import opened Foundations
  import Utf8
  import opened Binary64
  import opened CanonicalJson
  import opened JsonObjects
  import opened DataRecords
  import opened Normalizer

  // ----- one cell -----

  predicate SmallText(t: Text) {
    Utf8.Encodable(t) && |Utf8.Encode(t)| <= MAX_CELL_BYTES
  }

  predicate SafeInteger(n: int) {
    -MAX_SAFE_INTEGER <= n <= MAX_SAFE_INTEGER
  }

  predicate GivenAcceptable(lex: Lexer, v: Value, t: DataType) {
    match t
    case BooleanType => v.Bool?
    case IntegerType => v.Num? && v.x.Int? && SafeInteger(v.x.n)
    case NumberType => v.Num? && Accepted(v.x)
    case StringType => v.Str? && SmallText(v.s)
    case TimestampType => v.Str? && SmallText(v.s) && lex.timestamp(v.s).Some?
  }

  predicate RawAcceptable(lex: Lexer, text: Text, t: DataType) {
    match t
    case BooleanType => text == Lit("true") || text == Lit("false")
    case IntegerType => lex.integer(text).Some? && SafeInteger(lex.integer(text).value)
    case NumberType =>
      lex.number(text).Some? && lex.number(text).value.Num? && Accepted(lex.number(text).value.x)
    case StringType => true
    case TimestampType => lex.timestamp(text).Some?
  }

  /** Null is a value of every type, and so is an empty CSV field. */
  predicate Acceptable(lex: Lexer, c: SourceCell, t: DataType) {
    match c
    case Missing => true
    case Given(v) => v.Null? || GivenAcceptable(lex, v, t)
    case Raw(text) => SmallText(text) && (text == [] || RawAcceptable(lex, text, t))
  }

  /** The text of a cell that is looked at for its size. */
  function SizedText(c: SourceCell, t: DataType): Option<Text> {
    match c
    case Missing => None
    case Raw(text) => Some(text)
    case Given(v) => if v.Str? && (t == StringType || t == TimestampType) then Some(v.s) else None
  }

  /** The fault of a cell that is not acceptable: its text first, then its type. */
  function CellFault(c: SourceCell, t: DataType): Fault {
    var text := SizedText(c, t);
    if text.Some? && !Utf8.Encodable(text.value) then InvalidUnicode
    else if text.Some? && |Utf8.Encode(text.value)| > MAX_CELL_BYTES then DecodedCellBytes(|Utf8.Encode(text.value)|)
    else
      match t
      case BooleanType => InvalidBooleanCell
      case IntegerType => InvalidIntegerCell
      case NumberType => InvalidNumberCell
      case StringType => InvalidStringCell
      case TimestampType => InvalidTimestamp
  }

  /** The timestamp text of a cell is not its own canonical form. */
  predicate Rewritten(lex: Lexer, c: SourceCell) {
    match c
    case Missing => false
    case Raw(text) => text != [] && lex.timestamp(text) != Some(text)
    case Given(v) => v.Str? && lex.timestamp(v.s) != Some(v.s)
  }

  /** What the event says of a source cell. */
  predicate Happened(lex: Lexer, c: SourceCell, t: DataType, code: EventCode) {
    match code
    case JsonMissingFieldToNull => c == Missing
    case CsvEmptyFieldToNull => c == Raw([]) && t != StringType
    case CsvNumberParsed => c.Raw? && c.text != [] && t == NumberType
    case CsvIntegerParsed => c.Raw? && c.text != [] && t == IntegerType
    case CsvBooleanParsed => c.Raw? && c.text != [] && t == BooleanType
    case TimestampToCanonicalUtc => t == TimestampType && Rewritten(lex, c)
  }

  ghost predicate CellIsAsSaid(lex: Lexer, read: Result<Cell, Fault>, c: SourceCell, t: DataType) {
    && (read.Ok? <==> Acceptable(lex, c, t))
    && (read.Err? ==> read.error == CellFault(c, t))
    && (read.Ok? ==> forall code :: Causes(read.value, code) <==> Happened(lex, c, t, code))
  }

  lemma {:induction false} JsonOutcome(lex: Lexer, v: Value, t: DataType)
    ensures CellIsAsSaid(lex, JsonCell(lex, v, t), Given(v), t)
  {
  }

  lemma {:induction false} CsvOutcome(lex: Lexer, text: Text, t: DataType)
    ensures CellIsAsSaid(lex, CsvCell(lex, text, t), Raw(text), t)
  {
    if SmallText(text) && text != [] {
      SpelledOutcome(lex, text, t);
    }
  }

  lemma {:induction false} SpelledOutcome(lex: Lexer, text: Text, t: DataType)
    requires SmallText(text) && text != []
    ensures CellIsAsSaid(lex, CsvCell(lex, text, t), Raw(text), t)
  {
    assert CheckSize(text) == None;
    match t {
      case BooleanType => BooleanOutcome(lex, text);
      case IntegerType => IntegerOutcome(lex, text);
      case NumberType => NumberOutcome(lex, text);
      case StringType =>
      case TimestampType =>
    }
  }

  lemma {:induction false} BooleanOutcome(lex: Lexer, text: Text)
    requires SmallText(text) && text != []
    ensures CellIsAsSaid(lex, CsvCell(lex, text, BooleanType), Raw(text), BooleanType)
  {
  }

  lemma {:induction false} IntegerOutcome(lex: Lexer, text: Text)
    requires SmallText(text) && text != []
    ensures CellIsAsSaid(lex, CsvCell(lex, text, IntegerType), Raw(text), IntegerType)
  {
  }

  lemma {:induction false} NumberOutcome(lex: Lexer, text: Text)
    requires SmallText(text) && text != []
    ensures CellIsAsSaid(lex, CsvCell(lex, text, NumberType), Raw(text), NumberType)
  {
  }

  /** The header of a CSV row holds the column, as it does in every source that is read. */
  ghost predicate HasColumn(source: Rows, i: nat, c: Column)
    requires i < RowCount(source)
  {
    match source
    case Csv(lines) => |lines[i + 1]| == |lines[0]| && c.sourceName in lines[0]
    case Objects(_) => true
  }

  lemma {:induction false} CellOutcome(lex: Lexer, source: Rows, i: nat, c: Column)
    requires i < RowCount(source) && RowAt(source, i).Some? && HasColumn(source, i, c)
    ensures CellIsAsSaid(lex, CellOf(lex, RowAt(source, i).value, c), SourceCellAt(source, c, i), c.dataType)
  {
    match SourceCellAt(source, c, i) {
      case Missing =>
      case Raw(text) => CsvOutcome(lex, text, c.dataType);
      case Given(v) => JsonOutcome(lex, v, c.dataType);
    }
  }

  // ----- one row -----

  predicate CellAcceptable(lex: Lexer, source: Rows, i: nat, c: Column)
    requires i < RowCount(source)
  {
    Acceptable(lex, SourceCellAt(source, c, i), c.dataType)
  }

  /** The first cell that is not acceptable, from the left, names the fault. */
  ghost predicate NamesFirstCell(lex: Lexer, source: Rows, i: nat, columns: seq<Column>, fault: Fault)
    requires i < RowCount(source)
  {
    exists j: nat ::
      && j < |columns| && !CellAcceptable(lex, source, i, columns[j])
      && (forall k: nat :: k < j ==> CellAcceptable(lex, source, i, columns[k]))
      && fault == CellFault(SourceCellAt(source, columns[j], i), columns[j].dataType)
  }

  lemma {:induction false} NamesFirstCellOfMore(lex: Lexer, source: Rows, i: nat, columns: seq<Column>, fault: Fault)
    requires i < RowCount(source) && columns != [] && CellAcceptable(lex, source, i, columns[0])
    requires NamesFirstCell(lex, source, i, columns[1..], fault)
    ensures NamesFirstCell(lex, source, i, columns, fault)
  {
    var j: nat :| j < |columns[1..]| && !CellAcceptable(lex, source, i, columns[1..][j])
                  && (forall k: nat :: k < j ==> CellAcceptable(lex, source, i, columns[1..][k]))
                  && fault == CellFault(SourceCellAt(source, columns[1..][j], i), columns[1..][j].dataType);
    assert columns[1..][j] == columns[j + 1];
    forall k: nat | k < j + 1 ensures CellAcceptable(lex, source, i, columns[k]) {
      assert k > 0 ==> columns[1..][k - 1] == columns[k];
    }
  }

  lemma {:induction false} CellsOutcome(lex: Lexer, source: Rows, i: nat, columns: seq<Column>)
    requires i < RowCount(source) && RowAt(source, i).Some?
    requires forall j :: 0 <= j < |columns| ==> HasColumn(source, i, columns[j])
    ensures var read := CellsOf(lex, RowAt(source, i).value, columns);
      && (read.Ok? <==> forall j :: 0 <= j < |columns| ==> CellAcceptable(lex, source, i, columns[j]))
      && (read.Err? ==> NamesFirstCell(lex, source, i, columns, read.error))
  {
    if columns != [] {
      CellOutcome(lex, source, i, columns[0]);
      CellsOutcome(lex, source, i, columns[1..]);
      var read := CellsOf(lex, RowAt(source, i).value, columns);
      assert forall j :: 0 <= j < |columns[1..]| ==> columns[1..][j] == columns[j + 1];
      assert (forall j :: 0 <= j < |columns| ==> CellAcceptable(lex, source, i, columns[j])) <==>
             CellAcceptable(lex, source, i, columns[0])
             && forall j :: 0 <= j < |columns[1..]| ==> CellAcceptable(lex, source, i, columns[1..][j]);
      if read.Err? && CellAcceptable(lex, source, i, columns[0]) {
        NamesFirstCellOfMore(lex, source, i, columns, read.error);
      }
    }
  }

  ghost predicate Declares(columns: seq<Column>, name: Text) {
    exists c :: c in columns && c.sourceName == name
  }

  lemma {:induction false} DeclaresIff(columns: seq<Column>)
    ensures forall name :: IsDeclaredName(columns, name) <==> Declares(columns, name)
  {
    forall name ensures IsDeclaredName(columns, name) <==> Declares(columns, name) {
      if IsDeclaredName(columns, name) {
        var i :| 0 <= i < |columns| && columns[i].sourceName == name;
        assert columns[i] in columns;
      }
      if Declares(columns, name) {
        var c :| c in columns && c.sourceName == name;
        var i :| 0 <= i < |columns| && columns[i] == c;
      }
    }
  }

  /** A line as wide as the header, or an object with declared names only. */
  ghost predicate RowShaped(source: Rows, columns: seq<Column>, i: nat)
    requires i < RowCount(source)
  {
    match source
    case Csv(lines) => |lines[i + 1]| == |lines[0]|
    case Objects(rows) =>
      && rows[i].Row?
      && forall k :: 0 <= k < |rows[i].members| ==> Declares(columns, rows[i].members[k].0)
  }

  ghost predicate RowAcceptable(lex: Lexer, source: Rows, columns: seq<Column>, i: nat)
    requires i < RowCount(source)
  {
    RowShaped(source, columns, i) && forall j :: 0 <= j < |columns| ==> CellAcceptable(lex, source, i, columns[j])
  }

  ghost predicate NamesRowFault(lex: Lexer, source: Rows, columns: seq<Column>, i: nat, fault: Fault)
    requires i < RowCount(source)
  {
    if RowShaped(source, columns, i) then NamesFirstCell(lex, source, i, columns, fault)
    else
      match source
      case Csv(_) => fault == InvalidCsvRowWidth
      case Objects(rows) => fault == if rows[i].NotAnObject? then JsonRowNotObject else UndeclaredSourceField
  }

  ghost predicate HeaderHolds(source: Rows, columns: seq<Column>) {
    source.Csv? ==> source.lines != [] && forall j :: 0 <= j < |columns| ==> columns[j].sourceName in source.lines[0]
  }

  lemma {:induction false} RowOutcome(lex: Lexer, source: Rows, columns: seq<Column>, i: nat)
    requires i < RowCount(source) && HeaderHolds(source, columns)
    ensures var read := RowCells(lex, RowAt(source, i), columns);
      && (read.Ok? <==> RowAcceptable(lex, source, columns, i))
      && (read.Err? ==> NamesRowFault(lex, source, columns, i, read.error))
  {
    ShapeIs(source, columns, i);
    if RowShaped(source, columns, i) {
      CellsOutcome(lex, source, i, columns);
    }
  }

  lemma {:induction false} ShapeIs(source: Rows, columns: seq<Column>, i: nat)
    requires i < RowCount(source)
    ensures var row := RowAt(source, i);
      && (RowShaped(source, columns, i) <==> row.Some? && Shape(row.value, columns).None?)
      && (row.None? <==> source.Objects? && source.rows[i].NotAnObject?)
      && (row.Some? && Shape(row.value, columns).Some? ==>
            Shape(row.value, columns).value == if source.Csv? then InvalidCsvRowWidth else UndeclaredSourceField)
  {
    DeclaresIff(columns);
  }

  // ----- the source -----

  lemma {:induction false} TableOutcome(lex: Lexer, rows: seq<Option<RawRow>>, columns: seq<Column>)
    ensures var read := TableCells(lex, rows, columns);
      && (read.Ok? <==> forall i :: 0 <= i < |rows| ==> RowCells(lex, rows[i], columns).Ok?)
      && (read.Err? ==> exists i: nat ::
            && i < |rows| && RowCells(lex, rows[i], columns) == Err(read.error)
            && forall k: nat :: k < i ==> RowCells(lex, rows[k], columns).Ok?)
  {
    if rows != [] {
      TableOutcome(lex, rows[1..], columns);
      var read := TableCells(lex, rows, columns);
      assert forall i :: 0 <= i < |rows[1..]| ==> rows[1..][i] == rows[i + 1];
      assert (forall i :: 0 <= i < |rows| ==> RowCells(lex, rows[i], columns).Ok?) <==>
             RowCells(lex, rows[0], columns).Ok?
             && forall i :: 0 <= i < |rows[1..]| ==> RowCells(lex, rows[1..][i], columns).Ok?;
      if read.Err? && RowCells(lex, rows[0], columns).Ok? {
        var i: nat :| i < |rows[1..]| && RowCells(lex, rows[1..][i], columns) == Err(read.error)
                      && forall k: nat :: k < i ==> RowCells(lex, rows[1..][k], columns).Ok?;
        forall k: nat | k < i + 1 ensures RowCells(lex, rows[k], columns).Ok? {
          assert k > 0 ==> rows[1..][k - 1] == rows[k];
        }
      }
    }
  }

  /** A CSV source starts with a header that lists the declared names, each once. */
  ghost predicate HeaderFits(source: Rows, columns: seq<Column>) {
    source.Csv? ==>
      && source.lines != [] && |source.lines[0]| == |columns|
      && (forall i :: 0 <= i < |source.lines[0]| ==> Declares(columns, source.lines[0][i]))
      && (forall j :: 0 <= j < |columns| ==> columns[j].sourceName in source.lines[0])
  }

  lemma {:induction false} HeaderOutcome(source: Rows, columns: seq<Column>)
    ensures var raw := RawRows(source, columns);
      && (raw.Ok? <==> HeaderFits(source, columns))
      && (raw.Err? ==> raw.error == if source.lines == [] then InvalidCsvSource else InvalidCsvHeader)
      && (raw.Ok? ==> |raw.value| == RowCount(source)
                      && forall i: nat :: i < RowCount(source) ==> raw.value[i] == RowAt(source, i))
  {
    DeclaresIff(columns);
    var raw := RawRows(source, columns);
    if raw.Ok? {
      forall i: nat | i < RowCount(source) ensures raw.value[i] == RowAt(source, i) {
        RawRowIs(source, columns, i);
      }
      if RowCount(source) > 0 {
        RawRowIs(source, columns, 0);
      }
    }
  }

  ghost predicate RowsAcceptable(lex: Lexer, source: Rows, columns: seq<Column>) {
    forall i: nat :: i < RowCount(source) ==> RowAcceptable(lex, source, columns, i)
  }

  /** The first row that is not acceptable names the fault. */
  ghost predicate NamesFirstRow(lex: Lexer, source: Rows, columns: seq<Column>, fault: Fault) {
    exists i: nat ::
      && i < RowCount(source) && !RowAcceptable(lex, source, columns, i)
      && (forall k: nat :: k < i ==> RowAcceptable(lex, source, columns, k))
      && NamesRowFault(lex, source, columns, i, fault)
  }

  lemma {:induction false} RowsOutcome(lex: Lexer, source: Rows, columns: seq<Column>)
    requires RawRows(source, columns).Ok?
    ensures var read := TableCells(lex, RawRows(source, columns).value, columns);
      && (read.Ok? <==> RowsAcceptable(lex, source, columns))
      && (read.Err? ==> NamesFirstRow(lex, source, columns, read.error))
  {
    HeaderOutcome(source, columns);
    var raw := RawRows(source, columns).value;
    TableOutcome(lex, raw, columns);
    var read := TableCells(lex, raw, columns);
    forall i: nat | i < RowCount(source)
      ensures RowCells(lex, raw[i], columns).Ok? <==> RowAcceptable(lex, source, columns, i)
      ensures RowCells(lex, raw[i], columns).Err? ==>
                NamesRowFault(lex, source, columns, i, RowCells(lex, raw[i], columns).error)
    {
      RowOutcome(lex, source, columns, i);
    }
    if read.Err? {
      var i: nat :| i < |raw| && RowCells(lex, raw[i], columns) == Err(read.error)
                    && forall k: nat :: k < i ==> RowCells(lex, raw[k], columns).Ok?;
      assert NamesRowFault(lex, source, columns, i, read.error);
    }
  }

  /** A source is normalized exactly when its columns and header fit, it has rows and not too many, every
      row has its shape and every cell is acceptable for its column. */
  lemma {:induction false} NormalizedIff(lex: Lexer, source: Rows, columns: seq<Column>)
    ensures Normalize(lex, source, columns).Ok? <==>
              && ColumnsDiffer(columns) && HeaderFits(source, columns) && RowsAcceptable(lex, source, columns)
              && 1 <= RowCount(source) <= MAX_DATASET_ROWS
  {
    HeaderOutcome(source, columns);
    if RawRows(source, columns).Ok? {
      RowsOutcome(lex, source, columns);
    }
  }

  /** A refusal names the first thing that is wrong: the columns, the header, then row by row and cell by
      cell, and the number of rows last. */
  lemma {:induction false} RefusalIsNamed(lex: Lexer, source: Rows, columns: seq<Column>)
    requires Normalize(lex, source, columns).Err?
    ensures var fault := Normalize(lex, source, columns).error;
      if !ColumnsDiffer(columns) then fault == DuplicateColumn
      else if !HeaderFits(source, columns) then
        fault == if source.lines == [] then InvalidCsvSource else InvalidCsvHeader
      else if !RowsAcceptable(lex, source, columns) then NamesFirstRow(lex, source, columns, fault)
      else fault == if RowCount(source) == 0 then EmptyDataset else DatasetRows(RowCount(source))
  {
    HeaderOutcome(source, columns);
    if RawRows(source, columns).Ok? {
      RowsOutcome(lex, source, columns);
    }
  }

  // ----- the ledger -----

  /** The rows where an event happened in a column. */
  ghost function Occurrences(lex: Lexer, source: Rows, c: Column, code: EventCode): set<nat> {
    set i: nat | i < RowCount(source) && Happened(lex, SourceCellAt(source, c, i), c.dataType, code)
  }

  lemma {:induction false} CountIsSize(table: CellTable, code: EventCode, j: nat, rows: set<nat>)
    requires forall i :: 0 <= i < |table| ==> j < |table[i]|
    requires forall i: nat :: i in rows <==> i < |table| && Causes(table[i][j], code)
    ensures CountOf(table, code, j) == |rows|
  {
    if table == [] {
      assert rows == {};
    } else {
      var n := |table| - 1;
      CountIsSize(table[..n], code, j, rows - {n});
      assert n in rows ==> |rows| == |rows - {n}| + 1;
      assert n !in rows ==> rows - {n} == rows;
    }
  }

  lemma {:induction false} CountIsOccurrences(lex: Lexer, source: Rows, columns: seq<Column>, code: EventCode, j: nat)
    requires Normalize(lex, source, columns).Ok? && j < |columns|
    ensures CountOf(TableCells(lex, RawRows(source, columns).value, columns).value, code, j)
            == |Occurrences(lex, source, columns[j], code)|
  {
    HeaderOutcome(source, columns);
    NormalizedIff(lex, source, columns);
    var raw := RawRows(source, columns).value;
    var table := TableCells(lex, raw, columns).value;
    var rows := Occurrences(lex, source, columns[j], code);
    forall i: nat ensures i in rows <==> i < |table| && Causes(table[i][j], code) {
      if i < |table| {
        TableCellIs(lex, raw, columns, i, j);
        assert RowAcceptable(lex, source, columns, i);
        CellOutcome(lex, source, i, columns[j]);
      }
    }
    CountIsSize(table, code, j, rows);
  }

  /** The ledger counts what happened to the source's cells: it holds an event exactly for each code and
      column for which something happened, with the number of rows where it did. */
  lemma {:induction false} LedgerCountsSource(lex: Lexer, source: Rows, columns: seq<Column>, e: Event)
    requires Normalize(lex, source, columns).Ok?
    ensures e in Normalize(lex, source, columns).value.ledger <==>
              && e.count > 0
              && exists j :: 0 <= j < |columns| && columns[j].fieldId == e.fieldId
                             && |Occurrences(lex, source, columns[j], e.code)| == e.count
  {
    var table := TableCells(lex, RawRows(source, columns).value, columns).value;
    LedgerIsExact(columns, table, e);
    forall j | 0 <= j < |columns|
      ensures CountOf(table, e.code, j) == |Occurrences(lex, source, columns[j], e.code)|
    {
      CountIsOccurrences(lex, source, columns, e.code, j);
    }
  }
}
