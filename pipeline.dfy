/** `extract_and_update_db` (cre_extractor.py): the extracted JSON is
    formatted into a record, and the record is appended as one new row to the
    table stored at the database path. The language-model call is an input
    here: its outcome is given, not computed. */
module Pipeline {
  import opened Wrappers
  import opened Cleaners
  import opened Formatting

  /** A table row: column name to cell; a column the row has no cell for
      reads as empty. */
  type Row = map<string, Value>

  /** A table as the spreadsheet stores it: its header and its rows. */
  datatype Table = Table(columns: seq<string>, rows: seq<Row>)

  /** What the database path holds: nothing, a file that cannot be read as a
      table, or a table. */
  datatype FileState = Missing | Unreadable | Holds(table: Table)

  /** The spreadsheet file at the database path. */
  class Workbook {
    var content: FileState

    constructor (content: FileState)
      ensures this.content == content
    {
      this.content := content;
    }
  }

  /** The outcome of the extraction stage: the JSON value the model's reply
      parsed to, or a failure of the request or of the parse. */
  datatype Extraction = Extracted(json: Value) | ExtractionFailed

  /** The table read before the update: the stored table, or, when the file
      is missing or cannot be read, an empty table whose header is the
      record's keys. */
  function ExistingTable(f: FileState, record: Record): (t: Table)
    ensures !f.Holds? ==> t.rows == [] && t.columns == Columns(record)
    ensures f.Holds? ==> t == f.table
  {
    match f
    case Holds(t) => t
    case _ => Table(Columns(record), [])
  }

  /** The one-row table built from the record. */
  function EntryTable(record: Record): (t: Table)
    ensures t.columns == Columns(record) && |t.rows| == 1
    ensures forall c :: c in t.rows[0] <==> c in t.columns
  {
    Table(Columns(record), [PairsToMap(record)])
  }

  /** The header of a concatenation: the first table's columns, then each
      column of the second that is not yet there, in the second's order. */
  function MergeColumns(existing: seq<string>, added: seq<string>): (cs: seq<string>)
    ensures |cs| >= |existing| && cs[..|existing|] == existing
    ensures forall c :: c in cs <==> c in existing || c in added
  {
    if added == [] then existing
    else
      var cs := MergeColumns(existing, added[..|added| - 1]);
      var last := added[|added| - 1];
      assert added == added[..|added| - 1] + [last];
      if last in cs then cs else cs + [last]
  }

  /** `pd.concat([a, b], ignore_index=True)`: the rows of `a`, then those of
      `b`, under the merged header. */
  function Concat(a: Table, b: Table): (t: Table)
    ensures t.rows == a.rows + b.rows
    ensures |t.columns| >= |a.columns| && t.columns[..|a.columns|] == a.columns
    ensures forall c :: c in t.columns <==> c in a.columns || c in b.columns
  {
    Table(MergeColumns(a.columns, b.columns), a.rows + b.rows)
  }

  /** The table written back: the existing table with the record appended. */
  function UpdatedTable(f: FileState, record: Record): (t: Table)
    ensures t.rows == (if f.Holds? then f.table.rows else []) + [PairsToMap(record)]
    ensures f.Holds? ==> |t.columns| >= |f.table.columns| && t.columns[..|f.table.columns|] == f.table.columns
    ensures forall c :: c in t.columns <==> (f.Holds? && c in f.table.columns) || c in Columns(record)
  {
    Concat(ExistingTable(f, record), EntryTable(record))
  }

  /** The record the formatting stage produces from an extraction, if any:
      the reply must have parsed, to a JSON object (any other value has no
      `get` method), and no cleaner may raise. */
  function Formatted(e: Extraction): (r: Option<Record>)
    ensures r.Some? ==> e.Extracted? && e.json.Object?
    ensures e.Extracted? && e.json.Object? ==>
              var d := PairsToMap(e.json.entries);
              (r.Some? <==> !Raises(d, PriceKey, PriceCleaner) && !Raises(d, YieldKey, YieldCleaner)
                            && !Raises(d, AreaKey, AreaCleaner) && !Raises(d, PricePsfKey, PricePsfCleaner))
    ensures r.Some? ==> |r.value| == |OutputColumns|
                        && forall i :: 0 <= i < |r.value| ==> r.value[i].0 == OutputColumns[i]
  {
    if e.ExtractionFailed? || !e.json.Object? then None
    else
      FormatRecordFails(PairsToMap(e.json.entries));
      match FormatRecord(PairsToMap(e.json.entries))
      case Ok(record) => Some(record)
      case Err(_) => None
  }

  /** `extract_and_update_db`: true exactly when every stage succeeds, in
      which case the file holds the updated table; any failure returns false
      before the file is written. Whether the final write succeeds is given. */
  method ExtractAndUpdateDb(extraction: Extraction, db: Workbook, writeSucceeds: bool)
    returns (ok: bool)
    modifies db
    ensures ok <==> Formatted(extraction).Some? && writeSucceeds
    ensures ok ==> db.content == Holds(UpdatedTable(old(db.content), Formatted(extraction).value))
    ensures !ok ==> db.content == old(db.content)
  {
    if extraction.ExtractionFailed? {
      return false;
    }
    if !extraction.json.Object? {
      return false;
    }
    var data := new FieldDict(PairsToMap(extraction.json.entries));
    var formatted := CleanAndFormatData(data);
    if formatted.Err? {
      return false;
    }
    var existing := ExistingTable(db.content, formatted.value);
    var updated := Concat(existing, EntryTable(formatted.value));
    if !writeSucceeds {
      return false;
    }
    db.content := Holds(updated);
    ok := true;
  }

  /** Columns already present are not added again. */
  lemma {:induction false} MergeKnownColumns(existing: seq<string>, added: seq<string>)
    requires forall c :: c in added ==> c in existing
    ensures MergeColumns(existing, added) == existing
  {
    if added != [] {
      MergeKnownColumns(existing, added[..|added| - 1]);
    }
  }

  /** Merging keeps a header free of repeated names. */
  lemma {:induction false} MergeDistinct(existing: seq<string>, added: seq<string>)
    requires Distinct(existing)
    ensures Distinct(MergeColumns(existing, added))
  {
    if added != [] {
      MergeDistinct(existing, added[..|added| - 1]);
    }
  }

  /** The new row holds, under each output column, the record's value. */
  lemma EntryRowCells(record: Record, column: string)
    requires Columns(record) == OutputColumns && column in OutputColumns
    ensures column in PairsToMap(record)
    ensures Some(PairsToMap(record)[column]) == Lookup(record, column)
  {
    OutputColumnsDistinct();
    var i :| 0 <= i < |OutputColumns| && OutputColumns[i] == column;
    assert record[i].0 == column;
    PairsToMapLast(record, i);
    LookupFirst(record, column);
  }

  /** With no readable file, the result is a table of exactly one row under
      the eleven output columns. */
  lemma FirstEntry(f: FileState, record: Record)
    requires !f.Holds? && Columns(record) == OutputColumns
    ensures UpdatedTable(f, record) == Table(OutputColumns, [PairsToMap(record)])
  {
    MergeKnownColumns(OutputColumns, OutputColumns);
  }

  /** With a readable table, every existing row is kept, in order, and the
      record's row comes last; the header keeps the existing columns first and
      gains each output column it lacked. */
  lemma AppendsOneRow(t: Table, record: Record)
    requires Columns(record) == OutputColumns
    ensures var u := UpdatedTable(Holds(t), record);
      && u.rows == t.rows + [PairsToMap(record)]
      && |u.rows| == |t.rows| + 1
      && u.columns[..|t.columns|] == t.columns
      && (forall c :: c in u.columns <==> c in t.columns || c in OutputColumns)
  {
  }

  /** Once the header is the eleven output columns, every later update keeps
      it so. */
  lemma HeaderStable(t: Table, record: Record)
    requires t.columns == OutputColumns && Columns(record) == OutputColumns
    ensures UpdatedTable(Holds(t), record).columns == OutputColumns
  {
    MergeKnownColumns(OutputColumns, OutputColumns);
  }

  /** A successful run appends exactly the formatted record, whatever the
      file held before. */
  lemma SuccessfulRunRecord(e: Extraction, f: FileState)
    requires Formatted(e).Some?
    ensures Columns(Formatted(e).value) == OutputColumns
    ensures UpdatedTable(f, Formatted(e).value).rows
         == (if f.Holds? then f.table.rows else []) + [PairsToMap(Formatted(e).value)]
  {
    FormattedRecord(PairsToMap(e.json.entries), Formatted(e).value);
  }
}
