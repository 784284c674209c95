/**
 The import stage of the legacy migration (`importLegacyData`): list the staging
 directory once (without the copy stage's report), then for every joined
 document row, in ascending `DocumentID` order, find the row's file under its own
 name or under the collision rename `<base>_<FileID><ext>`, skip the row when
 neither is staged, and otherwise insert one `files_new` record; count and list
 the skipped rows and the rows whose insert failed.

 The destination table is the append-only sequence of inserted records; a
 failing insert is the oracle `insertError` on the record.
 */
module ImportStage {
  import opened Options
  import opened NodePath
  import CopyStage
  import opened SeqFacts

  /** The reason text of a skip entry. */
  const SkipReason: string := "File not found in uploads/temp"

  /** A point in time as the database driver hands it over; it is only copied. */
  type Timestamp = int

  /**
   One row of `vlex_Documents` inner-joined with its `Files` row (only rows whose
   `FileName` is not NULL are read).
   */
  datatype DocumentRow = DocumentRow(
    documentId: int,
    propertyId: Option<int>,
    documentTitle: Option<string>,
    dateAdded: Option<Timestamp>,
    documentTypeId: Option<int>,
    fileId: int,
    fileName: string,
    contentType: Option<string>,
    size: Option<int>)

  /** One row inserted into `files_new` (its generated `id` is the database's business). */
  datatype ImportedRecord = ImportedRecord(
    originalName: string,
    storedName: string,
    mimeType: Option<string>,
    size: Option<int>,
    uploadDate: Option<Timestamp>,
    documentTypeId: Option<int>,
    propertyId: Option<int>,
    documentTitle: Option<string>)

  datatype SkipEntry = SkipEntry(documentId: int, fileName: string, reason: string)

  datatype ImportErrorEntry = ImportErrorEntry(documentId: int, fileName: string, error: string)

  /** The loop's state: the destination table plus the three counters and two lists. */
  datatype ImportState = ImportState(
    table: seq<ImportedRecord>,
    successCount: nat,
    skippedCount: nat,
    errorCount: nat,
    skipped: seq<SkipEntry>,
    errors: seq<ImportErrorEntry>)

  datatype ImportSummary = ImportSummary(
    totalRecords: nat,
    successCount: nat,
    skippedCount: nat,
    errorCount: nat)

  datatype ImportReport = ImportReport(
    summary: ImportSummary,
    skipped: seq<SkipEntry>,
    errors: seq<ImportErrorEntry>)

  /** The destination table after the run, and the report. */
  datatype ImportResult = ImportResult(table: seq<ImportedRecord>, report: ImportReport)

  /** The staged names the stage works from: the directory listing without the copy stage's report file. */
  function Snapshot(dir: set<string>): (names: set<string>)
    ensures CopyStage.ReportName !in names
    ensures names <= dir
    ensures forall n :: n in dir && n != CopyStage.ReportName ==> n in names
  {
    dir - {CopyStage.ReportName}
  }

  /** The name a row's file was staged under, if it was staged: its own name first, then its rename. */
  function Resolve(row: DocumentRow, names: set<string>): (r: Option<string>)
    ensures r.Some? <==> row.fileName in names || Rename(row.fileName, row.fileId) in names
    ensures r.Some? ==> r.value in names
    ensures r.Some? ==>
              r.value == row.fileName || r.value == Rename(row.fileName, row.fileId)
    ensures row.fileName in names ==> r == Some(row.fileName)
  {
    if row.fileName in names then Some(row.fileName)
    else
      var renamed := Rename(row.fileName, row.fileId);
      if renamed in names then Some(renamed) else None
  }

  /** The `files_new` row built from a document row and its stored name, as `importLegacyData` inserts it. */
  function ToRecord(row: DocumentRow, storedName: string): ImportedRecord {
    ImportedRecord(row.fileName, storedName, row.contentType, row.size,
                   row.dateAdded, row.documentTypeId, row.propertyId, row.documentTitle)
  }

  /**
   The insert's column mapping: the record carries the document row's file name as
   `original_name`, and its content type, size, date added, document type, property
   and title unchanged.
   */
  predicate Carries(rec: ImportedRecord, row: DocumentRow) {
    && rec.originalName == row.fileName
    && rec.mimeType == row.contentType
    && rec.size == row.size
    && rec.uploadDate == row.dateAdded
    && rec.documentTypeId == row.documentTypeId
    && rec.propertyId == row.propertyId
    && rec.documentTitle == row.documentTitle
  }

  predicate Consistent(st: ImportState) {
    |st.skipped| == st.skippedCount && |st.errors| == st.errorCount
  }

  function Processed(st: ImportState): nat {
    st.successCount + st.skippedCount + st.errorCount
  }

  /** One iteration of `importLegacyData`'s loop; `StepEffects` states what it does. */
  function Step(st: ImportState, row: DocumentRow, names: set<string>,
                insertError: ImportedRecord -> Option<string>): (st': ImportState)
    ensures Processed(st') == Processed(st) + 1
    ensures Consistent(st) ==> Consistent(st')
  {
    match Resolve(row, names)
    case None =>
      st.(skippedCount := st.skippedCount + 1,
          skipped := st.skipped + [SkipEntry(row.documentId, row.fileName, SkipReason)])
    case Some(storedName) =>
      var rec := ToRecord(row, storedName);
      match insertError(rec)
      case None =>
        st.(table := st.table + [rec], successCount := st.successCount + 1)
      case Some(m) =>
        st.(errorCount := st.errorCount + 1,
            errors := st.errors + [ImportErrorEntry(row.documentId, row.fileName, m)])
  }

  /**
   An unresolved row is skipped with the fixed reason; a resolved row's record is
   appended when its insert succeeds and reported as an error otherwise.
   */
  lemma StepEffects(st: ImportState, row: DocumentRow, names: set<string>,
                    insertError: ImportedRecord -> Option<string>)
    ensures var st' := Step(st, row, names, insertError);
            Resolve(row, names).None? ==>
              && st'.table == st.table
              && st'.skippedCount == st.skippedCount + 1
              && st'.skipped == st.skipped + [SkipEntry(row.documentId, row.fileName, SkipReason)]
              && st'.errors == st.errors
    ensures var st' := Step(st, row, names, insertError);
            Resolve(row, names).Some? ==>
              var rec := ToRecord(row, Resolve(row, names).value);
              && st'.skipped == st.skipped
              && match insertError(rec)
                 case None =>
                   && st'.table == st.table + [rec]
                   && st'.successCount == st.successCount + 1
                   && st'.errors == st.errors
                 case Some(m) =>
                   && st'.table == st.table
                   && st'.errorCount == st.errorCount + 1
                   && st'.errors == st.errors + [ImportErrorEntry(row.documentId, row.fileName, m)]
  {
  }

  /** The loop over the rows, in the order given, against one fixed listing. */
  function Run(rows: seq<DocumentRow>, st: ImportState, names: set<string>,
               insertError: ImportedRecord -> Option<string>): (r: ImportState)
    ensures Processed(r) == Processed(st) + |rows|
    ensures Consistent(st) ==> Consistent(r)
    decreases |rows|
  {
    if rows == [] then st else Run(rows[1..], Step(st, rows[0], names, insertError), names, insertError)
  }

  /**
   The whole stage: list the directory once, run the loop from empty counters
   against the existing table, and build the report.
   */
  function ImportLegacyData(rows: seq<DocumentRow>, dir: set<string>, table: seq<ImportedRecord>,
                            insertError: ImportedRecord -> Option<string>): (r: ImportResult)
    ensures r.report.summary.totalRecords == |rows|
    ensures r.report.summary.successCount + r.report.summary.skippedCount
            + r.report.summary.errorCount == |rows|
    ensures |r.report.skipped| == r.report.summary.skippedCount
    ensures |r.report.errors| == r.report.summary.errorCount
    ensures table <= r.table
    ensures forall k :: |table| <= k < |r.table| ==>
              r.table[k].storedName in dir && r.table[k].storedName != CopyStage.ReportName
  {
    var names := Snapshot(dir);
    var start := ImportState(table, 0, 0, 0, [], []);
    var last := Run(rows, start, names, insertError);
    RunAppendsImported(rows, start, names, insertError);
    NewRecordsListed(rows, start, names, insertError);
    var summary := ImportSummary(|rows|, last.successCount, last.skippedCount, last.errorCount);
    ImportResult(last.table, ImportReport(summary, last.skipped, last.errors))
  }

  /** The records a run appends, in input order: one per resolved row whose insert succeeds. */
  function Imported(rows: seq<DocumentRow>, names: set<string>,
                    insertError: ImportedRecord -> Option<string>): seq<ImportedRecord>
    decreases |rows|
  {
    if rows == [] then [] else ImportedFrom(rows[0], names, insertError) + Imported(rows[1..], names, insertError)
  }

  /** The record one row contributes: none when unresolved or when its insert fails. */
  function ImportedFrom(row: DocumentRow, names: set<string>,
                        insertError: ImportedRecord -> Option<string>): seq<ImportedRecord>
  {
    match Resolve(row, names)
    case None => []
    case Some(n) => if insertError(ToRecord(row, n)).None? then [ToRecord(row, n)] else []
  }

  /** The skip entries, in input order: one per row whose file is staged under neither name. */
  function Unresolved(rows: seq<DocumentRow>, names: set<string>): seq<SkipEntry>
    decreases |rows|
  {
    if rows == [] then [] else SkippedFrom(rows[0], names) + Unresolved(rows[1..], names)
  }

  /** The skip entry one row contributes: one when its file is staged under neither name. */
  function SkippedFrom(row: DocumentRow, names: set<string>): seq<SkipEntry> {
    if Resolve(row, names).None? then [SkipEntry(row.documentId, row.fileName, SkipReason)] else []
  }

  /** The table only grows, by exactly the imported records, whatever it held before. */
  lemma {:induction false} RunAppendsImported(rows: seq<DocumentRow>, st: ImportState, names: set<string>,
                                              insertError: ImportedRecord -> Option<string>)
    ensures Run(rows, st, names, insertError).table == st.table + Imported(rows, names, insertError)
    ensures Run(rows, st, names, insertError).successCount
            == st.successCount + |Imported(rows, names, insertError)|
    decreases |rows|
  {
    if rows == [] {
      assert st.table + [] == st.table;
    } else {
      var st' := Step(st, rows[0], names, insertError);
      StepTable(st, rows[0], names, insertError);
      RunAppendsImported(rows[1..], st', names, insertError);
      AppendAssoc(st.table, ImportedFrom(rows[0], names, insertError), Imported(rows[1..], names, insertError));
    }
  }

  /** `rec` is what `row` inserts: its fields, its resolved name, and an insert that succeeded. */
  predicate InsertedFrom(rec: ImportedRecord, row: DocumentRow, names: set<string>,
                         insertError: ImportedRecord -> Option<string>) {
    && Carries(rec, row)
    && Resolve(row, names) == Some(rec.storedName)
    && insertError(rec).None?
  }

  /**
   Every imported record comes from an input row: it carries that row's fields,
   its stored name is the name the row resolved to, and its insert succeeded.
   */
  lemma {:induction false} ImportedComeFromRows(rows: seq<DocumentRow>, names: set<string>,
                                                insertError: ImportedRecord -> Option<string>)
    ensures forall k :: 0 <= k < |Imported(rows, names, insertError)| ==>
              exists i :: 0 <= i < |rows| &&
                InsertedFrom(Imported(rows, names, insertError)[k], rows[i], names, insertError)
    decreases |rows|
  {
    if rows != [] {
      var added := Imported(rows, names, insertError);
      var head := ImportedFrom(rows[0], names, insertError);
      var rest := Imported(rows[1..], names, insertError);
      assert added == head + rest;
      ImportedComeFromRows(rows[1..], names, insertError);
      forall k | 0 <= k < |Imported(rows, names, insertError)|
        ensures exists i :: 0 <= i < |rows| &&
                  InsertedFrom(Imported(rows, names, insertError)[k], rows[i], names, insertError)
      {
        if k < |head| {
          assert InsertedFrom(added[k], rows[0], names, insertError);
        } else {
          var k' := k - |head|;
          assert added[k] == rest[k'];
          assert 0 <= k' < |rest|;
          var j :| 0 <= j < |rows[1..]| && InsertedFrom(rest[k'], rows[1..][j], names, insertError);
          assert rows[1..][j] == rows[j + 1];
        }
      }
    } else {
      assert Imported(rows, names, insertError) == [];
    }
  }

  /** Every record a run appends names a file in the listing it resolved against. */
  lemma NewRecordsListed(rows: seq<DocumentRow>, st: ImportState, names: set<string>,
                         insertError: ImportedRecord -> Option<string>)
    ensures forall k :: |st.table| <= k < |Run(rows, st, names, insertError).table| ==>
              Run(rows, st, names, insertError).table[k].storedName in names
  {
    var r := Run(rows, st, names, insertError);
    var added := Imported(rows, names, insertError);
    RunAppendsImported(rows, st, names, insertError);
    ImportedComeFromRows(rows, names, insertError);
    forall k | |st.table| <= k < |r.table|
      ensures r.table[k].storedName in names
    {
      var k' := k - |st.table|;
      assert r.table[k] == added[k'];
      var i :| 0 <= i < |rows| && InsertedFrom(added[k'], rows[i], names, insertError);
    }
  }

  /** What one iteration appends to the table. */
  lemma StepTable(st: ImportState, row: DocumentRow, names: set<string>,
                  insertError: ImportedRecord -> Option<string>)
    ensures Step(st, row, names, insertError).table == st.table + ImportedFrom(row, names, insertError)
    ensures Step(st, row, names, insertError).successCount
            == st.successCount + |ImportedFrom(row, names, insertError)|
  {
  }

  /** What one iteration appends to the skip list. */
  lemma StepSkipped(st: ImportState, row: DocumentRow, names: set<string>,
                    insertError: ImportedRecord -> Option<string>)
    ensures Step(st, row, names, insertError).skipped == st.skipped + SkippedFrom(row, names)
  {
  }

  /** The skip list is exactly the unresolved rows in input order; insert failures never land there. */
  lemma {:induction false} SkippedAreUnresolved(rows: seq<DocumentRow>, st: ImportState, names: set<string>,
                                                insertError: ImportedRecord -> Option<string>)
    ensures Run(rows, st, names, insertError).skipped == st.skipped + Unresolved(rows, names)
    decreases |rows|
  {
    if rows == [] {
      assert st.skipped + [] == st.skipped;
    } else {
      var st' := Step(st, rows[0], names, insertError);
      StepSkipped(st, rows[0], names, insertError);
      SkippedAreUnresolved(rows[1..], st', names, insertError);
      AppendAssoc(st.skipped, SkippedFrom(rows[0], names), Unresolved(rows[1..], names));
    }
  }

  /**
   There is no duplicate guard: running the stage a second time over the same rows
   and the same directory appends the very same records again.
   */
  lemma RerunDuplicates(rows: seq<DocumentRow>, dir: set<string>, table: seq<ImportedRecord>,
                        insertError: ImportedRecord -> Option<string>)
    ensures var once := ImportLegacyData(rows, dir, table, insertError).table;
            var twice := ImportLegacyData(rows, dir, once, insertError).table;
            var added := Imported(rows, Snapshot(dir), insertError);
            once == table + added && twice == table + added + added
  {
    var names := Snapshot(dir);
    RunAppendsImported(rows, ImportState(table, 0, 0, 0, [], []), names, insertError);
    var once := ImportLegacyData(rows, dir, table, insertError).table;
    RunAppendsImported(rows, ImportState(once, 0, 0, 0, [], []), names, insertError);
  }

  /** Rows in strictly ascending `DocumentID` order, as `ORDER BY d."DocumentID"` on a key yields them. */
  predicate AscendingIds(rows: seq<DocumentRow>) {
    forall i, j :: 0 <= i < j < |rows| ==> rows[i].documentId < rows[j].documentId
  }

  predicate SkippedAscending(l: seq<SkipEntry>) {
    forall i, j :: 0 <= i < j < |l| ==> l[i].documentId < l[j].documentId
  }

  predicate ErrorsAscending(l: seq<ImportErrorEntry>) {
    forall i, j :: 0 <= i < j < |l| ==> l[i].documentId < l[j].documentId
  }

  /** Every entry already listed precedes, by id, every row still to come. */
  predicate ListedBefore(st: ImportState, rows: seq<DocumentRow>) {
    && (forall i, k :: 0 <= i < |st.skipped| && 0 <= k < |rows| ==> st.skipped[i].documentId < rows[k].documentId)
    && (forall i, k :: 0 <= i < |st.errors| && 0 <= k < |rows| ==> st.errors[i].documentId < rows[k].documentId)
  }

  /** On ascending input both itemised lists come out in ascending `DocumentID` order. */
  lemma {:induction false} ReportListsAscending(rows: seq<DocumentRow>, st: ImportState, names: set<string>,
                                                insertError: ImportedRecord -> Option<string>)
    requires AscendingIds(rows)
    requires SkippedAscending(st.skipped) && ErrorsAscending(st.errors)
    requires ListedBefore(st, rows)
    ensures SkippedAscending(Run(rows, st, names, insertError).skipped)
    ensures ErrorsAscending(Run(rows, st, names, insertError).errors)
    decreases |rows|
  {
    if rows != [] {
      StepKeepsOrder(st, rows, names, insertError);
      ReportListsAscending(rows[1..], Step(st, rows[0], names, insertError), names, insertError);
    }
  }

  /** One step on ascending rows keeps both lists ascending and ahead of the rows still to come. */
  lemma StepKeepsOrder(st: ImportState, rows: seq<DocumentRow>, names: set<string>,
                       insertError: ImportedRecord -> Option<string>)
    requires rows != [] && AscendingIds(rows)
    requires SkippedAscending(st.skipped) && ErrorsAscending(st.errors)
    requires ListedBefore(st, rows)
    ensures var st' := Step(st, rows[0], names, insertError);
            SkippedAscending(st'.skipped) && ErrorsAscending(st'.errors) && ListedBefore(st', rows[1..])
  {
    var st' := Step(st, rows[0], names, insertError);
    StepEffects(st, rows[0], names, insertError);
    assert |st.skipped| <= |st'.skipped| <= |st.skipped| + 1;
    assert |st.errors| <= |st'.errors| <= |st.errors| + 1;
    assert |st'.skipped| == |st.skipped| + 1 ==> st'.skipped[|st.skipped|].documentId == rows[0].documentId;
    assert |st'.errors| == |st.errors| + 1 ==> st'.errors[|st.errors|].documentId == rows[0].documentId;
    forall i, k | 0 <= i < |st'.skipped| && 0 <= k < |rows[1..]|
      ensures st'.skipped[i].documentId < rows[1..][k].documentId
    {
      assert rows[1..][k] == rows[k + 1];
      if i < |st.skipped| {
        assert st'.skipped[i] == st.skipped[i];
      }
    }
    forall i, k | 0 <= i < |st'.errors| && 0 <= k < |rows[1..]|
      ensures st'.errors[i].documentId < rows[1..][k].documentId
    {
      assert rows[1..][k] == rows[k + 1];
      if i < |st.errors| {
        assert st'.errors[i] == st.errors[i];
      }
    }
  }

  /** The stage's report lists are in ascending `DocumentID` order when the rows are. */
  lemma ImportReportAscending(rows: seq<DocumentRow>, dir: set<string>, table: seq<ImportedRecord>,
                              insertError: ImportedRecord -> Option<string>)
    requires AscendingIds(rows)
    ensures SkippedAscending(ImportLegacyData(rows, dir, table, insertError).report.skipped)
    ensures ErrorsAscending(ImportLegacyData(rows, dir, table, insertError).report.errors)
  {
    ReportListsAscending(rows, ImportState(table, 0, 0, 0, [], []), Snapshot(dir), insertError);
  }
}
