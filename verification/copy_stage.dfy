/**
 The copy stage of the legacy migration (`copyLegacyFiles`): for every row of the
 legacy `Files` table, in ascending `FileId` order, look for the file under the
 legacy tree and copy it into the staging directory `uploads/temp`, under its own
 name or, when that name is taken, under `<base>_<FileId><ext>`; count and list
 the rows whose source is missing and the rows whose copy failed; finally write
 `migration_report.json` into the staging directory.

 The file system is a parameter: the staging directory is the set of names in it,
 the legacy tree is the predicate `sourceExists` on a source path, and a failing
 `copyFileSync` is the oracle `copyError` on (source path, target name).
 */
module CopyStage {
  import opened Options
  import opened NodePath
  import opened SeqFacts

  /** The legacy tree's root directory. */
  const LegacyRoot: string := "Old_Files"

  /** The report artifact the stage leaves in the staging directory. */
  const ReportName: string := "migration_report.json"

  /** One row of the legacy `Files` table (only rows with a non-NULL `FileName` are read). */
  datatype FileRow = FileRow(
    fileId: int,
    fileName: string,
    folder: Option<string>,
    size: Option<int>,
    contentType: Option<string>)

  /** The outside world the stage consults. */
  datatype CopyEnv = CopyEnv(
    sourceExists: string -> bool,
    copyError: (string, string) -> Option<string>)

  datatype NotFoundEntry = NotFoundEntry(fileId: int, fileName: string, expectedPath: string)

  datatype CopyErrorEntry = CopyErrorEntry(fileId: int, fileName: string, error: string)

  /** What happened to one row. */
  datatype CopyOutcome =
    | Copied(target: string)
    | NotFound(expectedPath: string)
    | CopyFailed(message: string)

  /** The loop's state: the staging directory plus the three counters and two lists. */
  datatype CopyState = CopyState(
    staged: set<string>,
    successCount: nat,
    notFoundCount: nat,
    errorCount: nat,
    notFound: seq<NotFoundEntry>,
    errors: seq<CopyErrorEntry>)

  datatype CopySummary = CopySummary(
    totalFiles: nat,
    successCount: nat,
    notFoundCount: nat,
    errorCount: nat)

  datatype CopyReport = CopyReport(
    summary: CopySummary,
    notFound: seq<NotFoundEntry>,
    errors: seq<CopyErrorEntry>)

  /** The staging directory after the run, and the report written into it. */
  datatype CopyResult = CopyResult(staged: set<string>, report: CopyReport)

  /** `path.join('Old_Files', file.Folder || '', file.FileName)`. */
  function SourcePath(row: FileRow): (p: string)
    ensures p == LegacyRoot
                 + (if row.folder.GetOr("") == [] then "" else "/" + row.folder.value)
                 + (if row.fileName == [] then "" else "/" + row.fileName)
  {
    var folder := row.folder.GetOr("");
    var segs := [LegacyRoot, folder, row.fileName];
    assert segs[..2] == [LegacyRoot, folder];
    assert [LegacyRoot, folder][..1] == [LegacyRoot];
    assert [LegacyRoot][..0] == [];
    assert Join([LegacyRoot]) == LegacyRoot;
    assert Join([LegacyRoot, folder]) ==
             LegacyRoot + (if folder == [] then "" else "/" + folder);
    Join(segs)
  }

  /**
   Whether `fs.existsSync(path.join('uploads', 'temp', name))` holds: the name is
   staged, or it is "", "." or "..", which join to the staging directory itself
   or its parent, both of which exist.
   */
  predicate Occupied(staged: set<string>, name: string) {
    name in staged || name == "" || name == "." || name == ".."
  }

  /** The name a present source is copied under. */
  function CopyTarget(row: FileRow, staged: set<string>): (target: string)
    ensures !Occupied(staged, row.fileName) ==> target == row.fileName
    ensures Occupied(staged, row.fileName) ==>
              target == Rename(row.fileName, row.fileId) && target != row.fileName
  {
    RenameShape(row.fileName, row.fileId);
    if Occupied(staged, row.fileName) then Rename(row.fileName, row.fileId) else row.fileName
  }

  /** The outcome of `copyLegacyFiles`'s loop body for one row. */
  function Outcome(row: FileRow, staged: set<string>, env: CopyEnv): (o: CopyOutcome)
    ensures o.NotFound? <==> !env.sourceExists(SourcePath(row))
    ensures o.NotFound? ==> o.expectedPath == SourcePath(row)
    ensures o.Copied? <==>
              env.sourceExists(SourcePath(row)) &&
              env.copyError(SourcePath(row), CopyTarget(row, staged)).None?
    ensures o.Copied? && !Occupied(staged, row.fileName) ==> o.target == row.fileName
    ensures o.Copied? && Occupied(staged, row.fileName) ==>
              o.target == Rename(row.fileName, row.fileId) && o.target != row.fileName
    ensures o.CopyFailed? ==>
              Some(o.message) == env.copyError(SourcePath(row), CopyTarget(row, staged))
  {
    var src := SourcePath(row);
    if !env.sourceExists(src) then NotFound(src)
    else
      var target := CopyTarget(row, staged);
      match env.copyError(src, target)
      case Some(m) => CopyFailed(m)
      case None => Copied(target)
  }

  /** The three counters add up to the rows processed, and the lists match their counters. */
  predicate Consistent(st: CopyState) {
    |st.notFound| == st.notFoundCount && |st.errors| == st.errorCount
  }

  function Processed(st: CopyState): nat {
    st.successCount + st.notFoundCount + st.errorCount
  }

  /** One iteration of `copyLegacyFiles`'s loop; `StepEffects` states what it does. */
  function Step(st: CopyState, row: FileRow, env: CopyEnv): (st': CopyState)
    ensures Processed(st') == Processed(st) + 1
    ensures Consistent(st) ==> Consistent(st')
  {
    match Outcome(row, st.staged, env)
    case Copied(t) =>
      st.(staged := st.staged + {t}, successCount := st.successCount + 1)
    case NotFound(p) =>
      st.(notFoundCount := st.notFoundCount + 1,
          notFound := st.notFound + [NotFoundEntry(row.fileId, row.fileName, p)])
    case CopyFailed(m) =>
      st.(errorCount := st.errorCount + 1,
          errors := st.errors + [CopyErrorEntry(row.fileId, row.fileName, m)])
  }

  /**
   Exactly one counter moves per row, and only a copy touches the directory: it adds
   exactly its target name. A missing source and a failed copy each append one entry
   to their own list.
   */
  lemma StepEffects(st: CopyState, row: FileRow, env: CopyEnv)
    ensures var st' := Step(st, row, env);
            match Outcome(row, st.staged, env)
            case Copied(t) =>
              && st'.staged == st.staged + {t}
              && st'.successCount == st.successCount + 1
              && st'.notFound == st.notFound && st'.errors == st.errors
            case NotFound(p) =>
              && st'.staged == st.staged
              && st'.notFoundCount == st.notFoundCount + 1
              && st'.notFound == st.notFound + [NotFoundEntry(row.fileId, row.fileName, p)]
              && st'.errors == st.errors
            case CopyFailed(m) =>
              && st'.staged == st.staged
              && st'.errorCount == st.errorCount + 1
              && st'.errors == st.errors + [CopyErrorEntry(row.fileId, row.fileName, m)]
              && st'.notFound == st.notFound
  {
  }

  /** `copyLegacyFiles`'s loop over the rows, in the order given. */
  function Run(rows: seq<FileRow>, st: CopyState, env: CopyEnv): (r: CopyState)
    ensures Processed(r) == Processed(st) + |rows|
    ensures Consistent(st) ==> Consistent(r)
    decreases |rows|
  {
    if rows == [] then st else Run(rows[1..], Step(st, rows[0], env), env)
  }

  /** Later rows never remove a staged name and only append to the two lists. */
  lemma {:induction false} RunKeeps(rows: seq<FileRow>, st: CopyState, env: CopyEnv)
    ensures st.staged <= Run(rows, st, env).staged
    ensures st.notFound <= Run(rows, st, env).notFound
    ensures st.errors <= Run(rows, st, env).errors
    decreases |rows|
  {
    if rows != [] {
      var st' := Step(st, rows[0], env);
      StepEffects(st, rows[0], env);
      RunKeeps(rows[1..], st', env);
    }
  }

  const Start: CopyState := CopyState({}, 0, 0, 0, [], [])

  /**
   The whole stage: run the loop from empty counters over the directory's current
   contents, then build the report and write it into the directory.
   */
  function CopyLegacyFiles(rows: seq<FileRow>, staged: set<string>, env: CopyEnv): (r: CopyResult)
    ensures r.report.summary.totalFiles == |rows|
    ensures r.report.summary.successCount + r.report.summary.notFoundCount
            + r.report.summary.errorCount == |rows|
    ensures |r.report.notFound| == r.report.summary.notFoundCount
    ensures |r.report.errors| == r.report.summary.errorCount
    ensures staged + {ReportName} <= r.staged
  {
    var last := Run(rows, Start.(staged := staged), env);
    RunKeeps(rows, Start.(staged := staged), env);
    var summary := CopySummary(|rows|, last.successCount, last.notFoundCount, last.errorCount);
    CopyResult(last.staged + {ReportName}, CopyReport(summary, last.notFound, last.errors))
  }

  /** Running over a concatenation is running over the first part, then the second. */
  lemma {:induction false} RunAppend(a: seq<FileRow>, b: seq<FileRow>, st: CopyState, env: CopyEnv)
    ensures Run(a + b, st, env) == Run(b, Run(a, st, env), env)
    decreases |a|
  {
    if a == [] {
      assert a + b == b;
    } else {
      assert (a + b)[1..] == a[1..] + b;
      RunAppend(a[1..], b, Step(st, a[0], env), env);
    }
  }

  /** The not-found entries the rows produce, in input order: a row is listed iff its source is missing. */
  function MissingSources(rows: seq<FileRow>, env: CopyEnv): seq<NotFoundEntry>
    decreases |rows|
  {
    if rows == [] then [] else MissingFrom(rows[0], env) + MissingSources(rows[1..], env)
  }

  /** The not-found entry one row contributes: one, with its expected path, when its source is missing. */
  function MissingFrom(row: FileRow, env: CopyEnv): seq<NotFoundEntry> {
    if env.sourceExists(SourcePath(row)) then []
    else [NotFoundEntry(row.fileId, row.fileName, SourcePath(row))]
  }

  /** What one iteration appends to the not-found list. */
  lemma StepNotFound(st: CopyState, row: FileRow, env: CopyEnv)
    ensures Step(st, row, env).notFound == st.notFound + MissingFrom(row, env)
  {
  }

  /** The not-found list is exactly the missing-source rows in input order, whatever the directory held. */
  lemma {:induction false} NotFoundListIsMissingSources(rows: seq<FileRow>, st: CopyState, env: CopyEnv)
    ensures Run(rows, st, env).notFound == st.notFound + MissingSources(rows, env)
    decreases |rows|
  {
    if rows != [] {
      var st' := Step(st, rows[0], env);
      StepNotFound(st, rows[0], env);
      NotFoundListIsMissingSources(rows[1..], st', env);
      AppendAssoc(st.notFound, MissingFrom(rows[0], env), MissingSources(rows[1..], env));
    } else {
      assert st.notFound + [] == st.notFound;
    }
  }

  /** Every name the loop adds to the directory is some row's name or that row's rename. */
  lemma {:induction false} StagedNamesComeFromRows(rows: seq<FileRow>, st: CopyState, env: CopyEnv)
    ensures forall n :: n in Run(rows, st, env).staged ==>
              n in st.staged ||
              exists i :: 0 <= i < |rows| &&
                (n == rows[i].fileName || n == Rename(rows[i].fileName, rows[i].fileId))
    decreases |rows|
  {
    if rows != [] {
      var st' := Step(st, rows[0], env);
      StepEffects(st, rows[0], env);
      StagedNamesComeFromRows(rows[1..], st', env);
      forall n | n in Run(rows, st, env).staged && n !in st.staged
        ensures exists i :: 0 <= i < |rows| &&
                  (n == rows[i].fileName || n == Rename(rows[i].fileName, rows[i].fileId))
      {
        if n in st'.staged {
          assert n == rows[0].fileName || n == Rename(rows[0].fileName, rows[0].fileId);
        } else {
          var j :| 0 <= j < |rows[1..]| &&
                   (n == rows[1..][j].fileName || n == Rename(rows[1..][j].fileName, rows[1..][j].fileId));
          assert rows[1..][j] == rows[j + 1];
        }
      }
    }
  }

  /** Rows in strictly ascending `FileId` order, as `ORDER BY "FileId"` on a key yields them. */
  predicate AscendingIds(rows: seq<FileRow>) {
    forall i, j :: 0 <= i < j < |rows| ==> rows[i].fileId < rows[j].fileId
  }

  predicate NotFoundAscending(l: seq<NotFoundEntry>) {
    forall i, j :: 0 <= i < j < |l| ==> l[i].fileId < l[j].fileId
  }

  predicate ErrorsAscending(l: seq<CopyErrorEntry>) {
    forall i, j :: 0 <= i < j < |l| ==> l[i].fileId < l[j].fileId
  }

  /** Every entry already listed precedes, by id, every row still to come. */
  predicate ListedBefore(st: CopyState, rows: seq<FileRow>) {
    && (forall i, k :: 0 <= i < |st.notFound| && 0 <= k < |rows| ==> st.notFound[i].fileId < rows[k].fileId)
    && (forall i, k :: 0 <= i < |st.errors| && 0 <= k < |rows| ==> st.errors[i].fileId < rows[k].fileId)
  }

  /** On ascending input both itemised lists come out in ascending `FileId` order. */
  lemma {:induction false} ReportListsAscending(rows: seq<FileRow>, st: CopyState, env: CopyEnv)
    requires AscendingIds(rows)
    requires NotFoundAscending(st.notFound) && ErrorsAscending(st.errors)
    requires ListedBefore(st, rows)
    ensures NotFoundAscending(Run(rows, st, env).notFound)
    ensures ErrorsAscending(Run(rows, st, env).errors)
    decreases |rows|
  {
    if rows != [] {
      var st' := Step(st, rows[0], env);
      StepEffects(st, rows[0], env);
      assert ListedBefore(st', rows[1..]) by {
        forall i, k | 0 <= i < |st'.notFound| && 0 <= k < |rows[1..]|
          ensures st'.notFound[i].fileId < rows[1..][k].fileId
        {
          assert rows[1..][k] == rows[k + 1];
          if i < |st.notFound| {
            assert st'.notFound[i] == st.notFound[i];
          }
        }
        forall i, k | 0 <= i < |st'.errors| && 0 <= k < |rows[1..]|
          ensures st'.errors[i].fileId < rows[1..][k].fileId
        {
          assert rows[1..][k] == rows[k + 1];
          if i < |st.errors| {
            assert st'.errors[i] == st.errors[i];
          }
        }
      }
      ReportListsAscending(rows[1..], st', env);
    }
  }

  /** The stage's report lists are in ascending `FileId` order when the rows are. */
  lemma CopyReportAscending(rows: seq<FileRow>, staged: set<string>, env: CopyEnv)
    requires AscendingIds(rows)
    ensures NotFoundAscending(CopyLegacyFiles(rows, staged, env).report.notFound)
    ensures ErrorsAscending(CopyLegacyFiles(rows, staged, env).report.errors)
  {
    ReportListsAscending(rows, Start.(staged := staged), env);
  }

  /** A file the loop copies is still in the directory at the end: later rows never remove names. */
  lemma CopiedStaysStaged(rows: seq<FileRow>, st: CopyState, env: CopyEnv, i: nat)
    requires i < |rows|
    ensures var before := Run(rows[..i], st, env).staged;
            var o := Outcome(rows[i], before, env);
            o.Copied? ==> o.target in Run(rows, st, env).staged
  {
    var mid := Run(rows[..i], st, env);
    assert rows == rows[..i] + ([rows[i]] + rows[i + 1..]);
    RunAppend(rows[..i], [rows[i]] + rows[i + 1..], st, env);
    assert ([rows[i]] + rows[i + 1..])[1..] == rows[i + 1..];
    StepEffects(mid, rows[i], env);
    RunKeeps(rows[i + 1..], Step(mid, rows[i], env), env);
  }

  /**
   Two rows with the same free file name, both present and both copied without
   failure: the first keeps the name, the second collides and is copied under its
   rename, and the report joins them.
   */
  lemma SameNameCollision(a: FileRow, b: FileRow, staged: set<string>, env: CopyEnv)
    requires a.fileName == b.fileName && !Occupied(staged, a.fileName)
    requires env.sourceExists(SourcePath(a)) && env.sourceExists(SourcePath(b))
    requires env.copyError(SourcePath(a), a.fileName).None?
    requires env.copyError(SourcePath(b), Rename(b.fileName, b.fileId)).None?
    ensures CopyLegacyFiles([a, b], staged, env).staged
            == staged + {a.fileName, Rename(b.fileName, b.fileId), ReportName}
  {
    var st0 := Start.(staged := staged);
    var st1 := Step(st0, a, env);
    StepEffects(st0, a, env);
    StepEffects(st1, b, env);
    RunTwo(a, b, st0, env);
  }

  /** Running over two rows is two steps. */
  lemma RunTwo(a: FileRow, b: FileRow, st: CopyState, env: CopyEnv)
    ensures Run([a, b], st, env) == Step(Step(st, a, env), b, env)
  {
    var st1 := Step(st, a, env);
    assert [a, b][1..] == [b];
    assert Run([a, b], st, env) == Run([b], st1, env);
    assert [b][1..] == [];
    assert Run([b], st1, env) == Run([], Step(st1, b, env), env);
  }

  /**
   Two legacy rows named `lease.pdf`, ids 165 then 166, both present and copied
   without failure into a directory that does not hold `lease.pdf` yet, add
   `lease.pdf`, `lease_166.pdf` and the report.
   */
  lemma LeaseExample(a: FileRow, b: FileRow, staged: set<string>, env: CopyEnv)
    requires a.fileId == 165 && a.fileName == "lease.pdf"
    requires b.fileId == 166 && b.fileName == "lease.pdf"
    requires "lease.pdf" !in staged
    requires forall p :: env.sourceExists(p)
    requires forall p, t :: env.copyError(p, t) == None
    ensures CopyLegacyFiles([a, b], staged, env).staged
            == staged + {"lease.pdf", "lease_166.pdf", ReportName}
  {
    LeaseRename();
    SameNameCollision(a, b, staged, env);
  }
}
