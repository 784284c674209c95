# Legacy file migration pipeline, modelled in Dafny

This project models the two batch jobs that move a legacy document store into the
new `files_new` table.

- **Copy stage** (`copyLegacyFiles`). It reads the legacy `Files` rows in ascending `FileId` order.
  For each row it looks for `Old_Files/<Folder>/<FileName>`.
  - A missing source is listed as "not found".
  - A present source is copied into the staging directory `uploads/temp` under its own name.
  - If that name is already taken, the file is copied under `<base>_<FileId><ext>` instead.
  - A failing copy is listed as an error.

  The stage ends by writing `migration_report.json` into the staging directory.
- **Import stage** (`importLegacyData`). It lists the staging directory once, leaving out the report file.
  It then reads the joined document rows in ascending `DocumentID` order.
  - Each row's file is looked up under its own name first, then under the same `<base>_<FileID><ext>` rename.
  - An unresolved row is skipped.
  - A resolved row is inserted as one `files_new` record.
  - A failing insert is listed as an error.

Each stage is a pure left fold over a sequence of rows. The state is a set of
staged names (copy) or an append-only sequence of records (import), plus the
counters and lists that make up the report. The outside world enters as
parameters:
- `sourceExists` on a source path;
- `copyError` on (source path, target name);
- `insertError` on a record.

Modules:
- `Options`: nullable values.
- `NodePath`: Node's POSIX `path.extname`, `path.basename` with a suffix and `path.join`, the decimal text of an id, and the shared `Rename`.
- `CopyStage` and `ImportStage`: the two stages.
- `Pipeline`: what holds when the import stage reads the directory that the copy stage left.

Notes on the code's behaviour:
- **Collisions can overwrite.** The copy stage writes `<base>_<id><ext>` without checking whether it exists, so a rerun overwrites it. The staging set absorbs such an overwrite (`staged + {t}`).
- **A null `Folder` drops its path segment.** `path.join` leaves out empty segments, so the expected path is `Old_Files/<FileName>`, not `Old_Files//<FileName>`.
- **The direct name always wins.** A file renamed because of a collision still has its own name staged: a name already staged, either by an earlier row or before the run. The import stage checks the direct name first, so documents of the renamed file are imported with the direct name, which may hold another file's bytes. The renamed copy is not referenced unless the direct name is `migration_report.json`, which the listing leaves out. The fallback only applies when the direct name is missing from the listing. `Pipeline.ReportNamedFileUsesRename` states the `migration_report.json` case. `Pipeline.ImportFindsCopiedFile` states this for any run. `Pipeline.LeaseImportExample` shows it on two `lease.pdf` files with ids 165 and 166.

## Model

| member | source | states |
|---|---|---|
| NodePath.ExtName | copy-legacy-files.js:51 | `path.extname` of a name is never longer than the name. `NodePath.ExtNameSpec` gives the full characterisation. |
| NodePath.ExtNameSpec | copy-legacy-files.js:51 | The extension of a plain name is a suffix of it. It is empty exactly when no `.` follows the first character, or when the name is `..`. Otherwise it starts with `.`, holds no other `.`, and leaves a non-empty base in front of it. |
| NodePath.NodeExtName | copy-legacy-files.js:51 | Node's right-to-left `extname` scan, with its first-dot and pre-dot state tracking, computes exactly `ExtName` on every plain name. |
| NodePath.BaseName | copy-legacy-files.js:52 | `basename(name, ext)` followed by `ext` gives back the name. |
| NodePath.IntToString | copy-legacy-files.js:53 | The text `${id}` is non-empty and starts with `-` exactly when the id is negative. The rest is decimal digits. |
| NodePath.ParseNatToString | copy-legacy-files.js:53 | Reading back the decimal text of a non-negative id gives the id. |
| NodePath.IntToStringInjective | copy-legacy-files.js:53 | Two ids with the same `${id}` text are equal, including negative ids. |
| NodePath.RenameShape | copy-legacy-files.js:51-53 | The rename is the base, then `_`, then the id's decimal text, then the extension. It is longer than the name, so it never equals the name. |
| NodePath.RenameInjective | copy-legacy-files.js:53 | Two files with the same name and different ids never get the same rename. |
| NodePath.RenamePlain | copy-legacy-files.js:53 | The rename of a plain name has no separator, so the renamed copy stays directly in the staging directory. |
| NodePath.LeaseRename | copy-legacy-files.js:51-53 | `lease.pdf` with id 166 is renamed `lease_166.pdf`. |
| NodePath.Join | copy-legacy-files.js:42 | `path.join` over plain segments is empty exactly when every segment is empty. |
| CopyStage.SourcePath | copy-legacy-files.js:42 | The source path is `Old_Files`, then `/<Folder>` when the folder is non-null and non-empty, then `/<FileName>` when the name is non-empty. |
| CopyStage.CopyTarget | copy-legacy-files.js:43-58 | A free name is copied under itself. An occupied name is copied under `Rename(FileName, FileId)`, which differs from the name. |
| CopyStage.Outcome | copy-legacy-files.js:45-79 | A row is not found exactly when its source is missing, and the entry carries the source path. It is copied exactly when the source exists and the copy raises nothing, under the name its occupancy dictates. Otherwise it fails with the copy's message. |
| CopyStage.Step | copy-legacy-files.js:42-79 | One row adds exactly one to the sum of the three counters. If the lists matched their counters before, they still do. |
| CopyStage.StepEffects | copy-legacy-files.js:47-79 | Exactly one counter grows per row. A copy adds exactly its target name to the directory. Not-found and failed rows leave the directory unchanged and append one entry to their own list. |
| CopyStage.Run | copy-legacy-files.js:34-80 | After the loop, the counters have grown by the number of rows. List lengths still match their counters. |
| CopyStage.RunKeeps | copy-legacy-files.js:41-80 | The loop never removes a name from the directory. Both lists only grow at the end. |
| CopyStage.CopyLegacyFiles | copy-legacy-files.js:112-127 | The report's total is the row count and its three counts sum to it. Each list's length equals its count. The directory keeps every earlier name and gains `migration_report.json`. |
| CopyStage.RunAppend | copy-legacy-files.js:41-80 | Processing `a + b` is processing `a`, then `b` from the state `a` left. |
| CopyStage.NotFoundListIsMissingSources | copy-legacy-files.js:62-69 | The not-found list is exactly the rows with a missing source, in input order. It does not depend on the directory's contents or on copy failures. |
| CopyStage.StagedNamesComeFromRows | copy-legacy-files.js:47-61 | Every name the loop adds is some row's `FileName` or that row's rename. Nothing else appears in the directory. |
| CopyStage.ReportListsAscending | copy-legacy-files.js:28-80 | On rows in strictly ascending `FileId` order, the entries appended to both lists keep ascending `FileId` order. |
| CopyStage.CopyReportAscending | copy-legacy-files.js:28-122 | The report's not-found and error lists are in ascending `FileId` order when the rows are. |
| CopyStage.CopiedStaysStaged | copy-legacy-files.js:41-80 | The name a row was copied under is still in the directory after the last row. |
| CopyStage.SameNameCollision | copy-legacy-files.js:47-61 | Two present rows with the same free name, copied without failure, add that name, the second row's rename and the report to the directory. |
| CopyStage.LeaseExample | copy-legacy-files.js:49-58 | With both sources present and `lease.pdf` not yet staged, `lease.pdf` ids 165 and 166 add `lease.pdf`, `lease_166.pdf` and `migration_report.json`. |
| ImportStage.Snapshot | import-legacy-data.js:46 | The listing holds every staged name except `migration_report.json`, and nothing else. |
| ImportStage.Resolve | import-legacy-data.js:54-67 | A row resolves exactly when its name or its rename is listed. The direct name wins when it is listed. The resolved name is always one of the two and always listed. |
| ImportStage.Step | import-legacy-data.js:50-117 | One row adds exactly one to the sum of the three counters. If the lists matched their counters before, they still do. |
| ImportStage.StepEffects | import-legacy-data.js:50-117 | An unresolved row appends a skip entry with reason `File not found in uploads/temp` and leaves the table and the error list alone. A resolved row either appends its record and counts a success, or appends an error entry and leaves the table alone. |
| ImportStage.Run | import-legacy-data.js:39-118 | After the loop, the counters have grown by the number of rows and list lengths match their counters. |
| ImportStage.NewRecordsListed | import-legacy-data.js:54-105 | Every record the loop appends names a file in the listing it resolved against. |
| ImportStage.ImportLegacyData | import-legacy-data.js:36-186 | The report's total is the row count and its three counts sum to it. Each list's length equals its count. The earlier table is a prefix of the result. Every new record names a staged file that is not the report. |
| ImportStage.RunAppendsImported | import-legacy-data.js:80-107 | The table grows by exactly the records of resolved rows whose insert succeeded, in input order. The success count grows by their number. |
| ImportStage.ImportedComeFromRows | import-legacy-data.js:94-105 | Every inserted record comes from an input row. It carries that row's file name, content type, size, date added, document type, property and title. Its stored name is the name the row resolved to. |
| ImportStage.SkippedAreUnresolved | import-legacy-data.js:69-77 | The skip list is exactly the unresolved rows, in input order. Insert failures never land in it. |
| ImportStage.RerunDuplicates | import-legacy-data.js:81-105 | Running the stage twice over the same rows and directory appends the same records twice. There is no duplicate guard. |
| ImportStage.ReportListsAscending | import-legacy-data.js:33-118 | On rows in strictly ascending `DocumentID` order, the entries appended to both lists keep ascending `DocumentID` order. |
| ImportStage.ImportReportAscending | import-legacy-data.js:33-186 | The report's skip and error lists are in ascending `DocumentID` order when the rows are. |
| Pipeline.FallbackIsCopyRename | import-legacy-data.js:59-61 | For a document of a file the copy stage renamed, the import fallback name is exactly the copy stage's target. That name differs from the file name. |
| Pipeline.ImportFindsCopiedFile | import-legacy-data.js:54-67 | If a file was copied under a name other than the report's, every document of that file resolves. A file that kept its own name resolves to that name. A file renamed because its name was already staged, other than `migration_report.json`, resolves to its direct name, not to the name it was copied under. |
| Pipeline.ReportNamedFileUsesRename | import-legacy-data.js:46-64 | A document whose file name is `migration_report.json` resolves exactly when that file's rename is staged, and then to the rename, because the listing leaves the direct name out. |
| Pipeline.LeaseImportExample | import-legacy-data.js:54-67 | In the directory the `lease.pdf` example leaves, `lease_166.pdf` is listed, yet the documents of file 165 and of file 166 both resolve to `lease.pdf`. |

## Left out

- The SQL queries, the `Files`/`vlex_Documents` join, the `FileName IS NOT NULL` filter and the `ORDER BY` are not modelled. Each stage receives the already filtered, ordered rows as a sequence. Strictly ascending ids are assumed only by the ordering lemmas.
- Console output, the report's `timestamp`, JSON serialisation and the write of `import_report.json` to the working directory are left out. They do not affect any count, list or table.
- The import stage's verification count and sample query (import-legacy-data.js:145-173) are left out. They are read-only.
- The connection pool's lifecycle and the outer `catch` blocks (copy-legacy-files.js:131-135, import-legacy-data.js:195-199) are left out. They only log, and no exit status is modelled.
- File names containing `/`, and a `FileName` of `.` or `..`, are accepted, but their extension, rename and source path differ from Node's. `ExtName`, `BaseName` and `Rename` treat the whole name as one path component, whereas Node's `path.basename` drops any directory part. `SourcePath` does not apply Node's normalisation, which collapses `.`, `..` and repeated separators in a `Folder` or a `FileName`. Windows separators are not modelled either.
- Node's `"."` result for a `path.join` of only empty segments is left out. The source path always starts with the non-empty `Old_Files`.
- NodePath.IntToString: writes ids as exact decimals. It does not model JavaScript's loss of precision above 2^53 or its exponent notation from 10^21.
- A failing `copyFileSync` is modelled as leaving the directory unchanged. A partially written target is not modelled.
- The staging directory is modelled as a set of names. Subdirectories that `readdirSync` would also list are not distinguished.
- `insertError` depends only on the record being inserted. A failure that depends on rows inserted earlier in the same run, such as a uniqueness constraint, is not modelled. RerunDuplicates relies on this.
- `copyError` depends only on the source path and the target name. A transient failure for one row, followed by a success for a later row with the same `Folder` and `FileName`, cannot be expressed.
- Staged-name membership is case-sensitive. On a case-insensitive file system, `existsSync` (copy-legacy-files.js:49) ignores case, while `readdirSync(...).includes` (import-legacy-data.js:46,55) does not. This difference is not modelled.
- The generated `id` of `files_new` is the database's business and is not modelled.
- `server.js`, `migrate.js`, `migrate-add-doctype.js` and the `check-*.js` scripts are not part of this model. They are HTTP plumbing, schema DDL and read-only inspection queries.
