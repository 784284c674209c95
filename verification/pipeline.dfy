/**
 The two stages run one after the other: the import stage lists the directory the
 copy stage left behind. Both build the collision name with the same `Rename`, so
 a document's fallback name is exactly the name the copy stage used for its file.
 */
module Pipeline {
  import opened Options
  import opened NodePath
  import opened CopyStage
  import opened ImportStage

  /** A document row joined with this file row: same file id and same file name. */
  predicate Joins(doc: DocumentRow, file: FileRow) {
    doc.fileId == file.fileId && doc.fileName == file.fileName
  }

  /** The import fallback for a document is the name a collided copy of its file was written under. */
  lemma FallbackIsCopyRename(doc: DocumentRow, file: FileRow, before: set<string>, env: CopyEnv)
    requires Joins(doc, file)
    requires Outcome(file, before, env).Copied?
    requires Occupied(before, file.fileName)
    ensures Outcome(file, before, env).target == Rename(doc.fileName, doc.fileId)
    ensures Outcome(file, before, env).target != doc.fileName
  {
  }

  /**
   Whatever the copy stage wrote for a file (other than under the report's own
   name) is found by the import stage for every document of that file. When the
   file kept its own name, import stores exactly that name. When it was renamed
   because its name was already staged (by an earlier row or before the run), import
   stores the DIRECT name; the renamed copy is not referenced unless the name is
   `migration_report.json`, which the listing leaves out.
   */
  lemma ImportFindsCopiedFile(rows: seq<FileRow>, staged: set<string>, env: CopyEnv,
                              i: nat, doc: DocumentRow)
    requires i < |rows|
    requires Joins(doc, rows[i])
    ensures var before := CopyStage.Run(rows[..i], Start.(staged := staged), env).staged;
            var o := Outcome(rows[i], before, env);
            var names := Snapshot(CopyLegacyFiles(rows, staged, env).staged);
            && (o.Copied? && o.target != ReportName ==> Resolve(doc, names).Some?)
            && (o.Copied? && !Occupied(before, rows[i].fileName) && o.target != ReportName ==>
                  Resolve(doc, names) == Some(o.target))
            && (o.Copied? && rows[i].fileName in before && rows[i].fileName != ReportName ==>
                  Resolve(doc, names) == Some(doc.fileName) && doc.fileName != o.target)
  {
    var st := Start.(staged := staged);
    var before := CopyStage.Run(rows[..i], st, env).staged;
    var o := Outcome(rows[i], before, env);
    var dir := CopyLegacyFiles(rows, staged, env).staged;
    CopiedStaysStaged(rows, st, env, i);
    assert before <= CopyStage.Run(rows, st, env).staged by {
      assert rows == rows[..i] + rows[i..];
      RunAppend(rows[..i], rows[i..], st, env);
      RunKeeps(rows[i..], CopyStage.Run(rows[..i], st, env), env);
    }
    if o.Copied? && o.target != ReportName {
      assert o.target in Snapshot(dir);
    }
    if o.Copied? && rows[i].fileName in before && rows[i].fileName != ReportName {
      assert rows[i].fileName in Snapshot(dir);
    }
  }

  /**
   The one case where the renamed copy is used: a file named like the copy stage's
   report. The listing leaves `migration_report.json` out, so its documents fall
   back to the rename, and resolve exactly when the rename is staged.
   */
  lemma ReportNamedFileUsesRename(doc: DocumentRow, dir: set<string>)
    requires doc.fileName == ReportName
    ensures Resolve(doc, Snapshot(dir)).Some? <==> Rename(doc.fileName, doc.fileId) in dir
    ensures Rename(doc.fileName, doc.fileId) in dir ==>
              Resolve(doc, Snapshot(dir)) == Some(Rename(doc.fileName, doc.fileId))
  {
  }

  /**
   After the two `lease.pdf` files of ids 165 and 166 were copied into an empty
   directory (`CopyStage.LeaseExample`: `lease.pdf`, `lease_166.pdf` and the
   report), the documents of BOTH files are imported with the stored name
   `lease.pdf`, although `lease_166.pdf` is staged.
   */
  lemma LeaseImportExample(dir: set<string>, doc165: DocumentRow, doc166: DocumentRow)
    requires dir == {"lease.pdf", "lease_166.pdf", ReportName}
    requires doc165.fileId == 165 && doc165.fileName == "lease.pdf"
    requires doc166.fileId == 166 && doc166.fileName == "lease.pdf"
    ensures Rename(doc166.fileName, doc166.fileId) in Snapshot(dir)
    ensures Resolve(doc165, Snapshot(dir)) == Some("lease.pdf")
    ensures Resolve(doc166, Snapshot(dir)) == Some("lease.pdf")
  {
    LeaseRename();
    assert "lease.pdf" != ReportName && "lease_166.pdf" != ReportName;
  }
}
