// Model of the visitor that `Path.deleteRecursively` in
// jdk7/src/main/kotlin/org/glavo/nio/file/Path.kt hands to the JDK's tree
// walk: it overrides `visitFile` and `postVisitDirectory` of the default
// visitor so that each visited file and each finished directory is deleted.
// The file system is the set of paths that exist; whether the library's
// `delete` fails, and with which exception, is decided by the environment.
module DeleteRecursively {
  import opened Results
  import FileVisitors

  type Path = string
  type IOException = FileVisitors.IOException
  type Outcome = FileVisitors.Outcome

  /** The paths that exist, and the environment's decision on each delete:
      `refusal(entries, p)` is the exception `Files.delete(p)` throws when
      the existing paths are `entries` (a missing file, a non-empty
      directory, a denied permission, ...), or `None` when it succeeds. */
  class FileSystem {
    var entries: set<Path>
    const refusal: (set<Path>, Path) -> Option<IOException>

    constructor (entries: set<Path>, refusal: (set<Path>, Path) -> Option<IOException>)
      ensures this.entries == entries && this.refusal == refusal
    {
      this.entries := entries;
      this.refusal := refusal;
    }

    /** `Path.delete()`: removes `p`, or throws and removes nothing. */
    method Delete(p: Path) returns (r: Result<(), IOException>)
      modifies this
      ensures r.Err? <==> refusal(old(entries), p).Some?
      ensures r.Err? ==> r.error == refusal(old(entries), p).value && entries == old(entries)
      ensures r.Ok? ==> entries == old(entries) - {p}
    {
      match refusal(entries, p)
      case Some(e) =>
        r := Err(e);
      case None =>
        entries := entries - {p};
        r := Ok(());
    }
  }

  /** The anonymous `AbstractFileVisitor<Path>` of `deleteRecursively`. */
  class DeleteVisitor {
    const fs: FileSystem

    constructor (fs: FileSystem)
      ensures this.fs == fs
    {
      this.fs := fs;
    }

    /** Inherited default: carry on, deleting nothing. */
    method PreVisitDirectory<A>(dir: Path, attrs: A) returns (r: Outcome)
      ensures r == Ok(FileVisitors.Continue)
    {
      r := FileVisitors.PreVisitDirectory(dir, attrs);
    }

    /** Override: rethrow a failure recorded for `dir` without deleting
        anything; otherwise delete `dir` and carry on, or throw what the
        delete threw. */
    method PostVisitDirectory(dir: Path, exc: Option<IOException>) returns (r: Outcome)
      modifies fs
      ensures exc.Some? ==> r == Err(exc.value) && fs.entries == old(fs.entries)
      ensures exc.None? && fs.refusal(old(fs.entries), dir).Some? ==>
                r == Err(fs.refusal(old(fs.entries), dir).value) && fs.entries == old(fs.entries)
      ensures exc.None? && fs.refusal(old(fs.entries), dir).None? ==>
                r == Ok(FileVisitors.Continue) && fs.entries == old(fs.entries) - {dir}
    {
      if exc.Some? {
        return Err(exc.value);
      }
      var deleted := fs.Delete(dir);
      if deleted.Err? {
        return Err(deleted.error);
      }
      r := Ok(FileVisitors.Continue);
    }

    /** Override: delete `file` and carry on, or throw what the delete threw. */
    method VisitFile<A>(file: Path, attrs: A) returns (r: Outcome)
      modifies fs
      ensures fs.refusal(old(fs.entries), file).Some? ==>
                r == Err(fs.refusal(old(fs.entries), file).value) && fs.entries == old(fs.entries)
      ensures fs.refusal(old(fs.entries), file).None? ==>
                r == Ok(FileVisitors.Continue) && fs.entries == old(fs.entries) - {file}
    {
      var deleted := fs.Delete(file);
      if deleted.Err? {
        return Err(deleted.error);
      }
      r := Ok(FileVisitors.Continue);
    }

    /** Inherited default: rethrow the failure, deleting nothing. */
    method VisitFileFailed(file: Path, exc: IOException) returns (r: Outcome)
      ensures r == Err(exc)
    {
      r := FileVisitors.VisitFileFailed(file, exc);
    }
  }
}
