// Model of jdk7/src/main/kotlin/org/glavo/nio/file/FileVisitor.kt:
// the default callbacks of `AbstractFileVisitor<T>`.
module FileVisitors {
  import opened Results

  /** `java.nio.file.FileVisitResult`: how the traversal driver goes on. */
  datatype FileVisitResult = Continue | Terminate | SkipSubtree | SkipSiblings

  /** `java.io.IOException`, carried as an opaque value. */
  datatype IOException = IOException(message: string)

  /** What a callback does: return a `FileVisitResult` or throw. */
  type Outcome = Result<FileVisitResult, IOException>

  /** The default `preVisitDirectory`: carry on, whatever the directory and
      its attributes. */
  function PreVisitDirectory<T, A>(dir: T, attrs: A): (r: Outcome)
    ensures r == Ok(Continue)
  {
    Ok(Continue)
  }

  /** The default `postVisitDirectory`: rethrow the failure recorded for the
      directory, if any; otherwise carry on. */
  function PostVisitDirectory<T>(dir: T, exc: Option<IOException>): (r: Outcome)
    ensures r.Ok? <==> exc.None?
    ensures r.Ok? ==> r.value == Continue
    ensures r.Err? ==> exc == Some(r.error)
  {
    match exc
    case Some(e) => Err(e)
    case None => Ok(Continue)
  }

  /** The default `visitFile`: carry on. */
  function VisitFile<T, A>(file: T, attrs: A): (r: Outcome)
    ensures r == Ok(Continue)
  {
    Ok(Continue)
  }

  /** The default `visitFileFailed`: never returns, always rethrows `exc`. */
  function VisitFileFailed<T>(file: T, exc: IOException): (r: Outcome)
    ensures r.Err? && r.error == exc
  {
    Err(exc)
  }

  /** No default callback ever returns anything but CONTINUE: the default
      visitor never terminates, prunes or skips a walk; it only stops one by
      throwing. */
  lemma DefaultsOnlyContinue<T, A>(p: T, attrs: A, exc: Option<IOException>, failure: IOException)
    ensures forall r :: r in {PreVisitDirectory(p, attrs), PostVisitDirectory(p, exc),
                               VisitFile(p, attrs), VisitFileFailed(p, failure)} && r.Ok?
                   ==> r.value == Continue
  {
  }
}
