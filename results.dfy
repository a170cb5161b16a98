// Value types for the JVM's nullable references and thrown exceptions.
module Results {

  /** A nullable value: `None` stands for Kotlin's `null`. */
  datatype Option<+T> = None | Some(value: T)

  /** The outcome of a call that either returns a value or throws `error`. */
  datatype Result<+R, +E> = Ok(value: R) | Err(error: E)
}
