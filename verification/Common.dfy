/** What several modules share. */
module Common {
  datatype Option<+T> = None | Some(value: T)

  /** The code as it is written, or with the repair that its own comments and documentation call for. */
  datatype Variant = AsWritten | Repaired
}
