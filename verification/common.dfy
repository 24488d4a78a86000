/** What several components share. */
module Common {
  datatype Option<+T> = None | Some(value: T)

  /** How many rows a vector, and so a chunk, holds at most. */
  const STANDARD_VECTOR_SIZE: nat := 2048
}
