/** What several of the modules share: the unit of time and optional values. */
module Common {
  /** Times and durations are whole nanoseconds. */
  const SECOND: int := 1_000_000_000

  datatype Option<T> = None | Some(value: T)
}
