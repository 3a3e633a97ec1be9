/** Result types that several components share. */
module Results {
  datatype Option<+T> = None | Some(value: T)

  /** What a reconciliation reports to its caller. */
  datatype ResponseCode = Noop | Updated | Failed
}
