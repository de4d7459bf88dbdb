/** Optional values, the errors the write path raises, and results that carry either. */
module Outcomes {

  datatype Option<T> = None | Some(value: T)

  /** The exceptions the persistence overrides raise or let through. */
  datatype Error =
    | RecordError(message: string)   // ActiveRecordError raised on a forbidden record state
    | ReadonlyAttribute(name: string) // ActiveRecordError "<name> is marked as readonly"
    | RecordNotFound                 // `find` matched no row
    | EmptyUpdateList                // `update_all` given nothing to set (ArgumentError)

  datatype Result<T> = Ok(value: T) | Err(error: Error)
}
