/**
 * The scheduler's two error kinds (chronos/exceptions.py) and the shapes in
 * which an operation either returns normally or raises one of them.
 */
module Exceptions {

  /** Why the SQLite backend rejected a statement. */
  datatype StorageFault =
    | DuplicateId        // the PRIMARY KEY constraint on `id` was violated
    | MediumUnavailable  // the database file could not be opened, read or written

  datatype SchedulerError =
    | StorageError(fault: StorageFault)
    | TaskExecutionError(taskId: string, message: string)

  /** A statement that returns nothing: it passes, or it raises. */
  datatype Outcome = Pass | Fail(error: SchedulerError)

  /** A statement that returns a value, or raises. */
  datatype Result<+T> = Ok(value: T) | Err(error: SchedulerError)
}
