/**
 * How a call to the hosted store settles. The store itself is not modelled:
 * each operation of the client receives the settled result of its calls.
 */
module Remote {
  import opened Wrappers

  /** A call fails either by returning `{ error }` or by rejecting the awaited promise. */
  datatype Failure = Returned | Thrown

  /** A read settles with its `data` (possibly `null`) or fails. */
  datatype Reply<+T> = Ok(data: Option<T>) | Err(failure: Failure)

  /** A write (insert, upsert, delete) succeeds or fails; its `data` is never read. */
  datatype Write = Done | Failed(failure: Failure)
}
