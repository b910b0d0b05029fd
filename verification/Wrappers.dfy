/** Values that may be absent and operations that may fail. */
module Wrappers {
  datatype Option<+T> = None | Some(value: T)

  datatype Result<+T, +E> = Success(value: T) | Failure(error: E)

  function Or<T>(o: Option<T>, otherwise: T): T { if o.Some? then o.value else otherwise }
}
