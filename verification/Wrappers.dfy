/** Failure and absence values, and the iteration step, shared by the modules of the model. */
module Wrappers {

  datatype Option<+T> = None | Some(value: T)

  datatype Result<+T, +E> = Ok(value: T) | Err(error: E)

  /** One element of a set, as Go's range over a map yields its keys: in no particular order. */
  method AnyElement<T(==)>(todo: set<T>) returns (e: T)
    requires todo != {}
    ensures e in todo
  {
    e :| e in todo;
  }
}
