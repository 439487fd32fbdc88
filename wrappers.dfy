/** Small value wrappers shared by every module of the model. */
module Wrappers {

  /** A value that may be absent: the model of a nullable JavaScript value. */
  datatype Option<T> = None | Some(value: T)

  /** The answer of one backend read: an error, or the rows it returned.
      A successful read whose `data` is null is `Found([])`, as the code's `data || []`. */
  datatype Lookup<T> = Failed | Found(rows: seq<T>)
}
