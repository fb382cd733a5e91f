/** What every other module shares. */
module Basics {

  datatype Option<+T> = None | Some(value: T)

  /** What a stream object asks of the gRPC library. The completion queue answers each one once. */
  datatype Operation = Accept | Read | Write | Finish
}
