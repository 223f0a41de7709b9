/** The error codes and optional values the modelled components share. */
module Common {
  datatype Option<+T> = None | Some(value: T)

  datatype Error =
    | NoError
    | Failed
    | Runtime
    | NotFound
    | AlreadyExist
    | Timeout
    | WrongState
    | InvalidArgument
  {
    predicate IsNone() {
      NoError?
    }
  }
}
