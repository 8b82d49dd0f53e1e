/** Result and option types shared by every module. */
module Wrappers {

  datatype Option<+T> = None | Some(value: T)

  /** The error classes of `crates/core/src/error.rs` that the modelled code tells apart. */
  datatype Error =
    | NotFound
    | StaleHandle
    | InvalidArgument
    | WrongKind
    | AccessDenied
    | StorageFull
    | Mtp
    | Io
    | ActorClosed
    | Timeout

  datatype Result<+T> = Ok(value: T) | Err(error: Error) {
    predicate IsFailure() { Err? }

    function PropagateFailure<U>(): Result<U>
      requires Err?
    {
      Err(error)
    }

    function Extract(): T
      requires Ok?
    {
      value
    }
  }
}
