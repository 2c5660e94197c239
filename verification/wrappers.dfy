/** The result type of the two error paths of the voting script (the zero-vector rejection and
    an out-of-range qubit index), and an optional value for "not found". */
module Wrappers {

  datatype Result<+T, +E> = Success(value: T) | Failure(error: E)

  datatype Option<+T> = None | Some(value: T)
}
