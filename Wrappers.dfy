/** Option and Result: `Option` for the arm counter that may be absent
    (module ArmUpDown), `Result` for the width check of module Chunker and
    the empty-chunk error of module MagnitudeAverager. */
module Wrappers {

  datatype Option<+T> = None | Some(value: T)

  datatype Result<+R, +E> = Success(value: R) | Failure(error: E)
}
