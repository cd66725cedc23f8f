/** Option, Result and the errors the encoder raises. */
module Errors {

  datatype Option<+T> = None | Some(value: T)

  /** The value an operation returns, or the exception it raises. */
  datatype Result<+T> = Success(value: T) | Failure(error: Error)

  /** The ValueErrors of the encoding engine. */
  datatype Error =
    | IllegalChar(ch: char, san: string)   // a move holds a character outside the alphabet
    | InvalidPlySpec(spec: string)         // neither `..N` nor `N`
    | StartPlyOutOfRange                   // start ply outside 1..number of plies
}
