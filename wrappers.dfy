/** Outcomes of the codec's operations: a value, or the exception the C# code throws. */
module Wrappers {

  datatype Option<+T> = None | Some(value: T)

  datatype Result<+T> = Success(value: T) | Failure(error: CodecError)

  /** The exceptions the codec raises, one constructor per distinct cause. */
  datatype CodecError =
    | ArgumentOutOfRange(paramName: string)  // an offset or length outside the array
    | OutOfMemory                           // the output length does not fit in an int
    | IndexOutOfRange                       // taking the address of outArray[outArray.Length]
    | InvalidLength                         // trimmed input length is 1, 3 or 6 modulo 8
    | InvalidSymbol                         // a character outside the alphabet and its aliases
    | InvalidGuidLength                     // a decoded identifier that is not 16 bytes long
}
