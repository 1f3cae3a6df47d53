/** Values shared by every part of the model: Java's signed byte, the
    optional and failure-carrying results that stand for `null` and for
    thrown exceptions, and the exception kinds the tool raises. */
module Common {

  /** A Java `byte`: a signed 8-bit value. */
  type int8 = x: int | -128 <= x < 128

  /** The value of `b & 0xFF`: the byte read as unsigned. */
  function Unsigned(b: int8): (v: nat)
    ensures v < 256 && (v - b) % 256 == 0
  {
    if b < 0 then b + 256 else b
  }

  /** The byte whose unsigned reading is `v`: the inverse of Unsigned. */
  function Signed(v: nat): (b: int8)
    requires v < 256
    ensures Unsigned(b) == v
  {
    if v >= 128 then v - 256 else v
  }

  datatype Option<+T> = None | Some(value: T)

  /** The exceptions the modelled code throws (or lets escape). */
  datatype Exception =
    | IllegalArgument(message: string)
    | MissingFormatArgument(message: string)
    | IndexOutOfBounds
    | NullPointer
    | FileNotFound(message: string)
    | IOFailure(message: string)
    | KeyStoreFailure(message: string)
    | NoSuchAlgorithm
    | UnrecoverableKey
    | InvalidParameter(message: string)
    | InvalidKey
    | IllegalBlockSize
    | BadPadding
    | JsonSyntax

  /** A call that returns nothing: it completes or throws. */
  datatype Outcome = Pass | Fail(error: Exception)

  /** A call that returns a value or throws. */
  datatype Result<+T> = Ok(value: T) | Err(error: Exception)
}
