/** The crate's two error enums. `Error` (src/error.rs) is what the cipher
    functions return; `SataError` (src/errors.rs) is what the envelope's
    state machine returns. Neither holds any logic. */
module Errors {

  /** src/error.rs. The `#[error(transparent)]` variants wrap an error of
      another crate; the model keeps only its message. */
  datatype Error =
    | InitializedData
    | InvalidData
    | PositionNotFound
    | EncodingSetOutOfOrder
    | CannotDecodeEncrypted
    | AlreadyEncrypted
    | PrivateKeyRequired
    | RecipientExist
    | RecipientDoesntExist
    | RecipientRequired
    | SerdeJsonError(message: string)
    | Unknown
    | AnyhowError(message: string)
    | CidError(message: string)
    | IpldCodecError(message: string)

  /** src/errors.rs. */
  datatype SataError =
    | EncodingSetOutOfOrder
    | NotDecoded
    | NotEncoded
    | UnInitalized
    | CannotDecodeEncrypted
    | CannotEncodeEncrypted
    | AlreadyEncrypted
    | Unknown
}
