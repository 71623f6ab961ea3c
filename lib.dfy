/** The crate-level types the envelope is built from. */
module Lib {
  import opened Common

  /** The classification tag of an envelope (src/lib.rs). */
  datatype Kind = UnInitalized | Static | Dynamic | Reference | DeadReference

  /** The processing state an envelope is in; it decides which `Encoder`
      and `Encryption` calls are legal. */
  datatype State = UnInitalized | Decoded | Encoded | Encrypted

  /** A `did_key::DIDKey` identity. Key generation, fingerprints and key
      agreement belong to the `did_key` crate and are not modelled; the
      envelope only stores identities. */
  datatype DidKey = DidKey(publicKey: seq<byte>, privateKey: seq<byte>)
}
