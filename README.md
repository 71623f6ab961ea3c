# Sata envelope: cipher wrapper and encoder state machine in Dafny

This project models two parts of Sata, a self-describing data envelope:

- **The symmetric cipher wrapper** (`src/cipher.rs`). It seals a buffer with AES-256-GCM under a fresh 12-byte nonce and appends that nonce after the sealed bytes. A 32-byte key is used as it is. A key of any other length is replaced by SHA-256 of the key followed by the nonce. Opening splits the trailing 12 bytes off as the nonce, derives the key the same way and opens the rest.
- **The envelope's state machine** (`src/impls.rs`). A `Sata` holds a payload, a codec tag and a `state`: `UnInitalized`, `Decoded`, `Encoded` or `Encrypted`. The `Encoder` calls check the state, return a specific error for each illegal call, and overwrite the payload in place. `encryption_ready_check` decides whether encryption may start. `address` sets the sender and the recipients.

## How it is built

- `common.dfy`: the byte type and the `Option`/`Result` wrappers.
- `errors.dfy`: the two error enums, `Error` (`src/error.rs`) and `SataError` (`src/errors.rs`).
- `lib.dfy`: `Kind`, `State` and the stored identity type `DidKey`.
- `ipld.dfy`: the `libipld` interface. It holds the codec tags, the IPLD data model, and a codec as a pair of functions. The ghost predicate `Lossless` is the one fact the model assumes about codecs.
- `cipher.dfy`: `src/cipher.rs` as pure functions over byte sequences. AES-256-GCM (NIST SP 800-38D, sections 7.1 and 7.2) and SHA-256 (FIPS 180-4, section 6.2) are function-valued fields of `Primitives`. Two facts about them are taken as preconditions:
  - `DigestIs256Bits`: SHA-256 returns 32 bytes.
  - `OpenInvertsSeal`: opening inverts sealing, assumed only for a 32-byte key and a 12-byte nonce.

  Everything else is proved: the framing, the key rule, the split and the error mapping.
- `impls.dfy`: `src/impls.rs`.
  - Each `&mut self` call is specified by a function from a `Snapshot` of the fields to a `Transition`. A transition either returns the new fields and an `Outcome`, or aborts (panics).
  - `encoded`, `decoded` and `encryption_ready_check` take their receiver by value, so they are functions of a `Snapshot`.
  - Class `Sata` holds the fields. Its methods update them in place and are proved equal to the transition functions.
  - `Run` applies a sequence of calls. Lemmas over `Run` state what no sequence of calls can do.
- `findings.dfy`: a concrete codec that witnesses the finding below.

Where the code and its surroundings disagree, the model follows the code:

- `set_encoding` fails when the state *is* `UnInitalized` (line 75). Its error's message speaks of data "already initalized".
- `address` changes the recipients in every state (lines 142-146). Nothing in the code freezes them after encoding.
- No shown call ever sets the state to `Decoded`. So, as `Impls.UnInitalizedIsAbsorbing` proves, an envelope that starts uninitialised stays uninitialised under every sequence of `Encoder` and `Encryption` calls.
- `State` is not declared in the shown files. Its four values come from the `match` arms in `src/impls.rs`.
- `decode` writes `SataError::NotEncoded()` (line 107). The model reads this as the unit variant `NotEncoded`.
- `encoded(self)` and `decoded(self)` are called through `&mut self` (lines 88 and 109). The model reads each such call as applying to the current field values.

## Model

| member | source | states |
|---|---|---|
| `Cipher.Sha256Hash` | src/cipher.rs:53-60 | feeding `data` and then the salt to one hasher gives the digest of `data ++ salt`, or of `data` alone without a salt; the digest has 32 bytes |
| `Cipher.SaltIsAppended` | src/cipher.rs:53-60 | `sha256_hash(d, Some(s)) == sha256_hash(d ++ s, None)` |
| `Cipher.Generate` | src/cipher.rs:62-65 | the buffer has exactly `limit` bytes |
| `Cipher.EffectiveKey` | src/cipher.rs:11-14 | the key given to AES-256-GCM always has 32 bytes; it is the key itself when that has 32 bytes, and SHA-256 of key followed by nonce otherwise |
| `Cipher.ExtractDataSlice` | src/cipher.rs:47-51 | for `size <= len(data)`, the first component has `size` bytes and prefix ++ extracted == data |
| `Cipher.Aes256GcmEncrypt` | src/cipher.rs:8-27 | succeeds exactly when the AEAD seal succeeds, and then returns the sealed bytes followed by the 12-byte nonce drawn from the entropy source; every failure is `Error::Unknown` |
| `Cipher.Aes256GcmDecrypt` | src/cipher.rs:30-45 | opens the bytes before the last 12 with the last 12 as nonce, under the key normalised with that nonce; succeeds exactly when the AEAD open succeeds; every failure is `Error::Unknown` |
| `Cipher.DecryptRecoversNonce` | src/cipher.rs:24-31 | on an encryption's output, the split at 12 bytes yields exactly the nonce encryption appended, and the sealed bytes before it |
| `Cipher.SameEffectiveKey` | src/cipher.rs:33-36 | decryption derives the same effective key that encryption sealed under, for a key of any length |
| `Cipher.RoundTrip` | src/cipher.rs:8-45 | if opening inverts sealing, decrypting what encrypt returned gives `Ok(data)` for a key of any length |
| `Impls.EncodedData` | src/impls.rs:94-102 | `UnInitalized` gives the `UnInitalized` error and `Encrypted` gives `CannotEncodeEncrypted`; `Encoded` returns the stored data; `Decoded` returns the codec's encoding of the payload as `Ipld::Bytes`, which a lossless codec decodes back to the payload |
| `Impls.DecodedData` | src/impls.rs:114-128 | `UnInitalized` gives the `UnInitalized` error and `Encrypted` gives `CannotDecodeEncrypted`; `Decoded` returns the stored data; `Encoded` succeeds exactly when the codec decodes the data to `Ipld::Bytes`, and returns those bytes |
| `Impls.EncodedThenDecoded` | src/impls.rs:94-128 | for a lossless codec, `decoded` of what `encoded` produced from decoded data is the payload |
| `Impls.EncryptionReadyCheck` | src/impls.rs:132-139 | passes exactly in `Encoded` and `Decoded`; `UnInitalized` gives the `UnInitalized` error and `Encrypted` gives `AlreadyEncrypted` |
| `Impls.SetEncodingStep` | src/impls.rs:74-80 | fails with `EncodingSetOutOfOrder` exactly when the state is `UnInitalized`, and then changes nothing; otherwise the codec becomes the given one; no other field ever changes |
| `Impls.EncodeStep` | src/impls.rs:83-91 | fails with `NotDecoded` and changes nothing unless the state is `Decoded`; otherwise only the data and the state change, the data becomes the codec's encoding of the old payload as `Ipld::Bytes`, the state becomes `Encoded`, and for a lossless codec the new data decodes to the old payload; aborts only where the codec cannot encode the payload |
| `Impls.DecodeStep` | src/impls.rs:105-111 | fails with `NotEncoded` unless the state is `Encoded`; otherwise it succeeds exactly when the data decodes to `Ipld::Bytes`, and then only the data changes, becoming those bytes; a failure changes nothing |
| `Impls.DecodeStepCorrected` | src/impls.rs:105-111 | as `DecodeStep`, but on success the state becomes `Decoded` and `decoded` then returns the stored payload |
| `Impls.CorrectedEncodeDecodeRestores` | src/impls.rs:83-111 | with the corrected decode and a lossless codec, encode then decode gives back the envelope exactly as it was |
| `Impls.AddressStep` | src/impls.rs:142-146 | sets sender to `from` and recipients to `to`, and changes nothing else |
| `Impls.EncryptStep` | src/impls.rs:148-153 | returns exactly in `UnInitalized` and `Encrypted`, with the ready check's error and every field unchanged; otherwise the call does not return |
| `Impls.EncodeThenDecode` | src/impls.rs:83-111 | for a lossless codec, from `Decoded` with payload `d`, encode then decode succeed and leave payload `d`, with the state `Encoded` |
| `Impls.UnInitalizedIsAbsorbing` | src/impls.rs:74-153 | from `UnInitalized`, no sequence of calls aborts, and every field except sender and recipients stays as it was, the state included |
| `Impls.EncryptedIsFrozen` | src/impls.rs:74-153 | from `Encrypted`, no sequence of calls aborts, changes the payload or leaves `Encrypted` |
| `Impls.DecodedIsNeverEntered` | src/impls.rs:74-153 | no sequence of calls takes an envelope that is not `Decoded` into `Decoded` |
| `Impls.NeverUnInitalizedAgain` | src/impls.rs:74-153 | no sequence of calls returns an initialised envelope to `UnInitalized` |
| `Impls.Sata.constructor` | src/impls.rs:19-29 | a struct literal: the fields are the given values |
| `Impls.Sata.SetEncoding` | src/impls.rs:74-80 | updates the fields in place exactly as `SetEncodingStep` says and returns its outcome |
| `Impls.Sata.Encode` | src/impls.rs:83-91 | updates the fields in place exactly as `EncodeStep` says and returns its outcome |
| `Impls.Sata.Decode` | src/impls.rs:105-111 | updates the fields in place exactly as `DecodeStep` says and returns its outcome |
| `Impls.Sata.Address` | src/impls.rs:142-146 | updates the fields in place exactly as `AddressStep` says |
| `Impls.Sata.Encrypt` | src/impls.rs:148-153 | where `encrypt` returns, it returns the ready check's error (`UnInitalized` or `AlreadyEncrypted`) and modifies nothing |
| `Impls.EncodeThenDecodeInPlace` | tests/encoding.rs:16-17 | on one envelope, in place: from `Decoded` and a lossless codec, encode then decode restore the payload |
| `Findings.DecodeLeavesStateEncoded` | src/impls.rs:105-111 | as written, after encode then decode of `[7]`, the state is still `Encoded`; `decoded` and a second `decode` fail, and `encoded` returns `[7]`, which does not decode |
| `Findings.CorrectedDecodeIsConsistent` | src/impls.rs:105-111 | with the corrected decode, the same calls restore the envelope; `decoded` returns `[7]` and `encoded` re-encodes it |

## Left out

- AES-256-GCM and SHA-256 internals. They are uninterpreted function fields of `Cipher.Primitives`. The model assumes only the 32-byte digest length and that opening inverts sealing.
- `getrandom` in `generate` (src/cipher.rs:64). The entropy source is the parameter `rng`, and an unavailable source (the `unwrap` panic) is not modelled.
- `Cipher.Generate`: states only the buffer's length, which is all the source promises about random bytes.
- `Cipher.ExtractDataSlice` and `Cipher.Aes256GcmDecrypt`: input shorter than the slice panics in the source. This is modelled as a precondition, not as a returned error.
- The `libipld` codecs. A codec is a pair of functions, and the only assumption about it is `Ipld.Lossless`. Floats are left out of the IPLD data model.
- `Impls.EncodedData` and `Impls.EncodeStep`: the `unwrap()` on the codec's encoding (line 99) panics on a codec error. `EncodedData` requires the encoding to succeed, and `EncodeStep` reports the panic as `Aborted`.
- `Impls.DecodedData`: for encoded data that does not decode to `Ipld::Bytes`, the source has only a placeholder (line 122). The model returns `SataError::Unknown` there, and its contract promises only an error.
- `Impls.DecodedData`: in the `Encoded` arm (lines 119-124) the source binds the decoded bytes and never returns them, because the block ends in a `let` statement. The model returns them as `Ok`, which is evidently what the arm is for.
- `Impls.Sata.Encode`: where the codec cannot encode the payload, the `unwrap()` at line 99 panics. The method requires `EncodeStep` not to abort, so it is not specified on that input; `EncodeStep` records it as `Aborted`.
- `Impls.Sata.Encrypt`: past the ready check, the body of `encrypt` (lines 155-184) is `todo!()` and `unimplemented!()` and never returns. The method is specified only where the call returns, so it requires the ready check to fail.
- `decrypt` and `validate` (lines 190-196) are `unimplemented!()` and are left out. The JOSE structures of `src/dag_jose.rs` are used only by the unfinished part of `encrypt` and are left out too.
- The multi-recipient API the tests call (`add_recipient`, a four-argument `encrypt`, `decrypt(recipient)`) has no implementation in the shown code and is not modelled.
- `Default`, `From<Vec<u8>>` and `Feed::feed` (src/impls.rs:16-60) are left out. They build a `Cid` through the `cid` crate, generate a key pair through `did_key` and read the clock. `From` and `feed` also `unwrap()` an error on the default uninitialised state. The class has one constructor, a plain struct literal.
- `Time` (`clock_update`, `get_time`): the wall clock. `updated` is kept as an unbounded integer that no modelled call changes.
- The `Debug` formatting, and the second, conflicting `Sata` declaration in src/lib.rs. Only its `Kind` enum is used.
- `DidKey` and `Cid` are stored values only. Identity generation, fingerprints, key agreement and content-identifier construction are not modelled.

## Findings

| source | as written | input that shows it | evidently intended | confidence | as-written member | corrected member |
|---|---|---|---|---|---|---|
| src/impls.rs:105-111 | a successful `decode` replaces the payload with its decoding but leaves the state `Encoded` | a `Decoded` envelope with payload `[7]` and a codec that encodes `Bytes(b)` as `0x42 ++ b`: after `encode` and `decode`, `decoded()` and a second `decode()` fail, and `encoded()` returns `[7]`, which does not decode | a successful `decode` sets the state to `Decoded`, as `encode` sets `Encoded` at line 89 | medium; not executed | `Findings.DecodeLeavesStateEncoded` | `Impls.DecodeStepCorrected` |
