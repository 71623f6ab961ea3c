/** The symmetric cipher wrapper of src/cipher.rs: AES-256-GCM sealing with a
    fresh 12-byte nonce appended after the sealed buffer, and key
    normalisation through SHA-256 for keys that are not 32 bytes long.

    AES-256-GCM (NIST SP 800-38D, sections 7.1 and 7.2) and SHA-256
    (FIPS 180-4, section 6.2) are not modelled bit by bit: they are the
    function-valued fields of `Primitives`, and the two facts the wrapper
    relies on are the predicates `DigestIs256Bits` and `OpenInvertsSeal`,
    taken as preconditions. Everything else here (slicing, the key rule, the
    nonce framing, the error mapping) is proved. */
module Cipher {
  import opened Common
  import opened Errors

  /** Length in bytes of an AES-256 key and of a SHA-256 digest. */
  const KeySize: nat := 32

  /** Length in bytes of the GCM nonce (96 bits). */
  const NonceSize: nat := 12

  /** The external primitives the wrapper calls.
      `seal(key, nonce, plaintext)` and `open(key, nonce, sealed)` are
      AES-256-GCM without associated data; `None` is the `aead::Error`. */
  datatype Primitives = Primitives(
    sha256: seq<byte> -> seq<byte>,
    seal: (seq<byte>, seq<byte>, seq<byte>) -> Option<seq<byte>>,
    open: (seq<byte>, seq<byte>, seq<byte>) -> Option<seq<byte>>)

  /** SHA-256 yields 32 bytes for every message. */
  ghost predicate DigestIs256Bits(p: Primitives)
  {
    forall m :: |p.sha256(m)| == KeySize
  }

  /** Under a 32-byte key and a 12-byte nonce, opening what was sealed gives
      back the plaintext. Nothing is assumed for other key or nonce sizes. */
  ghost predicate OpenInvertsSeal(p: Primitives)
  {
    forall key, nonce, plaintext
      | |key| == KeySize && |nonce| == NonceSize && p.seal(key, nonce, plaintext).Some?
      :: p.open(key, nonce, p.seal(key, nonce, plaintext).value) == Some(plaintext)
  }

  ghost predicate Lawful(p: Primitives)
  {
    DigestIs256Bits(p) && OpenInvertsSeal(p)
  }

  /** The running state of `Sha256::new()` / `update`: the bytes absorbed so far. */
  datatype Sha256Hasher = Sha256Hasher(absorbed: seq<byte>)

  function Update(hasher: Sha256Hasher, bytes: seq<byte>): Sha256Hasher
  {
    Sha256Hasher(hasher.absorbed + bytes)
  }

  function Finalize(p: Primitives, hasher: Sha256Hasher): seq<byte>
  {
    p.sha256(hasher.absorbed)
  }

  /** `sha256_hash(data, salt)`: feeds `data`, then the salt if there is one,
      to one hasher. The digest is that of the concatenated message. */
  function Sha256Hash(p: Primitives, data: seq<byte>, salt: Option<seq<byte>>): (digest: seq<byte>)
    ensures salt.None? ==> digest == p.sha256(data)
    ensures salt.Some? ==> digest == p.sha256(data + salt.value)
    ensures DigestIs256Bits(p) ==> |digest| == KeySize
  {
    var hasher := Update(Sha256Hasher([]), data);
    assert hasher.absorbed == data;
    var hasher := if salt.Some? then Update(hasher, salt.value) else hasher;
    Finalize(p, hasher)
  }

  /** `generate(limit)`: a buffer of `limit` bytes filled from the entropy
      source, here the parameter `rng` (byte `i` of the buffer is `rng(i)`). */
  function Generate(limit: nat, rng: nat -> byte): (buf: seq<byte>)
    ensures |buf| == limit
  {
    seq(limit, i requires 0 <= i => rng(i))
  }

  /** The key both sides hand to AES-256-GCM: a 32-byte key as it is, any
      other key hashed together with the nonce. */
  function EffectiveKey(p: Primitives, key: seq<byte>, nonce: seq<byte>): (eKey: seq<byte>)
    requires DigestIs256Bits(p)
    ensures |eKey| == KeySize
    ensures |key| == KeySize ==> eKey == key
    ensures |key| != KeySize ==> eKey == p.sha256(key + nonce)
  {
    if |key| == KeySize then key else Sha256Hash(p, key, Some(nonce))
  }

  /** `extract_data_slice(data, size)`: the last `size` bytes, and the bytes
      before them. A `size` larger than `data` makes the source's slice panic. */
  function ExtractDataSlice(data: seq<byte>, size: nat): (r: (seq<byte>, seq<byte>))
    requires size <= |data|
    ensures |r.0| == size
    ensures r.1 + r.0 == data
  {
    (data[|data| - size..], data[..|data| - size])
  }

  /** `aes256gcm_encrypt(key, data)`: seals `data` under a fresh nonce and
      returns the sealed buffer followed by that nonce. */
  function Aes256GcmEncrypt(p: Primitives, key: seq<byte>, data: seq<byte>, rng: nat -> byte)
    : (r: Result<seq<byte>, Error>)
    requires DigestIs256Bits(p)
    ensures var nonce := Generate(NonceSize, rng);
            var sealed := p.seal(EffectiveKey(p, key, nonce), nonce, data);
            && (r.Ok? <==> sealed.Some?)
            && (r.Ok? ==> r.value == sealed.value + nonce)
    ensures r.Err? ==> r.error == Error.Unknown
  {
    var nonce := Generate(NonceSize, rng);
    var eKey := EffectiveKey(p, key, nonce);
    match p.seal(eKey, nonce, data)
    case None => Err(Error.Unknown)
    case Some(edata) => Ok(edata + nonce)
  }

  /** `aes256gcm_decrypt(key, data)`: splits the trailing nonce off, derives
      the key as the encrypting side did and opens the rest. Input shorter
      than a nonce makes the source's slice panic. */
  function Aes256GcmDecrypt(p: Primitives, key: seq<byte>, data: seq<byte>): (r: Result<seq<byte>, Error>)
    requires DigestIs256Bits(p)
    requires NonceSize <= |data|
    ensures var nonce := data[|data| - NonceSize..];
            var result := p.open(EffectiveKey(p, key, nonce), nonce, data[..|data| - NonceSize]);
            && (r.Ok? <==> result.Some?)
            && (r.Ok? ==> r.value == result.value)
    ensures r.Err? ==> r.error == Error.Unknown
  {
    var (nonce, payload) := ExtractDataSlice(data, NonceSize);
    var eKey := EffectiveKey(p, key, nonce);
    match p.open(eKey, nonce, payload)
    case None => Err(Error.Unknown)
    case Some(plaintext) => Ok(plaintext)
  }

  /** The nonce appended by encryption is exactly the one decryption splits
      off, and what precedes it is the sealed buffer. */
  lemma DecryptRecoversNonce(p: Primitives, key: seq<byte>, data: seq<byte>, rng: nat -> byte)
    requires DigestIs256Bits(p)
    requires Aes256GcmEncrypt(p, key, data, rng).Ok?
    ensures var out := Aes256GcmEncrypt(p, key, data, rng).value;
            var nonce := Generate(NonceSize, rng);
            && |out| == |p.seal(EffectiveKey(p, key, nonce), nonce, data).value| + NonceSize
            && NonceSize <= |out|
            && ExtractDataSlice(out, NonceSize)
               == (nonce, p.seal(EffectiveKey(p, key, nonce), nonce, data).value)
  {
  }

  /** Both sides apply the same normalisation to the same key and nonce, so
      the decrypting side derives the key the encrypting side sealed under. */
  lemma SameEffectiveKey(p: Primitives, key: seq<byte>, data: seq<byte>, rng: nat -> byte)
    requires DigestIs256Bits(p)
    requires Aes256GcmEncrypt(p, key, data, rng).Ok?
    ensures var out := Aes256GcmEncrypt(p, key, data, rng).value;
            && NonceSize <= |out|
            && EffectiveKey(p, key, ExtractDataSlice(out, NonceSize).0)
               == EffectiveKey(p, key, Generate(NonceSize, rng))
  {
  }

  /** Decryption inverts encryption for a key of any length, given that
      AES-256-GCM opening inverts sealing. */
  lemma RoundTrip(p: Primitives, key: seq<byte>, data: seq<byte>, rng: nat -> byte)
    requires Lawful(p)
    requires Aes256GcmEncrypt(p, key, data, rng).Ok?
    ensures var out := Aes256GcmEncrypt(p, key, data, rng).value;
            NonceSize <= |out| && Aes256GcmDecrypt(p, key, out) == Ok(data)
  {
  }

  /** `sha256_hash(d, Some(s))` is the digest of `d ++ s` without a salt. */
  lemma SaltIsAppended(p: Primitives, data: seq<byte>, salt: seq<byte>)
    ensures Sha256Hash(p, data, Some(salt)) == Sha256Hash(p, data + salt, None)
  {
  }
}
