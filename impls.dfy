/** The envelope's state machine of src/impls.rs: the `Encoder` members
    (`set_encoding`, `encode`, `encoded`, `decode`, `decoded`),
    `encryption_ready_check`, and the members of `Encryption` that are
    written out (`address`, and the guard at the head of `encrypt`).

    Each call that takes `&mut self` is specified by a function from the
    envelope's fields before the call (a `Snapshot`) to a `Transition`; the
    methods of class `Sata` update the fields in place and are proved to
    match those functions. Lemmas about sequences of calls (`Run`) state what
    no sequence of calls can do. */
module Impls {
  import opened Common
  import opened Errors
  import opened Ipld
  import opened Lib

  /** What a call returning `Result<&mut Sata, SataError>` reports:
      `Pass` is `Ok(self)`. */
  datatype Outcome = Pass | Fail(error: SataError)

  /** The fields of a `Sata` at one moment. `updated` is the `i64`
      nanosecond timestamp; no modelled call changes it. */
  datatype Snapshot = Snapshot(
    cid: Cid,
    kind: Kind,
    encoding: IpldCodec,
    updated: int,
    data: seq<byte>,
    doc: seq<byte>,
    state: State,
    sender: DidKey,
    recipients: seq<DidKey>)

  /** The effect of one call: it returns, with the new fields and what it
      reported, or it aborts (panics) and returns nothing. */
  datatype Transition = Returned(next: Snapshot, outcome: Outcome) | Aborted

  /** The codec can encode the payload as an `Ipld::Bytes` value; where it
      cannot, the `unwrap()` in `encoded` panics. */
  predicate CanEncodeBytes(codec: Codec, s: Snapshot)
  {
    codec.encode(s.encoding, Bytes(s.data)).Some?
  }

  /** The codec decodes `data` to an `Ipld::Bytes` value. */
  predicate DecodesToBytes(codec: Codec, tag: IpldCodec, data: seq<byte>)
  {
    codec.decode(tag, data).Some? && codec.decode(tag, data).value.Bytes?
  }

  /** `encoded(self)`: the payload in encoded form. Encoded data is returned
      as stored; decoded data is encoded as `Ipld::Bytes` with the envelope's
      codec, so that the codec decodes it back to the payload. */
  function EncodedData(codec: Codec, s: Snapshot): (r: Result<seq<byte>, SataError>)
    requires s.state == State.Decoded ==> CanEncodeBytes(codec, s)
    ensures r.Ok? <==> s.state == State.Encoded || s.state == State.Decoded
    ensures s.state == State.UnInitalized ==> r == Err(SataError.UnInitalized)
    ensures s.state == State.Encrypted ==> r == Err(SataError.CannotEncodeEncrypted)
    ensures s.state == State.Encoded ==> r == Ok(s.data)
    ensures s.state == State.Decoded ==> r == Ok(codec.encode(s.encoding, Bytes(s.data)).value)
    ensures s.state == State.Decoded && Lossless(codec) ==>
                codec.decode(s.encoding, r.value) == Some(Bytes(s.data))
  {
    match s.state
    case UnInitalized => Err(SataError.UnInitalized)
    case Encoded => Ok(s.data)
    case Decoded => Ok(codec.encode(s.encoding, Bytes(s.data)).value)
    case Encrypted => Err(SataError.CannotEncodeEncrypted)
  }

  /** `decoded(self)`: the payload in decoded form. Decoded data is returned
      as stored; encoded data must decode, with the envelope's codec, to an
      `Ipld::Bytes` value, whose bytes are the result. The source binds those
      bytes and never returns them (the block at lines 119-124 ends in a
      `let`); the model returns them as `Ok`. The source leaves the error for
      any other decoding as a placeholder (line 122); the model reports
      `Unknown` there and promises only that it is an error. */
  function DecodedData(codec: Codec, s: Snapshot): (r: Result<seq<byte>, SataError>)
    ensures s.state == State.UnInitalized ==> r == Err(SataError.UnInitalized)
    ensures s.state == State.Encrypted ==> r == Err(SataError.CannotDecodeEncrypted)
    ensures s.state == State.Decoded ==> r == Ok(s.data)
    ensures s.state == State.Encoded ==> (r.Ok? <==> DecodesToBytes(codec, s.encoding, s.data))
    ensures s.state == State.Encoded && r.Ok? ==>
                codec.decode(s.encoding, s.data) == Some(Bytes(r.value))
  {
    match s.state
    case UnInitalized => Err(SataError.UnInitalized)
    case Encoded =>
      (match codec.decode(s.encoding, s.data)
       case Some(Bytes(bytes)) => Ok(bytes)
       case _ => Err(SataError.Unknown))
    case Decoded => Ok(s.data)
    case Encrypted => Err(SataError.CannotDecodeEncrypted)
  }

  /** Decoding what `encoded` produced from decoded data gives the payload
      back, for a codec that decodes its own `Bytes` encodings. */
  lemma EncodedThenDecoded(codec: Codec, s: Snapshot)
    requires Lossless(codec)
    requires s.state == State.Decoded && CanEncodeBytes(codec, s)
    ensures DecodedData(codec, s.(data := EncodedData(codec, s).value, state := State.Encoded)) == Ok(s.data)
  {
  }

  /** `encryption_ready_check`: encryption may start from encoded or decoded
      data only. */
  function EncryptionReadyCheck(s: Snapshot): (r: Outcome)
    ensures r.Pass? <==> s.state == State.Encoded || s.state == State.Decoded
    ensures s.state == State.UnInitalized ==> r == Fail(SataError.UnInitalized)
    ensures s.state == State.Encrypted ==> r == Fail(SataError.AlreadyEncrypted)
  {
    match s.state
    case UnInitalized => Fail(SataError.UnInitalized)
    case Encrypted => Fail(SataError.AlreadyEncrypted)
    case Encoded => Pass
    case Decoded => Pass
  }

  /** `set_encoding`: refused on an uninitialised envelope; otherwise only
      the codec changes. */
  function SetEncodingStep(s: Snapshot, encoding: IpldCodec): (t: Transition)
    ensures t.Returned?
    ensures t.outcome.Fail? <==> s.state == State.UnInitalized
    ensures t.outcome.Fail? ==> t.outcome.error == SataError.EncodingSetOutOfOrder && t.next == s
    ensures t.outcome.Pass? ==> t.next.encoding == encoding
    ensures t.next.(encoding := s.encoding) == s
  {
    if s.state == State.UnInitalized then Returned(s, Fail(SataError.EncodingSetOutOfOrder))
    else Returned(s.(encoding := encoding), Pass)
  }

  /** `encode`: refused unless the data is decoded; otherwise the payload is
      replaced by its encoding and the state becomes `Encoded`, and nothing
      else changes. It aborts where the codec cannot encode the payload. */
  function EncodeStep(codec: Codec, s: Snapshot): (t: Transition)
    ensures t.Aborted? <==> s.state == State.Decoded && !CanEncodeBytes(codec, s)
    ensures t.Returned? ==> (t.outcome.Fail? <==> s.state != State.Decoded)
    ensures t.Returned? && t.outcome.Fail? ==>
                t.outcome.error == SataError.NotDecoded && t.next == s
    ensures t.Returned? && t.outcome.Pass? ==>
                t.next.state == State.Encoded && t.next.(data := s.data, state := s.state) == s
                  && t.next.data == codec.encode(s.encoding, Bytes(s.data)).value
    ensures t.Returned? && t.outcome.Pass? && Lossless(codec) ==>
                DecodedData(codec, t.next) == Ok(s.data)
  {
    if s.state != State.Decoded then Returned(s, Fail(SataError.NotDecoded))
    else if !CanEncodeBytes(codec, s) then Aborted
    else Returned(s.(data := EncodedData(codec, s).value, state := State.Encoded), Pass)
  }

  /** `decode` as written: refused unless the data is encoded; otherwise the
      payload is replaced by its decoding, or the decoding error is returned
      and nothing changes. The state is left `Encoded` (see `Findings`). */
  function DecodeStep(codec: Codec, s: Snapshot): (t: Transition)
    ensures t.Returned?
    ensures s.state != State.Encoded ==> t.outcome == Fail(SataError.NotEncoded)
    ensures s.state == State.Encoded ==> (t.outcome.Pass? <==> DecodesToBytes(codec, s.encoding, s.data))
    ensures t.outcome.Fail? ==> t.next == s
    ensures t.outcome.Pass? ==>
                t.next.(data := s.data) == s
                  && codec.decode(s.encoding, s.data) == Some(Bytes(t.next.data))
  {
    if s.state != State.Encoded then Returned(s, Fail(SataError.NotEncoded))
    else match DecodedData(codec, s)
      case Err(e) => Returned(s, Fail(e))
      case Ok(bytes) => Returned(s.(data := bytes), Pass)
  }

  /** `decode` as evidently intended: as `DecodeStep`, but a successful
      decode also sets the state to `Decoded`, as `encode` sets `Encoded`
      (line 89). Afterwards `decoded` agrees with the stored payload. */
  function DecodeStepCorrected(codec: Codec, s: Snapshot): (t: Transition)
    ensures t.Returned?
    ensures s.state != State.Encoded ==> t.outcome == Fail(SataError.NotEncoded)
    ensures s.state == State.Encoded ==> (t.outcome.Pass? <==> DecodesToBytes(codec, s.encoding, s.data))
    ensures t.outcome.Fail? ==> t.next == s
    ensures t.outcome.Pass? ==>
                t.next.state == State.Decoded
                  && t.next.(data := s.data, state := s.state) == s
                  && codec.decode(s.encoding, s.data) == Some(Bytes(t.next.data))
                  && DecodedData(codec, t.next) == Ok(t.next.data)
  {
    match DecodeStep(codec, s)
    case Returned(next, Pass) => Returned(next.(state := State.Decoded), Pass)
    case other => other
  }

  /** With the corrected `decode`, `encode` then `decode` gives back the
      envelope exactly as it was, state included. */
  lemma CorrectedEncodeDecodeRestores(codec: Codec, s: Snapshot)
    requires Lossless(codec)
    requires s.state == State.Decoded && CanEncodeBytes(codec, s)
    ensures EncodeStep(codec, s).Returned?
    ensures DecodeStepCorrected(codec, EncodeStep(codec, s).next) == Returned(s, Pass)
  {
  }

  /** `address(to, from)`: sets the sender and the recipients, in any state,
      and changes nothing else. */
  function AddressStep(s: Snapshot, to: seq<DidKey>, from: DidKey): (t: Transition)
    ensures t.Returned? && t.outcome.Pass?
    ensures t.next.sender == from && t.next.recipients == to
    ensures t.next.(sender := s.sender, recipients := s.recipients) == s
  {
    Returned(s.(sender := from, recipients := to), Pass)
  }

  /** `encrypt`: the ready check's error is returned before any field is
      touched. Past the check the body is unfinished (`todo!()`), so the
      call does not return. */
  function EncryptStep(s: Snapshot): (t: Transition)
    ensures t.Returned? <==> s.state == State.UnInitalized || s.state == State.Encrypted
    ensures t.Returned? ==> t.next == s && t.outcome.Fail?
    ensures s.state == State.UnInitalized ==> t == Returned(s, Fail(SataError.UnInitalized))
    ensures s.state == State.Encrypted ==> t == Returned(s, Fail(SataError.AlreadyEncrypted))
  {
    var ready := EncryptionReadyCheck(s);
    if ready.Fail? then Returned(s, ready) else Aborted
  }

  /** From decoded data, `encode` then `decode` restores the payload, for a
      codec that decodes its own `Bytes` encodings; the state stays `Encoded`. */
  lemma EncodeThenDecode(codec: Codec, s: Snapshot)
    requires Lossless(codec)
    requires s.state == State.Decoded && CanEncodeBytes(codec, s)
    ensures EncodeStep(codec, s).Returned?
    ensures DecodeStep(codec, EncodeStep(codec, s).next) == Returned(s.(state := State.Encoded), Pass)
  {
  }

  /** The mutating calls of `Encoder` and `Encryption`. */
  datatype Call =
    | SetEncodingCall(encoding: IpldCodec)
    | EncodeCall
    | DecodeCall
    | AddressCall(to: seq<DidKey>, from: DidKey)
    | EncryptCall

  function Step(codec: Codec, s: Snapshot, call: Call): Transition
  {
    match call
    case SetEncodingCall(encoding) => SetEncodingStep(s, encoding)
    case EncodeCall => EncodeStep(codec, s)
    case DecodeCall => DecodeStep(codec, s)
    case AddressCall(to, from) => AddressStep(s, to, from)
    case EncryptCall => EncryptStep(s)
  }

  /** The fields after making `calls` in order, whatever each reports;
      `None` if one of them aborts. */
  function Run(codec: Codec, s: Snapshot, calls: seq<Call>): Option<Snapshot>
    decreases |calls|
  {
    if calls == [] then Some(s)
    else match Step(codec, s, calls[0])
      case Aborted => None
      case Returned(next, _) => Run(codec, next, calls[1..])
  }

  /** An uninitialised envelope stays uninitialised whatever calls are made:
      every call but `address` is refused, so the payload, the codec and
      everything but the addressing stay as they were. */
  lemma {:induction false} UnInitalizedIsAbsorbing(codec: Codec, s: Snapshot, calls: seq<Call>)
    requires s.state == State.UnInitalized
    ensures Run(codec, s, calls).Some?
    ensures var t := Run(codec, s, calls).value;
            t == s.(sender := t.sender, recipients := t.recipients)
    decreases |calls|
  {
    if calls != [] {
      UnInitalizedIsAbsorbing(codec, Step(codec, s, calls[0]).next, calls[1..]);
    }
  }

  /** Encrypted data is frozen: no sequence of calls changes the payload or
      leaves the `Encrypted` state. */
  lemma {:induction false} EncryptedIsFrozen(codec: Codec, s: Snapshot, calls: seq<Call>)
    requires s.state == State.Encrypted
    ensures Run(codec, s, calls).Some?
    ensures Run(codec, s, calls).value.state == State.Encrypted
    ensures Run(codec, s, calls).value.data == s.data
    decreases |calls|
  {
    if calls != [] {
      EncryptedIsFrozen(codec, Step(codec, s, calls[0]).next, calls[1..]);
    }
  }

  /** No call enters the `Decoded` state: an envelope that is not decoded
      never becomes decoded. */
  lemma {:induction false} DecodedIsNeverEntered(codec: Codec, s: Snapshot, calls: seq<Call>)
    requires s.state != State.Decoded
    ensures Run(codec, s, calls).Some? ==> Run(codec, s, calls).value.state != State.Decoded
    decreases |calls|
  {
    if calls != [] {
      match Step(codec, s, calls[0])
      case Aborted =>
      case Returned(next, _) => DecodedIsNeverEntered(codec, next, calls[1..]);
    }
  }

  /** No call returns an envelope to the uninitialised state. */
  lemma {:induction false} NeverUnInitalizedAgain(codec: Codec, s: Snapshot, calls: seq<Call>)
    requires s.state != State.UnInitalized
    ensures Run(codec, s, calls).Some? ==> Run(codec, s, calls).value.state != State.UnInitalized
    decreases |calls|
  {
    if calls != [] {
      match Step(codec, s, calls[0])
      case Aborted =>
      case Returned(next, _) => NeverUnInitalizedAgain(codec, next, calls[1..]);
    }
  }

  /** A `Sata` whose fields the `Encoder` and `Encryption` calls update in place. */
  class Sata {
    var cid: Cid
    var kind: Kind
    var encoding: IpldCodec
    var updated: int
    var data: seq<byte>
    var doc: seq<byte>
    var state: State
    var sender: DidKey
    var recipients: seq<DidKey>

    /** The fields as one value. */
    function View(): Snapshot
      reads this
    {
      Snapshot(cid, kind, encoding, updated, data, doc, state, sender, recipients)
    }

    /** A `Sata { .. }` struct literal. */
    constructor (cid: Cid, kind: Kind, encoding: IpldCodec, updated: int, data: seq<byte>,
                 doc: seq<byte>, state: State, sender: DidKey, recipients: seq<DidKey>)
      ensures View() == Snapshot(cid, kind, encoding, updated, data, doc, state, sender, recipients)
    {
      this.cid := cid;
      this.kind := kind;
      this.encoding := encoding;
      this.updated := updated;
      this.data := data;
      this.doc := doc;
      this.state := state;
      this.sender := sender;
      this.recipients := recipients;
    }

    method SetEncoding(encoding: IpldCodec) returns (r: Outcome)
      modifies this
      ensures View() == SetEncodingStep(old(View()), encoding).next
      ensures r == SetEncodingStep(old(View()), encoding).outcome
    {
      if state == State.UnInitalized {
        return Fail(SataError.EncodingSetOutOfOrder);
      }
      this.encoding := encoding;
      return Pass;
    }

    method Encode(codec: Codec) returns (r: Outcome)
      requires EncodeStep(codec, View()).Returned?
      modifies this
      ensures View() == EncodeStep(codec, old(View())).next
      ensures r == EncodeStep(codec, old(View())).outcome
    {
      if state != State.Decoded {
        return Fail(SataError.NotDecoded);
      }
      // `encoded` cannot fail here: the state is `Decoded`.
      data := EncodedData(codec, View()).value;
      state := State.Encoded;
      return Pass;
    }

    method Decode(codec: Codec) returns (r: Outcome)
      modifies this
      ensures View() == DecodeStep(codec, old(View())).next
      ensures r == DecodeStep(codec, old(View())).outcome
    {
      if state != State.Encoded {
        return Fail(SataError.NotEncoded);
      }
      var decoded := DecodedData(codec, View());
      if decoded.Err? {
        return Fail(decoded.error);
      }
      data := decoded.value;
      return Pass;
    }

    method Address(to: seq<DidKey>, from: DidKey)
      modifies this
      ensures View() == AddressStep(old(View()), to, from).next
    {
      sender := from;
      recipients := to;
    }

    /** The part of `encrypt` that returns: the ready check's error, with no
        field touched (the method may modify nothing). */
    method Encrypt() returns (r: Outcome)
      requires EncryptStep(View()).Returned?
      ensures r == EncryptStep(View()).outcome
      ensures r.Fail? && (r.error == SataError.UnInitalized || r.error == SataError.AlreadyEncrypted)
    {
      r := EncryptionReadyCheck(View());
    }
  }

  /** From decoded data, `encode` then `decode` on the same envelope restore
      the payload (the round trip tests/encoding.rs asserts). */
  method EncodeThenDecodeInPlace(sata: Sata, codec: Codec)
    requires Lossless(codec)
    requires sata.state == State.Decoded && CanEncodeBytes(codec, sata.View())
    modifies sata
    ensures sata.data == old(sata.data) && sata.state == State.Encoded
  {
    var encoded := sata.Encode(codec);
    assert encoded == Pass;
    var decoded := sata.Decode(codec);
    assert decoded == Pass;
  }
}
