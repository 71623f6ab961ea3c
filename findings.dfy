/** A witness for the one discrepancy the model exhibits in src/impls.rs:
    `decode` replaces the payload with its decoding but leaves the state
    `Encoded`, so the envelope then claims to hold encoded data that is not
    encoded. The witness is a small codec that satisfies `Lossless`: it
    encodes `Ipld::Bytes(b)` as the byte 0x42 followed by `b`. */
module Findings {
  import opened Common
  import opened Ipld
  import opened Lib
  import opened Impls

  const Marker: byte := 0x42

  function MarkerEncode(tag: IpldCodec, value: Ipld): Option<seq<byte>>
  {
    if value.Bytes? then Some([Marker] + value.bytes) else None
  }

  function MarkerDecode(tag: IpldCodec, data: seq<byte>): Option<Ipld>
  {
    if |data| > 0 && data[0] == Marker then Some(Bytes(data[1..])) else None
  }

  const MarkerCodec: Codec := Codec(MarkerEncode, MarkerDecode)

  lemma MarkerCodecIsLossless()
    ensures Lossless(MarkerCodec)
  {
  }

  /** As written: after `encode` then `decode` of the payload [7], the
      payload is [7] again but the state still says `Encoded`, so `decoded`
      on that envelope fails, a second `decode` fails, and `encoded` hands
      out [7] as if it were an encoding. */
  lemma DecodeLeavesStateEncoded(s: Snapshot)
    requires s.state == State.Decoded && s.data == [7]
    ensures EncodeStep(MarkerCodec, s).Returned?
    ensures var u := DecodeStep(MarkerCodec, EncodeStep(MarkerCodec, s).next).next;
            && u.data == [7]
            && u.state == State.Encoded
            && DecodedData(MarkerCodec, u).Err?
            && DecodeStep(MarkerCodec, u).outcome.Fail?
            && EncodedData(MarkerCodec, u) == Ok([7])
            && MarkerCodec.decode(u.encoding, EncodedData(MarkerCodec, u).value).None?
  {
  }

  /** Corrected: the same calls leave a decoded envelope whose `decoded`
      returns the payload and whose `encoded` encodes it again. */
  lemma CorrectedDecodeIsConsistent(s: Snapshot)
    requires s.state == State.Decoded && s.data == [7]
    ensures EncodeStep(MarkerCodec, s).Returned?
    ensures var u := DecodeStepCorrected(MarkerCodec, EncodeStep(MarkerCodec, s).next).next;
            && u == s
            && DecodedData(MarkerCodec, u) == Ok([7])
            && EncodedData(MarkerCodec, u) == Ok([Marker, 7])
  {
    MarkerCodecIsLossless();
    CorrectedEncodeDecodeRestores(MarkerCodec, s);
    assert [Marker] + s.data == [Marker, 7];
  }
}
