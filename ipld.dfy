/** The parts of `libipld` the envelope uses, at their interface: the codec
    tags, the IPLD data model, and a codec as a pair of functions. */
module Ipld {
  import opened Common

  /** `libipld::IpldCodec`. */
  datatype IpldCodec = Raw | DagCbor | DagJson | DagPb

  /** A content identifier. Its construction goes through the `cid` crate and
      is not modelled; the envelope only stores it. */
  datatype Cid = Cid(bytes: seq<byte>)

  /** `libipld::Ipld`, the IPLD data model (floats left out). */
  datatype Ipld =
    | Null
    | Bool(b: bool)
    | Integer(i: int)
    | String(s: string)
    | Bytes(bytes: seq<byte>)
    | List(items: seq<Ipld>)
    | Map(entries: seq<(string, Ipld)>)
    | Link(cid: Cid)

  /** `IpldCodec::encode` and `IpldCodec::decode`; `None` stands for the
      error they return. */
  datatype Codec = Codec(
    encode: (IpldCodec, Ipld) -> Option<seq<byte>>,
    decode: (IpldCodec, seq<byte>) -> Option<Ipld>)

  /** Every codec decodes its own encoding of a byte string back to that byte
      string. */
  ghost predicate Lossless(codec: Codec)
  {
    forall tag, b
      | codec.encode(tag, Bytes(b)).Some?
      :: codec.decode(tag, codec.encode(tag, Bytes(b)).value) == Some(Bytes(b))
  }
}
