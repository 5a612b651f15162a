/** Identifier records of the protocol (`Proto/Ids.cs`). */
module Ids {
  import opened Wrappers
  import opened Bytes
  import opened Packet
  import opened PacketDecode

  /** A foothold id is one i16 on the wire. */
  datatype FootholdId = FootholdId(id: i16) {
    /** The foothold id 0, meaning "no foothold". */
    static const None: FootholdId := FootholdId(0)
  }

  function EncodeFoothold(f: FootholdId): (bs: seq<byte>)
    ensures |bs| == 2 && DecodeSigned(bs) == f.id
  {
    WriteShort(f.id)
  }

  function DecodeFoothold(r: Reader): (res: Result<Parsed<FootholdId>>)
    ensures res.Ok? <==> 2 <= Remaining(r)
    ensures res.Err? ==> res.error == Truncated
    ensures res.Ok? ==> At(r, EncodeFoothold(res.value.value)) && res.value.next == Skip(r, 2)
  {
    var s :- ReadShort(r);
    Ok(Parsed(FootholdId(s.value), s.next))
  }

  function FootholdCodec(): Codec<FootholdId>
  {
    Codec(EncodeFoothold, DecodeFoothold)
  }

  /** Every foothold id round-trips, the decoder only moves forward, and it
      fails on fewer than two bytes. */
  lemma FootholdCodecLaws()
    ensures RoundTrips(FootholdCodec())
    ensures Advancing(FootholdCodec())
    ensures FailsWhenTruncated(FootholdCodec())
  {
    var c := FootholdCodec();
    forall f: FootholdId, r: Reader | At(r, c.encode(f))
      ensures c.decode(r) == Ok(Parsed(f, Skip(r, |c.encode(f)|)))
    {
      ReadWriteShort(r, f.id);
    }
  }

  /** `FootholdId.None` is written as two zero bytes. */
  lemma NoneEncoding()
    ensures EncodeFoothold(FootholdId.None) == [0, 0]
  {
    PowValues();
  }
}
