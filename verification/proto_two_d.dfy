/** Two-dimensional vectors of the protocol (`Proto/TwoD.cs`). */
module TwoD {
  import opened Wrappers
  import opened Bytes
  import opened Packet
  import opened PacketDecode

  datatype Vec2 = Vec2(x: i16, y: i16)

  /** `x`, then `y`, each a little-endian i16. */
  function EncodeVec2(v: Vec2): (bs: seq<byte>)
    ensures |bs| == 4
    ensures DecodeSigned(bs[..2]) == v.x && DecodeSigned(bs[2..]) == v.y
  {
    var bs := WriteShort(v.x) + WriteShort(v.y);
    assert bs[..2] == WriteShort(v.x) && bs[2..] == WriteShort(v.y);
    bs
  }

  /** Reads `x` before `y`. */
  function DecodeVec2(r: Reader): (res: Result<Parsed<Vec2>>)
    ensures res.Ok? <==> 4 <= Remaining(r)
    ensures res.Err? ==> res.error == Truncated
    ensures res.Ok? ==> At(r, EncodeVec2(res.value.value)) && res.value.next == Skip(r, 4)
  {
    var x :- ReadShort(r);
    var y :- ReadShort(x.next);
    AtJoin(r, WriteShort(x.value), WriteShort(y.value));
    Ok(Parsed(Vec2(x.value, y.value), y.next))
  }

  function Vec2Codec(): Codec<Vec2>
  {
    Codec(EncodeVec2, DecodeVec2)
  }

  lemma ReadWriteVec2(r: Reader, v: Vec2)
    requires At(r, EncodeVec2(v))
    ensures DecodeVec2(r) == Ok(Parsed(v, Skip(r, 4)))
  {
    AtSplit(r, WriteShort(v.x), WriteShort(v.y));
    ReadWriteShort(r, v.x);
    ReadWriteShort(Skip(r, 2), v.y);
  }

  /** Every vector round-trips, the decoder only moves forward, and it fails
      on fewer than four bytes. */
  lemma Vec2CodecLaws()
    ensures RoundTrips(Vec2Codec())
    ensures Advancing(Vec2Codec())
    ensures FailsWhenTruncated(Vec2Codec())
  {
    var c := Vec2Codec();
    forall v: Vec2, r: Reader | At(r, c.encode(v))
      ensures c.decode(r) == Ok(Parsed(v, Skip(r, |c.encode(v)|)))
    {
      ReadWriteVec2(r, v);
    }
  }
}
