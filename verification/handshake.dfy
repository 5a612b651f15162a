/** The handshake a client sends as its first message, and the server's check
    of that first message (`Program.cs`). */
module Handshake {
  import opened Wrappers
  import opened Bytes
  import opened Packet
  import opened PacketDecode
  import Socket

  /** The opcode the first message must carry. */
  const HandshakeOpcode: i16 := 0x214

  datatype Handshake = Handshake(characterId: i32, accountId: i32, clientKey: i64, token: seq<byte>)

  /** `EncodePacket`: two i32 ids, the i64 key, then the token's bytes with no
      length prefix, however long the token is. */
  function EncodeHandshake(h: Handshake): (bs: seq<byte>)
    ensures |bs| == 16 + |h.token|
    ensures bs[..4] == WriteInt(h.characterId) && bs[4..8] == WriteInt(h.accountId)
    ensures bs[8..16] == WriteLong(h.clientKey) && bs[16..] == h.token
  {
    var bs := WriteInt(h.characterId) + WriteInt(h.accountId) + WriteLong(h.clientKey) + WriteBytes(h.token);
    assert bs[..4] == WriteInt(h.characterId);
    assert bs[4..8] == WriteInt(h.accountId);
    assert bs[8..16] == WriteLong(h.clientKey);
    bs
  }

  /** `DecodePacket`: two i32 ids, the i64 key, then exactly 32 token bytes. */
  function DecodeHandshake(r: Reader): (res: Result<Parsed<Handshake>>)
    ensures res.Ok? <==> 48 <= Remaining(r)
    ensures res.Err? ==> res.error == Truncated
    ensures res.Ok? ==> |res.value.value.token| == 32 && At(r, EncodeHandshake(res.value.value))
                        && res.value.next == Skip(r, 48)
  {
    var characterId :- ReadInt(r);
    var accountId :- ReadInt(characterId.next);
    var clientKey :- ReadLong(accountId.next);
    var token :- ReadBytes(clientKey.next, 32);
    var h := Handshake(characterId.value, accountId.value, clientKey.value, token.value);
    AtJoin(r, WriteInt(h.characterId), WriteInt(h.accountId));
    AtJoin(r, WriteInt(h.characterId) + WriteInt(h.accountId), WriteLong(h.clientKey));
    AtJoin(r, WriteInt(h.characterId) + WriteInt(h.accountId) + WriteLong(h.clientKey), h.token);
    Ok(Parsed(h, token.next))
  }

  function HandshakeCodec(): Codec<Handshake>
  {
    Codec(EncodeHandshake, DecodeHandshake)
  }

  /** A handshake with a 32-byte token reads back as written. */
  lemma HandshakeRoundTrip(r: Reader, h: Handshake)
    requires |h.token| == 32
    requires At(r, EncodeHandshake(h))
    ensures DecodeHandshake(r) == Ok(Parsed(h, Skip(r, 48)))
  {
    var a := WriteInt(h.characterId);
    var b := WriteInt(h.accountId);
    var c := WriteLong(h.clientKey);
    AtSplit(r, a + b + c, h.token);
    AtSplit(r, a + b, c);
    AtSplit(r, a, b);
    ReadWriteInt(r, h.characterId);
    ReadWriteInt(Skip(r, 4), h.accountId);
    ReadWriteLong(Skip(r, 8), h.clientKey);
    ReadWriteBytes(Skip(r, 16), h.token);
  }

  /** The encoder accepts tokens of any length but the decoder reads exactly
      32 bytes: a handshake survives its own encoding exactly when its token
      has 32 bytes. A shorter token leaves the message truncated; a longer one
      is cut to its first 32 bytes. */
  lemma HandshakeRoundTripIff(h: Handshake)
    ensures var res := DecodeHandshake(Start(EncodeHandshake(h)));
      (res.Ok? && res.value.value == h) <==> |h.token| == 32
    ensures |h.token| < 32 ==> DecodeHandshake(Start(EncodeHandshake(h))) == Err(Truncated)
    ensures |h.token| >= 32 ==> DecodeHandshake(Start(EncodeHandshake(h))).value.value.token == h.token[..32]
  {
    var r := Start(EncodeHandshake(h));
    if |h.token| == 32 {
      HandshakeRoundTrip(r, h);
    } else if |h.token| > 32 {
      var res := DecodeHandshake(r);
      var bs := EncodeHandshake(res.value.value);
      assert bs[16..] == r.data[16..48];
    }
  }

  /** The server's reading of the first message: the opcode must be the
      handshake opcode, checked before anything is decoded; then the payload
      is decoded as a handshake. */
  function ReadFirstMessage(m: Socket.SocketMessage): (res: Result<Handshake>)
    ensures |m.data| < 2 ==> res == Err(Truncated)
    ensures Socket.Opcode(m).Ok? && Socket.Opcode(m).value != HandshakeOpcode ==>
              res == Err(UnexpectedOpcode(Socket.Opcode(m).value))
    ensures res.Ok? <==> Socket.Opcode(m) == Ok(HandshakeOpcode) && 50 <= |m.data|
    ensures res.Ok? ==> |res.value.token| == 32 && m.data[2..50] == EncodeHandshake(res.value)
  {
    var op :- Socket.Opcode(m);
    if op != HandshakeOpcode then Err(UnexpectedOpcode(op))
    else
      var h :- Socket.Decode(m, HandshakeCodec());
      assert At(Cursor(m.data, 2), EncodeHandshake(h));
      Ok(h)
  }

  /** A handshake framed with the handshake opcode is accepted, whatever
      follows it; any other opcode is refused with that opcode. */
  lemma FirstMessageAccepted(h: Handshake, trailing: seq<byte>)
    requires |h.token| == 32
    ensures ReadFirstMessage(Socket.Frame(HandshakeOpcode, EncodeHandshake(h) + trailing)) == Ok(h)
  {
    var m := Socket.Frame(HandshakeOpcode, EncodeHandshake(h) + trailing);
    Socket.OpcodeOfFrame(HandshakeOpcode, EncodeHandshake(h) + trailing);
    var r := Cursor(m.data, 2);
    assert m.data[2..] == EncodeHandshake(h) + trailing;
    assert At(r, EncodeHandshake(h));
    HandshakeRoundTrip(r, h);
  }

  lemma FirstMessageRefused(op: i16, payload: seq<byte>)
    requires op != HandshakeOpcode
    ensures ReadFirstMessage(Socket.Frame(op, payload)) == Err(UnexpectedOpcode(op))
  {
    Socket.OpcodeOfFrame(op, payload);
  }
}
