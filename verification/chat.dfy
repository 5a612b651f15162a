/** Chat records (`Proto/Chat.cs`): the chat request a client sends and the
    chat line the server broadcasts. */
module Chat {
  import opened Wrappers
  import opened Bytes
  import opened Packet

  /** What a client sends when its character says something. */
  datatype ChatMsgReq = ChatMsgReq(ticks: i32, msg: seq<byte>, onlyBalloon: bool)

  /** The request's wire layout: `Ticks` (i32), `Msg` (string), `OnlyBalloon`
      (bool). The server only decodes this record; this is the layout its
      decoder reads. */
  function EncodeChatMsgReq(c: ChatMsgReq): (bs: seq<byte>)
    ensures |bs| == 7 + |c.msg|
    ensures DecodeSigned(bs[..4]) == c.ticks && bs[6 .. 6 + |c.msg|] == c.msg
    ensures bs[|bs| - 1] == (if c.onlyBalloon then 1 else 0)
  {
    var bs := WriteInt(c.ticks) + WriteString(c.msg) + WriteBool(c.onlyBalloon);
    assert bs[..4] == WriteInt(c.ticks);
    assert bs[6 .. 6 + |c.msg|] == WriteString(c.msg)[2..];
    bs
  }

  /** `ChatMsgReq.DecodePacket`: reads `Ticks`, then `Msg`, then `OnlyBalloon`. */
  function DecodeChatMsgReq(r: Reader): (res: Result<Parsed<ChatMsgReq>>)
    ensures Remaining(r) < 6 ==> res == Err(Truncated)
    ensures 6 <= Remaining(r) && DecodeSigned(r.data[r.pos + 4 .. r.pos + 6]) < 0 ==> res == Err(NegativeLength)
    ensures res.Ok? <==> 6 <= Remaining(r) && 0 <= DecodeSigned(r.data[r.pos + 4 .. r.pos + 6])
                         && 7 + DecodeSigned(r.data[r.pos + 4 .. r.pos + 6]) <= Remaining(r)
    ensures res.Ok? ==> var c := res.value.value;
              |c.msg| < 0x8000 && 7 + |c.msg| <= Remaining(r)
              && res.value.next == Skip(r, 7 + |c.msg|)
              && At(r, WriteInt(c.ticks) + WriteString(c.msg))
              && (c.onlyBalloon <==> r.data[r.pos + 6 + |c.msg|] != 0)
  {
    var ticks :- ReadInt(r);
    var msg :- ReadString(ticks.next);
    var balloon :- ReadBool(msg.next);
    var c := ChatMsgReq(ticks.value, msg.value, balloon.value);
    AtJoin(r, WriteInt(ticks.value), WriteString(msg.value));
    Ok(Parsed(c, balloon.next))
  }

  /** A request whose message fits the i16 length prefix decodes from its
      layout and consumes exactly that layout. */
  lemma ChatMsgReqRoundTrip(r: Reader, c: ChatMsgReq)
    requires |c.msg| < 0x8000
    requires At(r, EncodeChatMsgReq(c))
    ensures DecodeChatMsgReq(r) == Ok(Parsed(c, Skip(r, 7 + |c.msg|)))
  {
    var a := WriteInt(c.ticks);
    var b := WriteString(c.msg);
    AtSplit(r, a + b, WriteBool(c.onlyBalloon));
    AtSplit(r, a, b);
    ReadWriteInt(r, c.ticks);
    ReadWriteString(Skip(r, 4), c.msg);
    ReadWriteBool(Skip(r, 4 + |b|), c.onlyBalloon);
  }

  /** The chat line sent to the clients in a room. */
  datatype UserChatMsgResp = UserChatMsgResp(characterId: i32, isAdmin: bool, msg: seq<byte>, onlyBalloon: bool)

  /** `UserChatMsgResp.EncodePacket`: `CharacterId` (i32), `IsAdmin` (bool),
      `Msg` (string), `OnlyBalloon` (bool). */
  function EncodeUserChatMsgResp(c: UserChatMsgResp): (bs: seq<byte>)
    ensures |bs| == 8 + |c.msg|
    ensures DecodeSigned(bs[..4]) == c.characterId
    ensures bs[4] == (if c.isAdmin then 1 else 0)
    ensures bs[7 .. 7 + |c.msg|] == c.msg
    ensures bs[|bs| - 1] == (if c.onlyBalloon then 1 else 0)
  {
    var bs := WriteInt(c.characterId) + WriteBool(c.isAdmin) + WriteString(c.msg) + WriteBool(c.onlyBalloon);
    assert bs[..4] == WriteInt(c.characterId);
    assert bs[7 .. 7 + |c.msg|] == WriteString(c.msg)[2..];
    bs
  }

  /** How a client reads the chat line: the same four fields in the same
      order. */
  function DecodeUserChatMsgResp(r: Reader): (res: Result<Parsed<UserChatMsgResp>>)
    ensures Remaining(r) < 7 ==> res == Err(Truncated)
    ensures res.Ok? ==> var c := res.value.value;
              |c.msg| < 0x8000 && 8 + |c.msg| <= Remaining(r)
              && res.value.next == Skip(r, 8 + |c.msg|)
              && At(r, WriteInt(c.characterId)) && At(Skip(r, 5), WriteString(c.msg))
              && (c.isAdmin <==> r.data[r.pos + 4] != 0)
              && (c.onlyBalloon <==> r.data[r.pos + 7 + |c.msg|] != 0)
  {
    var id :- ReadInt(r);
    var admin :- ReadBool(id.next);
    var msg :- ReadString(admin.next);
    var balloon :- ReadBool(msg.next);
    var c := UserChatMsgResp(id.value, admin.value, msg.value, balloon.value);
    Ok(Parsed(c, balloon.next))
  }

  /** A chat line whose message fits the i16 length prefix reads back as
      written. */
  lemma UserChatMsgRespRoundTrip(r: Reader, c: UserChatMsgResp)
    requires |c.msg| < 0x8000
    requires At(r, EncodeUserChatMsgResp(c))
    ensures DecodeUserChatMsgResp(r) == Ok(Parsed(c, Skip(r, 8 + |c.msg|)))
  {
    var a := WriteInt(c.characterId);
    var b := WriteBool(c.isAdmin);
    var s := WriteString(c.msg);
    AtSplit(r, a + b + s, WriteBool(c.onlyBalloon));
    AtSplit(r, a + b, s);
    AtSplit(r, a, b);
    var r4 := Skip(r, 4);
    var r5 := Skip(r4, 1);
    var r7 := Skip(r5, |c.msg| + 2);
    assert Skip(r, 5) == r5 && Skip(r, 5 + |s|) == r7;
    ReadWriteInt(r, c.characterId);
    ReadWriteBool(r4, c.isAdmin);
    ReadWriteString(r5, c.msg);
    ReadWriteBool(r7, c.onlyBalloon);
    assert Skip(r7, 1) == Skip(r, 8 + |c.msg|);
  }
}
