/** A connected player (`Actors/GameSession.cs`).

    The socket's inbound channel becomes an `Inbox`: the messages queued so
    far and whether the socket has completed the channel. What a session
    sends is returned as a sequence of messages instead of being pushed into
    the socket. The numeric values of the opcodes are not fixed here; they
    come in as an `Opcodes` parameter.
 */
module GameSession {
  import opened Wrappers
  import opened Bytes
  import opened Packet
  import opened PacketDecode
  import opened Chat
  import opened FileTimes
  import opened SetField
  import opened Clock
  import Socket

  // ---------------------------------------------------------------------------
  // SessionKey
  // ---------------------------------------------------------------------------

  datatype SessionKey = SessionKey(id: i32) {

    /** `Equals`: the ids agree. */
    predicate Equals(other: SessionKey)
    {
      id == other.id
    }

    function HashCode(): i32
    {
      id
    }
  }

  /** Two keys are `Equals` exactly when they are the same value, and equal
      keys hash alike; `==` and `!=` are `Equals` and its negation. */
  lemma SessionKeyEquality(a: SessionKey, b: SessionKey)
    ensures a.Equals(b) <==> a == b
    ensures a.Equals(b) <==> b.Equals(a)
    ensures a.Equals(b) ==> a.HashCode() == b.HashCode()
  {
  }

  // ---------------------------------------------------------------------------
  // Packet handling
  // ---------------------------------------------------------------------------

  /** The opcodes the session uses. */
  datatype Opcodes = Opcodes(recvUserChat: i16, sendUserChat: i16, sendSetField: i16)

  function ChatReqCodec(): Codec<ChatMsgReq>
  {
    Codec(EncodeChatMsgReq, DecodeChatMsgReq)
  }

  function ChatRespCodec(): Codec<UserChatMsgResp>
  {
    Codec(EncodeUserChatMsgResp, DecodeUserChatMsgResp)
  }

  /** `HandleChatMessage`: the reply a chat request gets, framed with the
      chat opcode. */
  function ChatReply(ops: Opcodes, req: ChatMsgReq): (m: Socket.SocketMessage)
    ensures Socket.Opcode(m) == Ok(ops.sendUserChat) && |m.data| == 10 + |req.msg|
  {
    var payload := EncodeUserChatMsgResp(UserChatMsgResp(7, false, req.msg, false));
    Socket.OpcodeOfFrame(ops.sendUserChat, payload);
    Socket.Frame(ops.sendUserChat, payload)
  }

  /** The reply carries the request's text as said by character 7, not an
      admin, not balloon-only. */
  lemma ChatReplyContent(ops: Opcodes, req: ChatMsgReq)
    requires |req.msg| < 0x8000
    ensures Socket.Decode(ChatReply(ops, req), ChatRespCodec()) == Ok(UserChatMsgResp(7, false, req.msg, false))
  {
    var resp := UserChatMsgResp(7, false, req.msg, false);
    var m := ChatReply(ops, req);
    assert m.data[2..] == EncodeUserChatMsgResp(resp);
    assert At(Cursor(m.data, 2), EncodeUserChatMsgResp(resp));
    UserChatMsgRespRoundTrip(Cursor(m.data, 2), resp);
  }

  /** `HandlePacket`: only the chat opcode is acted on. Reading the opcode or
      the chat body can fail; every other opcode is ignored. */
  function HandlePacket(ops: Opcodes, p: Socket.SocketMessage): (res: Result<seq<Socket.SocketMessage>>)
    ensures |p.data| < 2 ==> res == Err(Truncated)
    ensures Socket.Opcode(p).Ok? && Socket.Opcode(p).value != ops.recvUserChat ==> res == Ok([])
    ensures Socket.Opcode(p) == Ok(ops.recvUserChat) ==>
              (res.Ok? <==> DecodeChatMsgReq(Cursor(p.data, 2)).Ok?)
              && (res.Ok? ==> |res.value| == 1
                              && Socket.Opcode(res.value[0]) == Ok(ops.sendUserChat))
    ensures res.Err? ==> res.error in {Truncated, NegativeLength, NegativeCount}
  {
    var op :- Socket.Opcode(p);
    if op == ops.recvUserChat then
      var req :- Socket.Decode(p, ChatReqCodec());
      Ok([ChatReply(ops, req)])
    else
      Ok([])
  }

  /** A well-formed chat request is answered with one message echoing its
      text, whatever follows the request in the buffer. */
  lemma ChatEcho(ops: Opcodes, req: ChatMsgReq, trailing: seq<byte>)
    requires |req.msg| < 0x8000
    ensures var res := HandlePacket(ops, Socket.Frame(ops.recvUserChat, EncodeChatMsgReq(req) + trailing));
      res.Ok? && |res.value| == 1
      && Socket.Opcode(res.value[0]) == Ok(ops.sendUserChat)
      && Socket.Decode(res.value[0], ChatRespCodec()) == Ok(UserChatMsgResp(7, false, req.msg, false))
  {
    var p := Socket.Frame(ops.recvUserChat, EncodeChatMsgReq(req) + trailing);
    Socket.OpcodeOfFrame(ops.recvUserChat, EncodeChatMsgReq(req) + trailing);
    var r := Cursor(p.data, 2);
    assert p.data[2..] == EncodeChatMsgReq(req) + trailing;
    assert At(r, EncodeChatMsgReq(req));
    ChatMsgReqRoundTrip(r, req);
    ChatReplyContent(ops, req);
  }

  // ---------------------------------------------------------------------------
  // Tick
  // ---------------------------------------------------------------------------

  /** How a session handles one inbound message: `HandlePacket` for some
      opcode table. The tick below is stated for any handler. */
  type Handler = Socket.SocketMessage -> Result<seq<Socket.SocketMessage>>

  function PacketHandler(ops: Opcodes): Handler
  {
    p => HandlePacket(ops, p)
  }

  /** The socket's inbound channel: queued messages, and whether the socket
      has completed the channel. */
  datatype Inbox = Inbox(pending: seq<Socket.SocketMessage>, completed: bool)

  datatype Session = Session(key: SessionKey, inbox: Inbox)

  predicate AllHandled(h: Handler, msgs: seq<Socket.SocketMessage>)
  {
    forall i :: 0 <= i < |msgs| ==> h(msgs[i]).Ok?
  }

  /** The index of the first message whose handling fails. */
  function FirstFailure(h: Handler, msgs: seq<Socket.SocketMessage>): (k: Option<nat>)
    ensures k.None? <==> AllHandled(h, msgs)
    ensures k.Some? ==> k.value < |msgs| && h(msgs[k.value]).Err? && AllHandled(h, msgs[..k.value])
  {
    if |msgs| == 0 then None
    else if h(msgs[0]).Err? then Some(0)
    else
      match FirstFailure(h, msgs[1..])
      case None => None
      case Some(k) =>
        assert msgs[..k + 1] == [msgs[0]] + msgs[1..][..k];
        Some(k + 1)
  }

  /** The replies to `msgs`, handled in order. */
  function Replies(h: Handler, msgs: seq<Socket.SocketMessage>): seq<Socket.SocketMessage>
    requires AllHandled(h, msgs)
  {
    if |msgs| == 0 then []
    else
      assert AllHandled(h, msgs[..|msgs| - 1]);
      Replies(h, msgs[..|msgs| - 1]) + h(msgs[|msgs| - 1]).value
  }

  datatype TickOutcome = TickOutcome(session: Session, sent: seq<Socket.SocketMessage>, failure: Option<Error>)

  /** What a tick does: every queued message is handled in order until one
      fails; the tick fails on that message, or afterwards if the channel is
      completed. */
  function SessionTick(h: Handler, s: Session): (o: TickOutcome)
    ensures o.session.key == s.key && o.session.inbox.completed == s.inbox.completed
    ensures o.failure.None? <==> AllHandled(h, s.inbox.pending) && !s.inbox.completed
    ensures AllHandled(h, s.inbox.pending) ==>
              o.session.inbox.pending == [] && o.sent == Replies(h, s.inbox.pending)
              && o.failure == (if s.inbox.completed then Some(SocketClosed) else None)
    ensures FirstFailure(h, s.inbox.pending).Some? ==>
              var k := FirstFailure(h, s.inbox.pending).value;
              && o.sent == Replies(h, s.inbox.pending[..k])
              && o.session.inbox.pending == s.inbox.pending[k + 1..]
              && o.failure == Some(h(s.inbox.pending[k]).error)
  {
    var msgs := s.inbox.pending;
    match FirstFailure(h, msgs)
    case Some(k) =>
      TickOutcome(s.(inbox := s.inbox.(pending := msgs[k + 1..])),
                  Replies(h, msgs[..k]), Some(h(msgs[k]).error))
    case None =>
      TickOutcome(s.(inbox := s.inbox.(pending := [])),
                  Replies(h, msgs), if s.inbox.completed then Some(SocketClosed) else None)
  }

  /** `GameSession.Tick`: drain the channel, handling each message as it is
      read, then fail if the channel is completed. The time is not used. */
  method Tick(h: Handler, s: Session, t: GameTime) returns (o: TickOutcome)
    ensures o == SessionTick(h, s)
  {
    var pending := s.inbox.pending;
    var sent := [];
    var i := 0;
    while i < |pending|
      invariant 0 <= i <= |pending|
      invariant AllHandled(h, pending[..i])
      invariant sent == Replies(h, pending[..i])
    {
      var r := h(pending[i]);
      if r.Err? {
        assert FirstFailure(h, pending) == Some(i);
        return TickOutcome(s.(inbox := s.inbox.(pending := pending[i + 1..])), sent, Some(r.error));
      }
      assert pending[..i + 1][..i] == pending[..i];
      sent := sent + r.value;
      i := i + 1;
    }
    assert pending[..i] == pending;
    if s.inbox.completed {
      return TickOutcome(s.(inbox := s.inbox.(pending := [])), sent, Some(SocketClosed));
    }
    return TickOutcome(s.(inbox := s.inbox.(pending := [])), sent, None);
  }

  /** With the session's own handler, a tick fails with `SocketClosed`
      exactly when every queued message was handled and the channel is
      completed: no packet handling raises that error. */
  lemma ClosedOnlyAfterDrain(ops: Opcodes, s: Session)
    ensures SessionTick(PacketHandler(ops), s).failure == Some(SocketClosed)
            <==> AllHandled(PacketHandler(ops), s.inbox.pending) && s.inbox.completed
  {
    var h := PacketHandler(ops);
    var k := FirstFailure(h, s.inbox.pending);
    if k.Some? {
      assert h(s.inbox.pending[k.value]) == HandlePacket(ops, s.inbox.pending[k.value]);
    }
  }

  // ---------------------------------------------------------------------------
  // OnEnterRoom
  // ---------------------------------------------------------------------------

  /** `OnEnterRoom`: exactly one SetField message, for channel 1, old driver
      0 and field key 0, stamped with the current server time. */
  function OnEnterRoom(ops: Opcodes, now: FileTime): (sent: seq<Socket.SocketMessage>)
    ensures |sent| == 1 && Socket.Opcode(sent[0]) == Ok(ops.sendSetField)
    ensures |sent[0].data| == 167 && sent[0].data[2..] == EncodeSetFieldResp(SetFieldResp(1, 0, 0, now))
  {
    var payload := EncodeSetFieldResp(SetFieldResp(1, 0, 0, now));
    Socket.OpcodeOfFrame(ops.sendSetField, payload);
    [Socket.Frame(ops.sendSetField, payload)]
  }
}
