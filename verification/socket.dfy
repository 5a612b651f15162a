/** Opcode framing of a received or sent message (`SocketMessage` in
    `Net/Socket.cs`).

    A message is one byte buffer: an i16 opcode, then the payload. Reading
    the opcode or the payload builds a fresh reader over the buffer each
    time, so both are pure functions of the buffer.
 */
module Socket {
  import opened Wrappers
  import opened Bytes
  import opened Packet
  import opened PacketDecode

  /** The bytes of one WebSocket message. */
  datatype SocketMessage = SocketMessage(data: seq<byte>)

  /** The buffer of an outbound message: the opcode, then the payload. */
  function Frame(op: i16, payload: seq<byte>): (m: SocketMessage)
    ensures |m.data| == 2 + |payload| && m.data[2..] == payload
  {
    SocketMessage(WriteOpcode(op) + payload)
  }

  /** `SocketMessage.Opcode`: the i16 read from the start of the buffer. */
  function Opcode(m: SocketMessage): (res: Result<i16>)
    ensures res.Ok? <==> 2 <= |m.data|
    ensures res.Err? ==> res.error == Truncated
    ensures res.Ok? ==> WriteShort(res.value) == m.data[..2]
  {
    var op :- ReadShort(Start(m.data));
    Ok(op.value)
  }

  /** `SocketMessage.Decode<T>`: skip the opcode, then run the payload's
      decoder. Whatever the decoder leaves unread is ignored. */
  function Decode<T>(m: SocketMessage, c: Codec<T>): (res: Result<T>)
    ensures |m.data| < 2 ==> res == Err(Truncated)
    ensures 2 <= |m.data| ==> (res.Ok? <==> c.decode(Cursor(m.data, 2)).Ok?)
    ensures res.Ok? ==> res.value == c.decode(Cursor(m.data, 2)).value.value
  {
    var op :- ReadShort(Start(m.data));
    var body :- c.decode(op.next);
    Ok(body.value)
  }

  /** The opcode of a framed message is the opcode it was framed with. */
  lemma OpcodeOfFrame(op: i16, payload: seq<byte>)
    ensures Opcode(Frame(op, payload)) == Ok(op)
  {
    var m := Frame(op, payload);
    assert WriteShort(op) <= m.data;
    ReadWriteShort(Start(m.data), op);
  }

  /** A framed payload decodes to the value it encodes, whatever bytes follow
      it in the buffer. */
  lemma DecodeOfFrame<T(!new)>(c: Codec<T>, op: i16, x: T, trailing: seq<byte>)
    requires RoundTrips(c)
    ensures Decode(Frame(op, c.encode(x) + trailing), c) == Ok(x)
  {
    var m := Frame(op, c.encode(x) + trailing);
    assert WriteShort(op) <= m.data;
    ReadWriteShort(Start(m.data), op);
    var r := Cursor(m.data, 2);
    assert m.data[2..] == c.encode(x) + trailing;
    assert At(r, c.encode(x));
  }

  /** Opcode and Decode read the buffer without changing it, so the same
      message always gives the same opcode and the same payload, and a
      message's opcode does not depend on the payload at all. */
  lemma OpcodeIgnoresPayload(op: i16, p: seq<byte>, q: seq<byte>)
    ensures Opcode(Frame(op, p)) == Opcode(Frame(op, q))
  {
    OpcodeOfFrame(op, p);
    OpcodeOfFrame(op, q);
  }
}
