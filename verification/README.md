# Fliegenpilz session layer in Dafny

This project models three parts of the Fliegenpilz game server:

- **The binary wire codec.**
  - `PacketReader` and `PacketWriter` primitives.
  - The `I8`/`I16`/`I32` length wrappers and the `ShroomList`/`ShroomIndexList` containers.
  - Opcode framing in `SocketMessage`.
  - The protocol records: `Vec2`, `FootholdId`, the duration wrappers, `FileTime`, the `Movement` union, the chat request and response, the `Handshake` record and the `SetFieldResp` packet with `CharStats`.
- **The actors, as single-threaded state machines.**
  - `GameSession`: the inbound queue drained on every tick, chat echo, and the enter-room packet.
  - `RoomActor`: session list, broadcast and unicast, and the tick pass that removes failing sessions.
  - `WorldActor`: the room registry and session registration.
  - `GameTime` from the clock.
- **The NPC dialogue engine.** The engine becomes a step function that consumes one action per `Resume`, with the capacity-one slot and the suspend signal modelled explicitly. The example script `NpcScript1000` is included.

How the model is built:

- Bytes are `seq<byte>`, where `byte` is the integers 0..255.
- A reader is a cursor `(data, pos)`. Decoders return `Result<Parsed<T>>`, which is the value and the reader after it, or the error the source throws.
- Round trips are stated with `At(r, bs)`, meaning the bytes `bs` come next in `r`, so they compose field by field.
- Strings on the wire are Latin-1 byte sequences.
- `TimeSpan` is a whole number of milliseconds.
- C# integer casts are written out as explicit wrap functions.
- The server only writes `CharStats`. To pin down its field order, the model adds the reader a client would use (`SetField.DecodeCharStats`). That reader refuses a gender or skin-colour byte that names no enum member, with the model's own error `UndefinedEnumValue`; a C# cast to an enum never fails.

Parameters and outboxes:

- The numeric values of `SendOpcodes`/`RecvOpcodes` are not part of the model. They are a parameter (`GameSession.Opcodes`).
- The current wall-clock time used by `OnEnterRoom` is a parameter.
- The room's transition takes its environment as a record (`RoomActor.RoomEnv`): how a session handles one packet, and what a joining session is sent. `RoomActor.Env` builds the one this server uses from `GameSession.HandlePacket` and `OnEnterRoom`.
- Messages an actor sends are returned as an outbox instead of being sent.

## Model

| member | source | states |
|---|---|---|
| Packet.ReadShort | Fliegenpilz/Net/PacketReader.cs:25-28 | succeeds exactly when 2 bytes remain; fails with `Truncated` otherwise; on success the next 2 bytes are the value's little-endian encoding and the reader advances by 2 |
| Packet.ReadInt | Fliegenpilz/Net/PacketReader.cs:35-38 | the same for 4 bytes |
| Packet.ReadLong | Fliegenpilz/Net/PacketReader.cs:45-48 | the same for 8 bytes |
| Packet.ReadUShort | Fliegenpilz/Net/PacketReader.cs:30-33 | succeeds exactly when 2 bytes remain and reads the plain little-endian unsigned value |
| Packet.ReadUInt | Fliegenpilz/Net/PacketReader.cs:40-43 | the same for 4 bytes |
| Packet.ReadULong | Fliegenpilz/Net/PacketReader.cs:50-53 | the same for 8 bytes |
| Packet.WriteShort | Fliegenpilz/Net/PacketReader.cs:141-144 | exactly 2 bytes whose signed little-endian reading is the value |
| Packet.WriteInt | Fliegenpilz/Net/PacketReader.cs:151-154 | exactly 4 bytes whose signed little-endian reading is the value |
| Packet.WriteLong | Fliegenpilz/Net/PacketReader.cs:161-164 | exactly 8 bytes whose signed little-endian reading is the value |
| Packet.ReadWriteShort | Fliegenpilz/Net/PacketReader.cs:25-28 | reading a written i16 gives it back and consumes 2 bytes |
| Packet.ReadWriteInt | Fliegenpilz/Net/PacketReader.cs:35-38 | the same for i32 and 4 bytes |
| Packet.ReadWriteLong | Fliegenpilz/Net/PacketReader.cs:45-48 | the same for i64 and 8 bytes |
| Packet.UnsignedWritesAgree | Fliegenpilz/Net/PacketReader.cs:141-169 | each unsigned write puts the same bytes on the wire as the signed write of the bit-reinterpreted value |
| Packet.ReadBytes | Fliegenpilz/Net/PacketReader.cs:60-63 | a negative count fails; otherwise succeeds exactly when that many bytes remain, and then returns exactly those bytes |
| Packet.ReadWriteBytes | Fliegenpilz/Net/PacketReader.cs:60-63 | reading back as many bytes as were written gives them back unchanged |
| Packet.ReadString | Fliegenpilz/Net/PacketReader.cs:65-79 | fails with `Truncated` when the prefix is cut short and with `NegativeLength` for a negative prefix; succeeds exactly when the prefix is non-negative and that many bytes follow; the result is what `WriteString` would write |
| Packet.WriteString | Fliegenpilz/Net/PacketReader.cs:181-190 | writes `|s| + 2` bytes: the length cast to i16 (so it wraps modulo 2^16 and reads negative from 0x8000 on), then the bytes of `s`; below 0x8000 the prefix is the length itself |
| Packet.ReadWriteString | Fliegenpilz/Net/PacketReader.cs:65-79 | a string shorter than 0x8000 bytes round-trips and consumes `|s| + 2` bytes |
| Packet.LongStringUnreadable | Fliegenpilz/Net/PacketReader.cs:181-185 | a string of 0x8000 to 0xFFFF bytes gets a negative length prefix from the `(short)` cast and reads back as `NegativeLength` |
| Packet.WriteFixedSizeString | Fliegenpilz/Net/PacketReader.cs:192-201 | throws exactly when `|s| + 1 > len`; otherwise writes `len` bytes, `s` first and zero padding after |
| Packet.FixedSizeStringTerminated | Fliegenpilz/Net/PacketReader.cs:192-201 | a string without zero bytes that fits leaves at least one zero byte after it |
| Packet.WriteUInt128 | Fliegenpilz/Net/PacketReader.cs:203-211 | 16 bytes: the four 32-bit words of the little-endian encoding, most significant first |
| Packet.ReadUInt128 | Fliegenpilz/Net/PacketReader.cs:81-94 | succeeds exactly when 16 bytes remain; the bytes read are what `WriteUInt128` writes for the result |
| Packet.ReadWriteUInt128 | Fliegenpilz/Net/PacketReader.cs:81-94 | every 128-bit value round-trips through the word-reversed layout |
| Packet.SwapWordsTwice | Fliegenpilz/Net/PacketReader.cs:81-94 | reversing the word order twice is the identity |
| Packet.UInt128OneLayout | Fliegenpilz/Net/PacketReader.cs:203-211 | the value 1 is written as three zero words followed by the word 1 |
| Packet.ReadBool | Fliegenpilz/Net/PacketReader.cs:111-114 | succeeds exactly when a byte remains; the result is true exactly when that byte is nonzero |
| Packet.WriteBool | Fliegenpilz/Net/PacketReader.cs:233-236 | one byte: 1 for true, 0 for false |
| Packet.ReadWriteBool | Fliegenpilz/Net/PacketReader.cs:111-114 | every bool round-trips |
| Packet.ReadDurMs16 | Fliegenpilz/Net/PacketReader.cs:96-99 | succeeds exactly when 2 bytes remain; the duration is an i16 number of milliseconds |
| Packet.ReadDurMs32 | Fliegenpilz/Net/PacketReader.cs:101-104 | the same for an i32 |
| Packet.WriteDurMs16 | Fliegenpilz/Net/PacketReader.cs:213-216 | 2 bytes carrying the total milliseconds |
| Packet.WriteDurMs32 | Fliegenpilz/Net/PacketReader.cs:218-221 | 4 bytes carrying the total milliseconds |
| Packet.ReadByte | Fliegenpilz/Net/PacketReader.cs:106-109 | succeeds exactly when a byte remains and fails with `Truncated` otherwise; the byte read is `WriteByte`'s encoding of the result, and one byte is consumed |
| Packet.ReadWriteByte | Fliegenpilz/Net/PacketReader.cs:106-109 | every written byte reads back unchanged and consumes one byte |
| Packet.WriteByte | Fliegenpilz/Net/PacketReader.cs:223-226 | exactly one byte, whose little-endian value is the argument |
| Packet.WriteUShort | Fliegenpilz/Net/PacketReader.cs:146-149 | the plain 2-byte little-endian encoding of the unsigned value, although it goes through the signed write |
| Packet.WriteUInt | Fliegenpilz/Net/PacketReader.cs:156-159 | the same for 4 bytes |
| Packet.WriteULong | Fliegenpilz/Net/PacketReader.cs:166-169 | the same for 8 bytes |
| Packet.WriteOpcode | Fliegenpilz/Net/PacketReader.cs:136-139 | 2 bytes whose signed little-endian reading is the opcode |
| Packet.WriteBytes | Fliegenpilz/Net/PacketReader.cs:176-179 | as many bytes as given; reading that many from the start of the output gives them back |
| Packet.WriteFixedString | Fliegenpilz/Net/PacketReader.cs:187-190 | as many bytes as the string; `ReadFixedString` of that length gives the string back |
| Packet.ReadFixedString | Fliegenpilz/Net/PacketReader.cs:76-79 | a negative length fails; otherwise succeeds exactly when that many bytes remain (`Truncated` otherwise) and returns exactly those bytes |
| PacketDecode.I8OfLength | Fliegenpilz/Net/PacketDecode.cs:27-31 | setting `Length` truncates to a byte; the result is terminal exactly when `n` is a multiple of 256 |
| PacketDecode.I16OfLength | Fliegenpilz/Net/PacketDecode.cs:41-45 | setting `Length` truncates to a short |
| PacketDecode.EncodeI8 | Fliegenpilz/Net/PacketDecode.cs:24-25 | the value as a single byte |
| PacketDecode.DecodeI8 | Fliegenpilz/Net/PacketDecode.cs:22 | succeeds exactly when a byte remains; the byte read is the encoding of the result, and one byte is consumed |
| PacketDecode.EncodeI16 | Fliegenpilz/Net/PacketDecode.cs:38-39 | 2 bytes whose signed little-endian reading is the value |
| PacketDecode.DecodeI16 | Fliegenpilz/Net/PacketDecode.cs:36 | succeeds exactly when 2 bytes remain; the bytes read are the encoding of the result |
| PacketDecode.EncodeI32 | Fliegenpilz/Net/PacketDecode.cs:53-54 | 4 bytes whose signed little-endian reading is the value |
| PacketDecode.DecodeI32 | Fliegenpilz/Net/PacketDecode.cs:50-51 | succeeds exactly when 4 bytes remain; the bytes read are the encoding of the result |
| PacketDecode.IntWrappersRoundTrip | Fliegenpilz/Net/PacketDecode.cs:20-61 | `I8`, `I16` and `I32` decode their own encodings and consume 1, 2 and 4 bytes |
| PacketDecode.EncodeList | Fliegenpilz/Net/PacketDecode.cs:81-93 | the count byte is the item count modulo 256, followed by the items in order |
| PacketDecode.DecodeList | Fliegenpilz/Net/PacketDecode.cs:69-79 | fails on an empty buffer; on success it returns exactly as many items as the count byte says |
| PacketDecode.ListRoundTrip | Fliegenpilz/Net/PacketDecode.cs:69-93 | a list of at most 255 items round-trips when its element codec does |
| PacketDecode.ListCountWraps | Fliegenpilz/Net/PacketDecode.cs:27-93 | a longer list decodes as its first `|items| % 256` items |
| PacketDecode.ListTruncated | Fliegenpilz/Net/PacketDecode.cs:69-79 | a buffer that ends inside the encoding fails to decode |
| PacketDecode.EncodeIndexList | Fliegenpilz/Net/PacketDecode.cs:115-125 | every pair in order, then a single zero byte as terminal |
| PacketDecode.DecodeIndexList | Fliegenpilz/Net/PacketDecode.cs:102-113 | fails on an empty buffer; the decoded pairs never contain a terminal index |
| PacketDecode.IndexListRoundTrip | Fliegenpilz/Net/PacketDecode.cs:102-125 | a list without a zero index round-trips |
| PacketDecode.IndexListCut | Fliegenpilz/Net/PacketDecode.cs:17-113 | the first zero index ends the decoded list there |
| PacketDecode.IndexListRoundTripIff | Fliegenpilz/Net/PacketDecode.cs:17-125 | decoding an encoded index list gives it back exactly when no stored index is zero |
| PacketDecode.IndexListTruncated | Fliegenpilz/Net/PacketDecode.cs:102-113 | a buffer that ends before the terminal fails to decode |
| Socket.Opcode | Fliegenpilz/Net/Socket.cs:19 | fails with `Truncated` below 2 bytes; otherwise the opcode's i16 encoding is the first two bytes |
| Socket.Decode | Fliegenpilz/Net/Socket.cs:21-27 | fails below 2 bytes; otherwise it is the element decoder run at offset 2 |
| Socket.DecodeOfFrame | Fliegenpilz/Net/Socket.cs:21-27 | a framed encoding decodes to its value whatever bytes trail it |
| Socket.OpcodeIgnoresPayload | Fliegenpilz/Net/Socket.cs:19 | the opcode depends on the first two bytes only |
| Time.EncodeDurationMs16 | Fliegenpilz/Proto/Time.cs:12 | 2 bytes carrying the sub-second millisecond component, not the total |
| Time.DecodeDurationMs16 | Fliegenpilz/Proto/Time.cs:14-15 | succeeds exactly when 2 bytes remain; the total milliseconds are the i16 read |
| Time.EncodeDurationMs32 | Fliegenpilz/Proto/Time.cs:20 | 4 bytes carrying the sub-second millisecond component, not the total |
| Time.DecodeDurationMs32 | Fliegenpilz/Proto/Time.cs:22-23 | succeeds exactly when 4 bytes remain; the total milliseconds are the i32 read |
| Time.DurationMs16RoundTrip | Fliegenpilz/Proto/Time.cs:12-15 | decoding keeps only the millisecond component, so the duration comes back exactly when it is shorter than one second |
| Time.DurationMs32RoundTrip | Fliegenpilz/Proto/Time.cs:20-23 | the same for the 4-byte wrapper |
| Time.WireValue16Reencoded | Fliegenpilz/Proto/Time.cs:12-15 | re-encoding a decoded wire value `v` reproduces it exactly when `|v| < 1000` |
| Time.WireValue32Reencoded | Fliegenpilz/Proto/Time.cs:20-23 | the same for i32 wire values |
| Time.WrappersDisagreeWithWriter | Fliegenpilz/Proto/Time.cs:12-20 | the wrappers and `WriteDurMs16`/`WriteDurMs32` write the same bytes exactly below one second |
| Ids.DecodeFoothold | Fliegenpilz/Proto/Ids.cs:12-13 | succeeds exactly when 2 bytes remain; the bytes read are the id's encoding |
| Ids.EncodeFoothold | Fliegenpilz/Proto/Ids.cs:9-10 | 2 bytes whose signed little-endian reading is the id |
| Ids.FootholdCodecLaws | Fliegenpilz/Proto/Ids.cs:9-13 | every id round-trips, decoding moves forward only, and a truncated encoding fails |
| Ids.NoneEncoding | Fliegenpilz/Proto/Ids.cs:7 | `None` is written as two zero bytes |
| TwoD.EncodeVec2 | Fliegenpilz/Proto/TwoD.cs:7-11 | 4 bytes: `x`, then `y` |
| TwoD.DecodeVec2 | Fliegenpilz/Proto/TwoD.cs:13 | succeeds exactly when 4 bytes remain; reads `x` before `y` |
| TwoD.Vec2CodecLaws | Fliegenpilz/Proto/TwoD.cs:7-13 | every vector round-trips, decoding moves forward only, and a truncated encoding fails |
| FileTimes.New | Fliegenpilz/Net/FileTime.cs:5-17 | a constructed file time has the given raw value and is neither sentinel |
| FileTimes.ReadTime | Fliegenpilz/Net/PacketReader.cs:55-58 | succeeds exactly when 8 bytes remain; the result is a new object, never a sentinel |
| FileTimes.WriteTime | Fliegenpilz/Net/PacketReader.cs:171-174 | 8 bytes whose signed little-endian reading is the raw value |
| FileTimes.Sentinels | Fliegenpilz/Net/FileTime.cs:7-17 | `MinValue` is `IsMin` and `MaxValue` is `IsMax`; Min < Max; no file time is both |
| FileTimes.TimeRoundTrip | Fliegenpilz/Net/PacketReader.cs:55-58 | the raw value round-trips through 8 bytes |
| FileTimes.ReadMinIsNotMin | Fliegenpilz/Net/FileTime.cs:16 | reading back `MinValue`'s bytes gives an equal raw value that is not `IsMin`, because the comparison is by reference |
| Movement.DecodableCodes | Fliegenpilz/Proto/Movement.cs:23-154 | the decoder handles exactly the codes up to 0x24 other than 0x0F and 0x13 |
| Movement.KindOf | Fliegenpilz/Proto/Movement.cs:68-152 | a code has a case group exactly when it is at most 0x24 and is neither 0x0F nor 0x13; every other code takes the `default` branch |
| Movement.DecodeFooter | Fliegenpilz/Proto/Movement.cs:16-20 | succeeds exactly when 3 bytes remain; the action is the first byte and the duration's total milliseconds are the i16 after it |
| Movement.EncodeFooter | Fliegenpilz/Proto/Movement.cs:10-14 | 3 bytes: the action, then the i16 millisecond component of the duration |
| Movement.FooterRoundTrip | Fliegenpilz/Proto/Movement.cs:10-20 | a footer comes back with its duration cut to the millisecond component |
| Movement.Fields | Fliegenpilz/Proto/Movement.cs:164-289 | each variant's fields come in the order its decoder case reads them |
| Movement.Build | Fliegenpilz/Proto/Movement.cs:68-152 | the record a decoder case builds has the code, variant and fields it was given |
| Movement.LayoutSizes | Fliegenpilz/Proto/Movement.cs:164-289 | encoded sizes are Absolute 16, AbsoluteFall 20, Relative 8, Instant 10, FallDown 10, Flying 12, Unknown 4, StatChange 2 |
| Movement.EncodeBase | Fliegenpilz/Proto/Movement.cs:158-161 | the base record writes the code byte only |
| Movement.Encode | Fliegenpilz/Proto/Movement.cs:164-289 | the code byte, then the variant's fields; the length is the variant's fixed size |
| Movement.Decode | Fliegenpilz/Proto/Movement.cs:65-156 | fails on an empty buffer; fails with `UnknownMovementCode` for an unnamed code; succeeds exactly when the code is named and the variant's bytes are present; the result's variant is the code's case group |
| Movement.MovementRoundTrip | Fliegenpilz/Proto/Movement.cs:65-289 | a movement whose code is in its variant's group decodes to itself, up to the footer's millisecond cut |
| Movement.MovementRoundTripIff | Fliegenpilz/Proto/Movement.cs:65-289 | decoding an encoded movement gives it back exactly when its code is in its group and its footer duration, if any, is under one second |
| Movement.MisgroupedCode | Fliegenpilz/Proto/Movement.cs:68-152 | a variant built with a code from another group decodes as a different variant |
| Movement.StatChangeNormalises | Fliegenpilz/Proto/Movement.cs:109-113 | any nonzero flag byte decodes as true and is written back as 1 |
| Chat.DecodeChatMsgReq | Fliegenpilz/Proto/Chat.cs:22-30 | fails with `Truncated` when the header is cut short and with `NegativeLength` on a negative length; succeeds exactly when the length is non-negative and the string and flag fit; on success it consumed `7 + |msg|` bytes holding `Ticks`, the string and the flag, and the flag is true exactly when its byte is nonzero |
| Chat.ChatMsgReqRoundTrip | Fliegenpilz/Proto/Chat.cs:22-30 | a request encoded in the client's layout decodes to itself |
| Chat.EncodeUserChatMsgResp | Fliegenpilz/Proto/Chat.cs:52-58 | `8 + |msg|` bytes: the id, a 0/1 admin byte, the string, a 0/1 balloon byte |
| Chat.UserChatMsgRespRoundTrip | Fliegenpilz/Proto/Chat.cs:52-58 | the response reads back to itself in the client's reading order |
| Handshake.EncodeHandshake | Fliegenpilz/Program.cs:99-105 | `16 + |token|` bytes: the two ids, the key, then the token as given |
| Handshake.DecodeHandshake | Fliegenpilz/Program.cs:90-97 | succeeds exactly when 48 bytes remain; the token is 32 bytes |
| Handshake.HandshakeRoundTripIff | Fliegenpilz/Program.cs:90-105 | a handshake round-trips exactly when its token has 32 bytes; a shorter one fails and a longer one is cut |
| Handshake.ReadFirstMessage | Fliegenpilz/Program.cs:51-58 | an opcode other than 0x214 is refused before any decoding; otherwise the message is accepted exactly when the 48-byte body is present |
| Handshake.FirstMessageAccepted | Fliegenpilz/Program.cs:51-105 | a framed handshake is accepted and decoded to itself |
| Handshake.FirstMessageRefused | Fliegenpilz/Program.cs:51-54 | any other opcode is refused with that opcode |
| Clock.Add | Fliegenpilz/Tick/Clock.cs:35 | the ticks become `t + n` modulo 2^64, and exactly `t + n` when that fits an i64 |
| Clock.AddAdd | Fliegenpilz/Tick/Clock.cs:35 | adding `a` then `b` is adding their wrapped sum |
| GameSession.SessionKeyEquality | Fliegenpilz/Actors/GameSession.cs:9-24 | keys are equal exactly when their ids are; equality is symmetric; equal keys hash alike |
| SetField.EncodeCrcSeed | Fliegenpilz/Actors/GameSession.cs:140-152 | 12 bytes holding the three seeds in order |
| SetField.EncodeCharName | Fliegenpilz/Actors/GameSession.cs:154-161 | throws exactly when the name has 13 or more bytes; otherwise 13 bytes starting with the name |
| SetField.CharNameRoundTrip | Fliegenpilz/Actors/GameSession.cs:154-161 | a name without zero bytes is recovered by reading up to the first zero |
| SetField.EncodeCharStats | Fliegenpilz/Actors/GameSession.cs:210-256 | fails exactly on an over-long name; otherwise 105 bytes starting with the id and ending with 30, 0 |
| SetField.GenderOf | Fliegenpilz/Actors/GameSession.cs:176-180 | a reader maps exactly the bytes 0 and 1 to a gender, each to the one `GenderByte` writes as that byte |
| SetField.GenderRoundTrip | Fliegenpilz/Actors/GameSession.cs:176-180 | every gender is read back from its byte |
| SetField.SkinColorOf | Fliegenpilz/Actors/GameSession.cs:163-174 | a reader maps exactly the bytes 0 to 5, 9 and 10 to a skin colour, each to the one `SkinColorByte` writes as that byte |
| SetField.SkinColorRoundTrip | Fliegenpilz/Actors/GameSession.cs:163-174 | every skin colour is read back from its byte |
| SetField.StatsBody | Fliegenpilz/Actors/GameSession.cs:214-255 | the 88 bytes after the name are the 28 fields of the fixed layout in the order they are written, ending with the friend limit 30 and the empty linked character 0 |
| SetField.StatsWidths | Fliegenpilz/Actors/GameSession.cs:214-255 | every record's body has the same layout of field widths, whatever its values |
| SetField.StatsLayoutSize | Fliegenpilz/Actors/GameSession.cs:214-255 | the layout is 28 fields in 88 bytes |
| SetField.DecodeScalars | Fliegenpilz/Actors/GameSession.cs:214-255 | reading a layout succeeds exactly when its bytes remain, fails with `Truncated` otherwise, and yields one field of each width in order |
| SetField.ScalarsRoundTrip | Fliegenpilz/Actors/GameSession.cs:214-255 | fields written one after another read back unchanged under their widths, consuming exactly what was written |
| SetField.StatsOf | Fliegenpilz/Actors/GameSession.cs:182-207 | the record rebuilt from the fields has the given id and name and the gender and skin colour of bytes 0 and 1; it fails with `UndefinedEnumValue` exactly when one of them names no member |
| SetField.StatsOfScalars | Fliegenpilz/Actors/GameSession.cs:182-256 | the fields of a record's body give the record back |
| SetField.DecodeCharStats | Fliegenpilz/Actors/GameSession.cs:210-256 | needs 105 bytes and fails with `Truncated` otherwise; with 105 bytes its only failure is an undefined enum byte; the id and name are the first 17 bytes, and it consumes 105 |
| SetField.CharStatsRoundTrip | Fliegenpilz/Actors/GameSession.cs:210-256 | every record whose name fits and holds no zero byte reads back as itself from what `EncodePacket` writes, consuming 105 bytes |
| SetField.SetFieldHeader | Fliegenpilz/Actors/GameSession.cs:278-298 | 36 bytes: an i16 0, the channel id, the old driver id, the field key, the byte 1, an i16 0, the zero CRC seed, the i64 flags 1, and two zero bytes |
| SetField.EncodeSetFieldResp | Fliegenpilz/Actors/GameSession.cs:276-339 | 165 bytes: header, the test character's stats, 16 zero bytes, the server time |
| SetField.ChannelIdReadable | Fliegenpilz/Actors/GameSession.cs:278-279 | a reader skipping the first short reads back the channel id |
| SetField.ServerTimeReadable | Fliegenpilz/Actors/GameSession.cs:338 | the last 8 bytes read back as the server time |
| GameSession.ChatReply | Fliegenpilz/Actors/GameSession.cs:69-86 | one message with the send-chat opcode and `10 + |msg|` bytes |
| GameSession.ChatReplyContent | Fliegenpilz/Actors/GameSession.cs:69-86 | the reply reads back as character 7, not admin, the same text, no balloon |
| GameSession.HandlePacket | Fliegenpilz/Actors/GameSession.cs:88-100 | a message shorter than 2 bytes fails; other opcodes give no replies; a chat message succeeds exactly when its body decodes, and then gives one reply; the only errors are decode errors |
| GameSession.ChatEcho | Fliegenpilz/Actors/GameSession.cs:69-100 | an encoded chat request is answered with its own text |
| GameSession.FirstFailure | Fliegenpilz/Actors/GameSession.cs:102-113 | the first message whose handling throws, with all earlier ones handled |
| GameSession.SessionTick | Fliegenpilz/Actors/GameSession.cs:102-119 | the tick succeeds exactly when every pending message is handled and the channel is not closed; at the first failing message it sends the replies to the messages before it, leaves the messages after it queued, and fails with that message's error |
| GameSession.Tick | Fliegenpilz/Actors/GameSession.cs:102-119 | the draining loop computes the tick outcome, replies in FIFO order |
| GameSession.ClosedOnlyAfterDrain | Fliegenpilz/Actors/GameSession.cs:114-118 | a closed channel makes the tick fail with `SocketClosed` only after all pending messages were handled |
| GameSession.OnEnterRoom | Fliegenpilz/Actors/GameSession.cs:121-136 | exactly one message, with the SetField opcode, carrying the 165-byte SetField packet |
| RoomActor.Broadcast | Fliegenpilz/Actors/RoomActor.cs:26-32 | one send per session, to each position in list order |
| RoomActor.BroadcastFilter | Fliegenpilz/Actors/RoomActor.cs:34-44 | sends go to exactly the sessions whose key differs from the filter, each once, in list order |
| RoomActor.FilterNobody | Fliegenpilz/Actors/RoomActor.cs:26-44 | filtering on a key no session has is a plain broadcast |
| RoomActor.SendTo | Fliegenpilz/Actors/RoomActor.cs:46-54 | at most one send, to the first session with the key; nothing when no session has it |
| RoomActor.TickSessions | Fliegenpilz/Actors/RoomActor.cs:95-109 | the in-place removal loop keeps the sessions whose tick succeeded, in order, and ticks every session exactly once |
| RoomActor.SurvivorsFilter | Fliegenpilz/Actors/RoomActor.cs:80-109 | every kept session comes from a successful tick, and none is dropped when every tick succeeds |
| RoomActor.HandleTick | Fliegenpilz/Actors/RoomActor.cs:111-115 | the room's own tick comes first, then one tick per session |
| RoomActor.Receive | Fliegenpilz/Actors/RoomActor.cs:117-132 | a join appends the session and sends it the greeting, one message per greeting packet; a tick logs the room's tick and one tick per session, keeps exactly the sessions whose tick succeeded, sends what their ticks sent, and advances the time by one; anything else is refused |
| RoomActor.JoinSendsSetField | Fliegenpilz/Actors/RoomActor.cs:119-123 | in this server the greeting of a joining session is one `SetField` packet for channel 1, old driver 0 and field key 0, carrying the current time |
| RoomActor.OnReceive | Fliegenpilz/Actors/RoomActor.cs:117-132 | the actor, with the tick pass run by the loop, makes the transition `Receive` describes |
| RoomActor.TicksCount | Fliegenpilz/Actors/RoomActor.cs:125-128 | `n` ticks move a room's time from `t` to `t + n`, when `t + n` stays below 2^63 |
| RoomActor.Fresh | Fliegenpilz/Actors/RoomActor.cs:64-66 | a new room has no sessions and game time 0 |
| RoomActor.QuietTicks | Fliegenpilz/Actors/RoomActor.cs:95-128 | a room without sessions stays empty through `n` ticks, and its time moves on by `n` while it stays below 2^63 |
| WorldActor.CreateOrAddRoom | Fliegenpilz/Actors/WorldActor.cs:13-25 | an existing room is returned with nothing changed; a missing one gets a newly spawned handle carrying its id |
| WorldActor.CreateOrAddIdempotent | Fliegenpilz/Actors/WorldActor.cs:13-25 | resolving a room twice spawns it at most once |
| WorldActor.CreateOrAddValid | Fliegenpilz/Actors/WorldActor.cs:13-25 | in a consistent world the handle carries the room id and the world stays consistent |
| WorldActor.AddNewSession | Fliegenpilz/Actors/WorldActor.cs:27-32 | the room is resolved first; a registered key fails with `DuplicateKey` and no join; otherwise the session is registered and one join goes to the room |
| WorldActor.Receive | Fliegenpilz/Actors/WorldActor.cs:35-45 | a new-session message adds the session; anything else is refused with nothing changed |
| WorldActor.ReceivePreserves | Fliegenpilz/Actors/WorldActor.cs:10-45 | the world stays consistent; rooms and sessions are never removed or replaced |
| WorldActor.SameRoomOnce | Fliegenpilz/Actors/WorldActor.cs:27-32 | two sessions for one room spawn it at most once, and both joins go to the same actor |
| WorldActor.DuplicateRefused | Fliegenpilz/Actors/WorldActor.cs:29-31 | registering a key twice fails the second time, after the room was resolved, with no join |
| NpcScript.AcceptanceRules | Fliegenpilz/Scripts/NpcScript.cs:113-176 | `Start` and `Text` are never accepted at a prompt; `SayNext` accepts exactly "next", `SayPrev` exactly "previous" and `SayEnd` exactly the end action; `SayYesNo` accepts exactly the yes/no answers; `SayNextPrev` accepts what either of the first two does; `SaySelect` accepts exactly the in-range indices |
| NpcScript.Proceed | Fliegenpilz/Scripts/NpcScript.cs:219-226 | the body runs to its next prompt or its end and signals in both cases |
| NpcScript.Launch | Fliegenpilz/Scripts/NpcScript.cs:210-217 | a launched handle is consistent with its script: the body waits for the start action and the capacity-one slot is empty |
| NpcScript.Consume | Fliegenpilz/Scripts/NpcScript.cs:113-181 | a body that has ended leaves the slot untouched |
| NpcScript.Resume | Fliegenpilz/Scripts/NpcScript.cs:235-240 | a full slot throws `SlotFull`; after the body ended the action is stored and the call never completes; the start action or an accepted action returns; any other action faults the body and throws `InvalidAction` |
| NpcScript.ResumeValid | Fliegenpilz/Scripts/NpcScript.cs:235-240 | the slot holds an action only after the body has ended, so `SlotFull` happens only then |
| NpcScript.AfterTheEnd | Fliegenpilz/Scripts/NpcScript.cs:60-65 | after completion one action is swallowed and the next finds the slot full |
| NpcScript.DeliveredInOrder | Fliegenpilz/Scripts/NpcScript.cs:219-240 | every `Resume` returns exactly when the body, fed the same actions in order, accepts each one |
| NpcScript.StartThenDeliver | Fliegenpilz/Scripts/NpcScript.cs:202-240 | a whole run from a new handle: the start and every later `Resume` return exactly when the body accepts the later actions in order, and the handle ends where the body got to |
| NpcScript1000.NatToString | Fliegenpilz/Scripts/NpcScript.cs:291-297 | decimal digits only, at least one |
| NpcScript1000.Digits | Fliegenpilz/Scripts/NpcScript.cs:291-297 | the ten messages "0" to "9" |
| NpcScript1000.Ask | Fliegenpilz/Scripts/NpcScript.cs:256-302 | every point of `Run` shows a prompt except the end, and the only `SayEnd` prompt is the goodbye |
| NpcScript1000.Advance | Fliegenpilz/Scripts/NpcScript.cs:256-302 | the body finishes only after the goodbye, and `SayMultiple` either moves to another of its messages or leaves for the selection |
| NpcScript1000.Script1000 | Fliegenpilz/Scripts/NpcScript.cs:277-302 | the body starts at the `SayNext("Hello")` prompt and has a prompt at every point but its end |
| NpcScript1000.Enter | Fliegenpilz/Scripts/NpcScript.cs:260 | the message walk ends exactly when the index reaches 10 |
| NpcScript1000.SayMultipleStep | Fliegenpilz/Scripts/NpcScript.cs:256-275 | the first message only goes forward; the others move the index by one; the walk ends only on "next" at the last message |
| NpcScript1000.SelectEchoes | Fliegenpilz/Scripts/NpcScript.cs:297-298 | the selection accepts exactly 0 to 9 and echoes the choice back |
| NpcScript1000.BodyFeeds | Fliegenpilz/Scripts/NpcScript.cs:254-302 | the body accepts the handle test's actions after the start and reaches its end |
| NpcScript1000.TestCompletes | Fliegenpilz.Tests/Scripts/NpcScriptHandleTest.cs:20-33 | the handle test's 18 actions run the script to completion, every `Resume` returning |

## Left out

- The WebSocket transport: reader and writer tasks, bounded channels, cancellation, `SocketHandle.Send`/`TrySend`. This is I/O and concurrency. Sent messages are returned as an outbox instead.
- The ASP.NET and Akka bootstrap in `Program.cs` other than the handshake, `EchoActor`, and the timers (`Clock.Run`, `RoomActor.PreStart`). This is wall-clock scheduling and plumbing.
- Akka supervision. An exception in an actor is reported as an error outcome with the state changes made before it kept; the restart that follows is not modelled.
- Task, channel, `TaskCompletionSource` and cancellation mechanics of the NPC engine. They become a sequential step function. Interleavings, `Cancel` and `Dispose` are not modelled.
- `FileTime.FromDateTime`/`ToDateTime`, because they depend on the time zone and the .NET `DateTime` library. `OnEnterRoom` takes the current file time as a parameter.
- `TimeSpan` floating-point arithmetic. Durations are whole milliseconds.
- Buffer ownership, disposal and console logging.
- Latin-1 replacement of characters outside Latin-1. Strings on the wire are byte sequences.
- The numeric values of `SendOpcodes`/`RecvOpcodes`. They are a parameter.
- `GameRoom.HandleTick` does nothing. It appears only as the first entry of the tick log.
- Packet.WriteDurMs16: requires the total milliseconds to fit an i16 (and `WriteDurMs32` an i32). Outside that range the C# cast of the floating-point `TotalMilliseconds` is unspecified, so the model does not promise anything there.
- SetField.EncodeCharStats: covers only records whose gender and skin colour are named enum members. The C# enums are byte-backed, so a `CharStats` may hold an unnamed value such as `(Gender)2`, which `EncodePacket` writes unchanged; `Gender` and `SkinColor` are closed datatypes here, so `EncodeCharStats` and `CharStatsRoundTrip` say nothing about such records.
- SetField.DecodeCharStats: says which bytes make it fail only through `StatsOf`, in terms of the decoded fields, rather than as offsets into the buffer.
- Packet.ReadBool: does not state that the byte read is `WriteBool`'s encoding of the result, because any nonzero byte reads as true.
- Chat.DecodeChatMsgReq: states the layout of the prefix and the flag byte rather than equality with the reference encoding, for the same reason.
- GameSession.SessionTick: the per-message handler is a parameter (`Handler`). `PacketHandler` instantiates it with `HandlePacket`.
