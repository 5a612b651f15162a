/** A room and its sessions (`Actors/RoomActor.cs`).

    The actor handles one message at a time, so it is modelled as a
    transition from a state and a message to a new state plus what was sent,
    or an error. The room's own tick (`GameRoom.HandleTick`) does nothing, so
    it only appears as the first entry of the tick log.
 */
module RoomActor {
  import opened Wrappers
  import opened Bytes
  import opened FileTimes
  import opened Clock
  import opened GameSession
  import opened SetField
  import Socket

  // ---------------------------------------------------------------------------
  // Context
  // ---------------------------------------------------------------------------

  /** One `SendPacket` call, to the session at position `to` of the list. */
  datatype Delivery = Delivery(to: nat, packet: Socket.SocketMessage)

  /** `Broadcast`: one send per session, in list order. */
  function Broadcast(sessions: seq<Session>, p: Socket.SocketMessage): (ds: seq<Delivery>)
    ensures |ds| == |sessions|
    ensures forall i :: 0 <= i < |ds| ==> ds[i].to == i && ds[i].packet == p
  {
    if |sessions| == 0 then []
    else Broadcast(sessions[..|sessions| - 1], p) + [Delivery(|sessions| - 1, p)]
  }

  /** `BroadcastFilter`: like `Broadcast`, skipping the sessions whose key is
      `filterKey`. */
  function BroadcastFilter(sessions: seq<Session>, p: Socket.SocketMessage, filterKey: SessionKey): (ds: seq<Delivery>)
    ensures forall k :: 0 <= k < |ds| ==>
              ds[k].packet == p && ds[k].to < |sessions| && sessions[ds[k].to].key != filterKey
    ensures forall i :: 0 <= i < |sessions| && sessions[i].key != filterKey ==> Delivery(i, p) in ds
    ensures forall k, l :: 0 <= k < l < |ds| ==> ds[k].to < ds[l].to
  {
    if |sessions| == 0 then []
    else
      var n := |sessions| - 1;
      var init := BroadcastFilter(sessions[..n], p, filterKey);
      if sessions[n].key != filterKey then init + [Delivery(n, p)] else init
  }

  /** Filtering on a key no session has is a plain broadcast. */
  lemma {:induction false} FilterNobody(sessions: seq<Session>, p: Socket.SocketMessage, filterKey: SessionKey)
    requires forall i :: 0 <= i < |sessions| ==> sessions[i].key != filterKey
    ensures BroadcastFilter(sessions, p, filterKey) == Broadcast(sessions, p)
  {
    if |sessions| > 0 {
      FilterNobody(sessions[..|sessions| - 1], p, filterKey);
    }
  }

  /** The position of the first session with key `key`. */
  function FirstWithKey(sessions: seq<Session>, key: SessionKey): (i: Option<nat>)
    ensures i.None? <==> forall j :: 0 <= j < |sessions| ==> sessions[j].key != key
    ensures i.Some? ==> i.value < |sessions| && sessions[i.value].key == key
                        && forall j :: 0 <= j < i.value ==> sessions[j].key != key
  {
    if |sessions| == 0 then None
    else if sessions[0].key == key then Some(0)
    else
      match FirstWithKey(sessions[1..], key)
      case None => None
      case Some(i) => Some(i + 1)
  }

  /** `SendTo`: at most one send, to the first session with the key. */
  function SendTo(sessions: seq<Session>, key: SessionKey, p: Socket.SocketMessage): (ds: seq<Delivery>)
    ensures |ds| <= 1
    ensures ds == [] <==> forall j :: 0 <= j < |sessions| ==> sessions[j].key != key
    ensures ds != [] ==> ds[0].packet == p && ds[0].to < |sessions| && sessions[ds[0].to].key == key
                         && forall j :: 0 <= j < ds[0].to ==> sessions[j].key != key
  {
    match FirstWithKey(sessions, key)
    case None => []
    case Some(i) => [Delivery(i, p)]
  }

  // ---------------------------------------------------------------------------
  // Tick pass
  // ---------------------------------------------------------------------------

  /** What happened during a tick, in order. */
  datatype TickEvent = RoomTicked(t: GameTime) | SessionTicked(key: SessionKey, t: GameTime)

  /** A message a session sent. */
  datatype Sent = Sent(to: SessionKey, packet: Socket.SocketMessage)

  function Addressed(key: SessionKey, msgs: seq<Socket.SocketMessage>): (ss: seq<Sent>)
    ensures |ss| == |msgs| && forall i :: 0 <= i < |ss| ==> ss[i] == Sent(key, msgs[i])
  {
    seq(|msgs|, i requires 0 <= i < |msgs| => Sent(key, msgs[i]))
  }

  /** The sessions left after ticking each of `sessions` once: those whose
      tick succeeded, in their original order, in their state after the tick. */
  function Survivors(h: Handler, sessions: seq<Session>): (kept: seq<Session>)
    ensures |kept| <= |sessions|
  {
    if |sessions| == 0 then []
    else
      var n := |sessions| - 1;
      var o := SessionTick(h, sessions[n]);
      Survivors(h, sessions[..n]) + (if o.failure.None? then [o.session] else [])
  }

  /** One tick log entry per session, in list order. */
  function SessionLog(sessions: seq<Session>, t: GameTime): (log: seq<TickEvent>)
    ensures |log| == |sessions|
    ensures forall i :: 0 <= i < |sessions| ==> log[i] == SessionTicked(sessions[i].key, t)
  {
    if |sessions| == 0 then []
    else SessionLog(sessions[..|sessions| - 1], t) + [SessionTicked(sessions[|sessions| - 1].key, t)]
  }

  /** Everything the sessions sent while being ticked, failing ones included. */
  function SentDuring(h: Handler, sessions: seq<Session>): seq<Sent>
  {
    if |sessions| == 0 then []
    else
      var n := |sessions| - 1;
      SentDuring(h, sessions[..n]) + Addressed(sessions[n].key, SessionTick(h, sessions[n]).sent)
  }

  /** `TickSessions`: tick the session at position `i`; keep it and move on
      when the tick succeeds, remove it in place when the tick fails. */
  method TickSessions(h: Handler, sessions: seq<Session>, t: GameTime)
    returns (kept: seq<Session>, log: seq<TickEvent>, sent: seq<Sent>)
    ensures kept == Survivors(h, sessions)
    ensures log == SessionLog(sessions, t)
    ensures sent == SentDuring(h, sessions)
  {
    kept := sessions;
    log := [];
    sent := [];
    var i := 0;
    ghost var j := 0;
    while i < |kept|
      invariant 0 <= i <= |kept| && 0 <= j <= |sessions|
      invariant kept[..i] == Survivors(h, sessions[..j])
      invariant kept[i..] == sessions[j..]
      invariant log == SessionLog(sessions[..j], t)
      invariant sent == SentDuring(h, sessions[..j])
      decreases |kept| - i
    {
      assert kept[i] == sessions[j];
      assert sessions[..j + 1][..j] == sessions[..j];
      var o := Tick(h, kept[i], t);
      log := log + [SessionTicked(kept[i].key, t)];
      sent := sent + Addressed(kept[i].key, o.sent);
      if o.failure.None? {
        kept := kept[..i] + [o.session] + kept[i + 1..];
        i := i + 1;
        assert kept[..i] == Survivors(h, sessions[..j]) + [o.session];
      } else {
        kept := kept[..i] + kept[i + 1..];
        assert kept[..i] == Survivors(h, sessions[..j]);
      }
      j := j + 1;
    }
    assert kept[i..] == [];
    assert sessions[..j] == sessions;
  }

  /** A failing tick never stops the pass: every session is ticked once, in
      order, and a session stays exactly when its own tick succeeded. */
  lemma {:induction false} SurvivorsFilter(h: Handler, sessions: seq<Session>)
    ensures forall s :: s in Survivors(h, sessions) ==>
              exists i :: 0 <= i < |sessions| && SessionTick(h, sessions[i]).failure.None?
                          && s == SessionTick(h, sessions[i]).session
    ensures (forall i :: 0 <= i < |sessions| ==> SessionTick(h, sessions[i]).failure.None?)
            ==> |Survivors(h, sessions)| == |sessions|
  {
    if |sessions| > 0 {
      var n := |sessions| - 1;
      SurvivorsFilter(h, sessions[..n]);
      forall s | s in Survivors(h, sessions)
        ensures exists i :: 0 <= i < |sessions| && SessionTick(h, sessions[i]).failure.None?
                            && s == SessionTick(h, sessions[i]).session
      {
        if s in Survivors(h, sessions[..n]) {
          var i :| 0 <= i < n && SessionTick(h, sessions[..n][i]).failure.None?
                   && s == SessionTick(h, sessions[..n][i]).session;
          assert sessions[..n][i] == sessions[i];
        } else {
          assert s == SessionTick(h, sessions[n]).session;
        }
      }
    }
  }

  // ---------------------------------------------------------------------------
  // The actor
  // ---------------------------------------------------------------------------

  datatype Room = Room(sessions: seq<Session>, time: GameTime)

  /** A new room: no sessions, time 0. */
  function Fresh(): (room: Room)
    ensures |room.sessions| == 0 && room.time.ticks == 0
  {
    Room([], Clock.Zero)
  }

  datatype RoomMessage = JoinRoom(session: Session) | TickMessage | OtherRoomMessage

  datatype RoomStep = RoomStep(room: Room, log: seq<TickEvent>, sent: seq<Sent>)

  /** What the room needs from outside itself: how a session handles one
      packet, and what a joining session is sent. */
  datatype RoomEnv = RoomEnv(handler: Handler, greeting: seq<Socket.SocketMessage>)

  /** The environment of a room in this server: `GameSession.HandlePacket`
      for the given opcodes, and `OnEnterRoom` at the current time. */
  function Env(ops: Opcodes, now: FileTime): (env: RoomEnv)
    ensures |env.greeting| == 1
  {
    RoomEnv(PacketHandler(ops), OnEnterRoom(ops, now))
  }

  /** `HandleTick`: the room's own tick, then the session pass. */
  function HandleTick(h: Handler, room: Room, t: GameTime): (step: RoomStep)
    ensures |step.log| == |room.sessions| + 1 && step.log[0] == RoomTicked(t)
    ensures step.log[1..] == SessionLog(room.sessions, t)
    ensures step.room.sessions == Survivors(h, room.sessions)
  {
    RoomStep(room.(sessions := Survivors(h, room.sessions)),
             [RoomTicked(t)] + SessionLog(room.sessions, t),
             SentDuring(h, room.sessions))
  }

  /** The transition `OnReceive` makes. A join appends the session and sends
      what `OnEnterRoom` sends; a tick runs at the current time and then
      advances it by one; anything else is refused. */
  function Receive(env: RoomEnv, room: Room, msg: RoomMessage): (res: Result<RoomStep>)
    ensures msg.OtherRoomMessage? <==> res.Err?
    ensures res.Err? ==> res.error == UnknownMessage
    ensures msg.JoinRoom? ==> res.value.room.sessions == room.sessions + [msg.session]
                              && |res.value.sent| == |env.greeting|
                              && (forall i :: 0 <= i < |res.value.sent| ==>
                                    res.value.sent[i] == Sent(msg.session.key, env.greeting[i]))
                              && res.value.room.time == room.time
    ensures msg.TickMessage? ==> res.value.room.time == Add(room.time, 1)
                                 && |res.value.log| == |room.sessions| + 1
                                 && res.value.log[0] == RoomTicked(room.time)
                                 && res.value.log[1..] == SessionLog(room.sessions, room.time)
                                 && res.value.room.sessions == Survivors(env.handler, room.sessions)
                                 && res.value.sent == SentDuring(env.handler, room.sessions)
  {
    match msg
    case JoinRoom(s) =>
      Ok(RoomStep(room.(sessions := room.sessions + [s]), [], Addressed(s.key, env.greeting)))
    case TickMessage =>
      var step := HandleTick(env.handler, room, room.time);
      Ok(step.(room := step.room.(time := Add(room.time, 1))))
    case OtherRoomMessage =>
      Err(UnknownMessage)
  }

  /** `OnReceive`, with the tick pass run by the loop of `TickSessions`. */
  method OnReceive(ops: Opcodes, now: FileTime, room: Room, msg: RoomMessage) returns (res: Result<RoomStep>)
    ensures res == Receive(Env(ops, now), room, msg)
  {
    match msg {
      case JoinRoom(s) =>
        var sessions := room.sessions + [s];
        res := Ok(RoomStep(room.(sessions := sessions), [], Addressed(s.key, OnEnterRoom(ops, now))));
      case TickMessage =>
        var kept, log, sent := TickSessions(PacketHandler(ops), room.sessions, room.time);
        res := Ok(RoomStep(Room(kept, Add(room.time, 1)), [RoomTicked(room.time)] + log, sent));
      case OtherRoomMessage =>
        res := Err(UnknownMessage);
    }
  }

  /** In this server a joining session is sent exactly one packet: the
      `SetField` with opcode `sendSetField` for channel 1, old driver 0 and
      field key 0, at `now`. */
  lemma JoinSendsSetField(ops: Opcodes, now: FileTime, room: Room, s: Session)
    ensures var res := Receive(Env(ops, now), room, JoinRoom(s));
      res.Ok? && |res.value.sent| == 1 && res.value.sent[0].to == s.key
      && Socket.Opcode(res.value.sent[0].packet) == Ok(ops.sendSetField)
      && res.value.sent[0].packet.data[2..] == EncodeSetFieldResp(SetFieldResp(1, 0, 0, now))
  {
  }

  /** The room after a sequence of messages, or the first error. */
  function Run(env: RoomEnv, room: Room, msgs: seq<RoomMessage>): Result<Room>
    decreases |msgs|
  {
    if |msgs| == 0 then Ok(room)
    else
      var step :- Receive(env, room, msgs[0]);
      Run(env, step.room, msgs[1..])
  }

  /** `n` tick messages in a row. */
  function Ticks(n: nat): (ms: seq<RoomMessage>)
    ensures |ms| == n && forall i :: 0 <= i < n ==> ms[i] == TickMessage
  {
    if n == 0 then [] else [TickMessage] + Ticks(n - 1)
  }

  /** A room's clock counts the ticks it has handled: `n` tick messages take
      a room from time `t` to time `t + n` (no wrap below 2^63). */
  lemma {:induction false} TicksCount(env: RoomEnv, room: Room, n: nat)
    requires room.time.ticks + n < 0x8000_0000_0000_0000
    ensures Run(env, room, Ticks(n)).Ok?
    ensures Run(env, room, Ticks(n)).value.time.ticks == room.time.ticks + n
    decreases n
  {
    if n > 0 {
      var next := Receive(env, room, TickMessage).value.room;
      assert next.time.ticks == room.time.ticks + 1;
      RunTick(env, room, Ticks(n - 1));
      TicksCount(env, next, n - 1);
    }
  }

  /** A room without sessions only ages: `n` ticks leave it empty and move
      its time on by `n`. In particular a fresh room that has handled `n`
      ticks is empty at time `n`. */
  lemma {:induction false} QuietTicks(env: RoomEnv, room: Room, n: nat)
    requires |room.sessions| == 0 && room.time.ticks + n < 0x8000_0000_0000_0000
    ensures Run(env, room, Ticks(n)) == Ok(Room([], GameTime(room.time.ticks + n)))
    decreases n
  {
    if n > 0 {
      var next := Receive(env, room, TickMessage).value.room;
      assert next == Room([], GameTime(room.time.ticks + 1));
      RunTick(env, room, Ticks(n - 1));
      QuietTicks(env, next, n - 1);
    }
  }

  /** Running a tick followed by `rest` runs `rest` from the room that tick
      leaves behind. */
  lemma RunTick(env: RoomEnv, room: Room, rest: seq<RoomMessage>)
    ensures Run(env, room, [TickMessage] + rest) == Run(env, Receive(env, room, TickMessage).value.room, rest)
  {
    assert ([TickMessage] + rest)[1..] == rest;
  }
}
