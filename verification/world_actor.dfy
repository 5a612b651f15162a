/** The world: the registry of rooms and sessions (`Actors/WorldActor.cs`).

    Spawning a room actor is modelled by handing out actor references with
    increasing serial numbers; telling a room something is returned as a
    `Tell` instead of being sent.
 */
module WorldActor {
  import opened Wrappers
  import opened Bytes
  import opened GameSession
  import RoomActor

  datatype ActorRef = ActorRef(serial: nat)

  datatype RoomHandle = RoomHandle(roomId: i32, actor: ActorRef)

  datatype World = World(rooms: map<i32, RoomHandle>, sessions: map<SessionKey, Session>, nextActor: nat)

  /** A new world: no rooms, no sessions. */
  const Empty: World := World(map[], map[], 0)

  datatype WorldMessage = NewSessionMessage(roomId: i32, session: Session) | OtherWorldMessage

  /** A message told to a room actor. */
  datatype Tell = Tell(actor: ActorRef, msg: RoomActor.RoomMessage)

  /** The world after a message, what it told its rooms, and the exception
      the message raised, if any. The state changes made before the
      exception are kept. */
  datatype Outcome = Outcome(world: World, told: seq<Tell>, failure: Option<Error>)

  /** Every room is filed under its own id, was spawned before, and no two
      rooms share an actor; every session is filed under its own key. */
  ghost predicate Valid(w: World)
  {
    && (forall id :: id in w.rooms ==> w.rooms[id].roomId == id && w.rooms[id].actor.serial < w.nextActor)
    && (forall a, b :: a in w.rooms && b in w.rooms && a != b ==> w.rooms[a].actor != w.rooms[b].actor)
    && (forall k :: k in w.sessions ==> w.sessions[k].key == k)
  }

  lemma EmptyValid()
    ensures Valid(Empty)
  {
  }

  datatype Resolved = Resolved(world: World, handle: RoomHandle)

  /** `CreateOrAddRoom`: the room already filed under `roomId`, or a newly
      spawned one, filed under it. */
  function CreateOrAddRoom(w: World, roomId: i32): (res: Resolved)
    ensures res.handle.roomId == roomId || roomId in w.rooms
    ensures roomId in res.world.rooms && res.world.rooms[roomId] == res.handle
    ensures res.world.sessions == w.sessions
    ensures roomId in w.rooms ==> res == Resolved(w, w.rooms[roomId])
    ensures roomId !in w.rooms ==> res.world.rooms == w.rooms[roomId := res.handle]
                                   && res.handle == RoomHandle(roomId, ActorRef(w.nextActor))
                                   && res.world.nextActor == w.nextActor + 1
  {
    if roomId in w.rooms then Resolved(w, w.rooms[roomId])
    else
      var handle := RoomHandle(roomId, ActorRef(w.nextActor));
      Resolved(w.(rooms := w.rooms[roomId := handle], nextActor := w.nextActor + 1), handle)
  }

  /** Resolving a room twice spawns it at most once. */
  lemma CreateOrAddIdempotent(w: World, roomId: i32)
    ensures var first := CreateOrAddRoom(w, roomId);
      CreateOrAddRoom(first.world, roomId) == first
  {
  }

  /** A valid world resolves a room to a handle carrying that room's id, and
      stays valid. */
  lemma CreateOrAddValid(w: World, roomId: i32)
    requires Valid(w)
    ensures CreateOrAddRoom(w, roomId).handle.roomId == roomId
    ensures Valid(CreateOrAddRoom(w, roomId).world)
  {
    var res := CreateOrAddRoom(w, roomId);
    if roomId !in w.rooms {
      forall a, b | a in res.world.rooms && b in res.world.rooms && a != b
        ensures res.world.rooms[a].actor != res.world.rooms[b].actor
      {
        if a != roomId && b != roomId {
          assert res.world.rooms[a] == w.rooms[a] && res.world.rooms[b] == w.rooms[b];
        } else if a == roomId {
          assert res.world.rooms[b] == w.rooms[b];
        } else {
          assert res.world.rooms[a] == w.rooms[a];
        }
      }
    }
  }

  /** `AddNewSession`: resolve the room, register the session (which throws
      on a key already registered, after the room was resolved), then tell
      the room to let the session join. */
  function AddNewSession(w: World, roomId: i32, session: Session): (o: Outcome)
    ensures o.world.rooms == CreateOrAddRoom(w, roomId).world.rooms
    ensures o.failure.None? <==> session.key !in w.sessions
    ensures o.failure.Some? ==> o.failure.value == DuplicateKey && o.told == []
                                && o.world.sessions == w.sessions
    ensures o.failure.None? ==> o.world.sessions == w.sessions[session.key := session]
                                && o.told == [Tell(o.world.rooms[roomId].actor, RoomActor.JoinRoom(session))]
  {
    var room := CreateOrAddRoom(w, roomId);
    if session.key in room.world.sessions then
      Outcome(room.world, [], Some(DuplicateKey))
    else
      Outcome(room.world.(sessions := room.world.sessions[session.key := session]),
              [Tell(room.handle.actor, RoomActor.JoinRoom(session))], None)
  }

  /** `OnReceive`: a new session is added; anything else throws. */
  function Receive(w: World, msg: WorldMessage): (o: Outcome)
    ensures msg.OtherWorldMessage? ==> o == Outcome(w, [], Some(UnknownMessage))
    ensures msg.NewSessionMessage? ==> o == AddNewSession(w, msg.roomId, msg.session)
  {
    match msg
    case NewSessionMessage(roomId, session) => AddNewSession(w, roomId, session)
    case OtherWorldMessage => Outcome(w, [], Some(UnknownMessage))
  }

  /** Every message keeps the world valid; rooms and sessions are never
      removed or replaced, only added. */
  lemma ReceivePreserves(w: World, msg: WorldMessage)
    requires Valid(w)
    ensures Valid(Receive(w, msg).world)
    ensures forall id :: id in w.rooms ==> id in Receive(w, msg).world.rooms
                                           && Receive(w, msg).world.rooms[id] == w.rooms[id]
    ensures forall k :: k in w.sessions ==> k in Receive(w, msg).world.sessions
                                            && Receive(w, msg).world.sessions[k] == w.sessions[k]
  {
    if msg.NewSessionMessage? {
      CreateOrAddValid(w, msg.roomId);
    }
  }

  /** Two sessions with different keys sent to the same room share one room
      actor: the room is spawned at most once and both joins go to it. */
  lemma SameRoomOnce(w: World, roomId: i32, s1: Session, s2: Session)
    requires Valid(w) && s1.key !in w.sessions && s2.key !in w.sessions && s1.key != s2.key
    ensures var o1 := AddNewSession(w, roomId, s1);
      var o2 := AddNewSession(o1.world, roomId, s2);
      && o1.failure.None? && o2.failure.None?
      && o2.world.nextActor <= w.nextActor + 1
      && o1.told[0].actor == o2.told[0].actor
      && o2.told[0].actor == o2.world.rooms[roomId].actor
  {
  }

  /** Registering a key twice fails the second time, after the room was
      resolved, and tells the room nothing. */
  lemma DuplicateRefused(w: World, roomId: i32, other: i32, s: Session)
    ensures var o1 := AddNewSession(w, roomId, s);
      o1.failure.None? ==>
        var o2 := AddNewSession(o1.world, other, s);
        o2.failure == Some(DuplicateKey) && o2.told == [] && other in o2.world.rooms
  {
  }
}
