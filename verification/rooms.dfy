/** Rooms and the process-wide room registry (server/rooms.js). */
module Rooms {
  import opened Wrappers
  import opened StrokeLog

  type RoomId = string

  /** The room used when no room is named. */
  const DefaultRoomId: RoomId := "default"

  /** A room. `clients` are the keys of the source's client map in insertion
      order (each connection is identified by its user id, so the socket
      object is not kept); `activeStrokes` maps a user to the stroke that
      user is drawing but has not yet finished. */
  datatype Room = Room(
    id: RoomId,
    clients: seq<UserId>,
    state: DrawingState,
    activeStrokes: map<UserId, Stroke>)

  /** Rooms by identifier; entries are only ever added. */
  type Registry = map<RoomId, Room>

  predicate NoDuplicates(s: seq<UserId>) {
    forall i, j :: 0 <= i < j < |s| ==> s[i] != s[j]
  }

  /** What every room satisfies between events: each client appears once,
      every stroke held has at least one point, and an in-progress stroke is
      authored by the user it is filed under. */
  predicate RoomInvariant(room: Room) {
    && NoDuplicates(room.clients)
    && LogWellFormed(room.state)
    && forall u :: u in room.activeStrokes ==>
         HasPoints(room.activeStrokes[u]) && room.activeStrokes[u].userId == u
  }

  /** Every entry is filed under its own id and satisfies the room invariant. */
  predicate RegistryInvariant(reg: Registry) {
    forall k :: k in reg ==> reg[k].id == k && RoomInvariant(reg[k])
  }

  /** The Room constructor: an empty room with the given id. */
  function NewRoom(id: RoomId): (r: Room)
    ensures r.id == id && RoomInvariant(r)
    ensures r.clients == [] && r.activeStrokes == map[]
    ensures GetAllStrokes(r.state) == [] && r.state.redoStack == []
  {
    Room(id, [], Initial(), map[])
  }

  /** A fresh room has the requested id, no clients, no strokes in progress,
      an empty log and nothing to undo or redo. */
  lemma NewRoomIsEmpty(id: RoomId)
    ensures NewRoom(id).id == id
    ensures NewRoom(id).clients == [] && NewRoom(id).activeStrokes == map[]
    ensures GetAllStrokes(NewRoom(id).state) == [] && NewRoom(id).state.redoStack == []
    ensures Undo(NewRoom(id).state).result == None
    ensures Redo(NewRoom(id).state).result == None
    ensures RoomInvariant(NewRoom(id))
  {
  }

  /** The key `getRoom` uses: its parameter, or "default" when it is omitted.
      An explicit empty string is a key of its own. */
  function RoomKey(roomId: Option<RoomId>): (k: RoomId)
    ensures roomId.None? ==> k == DefaultRoomId
    ensures roomId.Some? ==> k == roomId.value
  {
    roomId.GetOr(DefaultRoomId)
  }

  datatype Lookup = Lookup(registry: Registry, room: Room)

  /** getRoom: the stored room for the key, created and registered first if
      there is none. */
  function GetRoom(reg: Registry, roomId: Option<RoomId>): (r: Lookup)
    requires RegistryInvariant(reg)
    ensures RegistryInvariant(r.registry)
    ensures var k := RoomKey(roomId);
            && r.room.id == k
            && k in r.registry && r.registry[k] == r.room
            && r.registry.Keys == reg.Keys + {k}
            && (forall k' :: k' in reg ==> r.registry[k'] == reg[k'])
            && (k in reg ==> r.registry == reg)
            && (k !in reg ==> r.room == NewRoom(k))
  {
    var k := RoomKey(roomId);
    if k in reg then
      Lookup(reg, reg[k])
    else
      var reg' := reg[k := NewRoom(k)];
      NewRoomIsEmpty(k);
      Lookup(reg', reg'[k])
  }

  /** Looking a room up twice is looking it up once: the second lookup
      returns the same room and leaves the registry as the first left it, so
      two first references to a new id share one room. */
  lemma GetRoomIdempotent(reg: Registry, roomId: Option<RoomId>)
    requires RegistryInvariant(reg)
    ensures GetRoom(GetRoom(reg, roomId).registry, roomId) == GetRoom(reg, roomId)
  {
  }

  /** Omitting the argument is the same as asking for "default". */
  lemma GetRoomDefault(reg: Registry)
    requires RegistryInvariant(reg)
    ensures GetRoom(reg, None) == GetRoom(reg, Some(DefaultRoomId))
  {
  }

  /** A lookup never removes or alters a room: the registry only grows. */
  lemma GetRoomOnlyGrows(reg: Registry, roomId: Option<RoomId>)
    requires RegistryInvariant(reg)
    ensures reg.Keys <= GetRoom(reg, roomId).registry.Keys
    ensures |GetRoom(reg, roomId).registry| <= |reg| + 1
  {
    var k := RoomKey(roomId);
    var reg' := GetRoom(reg, roomId).registry;
    if k !in reg {
      assert reg'.Keys == reg.Keys + {k};
      assert |reg'.Keys| == |reg.Keys| + 1;
    }
  }
}
