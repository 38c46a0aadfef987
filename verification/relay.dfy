/** The relay server's event handling (server/server.js) as one pure step:
    given a room, the connection an event came from, the event, and the set
    of connections whose transport is open, it computes the room afterwards
    and the messages sent, each with its recipient. */
module Relay {
  import opened Wrappers
  import opened StrokeLog
  import opened Rooms

  type Color = string

  /** The `type` values the message handler has a case for. */
  const HandledTypes: set<string> :=
    {"stroke-start", "stroke-point", "stroke-end", "cursor", "undo", "redo"}

  /** A `type` value the message handler has no case for. */
  type UnhandledType = kind: string | kind !in HandledTypes witness "stroke-rect"

  /** A client-to-server message after decoding. `Unknown` is a well-formed
      message whose `type` matches no handled case (`stroke-rect` among
      them); `Malformed` is a payload that does not parse. */
  datatype ClientMsg =
    | StrokeStartMsg(start: StartData)
    | StrokePointMsg(x: int, y: int)
    | StrokeEndMsg
    | CursorMsg(x: int, y: int)
    | UndoMsg
    | RedoMsg
    | Unknown(kind: UnhandledType)
    | Malformed

  datatype UserEntry = UserEntry(id: UserId, color: Color)

  /** A server-to-client message. `Relayed` is a client message passed on
      with the sender's id attached as `from`. */
  datatype ServerMsg =
    | Welcome(id: UserId, color: Color, users: seq<UserEntry>, strokes: seq<Stroke>)
    | UserJoined(id: UserId, color: Color)
    | UserLeft(id: UserId)
    | Sync(strokes: seq<Stroke>)
    | Relayed(msg: ClientMsg, from: UserId)
    | StrokeEnded(from: UserId)

  /** One message delivered to one connection. */
  datatype Delivery = Delivery(to: UserId, msg: ServerMsg)

  /** What can happen on a connection. The colour of `Connect` and the stroke
      id of `Message` stand for the source's random colour and uuid(). */
  datatype Event =
    | Connect(color: Color)
    | Message(msg: ClientMsg, freshStrokeId: StrokeId)
    | Close

  datatype StepResult = StepResult(room: Room, outbox: seq<Delivery>)

  /** Whether a broadcast reaches client `u`: it is in the room, its
      connection is open, and it is not the excluded connection. */
  predicate Receives(u: UserId, clients: seq<UserId>, open: set<UserId>, except: Option<UserId>) {
    u in clients && u in open && except != Some(u)
  }

  /** broadcast: one copy of `msg` to each open client of the room except
      the excluded one, in client order. */
  function Broadcast(clients: seq<UserId>, open: set<UserId>, msg: ServerMsg, except: Option<UserId>): (out: seq<Delivery>)
    ensures forall d :: d in out ==> d.msg == msg && Receives(d.to, clients, open, except)
    ensures forall u :: Receives(u, clients, open, except) ==> Delivery(u, msg) in out
    ensures NoDuplicates(clients) ==> forall i, j :: 0 <= i < j < |out| ==> out[i].to != out[j].to
    ensures |out| <= |clients|
  {
    if clients == [] then []
    else
      var rest := Broadcast(clients[1..], open, msg, except);
      if clients[0] in open && except != Some(clients[0]) then
        [Delivery(clients[0], msg)] + rest
      else
        rest
  }

  /** The room the connection asks for: its `room` parameter, or "default"
      when the parameter is missing or empty. */
  function ResolveRoomId(param: Option<string>): (id: RoomId)
    ensures id != ""
    ensures param.Some? && param.value != "" ==> id == param.value
    ensures param.None? || param.value == "" ==> id == DefaultRoomId
  {
    match param
    case Some(s) => if s == "" then DefaultRoomId else s
    case None => DefaultRoomId
  }

  /** The welcome roster: every client of the room, each listed with
      `color`, which is the joiner's colour, not the listed user's. */
  function Roster(clients: seq<UserId>, color: Color): (users: seq<UserEntry>)
    ensures |users| == |clients|
    ensures forall i :: 0 <= i < |users| ==> users[i] == UserEntry(clients[i], color)
  {
    seq(|clients|, i requires 0 <= i < |clients| => UserEntry(clients[i], color))
  }

  /** Map.delete on the client map: `u` gone, the others kept in order. */
  function RemoveClient(clients: seq<UserId>, u: UserId): (r: seq<UserId>)
    ensures forall v :: v in r <==> v in clients && v != u
    ensures u !in clients ==> r == clients
  {
    if clients == [] then []
    else
      var rest := RemoveClient(clients[1..], u);
      if clients[0] == u then rest else [clients[0]] + rest
  }

  /** Removing a client from a roster without repeats leaves none. */
  lemma {:induction false} RemoveClientKeepsDistinct(clients: seq<UserId>, u: UserId)
    requires NoDuplicates(clients)
    ensures NoDuplicates(RemoveClient(clients, u))
  {
    if clients != [] {
      RemoveClientKeepsDistinct(clients[1..], u);
      if clients[0] != u {
        assert clients[0] !in clients[1..];
        PrependKeepsDistinct(clients[0], RemoveClient(clients[1..], u));
      }
    }
  }

  lemma PrependKeepsDistinct(x: UserId, s: seq<UserId>)
    requires x !in s && NoDuplicates(s)
    ensures NoDuplicates([x] + s)
  {
    var t := [x] + s;
    forall i, j | 0 <= i < j < |t|
      ensures t[i] != t[j]
    {
      if i == 0 {
        assert t[j] == s[j - 1];
      } else {
        assert t[i] == s[i - 1] && t[j] == s[j - 1];
      }
    }
  }

  lemma AppendKeepsDistinct(s: seq<UserId>, x: UserId)
    requires x !in s && NoDuplicates(s)
    ensures NoDuplicates(s + [x])
  {
  }

  /** The `message` handler, `sender` being the connection it belongs to. */
  function OnMessage(room: Room, sender: UserId, msg: ClientMsg, strokeId: StrokeId, open: set<UserId>): (r: StepResult)
    ensures r.room.id == room.id && r.room.clients == room.clients
    ensures forall d :: d in r.outbox ==> d.to in room.clients && d.to in open
    ensures msg.Malformed? || msg.Unknown? ==> r == StepResult(room, [])
  {
    var others := Some(sender);
    match msg
    case Malformed => StepResult(room, [])
    case StrokeStartMsg(data) =>
      var stroke := StartStroke(strokeId, sender, data);
      StepResult(room.(activeStrokes := room.activeStrokes[sender := stroke]),
                 Broadcast(room.clients, open, Relayed(msg, sender), others))
    case StrokePointMsg(x, y) =>
      if sender !in room.activeStrokes then StepResult(room, [])
      else
        var stroke := AddPoint(room.activeStrokes[sender], Point(x, y));
        StepResult(room.(activeStrokes := room.activeStrokes[sender := stroke]),
                   Broadcast(room.clients, open, Relayed(msg, sender), others))
    case StrokeEndMsg =>
      if sender !in room.activeStrokes then StepResult(room, [])
      else
        StepResult(room.(state := CommitStroke(room.state, room.activeStrokes[sender]),
                         activeStrokes := room.activeStrokes - {sender}),
                   Broadcast(room.clients, open, StrokeEnded(sender), others))
    case CursorMsg(_, _) =>
      StepResult(room, Broadcast(room.clients, open, Relayed(msg, sender), others))
    case UndoMsg =>
      var r := Undo(room.state);
      if r.result.None? then StepResult(room, [])
      else StepResult(room.(state := r.state), Broadcast(room.clients, open, Sync(r.result.value), None))
    case RedoMsg =>
      var r := Redo(room.state);
      if r.result.None? then StepResult(room, [])
      else StepResult(room.(state := r.state), Broadcast(room.clients, open, Sync(r.result.value), None))
    case Unknown(_) => StepResult(room, [])
  }

  /** The `connection` handler once the room is resolved: register the
      client, welcome it with the roster and the committed strokes, and
      announce it to everyone else. */
  function OnConnect(room: Room, id: UserId, color: Color, open: set<UserId>): (r: StepResult)
    ensures forall u :: u in r.room.clients <==> u in room.clients || u == id
    ensures r.room.(clients := room.clients) == room
    ensures r.outbox != [] && r.outbox[0].to == id && r.outbox[0].msg.Welcome?
    ensures forall d :: d in r.outbox[1..] ==> d.msg == UserJoined(id, color) && d.to != id
  {
    var clients := if id in room.clients then room.clients else room.clients + [id];
    var welcome := Delivery(id, Welcome(id, color, Roster(clients, color), GetAllStrokes(room.state)));
    StepResult(room.(clients := clients),
               [welcome] + Broadcast(clients, open, UserJoined(id, color), Some(id)))
  }

  /** The `close` handler: drop the client and tell everyone left. */
  function OnClose(room: Room, id: UserId, open: set<UserId>): (r: StepResult)
    ensures forall u :: u in r.room.clients <==> u in room.clients && u != id
    ensures r.room.(clients := room.clients) == room
    ensures forall d :: d in r.outbox ==> d.msg == UserLeft(id) && d.to != id && d.to in open
  {
    var clients := RemoveClient(room.clients, id);
    StepResult(room.(clients := clients), Broadcast(clients, open, UserLeft(id), None))
  }

  /** The connection handler keeps the room invariant and addresses only
      the room's clients. */
  lemma OnConnectKeeps(room: Room, id: UserId, color: Color, open: set<UserId>)
    requires RoomInvariant(room)
    ensures var r := OnConnect(room, id, color, open);
            RoomInvariant(r.room) && forall d :: d in r.outbox ==> d.to in r.room.clients
  {
    if id !in room.clients {
      AppendKeepsDistinct(room.clients, id);
    }
  }

  /** The message handler keeps the room invariant and addresses only the
      room's clients. */
  lemma OnMessageKeeps(room: Room, sender: UserId, msg: ClientMsg, strokeId: StrokeId, open: set<UserId>)
    requires RoomInvariant(room)
    ensures var r := OnMessage(room, sender, msg, strokeId, open);
            RoomInvariant(r.room) && forall d :: d in r.outbox ==> d.to in r.room.clients
  {
    match msg
    case StrokeEndMsg =>
      if sender in room.activeStrokes {
        OperationsKeepPoints(room.state, room.activeStrokes[sender]);
      }
    case UndoMsg =>
      OperationsKeepPoints(room.state, StartStroke(strokeId, sender, StartData(0, 0, "", "", 0)));
    case RedoMsg =>
      OperationsKeepPoints(room.state, StartStroke(strokeId, sender, StartData(0, 0, "", "", 0)));
    case _ =>
  }

  /** One event on connection `sender` of `room`. The room keeps its id and
      its invariant, and every message goes to a client of the room as it
      is afterwards. */
  function Step(room: Room, sender: UserId, ev: Event, open: set<UserId>): (r: StepResult)
    requires RoomInvariant(room)
    ensures r.room.id == room.id
    ensures RoomInvariant(r.room)
    ensures forall d :: d in r.outbox ==> d.to in r.room.clients
  {
    match ev
    case Connect(color) =>
      OnConnectKeeps(room, sender, color, open);
      OnConnect(room, sender, color, open)
    case Message(msg, strokeId) =>
      OnMessageKeeps(room, sender, msg, strokeId, open);
      OnMessage(room, sender, msg, strokeId, open)
    case Close =>
      RemoveClientKeepsDistinct(room.clients, sender);
      OnClose(room, sender, open)
  }

  /** Server-wide state: the registry together with the room each live
      connection joined (the room its handlers close over). */
  datatype Server = Server(rooms: Registry, roomOf: map<UserId, RoomId>)

  predicate ServerInvariant(s: Server) {
    && RegistryInvariant(s.rooms)
    && forall u :: u in s.roomOf ==> s.roomOf[u] in s.rooms
  }

  datatype ServerStep = ServerStep(server: Server, outbox: seq<Delivery>)

  /** A whole server event: a connection names its room (created on first
      use); later events go to the room the connection joined, which is
      still in the registry because rooms are never removed; after `Close`
      the connection is forgotten. Events on a connection that is not live
      do nothing. */
  function Handle(s: Server, sender: UserId, roomParam: Option<string>, ev: Event, open: set<UserId>): (r: ServerStep)
    requires ServerInvariant(s)
    ensures ServerInvariant(r.server)
    ensures s.rooms.Keys <= r.server.rooms.Keys
    ensures ev.Connect? ==>
              var id := ResolveRoomId(roomParam);
              && id in r.server.rooms
              && sender in r.server.roomOf && r.server.roomOf[sender] == id
              && sender in r.server.rooms[id].clients
  {
    if ev.Connect? then
      var id := ResolveRoomId(roomParam);
      var lookup := GetRoom(s.rooms, Some(id));
      var step := Step(lookup.room, sender, ev, open);
      ServerStep(Server(lookup.registry[id := step.room], s.roomOf[sender := id]), step.outbox)
    else if sender in s.roomOf then
      var id := s.roomOf[sender];
      var step := Step(s.rooms[id], sender, ev, open);
      var roomOf := if ev.Close? then s.roomOf - {sender} else s.roomOf;
      ServerStep(Server(s.rooms[id := step.room], roomOf), step.outbox)
    else
      ServerStep(s, [])
  }

  /** The room an event is applied to: the resolved room on connect, the
      joined room otherwise. */
  function TargetRoom(s: Server, sender: UserId, roomParam: Option<string>, ev: Event): RoomId {
    if ev.Connect? then ResolveRoomId(roomParam)
    else if sender in s.roomOf then s.roomOf[sender]
    else DefaultRoomId
  }
}
