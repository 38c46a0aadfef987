/** Routing properties of the relay step: which events touch which part of
    the room, what is dropped silently, and who receives what. */
module RelayLemmas {
  import opened Wrappers
  import opened StrokeLog
  import opened Rooms
  import opened Relay

  /** A connection joins the room it names: it becomes the last client; its
      welcome comes first and lists every client including itself, all with
      the joiner's colour, and the committed strokes; every other open client
      is told it joined, and nothing else changes. */
  lemma ConnectEffects(room: Room, id: UserId, color: Color, open: set<UserId>)
    requires RoomInvariant(room)
    requires id !in room.clients
    ensures var r := Step(room, id, Connect(color), open);
            && r.room == room.(clients := room.clients + [id])
            && |r.outbox| >= 1
            && r.outbox[0].to == id
            && r.outbox[0].msg.Welcome?
            && r.outbox[0].msg.id == id && r.outbox[0].msg.color == color
            && r.outbox[0].msg.strokes == room.state.strokes
            && |r.outbox[0].msg.users| == |room.clients| + 1
            && (forall i :: 0 <= i < |room.clients| ==>
                  r.outbox[0].msg.users[i] == UserEntry(room.clients[i], color))
            && r.outbox[0].msg.users[|room.clients|] == UserEntry(id, color)
            && (forall d :: d in r.outbox[1..] ==>
                  d.msg == UserJoined(id, color) && d.to != id && d.to in room.clients && d.to in open)
            && (forall u :: u in room.clients && u in open ==>
                  Delivery(u, UserJoined(id, color)) in r.outbox[1..])
  {
    var clients := room.clients + [id];
    var r := Step(room, id, Connect(color), open);
    assert r.outbox[1..] == Broadcast(clients, open, UserJoined(id, color), Some(id));
  }

  /** stroke-start files a fresh one-point stroke as the sender's stroke in
      progress (replacing any unfinished one), leaves the log, the clients
      and every other user's stroke alone, and relays the message with the
      sender's id to every other open client. */
  lemma StrokeStartEffects(room: Room, sender: UserId, data: StartData, sid: StrokeId, open: set<UserId>)
    requires RoomInvariant(room)
    ensures var r := Step(room, sender, Message(StrokeStartMsg(data), sid), open);
            && r.room.state == room.state
            && r.room.clients == room.clients
            && r.room.activeStrokes.Keys == room.activeStrokes.Keys + {sender}
            && r.room.activeStrokes[sender].id == sid
            && r.room.activeStrokes[sender].userId == sender
            && r.room.activeStrokes[sender].points == [Point(data.x, data.y)]
            && r.room.activeStrokes[sender].tool == data.tool
            && r.room.activeStrokes[sender].color == data.color
            && r.room.activeStrokes[sender].width == data.width
            && (forall u :: u in room.activeStrokes && u != sender ==>
                  r.room.activeStrokes[u] == room.activeStrokes[u])
            && (forall d :: d in r.outbox ==>
                  d.msg == Relayed(StrokeStartMsg(data), sender) && d.to != sender)
            && (forall u :: u in room.clients && u in open && u != sender ==>
                  Delivery(u, Relayed(StrokeStartMsg(data), sender)) in r.outbox)
  {
  }

  /** stroke-point on a stroke in progress appends exactly that point to it
      and relays the message to every other open client; the log and the
      other users' strokes are untouched. */
  lemma StrokePointEffects(room: Room, sender: UserId, x: int, y: int, sid: StrokeId, open: set<UserId>)
    requires RoomInvariant(room)
    requires sender in room.activeStrokes
    ensures var r := Step(room, sender, Message(StrokePointMsg(x, y), sid), open);
            var before := room.activeStrokes[sender];
            && r.room.state == room.state
            && r.room.clients == room.clients
            && r.room.activeStrokes.Keys == room.activeStrokes.Keys
            && r.room.activeStrokes[sender].points == before.points + [Point(x, y)]
            && r.room.activeStrokes[sender].(points := before.points) == before
            && (forall u :: u in room.activeStrokes && u != sender ==>
                  r.room.activeStrokes[u] == room.activeStrokes[u])
            && (forall d :: d in r.outbox ==>
                  d.msg == Relayed(StrokePointMsg(x, y), sender) && d.to != sender)
            && (forall u :: u in room.clients && u in open && u != sender ==>
                  Delivery(u, Relayed(StrokePointMsg(x, y), sender)) in r.outbox)
  {
  }

  /** stroke-end on a stroke in progress commits exactly that stroke (which
      clears the redo stack), drops the sender's entry, and tells every other
      open client that the sender finished. */
  lemma StrokeEndEffects(room: Room, sender: UserId, sid: StrokeId, open: set<UserId>)
    requires RoomInvariant(room)
    requires sender in room.activeStrokes
    ensures var r := Step(room, sender, Message(StrokeEndMsg, sid), open);
            && r.room.state.strokes == room.state.strokes + [room.activeStrokes[sender]]
            && r.room.state.redoStack == []
            && r.room.activeStrokes == room.activeStrokes - {sender}
            && r.room.clients == room.clients
            && (forall d :: d in r.outbox ==> d.msg == StrokeEnded(sender) && d.to != sender)
            && (forall u :: u in room.clients && u in open && u != sender ==>
                  Delivery(u, StrokeEnded(sender)) in r.outbox)
  {
    var r := Step(room, sender, Message(StrokeEndMsg, sid), open);
    assert r.room.state == CommitStroke(room.state, room.activeStrokes[sender]);
  }

  /** A stroke-point or stroke-end from a user with no stroke in progress
      changes nothing and sends nothing. */
  lemma OrphanStrokeEventsIgnored(room: Room, sender: UserId, x: int, y: int, sid: StrokeId, open: set<UserId>)
    requires RoomInvariant(room)
    requires sender !in room.activeStrokes
    ensures Step(room, sender, Message(StrokePointMsg(x, y), sid), open) == StepResult(room, [])
    ensures Step(room, sender, Message(StrokeEndMsg, sid), open) == StepResult(room, [])
  {
  }

  /** An unparseable payload and any unhandled type (stroke-rect included)
      change nothing and send nothing; a cursor changes nothing and is only
      relayed to the other open clients. */
  lemma SilentAndEphemeralEvents(room: Room, sender: UserId, kind: UnhandledType, x: int, y: int, sid: StrokeId, open: set<UserId>)
    requires RoomInvariant(room)
    ensures Step(room, sender, Message(Malformed, sid), open) == StepResult(room, [])
    ensures Step(room, sender, Message(Unknown(kind), sid), open) == StepResult(room, [])
    ensures var r := Step(room, sender, Message(CursorMsg(x, y), sid), open);
            && r.room == room
            && (forall d :: d in r.outbox ==> d.msg == Relayed(CursorMsg(x, y), sender) && d.to != sender)
            && (forall u :: u in room.clients && u in open && u != sender ==>
                  Delivery(u, Relayed(CursorMsg(x, y), sender)) in r.outbox)
  {
  }

  /** undo sends nothing and changes nothing when the log is empty;
      otherwise it removes the last stroke and every open client, the sender
      included, gets a sync carrying the shortened log. */
  lemma UndoMessageEffects(room: Room, sender: UserId, sid: StrokeId, open: set<UserId>)
    requires RoomInvariant(room)
    ensures var r := Step(room, sender, Message(UndoMsg, sid), open);
            && (room.state.strokes == [] ==> r.outbox == [])
            && (room.state.strokes == [] ==> r.room == room)
            && r.room.clients == room.clients && r.room.activeStrokes == room.activeStrokes
            && (room.state.strokes != [] ==>
                  && r.room.state.strokes == DropLast(room.state.strokes)
                  && r.room.state.redoStack == room.state.redoStack + [Last(room.state.strokes)]
                  && (forall d :: d in r.outbox ==> d.msg == Sync(r.room.state.strokes))
                  && (forall u :: u in room.clients && u in open ==>
                        Delivery(u, Sync(r.room.state.strokes)) in r.outbox))
  {
  }

  /** redo sends nothing and changes nothing when the redo stack is
      empty; otherwise it restores the top stroke and every open client, the
      sender included, gets a sync carrying the lengthened log. */
  lemma RedoMessageEffects(room: Room, sender: UserId, sid: StrokeId, open: set<UserId>)
    requires RoomInvariant(room)
    ensures var r := Step(room, sender, Message(RedoMsg, sid), open);
            && (room.state.redoStack == [] ==> r.outbox == [])
            && (room.state.redoStack == [] ==> r.room == room)
            && r.room.clients == room.clients && r.room.activeStrokes == room.activeStrokes
            && (room.state.redoStack != [] ==>
                  && r.room.state.strokes == room.state.strokes + [Last(room.state.redoStack)]
                  && r.room.state.redoStack == DropLast(room.state.redoStack)
                  && (forall d :: d in r.outbox ==> d.msg == Sync(r.room.state.strokes))
                  && (forall u :: u in room.clients && u in open ==>
                        Delivery(u, Sync(r.room.state.strokes)) in r.outbox))
  {
    var r := Step(room, sender, Message(RedoMsg, sid), open);
    if room.state.redoStack != [] {
      assert r.room.state.strokes == DropLast(r.room.state.strokes) + [Last(r.room.state.strokes)];
    }
  }

  /** An undo message followed by a redo message from anyone restores the
      room exactly, and the redo's sync carries the original log. */
  lemma UndoThenRedoRestoresRoom(room: Room, a: UserId, b: UserId, s1: StrokeId, s2: StrokeId, open: set<UserId>)
    requires RoomInvariant(room)
    requires room.state.strokes != []
    ensures var r1 := Step(room, a, Message(UndoMsg, s1), open);
            var r2 := Step(r1.room, b, Message(RedoMsg, s2), open);
            && r2.room == room
            && forall d :: d in r2.outbox ==> d.msg == Sync(room.state.strokes)
  {
    UndoThenRedo(room.state);
  }

  /** close removes the sender from the clients and nothing else: the log
      and every stroke in progress, the sender's included, stay as they
      were; every remaining open client is told the sender left. */
  lemma CloseEffects(room: Room, sender: UserId, open: set<UserId>)
    requires RoomInvariant(room)
    ensures var r := Step(room, sender, Close, open);
            && (forall u :: u in r.room.clients <==> u in room.clients && u != sender)
            && r.room.state == room.state
            && r.room.activeStrokes == room.activeStrokes
            && (forall d :: d in r.outbox ==> d.msg == UserLeft(sender) && d.to != sender)
            && (forall u :: u in room.clients && u in open && u != sender ==>
                  Delivery(u, UserLeft(sender)) in r.outbox)
  {
  }

  /** Only stroke-end, undo and redo touch the log; only stroke-start,
      stroke-point and stroke-end touch the strokes in progress; no message
      changes the clients. */
  lemma MessageFootprint(room: Room, sender: UserId, msg: ClientMsg, sid: StrokeId, open: set<UserId>)
    requires RoomInvariant(room)
    ensures var r := Step(room, sender, Message(msg, sid), open);
            && r.room.clients == room.clients
            && (!(msg.StrokeEndMsg? || msg.UndoMsg? || msg.RedoMsg?) ==> r.room.state == room.state)
            && (!(msg.StrokeStartMsg? || msg.StrokePointMsg? || msg.StrokeEndMsg?) ==>
                  r.room.activeStrokes == room.activeStrokes)
  {
  }

  /** Relayed messages and stroke-end notices never go back to the sender;
      syncs are the only messages that can. */
  lemma OnlySyncReachesSender(room: Room, sender: UserId, msg: ClientMsg, sid: StrokeId, open: set<UserId>)
    requires RoomInvariant(room)
    ensures var r := Step(room, sender, Message(msg, sid), open);
            forall d :: d in r.outbox && d.to == sender ==> d.msg.Sync?
  {
  }

  /** A message's deliveries go to open clients of the room, at most one
      per client. */
  lemma MessageOutboxBound(room: Room, sender: UserId, msg: ClientMsg, sid: StrokeId, open: set<UserId>)
    requires RoomInvariant(room)
    ensures var r := Step(room, sender, Message(msg, sid), open);
            && |r.outbox| <= |room.clients|
            && (forall d :: d in r.outbox ==> d.to in room.clients && d.to in open)
            && (forall i, j :: 0 <= i < j < |r.outbox| ==> r.outbox[i].to != r.outbox[j].to)
  {
  }

  /** Handles the messages of one connection in arrival order, each to
      completion before the next, as the single-threaded event loop does;
      `ids` are the fresh stroke ids the messages would draw. The clients
      never change, the room invariant holds throughout, and every delivery
      goes to an open client of the room. */
  method ProcessMessages(room: Room, sender: UserId, msgs: seq<ClientMsg>, ids: seq<StrokeId>, open: set<UserId>)
    returns (r: Room, out: seq<Delivery>)
    requires RoomInvariant(room)
    requires |ids| == |msgs|
    ensures RoomInvariant(r)
    ensures r.id == room.id && r.clients == room.clients
    ensures forall d :: d in out ==> d.to in room.clients && d.to in open
    ensures |out| <= |msgs| * |room.clients|
  {
    r, out := room, [];
    var i := 0;
    while i < |msgs|
      invariant 0 <= i <= |msgs|
      invariant RoomInvariant(r)
      invariant r.id == room.id && r.clients == room.clients
      invariant forall d :: d in out ==> d.to in room.clients && d.to in open
      invariant |out| <= i * |room.clients|
    {
      var step := Step(r, sender, Message(msgs[i], ids[i]), open);
      MessageOutboxBound(r, sender, msgs[i], ids[i], open);
      MessageFootprint(r, sender, msgs[i], ids[i], open);
      r, out := step.room, out + step.outbox;
      assert (i + 1) * |room.clients| == i * |room.clients| + |room.clients|;
      i := i + 1;
    }
  }

  /** The drawing scenario: A starts a brush stroke at (10,10), moves to
      (20,20) and lifts. The log then holds exactly one stroke with those two
      points, and the other client B gets the three events in order, each
      tagged with A's id, while A gets nothing. */
  lemma DrawScenario(a: UserId, b: UserId, sid: StrokeId, s2: StrokeId, s3: StrokeId)
    requires a != b
    ensures var room := Room("default", [a, b], Initial(), map[]);
            var open := {a, b};
            var start := StrokeStartMsg(StartData(10, 10, "brush", "#000", 4));
            var r1 := Step(room, a, Message(start, sid), open);
            var r2 := Step(r1.room, a, Message(StrokePointMsg(20, 20), s2), open);
            var r3 := Step(r2.room, a, Message(StrokeEndMsg, s3), open);
            && r3.room.state.strokes == [Stroke(sid, a, "brush", "#000", 4, [Point(10, 10), Point(20, 20)])]
            && r3.room.activeStrokes == map[]
            && r1.outbox + r2.outbox + r3.outbox ==
               [Delivery(b, Relayed(start, a)),
                Delivery(b, Relayed(StrokePointMsg(20, 20), a)),
                Delivery(b, StrokeEnded(a))]
  {
    var room := Room("default", [a, b], Initial(), map[]);
    var open := {a, b};
    var data := StartData(10, 10, "brush", "#000", 4);
    var start := StrokeStartMsg(data);
    assert RoomInvariant(room);
    assert [a, b][1..] == [b];
    assert Broadcast([b], open, Relayed(start, a), Some(a)) == [Delivery(b, Relayed(start, a))];
    var s0 := StartStroke(sid, a, data);
    var r1 := Step(room, a, Message(start, sid), open);
    assert r1 == StepResult(room.(activeStrokes := map[a := s0]), [Delivery(b, Relayed(start, a))]);
    var s1 := AddPoint(s0, Point(20, 20));
    assert s1 == Stroke(sid, a, "brush", "#000", 4, [Point(10, 10), Point(20, 20)]);
    assert Broadcast([b], open, Relayed(StrokePointMsg(20, 20), a), Some(a)) == [Delivery(b, Relayed(StrokePointMsg(20, 20), a))];
    var r2 := Step(r1.room, a, Message(StrokePointMsg(20, 20), s2), open);
    assert r2 == StepResult(room.(activeStrokes := map[a := s1]), [Delivery(b, Relayed(StrokePointMsg(20, 20), a))]);
    assert Broadcast([b], open, StrokeEnded(a), Some(a)) == [Delivery(b, StrokeEnded(a))];
    var r3 := Step(r2.room, a, Message(StrokeEndMsg, s3), open);
    assert map[a := s1] - {a} == map[];
    assert r3 == StepResult(room.(state := DrawingState([s1], []), activeStrokes := map[]), [Delivery(b, StrokeEnded(a))]);
  }

  /** The undo scenario: in a room of two open clients with three committed
      strokes, three undos each sync both clients with two, one and then
      zero strokes; a fourth undo sends nothing. */
  lemma UndoScenario(room: Room, a: UserId, b: UserId, x: Stroke, y: Stroke, z: Stroke, sid: StrokeId)
    requires a != b && room.clients == [a, b] && RoomInvariant(room)
    requires room.state.strokes == [x, y, z]
    ensures var open := {a, b};
            var r1 := Step(room, a, Message(UndoMsg, sid), open);
            var r2 := Step(r1.room, a, Message(UndoMsg, sid), open);
            var r3 := Step(r2.room, a, Message(UndoMsg, sid), open);
            var r4 := Step(r3.room, a, Message(UndoMsg, sid), open);
            && r1.outbox == [Delivery(a, Sync([x, y])), Delivery(b, Sync([x, y]))]
            && r2.outbox == [Delivery(a, Sync([x])), Delivery(b, Sync([x]))]
            && r3.outbox == [Delivery(a, Sync([])), Delivery(b, Sync([]))]
            && r4.outbox == []
            && r4.room.state == DrawingState([], room.state.redoStack + [z, y, x])
  {
    var open := {a, b};
    var redo := room.state.redoStack;
    var s1 := room.(state := DrawingState([x, y], redo + [z]));
    var s2 := room.(state := DrawingState([x], redo + [z, y]));
    var s3 := room.(state := DrawingState([], redo + [z, y, x]));
    assert Step(room, a, Message(UndoMsg, sid), open) ==
           StepResult(s1, [Delivery(a, Sync([x, y])), Delivery(b, Sync([x, y]))]) by {
      assert [x, y, z] == [x, y] + [z];
      UndoInTwoClientRoom(room, a, b, [x, y], z, sid);
    }
    assert Step(s1, a, Message(UndoMsg, sid), open) ==
           StepResult(s2, [Delivery(a, Sync([x])), Delivery(b, Sync([x]))]) by {
      assert [x, y] == [x] + [y];
      assert (redo + [z]) + [y] == redo + [z, y];
      UndoInTwoClientRoom(s1, a, b, [x], y, sid);
    }
    assert Step(s2, a, Message(UndoMsg, sid), open) ==
           StepResult(s3, [Delivery(a, Sync([])), Delivery(b, Sync([]))]) by {
      assert [x] == [] + [x];
      assert (redo + [z, y]) + [x] == redo + [z, y, x];
      UndoInTwoClientRoom(s2, a, b, [], x, sid);
    }
  }

  /** One undo in a room whose two clients are both open. */
  lemma UndoInTwoClientRoom(room: Room, a: UserId, b: UserId, front: seq<Stroke>, x: Stroke, sid: StrokeId)
    requires a != b && room.clients == [a, b] && RoomInvariant(room)
    requires room.state.strokes == front + [x]
    ensures Step(room, a, Message(UndoMsg, sid), {a, b}) ==
            StepResult(room.(state := DrawingState(front, room.state.redoStack + [x])),
                       [Delivery(a, Sync(front)), Delivery(b, Sync(front))])
  {
    UndoStep(room.state, front, x);
    SyncToBoth(a, b, front);
  }

  lemma SyncToBoth(a: UserId, b: UserId, log: seq<Stroke>)
    requires a != b
    ensures Broadcast([a, b], {a, b}, Sync(log), None) == [Delivery(a, Sync(log)), Delivery(b, Sync(log))]
  {
    assert [a, b][1..] == [b];
    assert [b][1..] == [];
  }

  /** A connection that names no room, or an empty one, joins "default". */
  lemma ConnectDefaultsRoom(s: Server, sender: UserId, color: Color, open: set<UserId>)
    requires ServerInvariant(s)
    ensures Handle(s, sender, None, Connect(color), open) == Handle(s, sender, Some(""), Connect(color), open)
    ensures var r := Handle(s, sender, None, Connect(color), open);
            && DefaultRoomId in r.server.rooms
            && r.server.roomOf[sender] == DefaultRoomId
            && sender in r.server.rooms[DefaultRoomId].clients
  {
  }

  /** Rooms are isolated: an event changes no room but its own, and every
      message it causes goes to a client of that room. */
  lemma HandleIsolation(s: Server, sender: UserId, roomParam: Option<string>, ev: Event, open: set<UserId>)
    requires ServerInvariant(s)
    ensures var r := Handle(s, sender, roomParam, ev, open);
            var target := TargetRoom(s, sender, roomParam, ev);
            && (forall k :: k in s.rooms && k != target ==> r.server.rooms[k] == s.rooms[k])
            && (forall d :: d in r.outbox ==>
                  target in r.server.rooms && d.to in r.server.rooms[target].clients)
  {
  }
}
