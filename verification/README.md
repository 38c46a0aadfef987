# Collaborative whiteboard relay: room state and routing

A Dafny model of the server side of a real-time collaborative whiteboard.
Browser clients draw on a shared canvas. A relay server groups connections
into rooms and keeps an authoritative stroke history per room, so that late
joiners can replay it and undo/redo can resynchronise everyone. The model covers:

- **StrokeLog** (`stroke_log.dfy`, after `server/state-manager.js`): the
  committed strokes and the redo stack as two sequences, with start,
  add-point, commit, undo, redo and snapshot as pure functions. Undo and
  redo return `None` (the source's `null`) when there is nothing to do.
  That is distinct from an empty resulting log.
- **Rooms** (`rooms.dfy`, after `server/rooms.js`): a room (id, clients,
  log, strokes in progress per user) and the registry. The registry is a
  map that `GetRoom` extends by lookup-or-insert and never shrinks.
- **Relay** (`relay.dfy`, after `server/server.js`): `broadcast` and the
  connection, message and close handlers as one pure step,
  (room, sender, event, open connections) → (room', deliveries). A
  server-level `Handle` resolves the room on connect. Later events go to the
  room the connection joined.
- **RelayLemmas** (`relay_lemmas.dfy`): the routing rules. They say which
  events touch which state, which are dropped silently, and who receives
  what. Two worked scenarios are included: one draw gesture, and undo down
  to an empty log.

Abstractions:
- The transport is the set `open` of connection ids whose socket is open.
- A connection is identified by its user id. The socket object is not
  modelled, because each connection has exactly one id.
- `clients` is the sequence of the client map's keys in insertion order.
  This is the order in which JavaScript iterates them.
- The uuid and the random colour are inputs: the `color` of `Connect`, the
  `freshStrokeId` of `Message`, and the connection's `sender` id.
- JSON decoding yields a `ClientMsg`. `Malformed` stands for an
  unparseable payload. `Unknown` stands for any `type` the switch does not
  handle; its `kind` is typed to exclude the six handled names.
- The URL's `room` parameter is an `Option<string>`.

The model follows the code, including these quirks:
- `stroke-rect` has no handler and is dropped like any unknown type. It is
  not committed or relayed.
- On close, the user's stroke in progress is not discarded. The entry stays
  in `activeStrokes` (see `RelayLemmas.CloseEffects`).
- The welcome roster lists every user with the joiner's colour, not each
  user's own colour (server/server.js:42-45, `RelayLemmas.ConnectEffects`).
- An undo/redo whose result is an empty log still sends a `sync`. The
  source's `if (strokes)` treats `[]` as true.

## Model

| member | source | states |
|---|---|---|
| StrokeLog.StartStroke | server/state-manager.js:9-18 | a started stroke carries the given id, author, tool, colour and width, and exactly one point, the message's (x, y); the log is not an input, so it cannot change |
| StrokeLog.AddPoint | server/state-manager.js:20-22 | adding a point lengthens the points by one, keeps the earlier points as a prefix, puts the new point last and changes no other field |
| StrokeLog.StartThenAddPoints | server/state-manager.js:9-22 | a stroke started at a gesture's origin and fed the rest of the gesture holds exactly the gesture's points in order, with the start's id, author and drawing fields |
| StrokeLog.CommitStroke | server/state-manager.js:24-27 | after a commit the log is the old log with the stroke appended (duplicates not prevented) and the redo stack is empty |
| StrokeLog.Undo | server/state-manager.js:29-34 | None exactly when the log is empty, and then nothing changes; otherwise the last stroke moves onto the top of the redo stack and the shortened (possibly empty) log is returned; the total of both sequences is preserved |
| StrokeLog.Redo | server/state-manager.js:36-41 | None exactly when the redo stack is empty, and then nothing changes; otherwise the top of the redo stack goes back onto the end of the log and the lengthened log is returned; the total is preserved |
| StrokeLog.UndoThenRedo | server/state-manager.js:29-41 | undo then redo restores both sequences exactly and returns the original log |
| StrokeLog.RedoThenUndo | server/state-manager.js:29-41 | redo then undo restores both sequences exactly |
| StrokeLog.CommitUndoRedo | server/state-manager.js:24-41 | commit, undo, redo succeeds and leaves the log with the stroke and an empty redo stack |
| StrokeLog.CommitInvalidatesRedo | server/state-manager.js:24-41 | after commit, undo, commit', redo returns None and changes nothing; the log is the old one plus the second stroke only |
| StrokeLog.OperationsKeepPoints | server/state-manager.js:9-41 | commit (of a stroke with points), undo and redo keep every stroke in the log and on the redo stack non-empty |
| StrokeLog.UndoTimesShape | server/state-manager.js:29-34 | when the log is a prefix followed by k strokes, k undos leave the prefix as the log and push the k strokes onto the redo stack in reverse, the earliest undone on top |
| StrokeLog.RedoTimesShape | server/state-manager.js:36-41 | redoing as many times as there are reversed strokes on top of the redo stack appends those strokes to the log in their original order |
| StrokeLog.RedoTimesUndoesUndoTimes | server/state-manager.js:29-41 | k undos followed by k redos restore the log and the redo stack exactly |
| Rooms.NewRoomIsEmpty | server/rooms.js:3-10 | a new room has the requested id, no clients, no strokes in progress, an empty log and redo stack, nothing to undo or redo, and satisfies the room invariant |
| Rooms.NewRoom | server/rooms.js:3-10 | a new room has the requested id, no clients, no strokes in progress, an empty log and redo stack, and satisfies the room invariant |
| Rooms.GetRoom | server/rooms.js:15-20 | the returned room has the requested id (default "default") and is the one stored; an existing id leaves the registry unchanged; a new id adds exactly one fresh room and leaves every other room untouched; the registry invariant is kept |
| Rooms.RoomKey | server/rooms.js:15 | the lookup key is the argument when one is given (the empty string included) and "default" when it is omitted |
| Rooms.GetRoomIdempotent | server/rooms.js:16-19 | a second lookup of the same id returns the same room and the same registry as the first |
| Rooms.GetRoomDefault | server/rooms.js:15 | a lookup with no argument is a lookup of "default" |
| Rooms.GetRoomOnlyGrows | server/rooms.js:12-20 | lookups never remove a room and add at most one |
| Relay.Broadcast | server/server.js:14-21 | exactly the room's open clients other than the excluded one receive the message, each once when clients are distinct, and nobody else receives anything |
| Relay.ResolveRoomId | server/server.js:27-28 | a missing or empty room parameter resolves to "default", any other value to itself; the result is never empty |
| Relay.Roster | server/server.js:42-45 | the welcome roster has one entry per client, in client order, each carrying the joiner's colour rather than the listed user's (see also RelayLemmas.ConnectEffects) |
| Relay.RemoveClient | server/server.js:107 | the removed id is gone and every other client stays; an absent id changes nothing |
| Relay.RemoveClientKeepsDistinct | server/server.js:107 | removing a client from a roster without repeats leaves none |
| Relay.OnConnect | server/server.js:35-49 | the joiner is added to the clients and nothing else in the room changes; the first delivery is the welcome to the joiner and every later one is user-joined to someone else (full effect in RelayLemmas.ConnectEffects) |
| Relay.OnMessage | server/server.js:51-104 | no message changes the room id or the clients; deliveries go only to open clients of the room; an unparseable payload or unhandled type leaves the room unchanged and sends nothing (per-type effects in the RelayLemmas rows) |
| Relay.OnClose | server/server.js:106-109 | the sender, and only the sender, leaves the clients, nothing else in the room changes, and every delivery is user-left to an open client other than the sender (full effect in RelayLemmas.CloseEffects) |
| Relay.OnConnectKeeps | server/server.js:35-49 | joining keeps the room invariant and addresses only clients of the room |
| Relay.OnMessageKeeps | server/server.js:51-104 | every message keeps the room invariant and addresses only clients of the room |
| Relay.Step | server/server.js:23-110 | every event keeps the room's id and invariant (distinct clients, strokes with points, strokes in progress filed under their author) and addresses only clients of the resulting room |
| Relay.Handle | server/server.js:23-35 | connecting creates the room on first use, binds the connection to the resolved room id and makes it a client of that room; the server invariant holds and no room disappears |
| RelayLemmas.ConnectEffects | server/server.js:35-49 | the joiner is appended to the clients and nothing else changes; its welcome comes first, lists every client including itself with the joiner's colour, and carries the committed strokes; every other open client and nobody else gets user-joined |
| RelayLemmas.StrokeStartEffects | server/server.js:60-65 | the sender's stroke in progress becomes a fresh one-point stroke carrying the message's tool, colour and width, replacing any unfinished one; the log, the clients and other users' strokes are unchanged; the message plus `from` goes to every other open client and never to the sender |
| RelayLemmas.StrokePointEffects | server/server.js:67-73 | with a stroke in progress, exactly the new point is appended to it and the message plus `from` is relayed to the other open clients; nothing else changes |
| RelayLemmas.StrokeEndEffects | server/server.js:75-82 | with a stroke in progress, exactly that stroke is committed, the redo stack is cleared, the sender's entry is removed, and only the other open clients get `{stroke-end, from}` |
| RelayLemmas.OrphanStrokeEventsIgnored | server/server.js:67-82 | stroke-point and stroke-end without a stroke in progress change nothing and send nothing |
| RelayLemmas.SilentAndEphemeralEvents | server/server.js:51-103 | an unparseable payload and any unhandled type, stroke-rect included, change nothing and send nothing; a cursor changes nothing and only reaches the other open clients |
| RelayLemmas.UndoMessageEffects | server/server.js:88-94 | on an empty log nothing changes and nothing is sent; otherwise the last stroke moves from the log onto the top of the redo stack and every open client, the sender included, gets a sync with the shortened log |
| RelayLemmas.RedoMessageEffects | server/server.js:96-102 | on an empty redo stack nothing changes and nothing is sent; otherwise the top of the redo stack is popped back onto the end of the log and every open client, the sender included, gets a sync with the new log |
| RelayLemmas.UndoThenRedoRestoresRoom | server/server.js:88-102 | an undo message then a redo message restore the room exactly, and the redo's syncs carry the original log |
| RelayLemmas.CloseEffects | server/server.js:106-109 | close removes only the sender from the clients, leaves the log and every stroke in progress (the sender's too) unchanged, and tells every remaining open client that the sender left |
| RelayLemmas.MessageFootprint | server/server.js:59-103 | no message changes the clients; only stroke-end, undo and redo change the log; only stroke-start, stroke-point and stroke-end change the strokes in progress |
| RelayLemmas.OnlySyncReachesSender | server/server.js:59-103 | the only message a sender can receive in answer to its own message is a sync |
| RelayLemmas.MessageOutboxBound | server/server.js:59-103 | a message causes at most one delivery per client (no client appears twice), and only to open clients of the room |
| RelayLemmas.ProcessMessages | server/server.js:51-104 | processing a connection's messages in order keeps the clients, id and room invariant, delivers only to open clients of the room, and sends at most as many deliveries per message as the room has clients |
| RelayLemmas.DrawScenario | server/server.js:60-82 | start at (10,10), point (20,20), end commits one stroke with exactly those points, and the other client gets the three events in order tagged with the drawer's id |
| RelayLemmas.UndoScenario | server/server.js:88-94 | in a room of two open clients with three committed strokes, three undos sync both clients with 2, 1 and 0 strokes, a fourth sends nothing, and the three strokes end on the redo stack last one first |
| RelayLemmas.ConnectDefaultsRoom | server/server.js:27-35 | a connection with no room parameter, or an empty one, joins room "default" and becomes one of its clients |
| RelayLemmas.HandleIsolation | server/server.js:29-35 | an event changes no room but the one it targets, and every message goes to a client of that room |

## Left out

- HTTP, Express, static file serving and `server.listen` are I/O plumbing. The socket server is reduced to the `open` set and to deliveries as values.
- JSON encoding and decoding and `URLSearchParams` are not modelled. A relay carries the decoded `ClientMsg`, so extra fields a client adds to a message are not represented.
- A payload that parses to `null` is not modelled faithfully. In the source, reading `msg.type` then throws a `TypeError`. There is no `try` around the `switch` (server/server.js:59), so the exception escapes the message listener. The payload is therefore not silently dropped as the model's `Malformed` is. Whether the exception ends the process is not modelled.
- The uuid and `Math.random()` colour generation are inputs, not generated.
- Point coordinates are floats in the source. They are integers here because no arithmetic is done on them.
- In the source, `undo`, `redo` and `getAllStrokes` return the live array, and `addPoint` mutates the stored stroke in place. Here all of these are values. Every consumer serialises or stores the result at once, so behaviour is the same.
- The client (`client/main.js`, `client/canvas.js`, `client/websocket.js`) is rendering and browser socket I/O, so it is out of scope.
- Rectangle strokes (`stroke-rect`) are not given any behaviour, because the server has no handler for them.
- `StrokeLog.GetAllStrokes` has no contract of its own. Its use is stated by `RelayLemmas.ConnectEffects`: the welcome carries exactly the committed strokes.
- RelayLemmas.UndoMessageEffects: states "empty log implies nothing is sent" but not the converse. A non-empty log with no open client also sends nothing; the lemma says who receives the sync when there are open clients.
- RelayLemmas.RedoMessageEffects: same one-directional statement for an empty redo stack, for the same reason.
