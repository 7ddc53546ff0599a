# Device communication relay: the room registry

The relay server pairs WebSocket clients into rooms named by a client-chosen
code and forwards messages between the members of a room. Its state is:

- one map from room code to the list of connections in that room, in join
  order;
- for each connection, the code of the room it last joined (`currentRoom`).

Three handlers change that state:

- **join** records the code and creates the list if there is none. It appends
  the connection, sends `joined` to the joiner, and sends `connected` to every
  open member when the list has just reached two entries.
- **message** forwards the content to every open member of the sender's room
  except the sender.
- **close** splices the first occurrence of the connection out of its room's
  list. It sends `disconnected` to the open members left and deletes the room
  once its list is empty.

The health endpoint reports the size of the map.

The project has four modules:

- `Json` (json.dfy) models decoded frame values. It covers JavaScript
  truthiness and property lookup, where a missing key reads as `undefined`
  and reading a property of `null` throws.
- `Protocol` (protocol.dfy) models how an inbound frame is dispatched and
  which frames go out. It also holds `Deliveries`, the send loop that all
  three handlers share: walk a list in order and send to each member that
  passes a test.
- `Rooms` (rooms.dfy) models the registry as a value `State` with one
  transition per handler, and holds the lemmas about those transitions.
- `Server` (server.dfy) models the registry as the server keeps it: a class
  `Registry` whose methods update the map, the `currentRoom` map and the
  outbox in place. `SendEach` holds the `forEach` loop. Each method is proved
  to reach exactly the state of the matching `Rooms` transition and to keep
  the invariant that no stored list is empty.

The network is modelled as inputs and outputs:

- Whether a connection is open for writing is decided by the network. Each
  handler receives the set of open connections as a parameter.
- Sent frames are appended to an outbox of (connection, frame) pairs.

The model follows the code as written:

- A join to a room that already holds two connections is appended without a
  cap (`ThirdJoinGrowsRoom`). A relay then reaches every other member of the
  list, not just one partner.
- A connection that joins a second room stays listed in the first
  (`RejoinLeavesStaleEntry`).
- A room whose code is falsy is created by join, but relay and close never act
  on it (`FalsyRoomNeverCleaned`). A join frame without a `roomCode` joins the
  room `undefined`.
- A connection listed twice in one room is sent `connected`, a relayed
  message or `disconnected` once per entry.

## Model

| member | source | states |
|---|---|---|
| Json.Truthy | server.js:56 | `undefined`, `null`, `false`, `0` and `""` are exactly the falsy values; every other value, array and object is truthy |
| Json.Field | server.js:30-33 | a property of a decoded object is the value of the last entry with that key when there is one, and `undefined` when there is none |
| Json.Property | server.js:32-33 | reading a property of `null`/`undefined` throws; primitives and arrays have none of the properties read |
| Json.FieldLastWins | server.js:30 | a later duplicate key overrides an earlier one, whatever follows under other keys |
| Protocol.Classify | server.js:28-69 | a frame is a join exactly when it decodes and `type` is "join", a message exactly when `type` is "message"; the code and the content are the frame's own fields; anything else, including a frame that fails to decode, is ignored |
| Protocol.ClassifyClientFrames | server.js:32-61 | the client frames classify as expected; a join without `roomCode` joins `undefined`; `null` and a bare string are ignored |
| Protocol.Deliveries | server.js:47-51 | a send loop sends only the given frame, only to list members that pass the test, and at most once per entry |
| Protocol.DeliveriesCount | server.js:84-88 | every connection that passes the test receives the frame once per occurrence in the list; nothing else is sent |
| Rooms.ActiveRoom | server.js:56 | relay and close act on the connection's `currentRoom` exactly when it is truthy and a key of the map |
| Rooms.IndexOf | server.js:78 | `indexOf` gives -1 exactly when the connection is absent, and otherwise the index of its first occurrence |
| Rooms.RemoveFirst | server.js:81 | removing the first occurrence leaves the list unchanged if the connection is absent and shortens it by one otherwise |
| Rooms.RemoveFirstMultiset | server.js:81 | removing the first occurrence takes out exactly one copy of the connection |
| Rooms.SpliceRemovesFirst | server.js:78-81 | `splice(indexOf(c), 1)` equals removing the first occurrence of `c` |
| Rooms.Connect | server.js:24-26 | a new connection's `currentRoom` is `null`, so it has no active room; nothing else changes |
| Rooms.Join | server.js:32-53 | join adds the code as a key and appends the joiner to its previous list (or to `[]`); other rooms and other connections keep their state; `currentRoom` becomes the code; the outbox grows, and its first new frame is `joined` with that code, sent to the joiner |
| Rooms.Relay | server.js:54-66 | relay changes neither the map nor any `currentRoom` and only appends frames |
| Rooms.Leave | server.js:72-96 | close, which runs once the connection itself is closed, changes no `currentRoom`, only appends frames, and leaves every room other than the connection's own as it was |
| Rooms.Receive | server.js:28-70 | a frame that is ignored changes nothing |
| Rooms.JoinSends | server.js:43-52 | join sends one `joined` to the joiner with its code, and `connected` to each open member, once per entry, exactly when the list now has two entries; it sends nothing else |
| Rooms.ThirdJoinGrowsRoom | server.js:39-46 | a join to a room with two or more entries grows the list past two and sends only the `joined` frame |
| Rooms.RelaySends | server.js:56-64 | relay sends the content unchanged to each open member of the sender's room other than the sender, once per entry; it sends nothing to the sender and nothing when there is no active room |
| Rooms.NoRoomIsNoop | server.js:56-76 | relay and close are no-ops when `currentRoom` is falsy or not a key of the map |
| Rooms.LeaveRemovesFirst | server.js:76-93 | close removes only the first occurrence; the room is deleted exactly when nothing is left; each open member left gets `disconnected` once per entry and the closed connection gets nothing; a connection absent from its list changes nothing |
| Rooms.JoinPreservesValid | server.js:35-39 | join keeps every stored list non-empty |
| Rooms.LeavePreservesValid | server.js:91-93 | close keeps every stored list non-empty |
| Rooms.ReceivePreservesValid | server.js:28-70 | every inbound frame keeps every stored list non-empty; a frame that fails to decode changes nothing |
| Rooms.ActiveRooms | server.js:20-22 | `activeRooms` is the size of the map, which under the invariant equals the number of rooms holding at least one connection |
| Rooms.JoinLeaveRoundTrip | server.js:32-96 | joining a truthy room the connection is not in, then closing, restores the map; a room the join created is deleted again |
| Rooms.RejoinLeavesStaleEntry | server.js:33-39 | after joining room a and then room b, closing leaves the connection listed in a |
| Rooms.FalsyRoomNeverCleaned | server.js:32-76 | a room with a falsy code is created by join and never touched by relay or close |
| Rooms.ScenarioPairing | server.js:32-53 | two joins to "ABCD" give both `joined` and then both `connected` |
| Rooms.ScenarioRelay | server.js:54-66 | in a paired room, "hi" from one member reaches the other unchanged and is not echoed |
| Rooms.ScenarioLeaving | server.js:72-96 | when one member closes, the other gets one `disconnected`; when it closes too, the room is gone and the count is zero |
| Server.Registry.constructor | server.js:14 | the registry starts with an empty map |
| Server.Registry.ActiveRooms | server.js:21 | under the invariant, the health count is the number of occupied rooms |
| Server.Registry.SendEach | server.js:47-51 | the `forEach` loop appends exactly `Deliveries` of the list to the outbox |
| Server.Registry.Connect | server.js:24-26 | the in-place update reaches the state of `Rooms.Connect` and keeps the invariant |
| Server.Registry.Join | server.js:32-53 | the in-place `set`/`push` and the sends reach the state of `Rooms.Join` and keep the invariant |
| Server.Registry.Relay | server.js:54-66 | the relay loop reaches the state of `Rooms.Relay` and keeps the invariant |
| Server.Registry.Close | server.js:72-96 | the in-place `splice`/`delete` and the sends reach the state of `Rooms.Leave` and keep the invariant |
| Server.Registry.Receive | server.js:28-70 | the message handler reaches the state of `Rooms.Receive` and keeps the invariant |
| Server.PairingThroughRegistry | server.js:24-96 | the pairing scenario driven through the registry object ends with no rooms and the expected frames in order |

## Left out

- The Express app, CORS, the JSON body middleware and the `GET /` route (server.js:1-18). They are HTTP plumbing with no logic.
- Decoding frame text with `JSON.parse` and encoding frames with `JSON.stringify`. Inbound frames arrive already decoded, as `Inbound`, and outbound frames are `Frame` values. As a result, a `joined` frame whose code is `undefined` still carries the code in the model; on the wire `JSON.stringify` drops the field.
- The `ws` library and the changes of `readyState`. The network decides them, so the set of open connections is a parameter of each handler.
- Logging, `process.env.PORT` and `server.listen` (server.js:99-102). They are configuration and I/O only.
- Concurrency. Node runs each handler to completion, so each handler is one atomic transition.
- Room codes that are objects or arrays. JavaScript's `Map` compares them by reference, so every such join creates a new room. The model compares them by value.
- Non-integer numbers. Numbers are modelled as integers, so a room code such as `1.5` cannot be expressed.
- Properties inherited from `Object.prototype`. None of `type`, `roomCode` and `content` is one.
- A message frame without `content` is relayed as `Message(Undefined)` in the model. On the wire `JSON.stringify` drops the field, as it does for `joined`.
- Strings hold Unicode scalar values, so a room code or content with a lone surrogate such as `"\ud800"`, which `JSON.parse` accepts, cannot be expressed.
