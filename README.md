# websocket-server: the registry and the message router, in Dafny

This project models the core of the Go package `server` of
G-MAKROGLOU/websocket-server. It is a WebSocket server that keeps three
process-wide tables:

- `allCons`: session id to connection;
- `rooms`: room name to the ordered list of its connections;
- `connToRoom`: connection to the room it last joined.

Each inbound JSON message is routed by its reserved type key. A message can
join a room, leave it, disconnect, multicast to a room or broadcast to every
connection. Writes go out through the transport, and the embedding
application's event callbacks are told of each send and each send error.

The package exists in two variants:

- `server.go`: keys `Gm_Ws_Type`/`Gm_Ws_Room`, tags `gm_ws_*`, built by
  `NewSocketServer`.
- `server/server.go`: keys `GmWsType`/`GmWsRoom`, bare tags, built by `New`
  from `defaultConfig` and configuration functions.

Their table edits (`addToRoom`, `removeFromRoom`, `disconnect`) have the same
text, so `Registry` models them once. Each variant keeps its own tables.

Modules:

- `Protocol` (protocol.dfy): connections, payloads, commands, and the decoding
  of one message. The decoding is shared by both variants through a `Dialect`,
  which holds a variant's reserved keys and tags.
- `Cookie` (cookie.dfy): the session id, read as `strings.Split(cookie, "=")[1]`.
- `Registry` (registry.dfy): the three tables as the class `Tables`, with
  registration, `addToRoom`, `removeFromRoom` and `disconnect` as methods.
  Each method is proved equal to a function on a snapshot of the tables:
  `Joined`, `Left` or `Disconnected`.
- `Delivery` (delivery.dfy): what a fan-out does, on values. A fan-out writes
  to its targets in order and stops at the first failed write. The class
  `Outbox` runs the shared write loop and records a ghost event log.
- `RootServer` (root_server.dfy) and `GmServer` (gm_server.dfy): one
  `SocketServer` class per variant. Each has a step of the receive loop,
  `sendJSON` and `sendJSONTo`. `GmServer` also has `defaultConfig` and `New`.

Inputs the program does not control are parameters:

- Writes fail or succeed as the set `failing` says. It holds the numbers of
  the write attempts, counted from 0 within one fan-out call, that fail.
- A `range` over the `allCons` map visits keys in Go's unspecified order. That
  order is given as a sequence `order` of the map's keys.
- `ws.Close()` adds the connection to the ghost set `Tables.closed`.
- The transport's writes and the callbacks are ghost `Event`s in `Outbox.log`.

The source's defects are modelled as written:

- A join neither de-duplicates nor leaves the previous room.
- A failed broadcast write calls `disconnect` with the sender's session id and
  the failing recipient's connection.
- A failed multicast write disconnects the sender.
- Both fan-outs stop at the first failure.
- A broadcast strips only the type key, so a room key the message carries is
  forwarded to every recipient (`Protocol.BroadcastForwardsRoomKey`). Only a
  multicast strips both reserved keys.

## Model

| member | source | states |
|---|---|---|
| Cookie.Split | server.go:57 | `strings.Split` on one character gives one piece more than there are separators, and no piece contains the separator |
| Cookie.SplitJoin | server.go:57 | joining the pieces with the separator gives back the header |
| Cookie.SplitAtFirst | server.go:57 | the first piece is the text before the first separator, and the rest is the split of what follows it |
| Cookie.SessionIdOf | server.go:57 | the session id exists iff the header contains `=`; otherwise the source's index `[1]` panics; the id never contains `=` |
| Cookie.SessionIdOfPair | server.go:57 | for `key=id` and `key=id=rest` the id is the text between the first `=` and the next `=` or the end |
| Registry.Tables.Accept | server.go:57-61 | the handler registers `allCons[sessID] := ws`, overwriting any earlier entry, exactly when the cookie yields an id; nothing else changes |
| Registry.Tables.constructor | server.go:12-18 | the three tables start empty and no connection is closed |
| Registry.Without | server.go:164-170 | the filtered list holds exactly the entries other than `c`, and is no longer than the original |
| Registry.WithoutAbsent | server.go:164-170 | filtering out a connection that is not listed leaves the list unchanged |
| Registry.WithoutAppend | server.go:164-170 | filtering works piecewise, so the kept connections stay in their original relative order |
| Registry.WithoutCount | server.go:164-170 | every copy of `ws` goes, and every other connection keeps its number of copies |
| Registry.WithoutTwice | server.go:164-170 | filtering twice gives the same list as filtering once |
| Registry.Joined | server.go:141-151 | a join maps `ws` to the room and creates `[ws]` for a missing room or appends `ws` at the end; one more copy of `ws`; other rooms and `allCons` unchanged |
| Registry.JoinDoesNotLeavePreviousRoom | server.go:141-151 | after joining two rooms, `ws` is still listed in the first, and a disconnect cleans only the second, leaving a stale entry |
| Registry.Left | server.go:162-174 | a leave sets the room to its old list without `ws`, in order, creating an empty room if it was missing; it deletes `connToRoom[ws]` unconditionally; other rooms and `allCons` unchanged |
| Registry.LeaveIdempotent | server.go:162-174 | a second `removeFromRoom` with the same arguments changes nothing |
| Registry.LeaveUndoesJoin | server.go:141-174 | leaving the room just joined restores the room's old list without `ws`, drops earlier duplicates too, and removes the reverse entry |
| Registry.Disconnected | server.go:185-192 | afterwards `ws` has no reverse entry and is absent from its mapped room, and `sessID` is not registered; other rooms and other registrations unchanged |
| Registry.DisconnectIdempotent | server.go:185-192 | a second `disconnect(sessID, ws)` changes none of the tables |
| Registry.Tables.AddToRoom | server.go:134-152 | `addToRoom` changes the tables as `Joined` says, and closes nothing |
| Registry.Tables.RemoveFromRoom | server.go:155-175 | the append loop builds the filtered list, and the tables change as `Left` says |
| Registry.Tables.Disconnect | server.go:178-195 | the tables change as `Disconnected` says, and `ws` is closed |
| Protocol.Decode | server.go:70-95 | exactly one command per recognised tag and `Ignore` for any other; the room comes from the room key. A multicast forwards every key but the two reserved ones; a broadcast forwards every key but the type key, including the room key if present |
| Protocol.BroadcastForwardsRoomKey | server.go:92-94 | a broadcast message that carries the room key forwards it, with its value, to the recipients |
| Protocol.WellFormed | server.go:70-88 | the messages whose type assertions all succeed: the type is a string, and so is the room for a join, a leave or a multicast |
| RootServer.TagsDistinct | server.go:70-93 | the variant's reserved keys are different and its five tags are non-empty and pairwise different |
| RootServer.SocketServer.NewSocketServer | server.go:36-42 | the server holds the given path, port and event sink, and an empty log |
| RootServer.SocketServer.Step | server.go:63-96 | one received message changes the tables, the closed set and the log as its command says: join, leave and disconnect edit the tables; multicast and broadcast fan out; anything else, including an empty type, does nothing |
| RootServer.SocketServer.SendJson | server.go:100-112 | a broadcast writes to the recipients in visiting order until the first failure. On a failure it runs `disconnect(sessID, failing recipient)`, closes that recipient and logs `OnSendError` with no connection |
| RootServer.SocketServer.SendJsonTo | server.go:115-132 | a multicast writes to the room's other members in list order until the first failure. On a failure it disconnects and closes the sender and logs `OnSendError` |
| Delivery.Recipients | server.go:101-102 | the connections a broadcast writes to: the visited connections other than the sender, in visiting order, never the sender and no more than the visited keys |
| Delivery.Values | server.go:101 | the connections a range over `allCons` visits, one per visited key, in visiting order |
| Delivery.ValuesAppend | server.go:101 | visiting keys `a` then `b` visits `a`'s connections first |
| Delivery.BroadcastTargets | server.go:101-102 | a broadcast writes to exactly the connections of visited keys, except the sender's, compared by identity |
| Delivery.RecipientsAppend | server.go:101-102 | the recipients of a visit in two parts are the first part's recipients followed by the second's |
| Delivery.RecipientsAreAllOthers | server.go:101-102 | when every key is visited once, the recipients are all registered connections but the sender |
| Delivery.MulticastTargets | server.go:119-122 | a multicast writes to the room's members other than the sender, each as often as the room lists it; a missing room reads as empty |
| Delivery.WithoutStep | server.go:121-122 | each step of the loop extends the filtered prefix by the current entry unless it is the sender |
| Delivery.FirstFailure | server.go:123-127 | the first failing attempt at or after `from`, or `n` when every attempt up to `n` succeeds |
| Delivery.FirstFailureStep | server.go:123-129 | a success with no failure before it pushes the first failure past it |
| Delivery.Deliver | server.go:121-131 | a fan-out delivers to a prefix of its targets and stops: it fails iff that prefix is short, and the failing connection is the next target |
| Delivery.DeliverShape | server.go:121-131 | a fan-out delivers to a prefix of its targets, all of whose writes succeed; it fails iff the prefix is not all of them, and then at the next target, whose write failed |
| Delivery.DeliverStopsAt | server.go:123-127 | when attempts before `k` succeed and attempt `k` fails, exactly the first `k` targets receive the payload and target `k` is reported |
| Delivery.DeliverAll | server.go:121-131 | when every attempt succeeds, every target receives the payload and nothing fails |
| Delivery.Successes | server.go:123-129 | the successful writes contribute two log entries each, a delivery and its `OnSend` callback |
| Delivery.SuccessesContents | server.go:123-129 | the `i`-th successful write puts the delivery at position `2 * i` of the log and its `OnSend` right after it |
| Delivery.Trace | server.go:123-129 | a fan-out's log is its successes, in order, followed by one `OnSendError` for the failing connection when it failed |
| Delivery.SuccessesAppend | server.go:123-129 | one more successful write appends its delivery and its `OnSend` to the log |
| Delivery.Outbox.SendEach | server.go:121-131 | the write loop returns the failing target iff a write fails, and logs exactly the successful writes, each followed by `OnSend`, in order |
| Delivery.AfterBroadcast | server.go:103-107 | a failed broadcast runs `disconnect` with the sender's session id and the failing recipient's connection: the session id is unregistered and the recipient has no reverse entry. A successful one changes nothing |
| Delivery.AfterMulticast | server.go:123-127 | a failed multicast runs `disconnect(sessID, ws)`: the sender's session id is unregistered and the sender has no reverse entry. A successful one changes nothing |
| Delivery.BroadcastReachesAllOthers | server.go:100-111 | a broadcast whose writes all succeed reaches every registered connection but the sender, and changes no table |
| Delivery.EnumerationSize | server.go:101 | a visit of every key once is as long as the map |
| Delivery.BroadcastFailureEvicts | server.go:103-107 | a failed broadcast removes the sender's registration and the failing recipient's reverse entry and room membership; the later recipients get nothing |
| Delivery.MulticastFailureEvictsSender | server.go:123-127 | a failed multicast disconnects the sender. The failing recipient keeps its reverse entry and its copies in every room, and every registration but the sender's is kept |
| Delivery.WithoutOnly | server.go:121-122 | filtering a list that holds only the sender leaves nothing |
| Delivery.LoneSenderMulticast | server.go:119-122 | a multicast to a room listing only the sender writes nothing and changes nothing |
| GmServer.TagsDistinct | server/server.go:70-93 | the variant's reserved keys are different and its five tags are non-empty and pairwise different |
| GmServer.DefaultConfig | server/server.go:49-54 | the default configuration: path `/ws`, port `:3000`, and no event sink |
| GmServer.Applied | server/server.go:26-28 | the configuration after the functions have run in argument order: an empty list of functions leaves it unchanged, and a single function is applied to the starting configuration |
| GmServer.AppliedFirst | server/server.go:26-28 | the first configuration function runs first, on the starting configuration, and the rest run on its result |
| GmServer.AppliedAppend | server/server.go:26-28 | applying a list of configuration functions is applying its parts in turn, in argument order |
| GmServer.UntouchedFieldKept | server/server.go:26-28 | a field that no configuration function writes keeps its starting value |
| GmServer.LastWriterWins | server/server.go:26-28 | the last configuration function that writes a field decides its value |
| GmServer.New | server/server.go:22-31 | the server is the default config with `events` set, transformed by each configuration function in order. With no functions it is `Path == "/ws"`, `Port == ":3000"`, `events` as given, with an empty log |
| GmServer.SocketServer.Of | server/server.go:30 | the server holds exactly the configuration it is built from |
| GmServer.SocketServer.Step | server/server.go:63-96 | after a successful receive, one message changes the tables, the closed set and the log as its command says; an unrecognised or empty type does nothing |
| GmServer.SocketServer.SendJson | server/server.go:100-112 | as in the first variant. On a failure it runs `disconnect(sessID, failing recipient)` and logs `OnSendError` with the sender's connection |
| GmServer.SocketServer.SendJsonTo | server/server.go:115-132 | as in the first variant. On a failure it disconnects the sender and logs `OnSendError` with the sender's connection |

server/server.go:134-195 has the same text as server.go:134-195, so the
`Registry` rows model both files' table edits. For the same reason,
`Cookie.SessionIdOf` and `Registry.Tables.Accept` model server/server.go:57-61
too. `Protocol.Decode` models server/server.go:70-95 once `GmServer.Tags` is
the dialect.

Some helpers stand for single source reads:

- `Registry.Members` is Go's read of `rooms[room]`, which gives the nil
  (empty) slice for a missing room (server.go:119, 143, 162).
- `GmServer.Initial` is the default configuration with `events` set
  (server/server.go:23-24).
- `Delivery.BroadcastClosed` and `Delivery.MulticastClosed` are the
  `ws.Close()` of `disconnect` (server.go:194), reached from the failure paths
  at server.go:105 (the failing recipient) and server.go:125 (the sender).

The fan-out methods are shaped slightly differently from the source, with the
same effects in the same order. In the source, each `sendJSON`/`sendJSONTo`
loop calls `disconnect` and the error callback inside the body and then
returns. In the model, `Outbox.SendEach` holds the write loop and returns at
the first failed write with the failing connection. The caller then
disconnects and logs `OnSendError`.

## Left out

- `Start`, `Stop`, `http.Handle`, `ListenAndServe`, `Shutdown`, the
  `OnStartError` callback and the start-up `fmt.Println` are HTTP serving and
  console I/O. They are not modelled (server.go:45-54, server/server.go:34-47).
- The receive loop itself is not modelled, and neither is `websocket.JSON.Receive`.
  `Step` is one turn after a successful receive. In the first variant a
  receive error ends the loop.
- A receive error in the second variant is not modelled. There the
  `onReceiveError` callback fires and the loop carries on with a nil message.
  Its type assertion then panics (server/server.go:66-70).
- The mutexes are not modelled; each operation's sequential effect is. The
  source nests non-reentrant locks, which would deadlock in Go:
  - `disconnect` holds `connToRoomMutex` (server.go:182). When `ws` has a
    `connToRoom` entry it calls `removeFromRoom` (server.go:188), which
    blocks locking the same mutex again (server.go:156). Without an entry,
    `removeFromRoom` is not called and nothing blocks. Every path into
    `disconnect` inherits this: the disconnect message and both fan-out
    failure paths.
  - `sendJSONTo` also holds `roomsMutex` (server.go:116) on its failure path.
    `removeFromRoom` would lock it again at server.go:159, but that path
    already blocks at server.go:156.

  `sendJSON` also reads `allCons` without `allConsMutex` (server.go:101).
  Interleavings of handlers are not modelled.
- Failed type assertions are not modelled. A missing or non-string type, or a
  missing or non-string room where one is read, panics in the source. `Step`
  requires `WellFormed` instead.
- `Step` requires `order` to visit every registered key exactly once, as a Go
  `range` does. `SendJson` only needs every visited key to be registered.
- A nil event sink is not modelled. The source panics at the first `OnSend`
  or `OnSendError` call (server.go:106-109, server/server.go:106-109); the
  model assumes a sink is set and logs the callbacks. In the first variant
  `Sink` cannot be nil. In the second, a configuration function may set
  `events` to `None`, and the fan-outs still log the callbacks then.
- `websocket.JSON.Send` is not modelled; a write's outcome comes from `failing`.
  `ws.Close()` is only the ghost `closed` set. The JSON encoding of payloads is not modelled.
- The callbacks are log entries (`OnSend`, `OnSendError`). The second variant
  calls lower-case methods `onSend`, `onSendError`, `onReceiveError` that its
  own interface (server/types.go:18-22) does not declare; the model treats
  them as the declared callbacks.
- server/types.go holds only declarations and no-op callbacks. It is described
  by `GmServer.Config` and is not modelled further.
- Configuration functions are modelled as pure functions of `Path`, `Port`
  and `events` (`GmServer.ConfigFunc`). A Go `ConfigFunc` receives a pointer
  to the server being built. It could also write the unexported `server`
  field, or keep the pointer and change `Path` or `Port` after `New` returns.
  Neither is modelled.
- The `server` field of the second variant's `SocketServer`, set by `Start`, is
  not modelled.
- The two test files exercise network binding and timing; they are not modelled.
