# Bidding hub: connection and room membership

This project models the hub of a small real-time bidding server. Clients connect
over websockets, join a named room and post bids. Every bid is written to each
connection in the room, the sender included. All shared state belongs to one
`Hub` value, which holds two things:

- `Clients`: the set of registered connections.
- `Rooms`: a table from room name to a roster of connections.

One event loop changes this state, one event at a time:

- A **register** event adds a connection to `Clients`.
- A **remove** event deletes a connection from `Clients` and then from every roster (`leaveRoom`). Rooms left empty stay in the table.
- A **broadcast** event looks up the room of the message and writes the message to every connection in its roster. A room that does not exist means nobody gets the message.
- `joinRoom` creates the room with an empty roster if it is missing, then adds the connection.

The model has four modules:

- `HubState` (`hub_state.dfy`) gives the meaning of each event as a function on a `State` value. `Run` and `Sent` fold a whole event sequence: `Run` gives the final state and `Sent` gives, for each event, the set of connections written to. Two more functions are reference readings that look only at the event sequence: `LastMembership` (the last register or remove of a connection) and `LastRosterChange` (its last join of a room or its last remove). `Session` is the sequence of events that one connection handler submits during a connection's lifetime.
- `HubProperties` (`hub_properties.dfy`) holds lemmas about these functions. They cover what one event changes and what it leaves alone, idempotence, and what is true after any sequence of events.
- `HubRuntime` (`hub.dfy`) is the `Hub` class. Its fields are updated in place, as in the program. Each method is proved against `HubState`: `LeaveRoom` walks the room names and `BroadcastToRoom` walks the roster, each with loop invariants, and `Run` is the event loop run over a finite sequence.
- `HubScenarios` (`hub_scenarios.dfy`) is one concrete run. Two bidders share a room, a third client is in another room, one bidder disconnects, and a bid goes to a room nobody has joined.

A connection is an opaque identity (`Conn`, a natural number that is only compared for equality). In the program, `joinRoom` is called directly from the connection handler rather than through a hub channel. The model treats it as one more event (`Join`) in the same serialized sequence.

## Model

| member | source | states |
|---|---|---|
| HubState.AfterRegister | main.go:26-27 | after register, the connection is a client; no other connection's registration changes; the room table is untouched |
| HubState.WithoutConn | main.go:94-101 | leaving keeps the same set of room names; the connection is in no roster afterwards; every other connection's membership of every room is unchanged |
| HubState.AfterRemove | main.go:28-30 | after remove, the connection is not a client and is in no roster; other clients and other roster members are unchanged; no room is deleted |
| HubState.AfterJoin | main.go:112-117 | after join, the room exists and the connection is in its roster; the room names gain at most this room; every other room's roster is unchanged; the room's other members are unchanged; clients are untouched |
| HubState.Recipients | main.go:103-110 | a broadcast goes to a connection exactly when that connection is in the roster of the message's room, so a missing room means nobody |
| HubState.Step | main.go:25-33 | the dispatch of one event: no event deletes a room; only the event's own connection changes registration; a broadcast leaves the state unchanged; register makes the connection a client without touching rooms; remove leaves it in no client set and no roster; join puts it in the room without touching clients |
| HubState.Output | main.go:31-32 | only a broadcast writes, and to exactly the members of its room's roster; register, remove and join write to nobody |
| HubState.Run | main.go:23-35 | processing any sequence of events never deletes a room, and a connection ends up a client only if it was one at the start or some event registered it |
| HubState.Sent | main.go:23-35 | the event loop produces exactly one output (a set of recipients) per event processed |
| HubState.Session | main.go:63-92 | a handler submits register, then join, then one broadcast per text frame (room and name fixed, price the frame text), then remove |
| HubProperties.BroadcastKeepsState | main.go:31-32 | a broadcast leaves the state unchanged; it goes to nobody when the room is missing and to the whole roster otherwise |
| HubProperties.SelfEcho | main.go:103-110 | a sender that is a member of the target room receives its own message |
| HubProperties.RemoveIdempotent | main.go:28-30 | removing a connection twice leaves the same state as removing it once |
| HubProperties.RemoveUnregisteredIsNoop | main.go:94-100 | if every roster member is registered, removing an unregistered connection changes nothing |
| HubProperties.JoinIdempotent | main.go:112-117 | joining a room twice leaves the same state as joining it once |
| HubProperties.StepKeepsRostersRegistered | main.go:23-35 | every event keeps all roster members registered, provided a join names a registered connection |
| HubProperties.RunKeepsRostersRegistered | main.go:23-35 | the same holds along any sequence of events whose joins name connections that are registered at that point |
| HubProperties.RunClients | main.go:23-35 | after any sequence of events, a connection is a client exactly when its last register-or-remove event was a register (or, with neither, when it was a client at the start); broadcasts and joins play no part |
| HubProperties.RunRosters | main.go:23-117 | after any sequence of events processed by the loop (with `leaveRoom` on remove and `joinRoom` on join), a connection is in a room's roster exactly when its last join of that room came after its last remove (or, with neither, when it was there at the start); a removed connection is in no roster until it joins again |
| HubProperties.RunRoomNames | main.go:94-101 | rooms are never deleted: a room exists after a run exactly when it existed before or some event joined it |
| HubProperties.SentAt | main.go:31-32 | each event's output is fixed by the state at the moment it is processed: a broadcast goes to that moment's roster, every other event writes to nobody |
| HubProperties.DeliveredExactlyToRoster | main.go:103-110 | the broadcast at position i reaches a connection exactly when that connection's last join of the room before i is later than its last remove, so there is no retroactive delivery and none to a departed member |
| HubProperties.RunAppend | main.go:23-35 | processing a then b gives the same state as processing a + b |
| HubProperties.SentAppend | main.go:23-35 | the outputs of a + b are those of a followed by those of b, starting from the state a leaves |
| HubProperties.BroadcastsKeepState | main.go:31-32 | a run of broadcasts changes nothing, and each one goes to the roster of its room in that unchanged state |
| HubProperties.OpenSession | main.go:73-74 | register followed by join leaves the connection registered and in the chosen room |
| HubProperties.SessionLifecycle | main.go:63-92 | after a connection's whole session the connection is neither a client nor in any roster, and everyone else's membership is as it was |
| HubProperties.SessionDeliveries | main.go:76-89 | every bid of a session goes to the room's roster as it stood right after the join, so the sender receives each of its own bids |
| HubRuntime.Hub.constructor | main.go:38-44 | a new hub has no clients and no rooms |
| HubRuntime.Hub.Register | main.go:26-27 | the in-place register updates the object to the register event's state |
| HubRuntime.Hub.LeaveRoom | main.go:94-101 | the loop over room names leaves clients unchanged and the room table equal to the old one with the connection taken out of every roster |
| HubRuntime.Hub.Remove | main.go:28-30 | deleting the client and then leaving all rooms updates the object to the remove event's state |
| HubRuntime.Hub.JoinRoom | main.go:112-117 | creating the roster if it is missing and then adding the connection updates the object to the join event's state |
| HubRuntime.Hub.BroadcastToRoom | main.go:103-110 | the loop over the roster writes to exactly the members of the message's room, and to nobody when the room is missing |
| HubRuntime.Hub.Run | main.go:23-35 | the event loop over a finite sequence ends in the state given by Run and returns the outputs given by Sent |
| HubScenarios.AuctionScenario | main.go:23-117 | a concrete run: Alice and Bob join auction-1 and Carol joins auction-2. Alice's bid reaches Alice and Bob but not Carol. After Alice disconnects, Bob's bid reaches only Bob. A bid to ghost-room reaches nobody. The clients left are Bob and Carol |

## Left out

- The websocket and HTTP layer is not modelled. This covers `main`, the upgrade check `AllowUpgrade`, reading the `name` and `room` query parameters with their defaults "" and "default", `ReadMessage`, dropping non-text frames and `Close` (main.go:37-92). These are I/O and library calls. The handler appears only as the sequence of events it submits (`Session`), for a given room, name and list of text-frame prices.
- Goroutines, the unbuffered channels and `select` are not modelled (main.go:17-19, 25, 45). The model processes one event at a time, in sequence. `joinRoom` is called from the handler goroutine without going through the hub (main.go:74), which is a data race in the program. The model treats the join as one more event in the serialized sequence and does not model the race.
- `run` loops forever. `HubRuntime.Hub.Run` processes one finite sequence of events.
- `WriteJSON` and its ignored error are not modelled (main.go:107). A write is modelled as "the connection is in the set of recipients". JSON encoding is not modelled.
- The order in which the program writes to a roster, and visits rooms in `leaveRoom`, is not modelled. Go map iteration order is unspecified, and the model uses sets.
- The `fmt.Printf` log line in `leaveRoom` is not modelled (main.go:98). It is output only.
- `Clients` is a `map[*websocket.Conn]bool` whose values are always `true`, so it is modelled as a set. Connections are modelled as opaque identities, not as websocket objects.
