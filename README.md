# Typing-Champ matchmaking and race rooms, in Dafny

This project models the stateful core of the Typing-Champ game server
(`backend/src/server.js`). The core is the socket.io handlers that pair
anonymous players into two-player typing races and drive each race room:

- `join_queue` puts a player in the matchmaking queue `waitingPlayers`.
  A name already queued, in any letter case, is refused. As soon as two
  players wait, the two oldest are taken out and a room is created for them.
- `toggle_ready` flips the caller's ready flag. When every record in the
  room is ready, it starts the countdown once and schedules a callback.
- The countdown callback starts the race.
- `update_progress` records the first caller who reports progress of at
  least 100 as the winner.
- `leave_room` deletes one room. `disconnect` removes the client from the
  queue and deletes every room it is in.

JavaScript runs each handler to completion, so each one is an atomic step.
The model is an arbitrary sequence of such steps.

Layout:

- `names.dfy` (module `Names`): the case-insensitive name comparison.
- `queue.dfy` (module `Queue`): the queue's duplicate-name test and the
  disconnect filter.
- `rooms.dfy` (module `Rooms`): player records and room objects, and the
  `find`/`every`/`some` queries on a room's records.
- `protocol.dfy` (module `Protocol`): the server state
  (`queue`, `rooms`, pending `timers`) and one transition function per
  event. It also holds the invariant that holds between events, and lemmas
  saying what each handler does and that each keeps the invariant.
- `traces.dfy` (module `Traces`): properties of whole event sequences. A
  room only moves forward, it enters countdown at most once, and a winner
  sticks.
- `server.dfy` (module `Server`): the class `MatchServer`. Its fields are
  `waitingPlayers`, `roomStates` and `timers`, with one method per handler.
  Each method updates the fields in place (push, shift, map update, the
  deleting `for...in` loop of `disconnect`) and returns the events it
  emits. Each method is proved to make exactly the transition of its
  `Protocol` function and to keep the invariant.
- `scenarios.dfy` (module `Scenarios`): concrete runs from an empty server.

Modelling choices:

- The `setTimeout` callback is an explicit event, `FireCountdownTimer(index)`.
  Its index is a position in the list of pending callbacks. The callback
  keeps a reference to the room object it was made for. The model records
  this as `Timer(roomId, live)`, where `live` says whether that object is
  still the one registered under `roomId`. Deleting a room, or creating a
  new room under the same key, makes its callbacks not live. A callback
  that is not live changes no room when it runs, but it still emits
  `start_game` to the old room id, as the source does.
- The room id `room_${Date.now()}` is an input of `join_queue`. Creating a
  room under an id already in use replaces the old room, as the source's
  assignment does.
- Room objects and player records are values in the map. The only object
  that is aliased is the room a callback holds on to, and `live` covers it.
- Outbound emits are returned as a list of `Emit` values, each naming the
  event and the room it goes to, or for `queue_error` the client.
- Socket ids are non-empty strings, as socket.io generates them. So the
  JavaScript test `!room.winner` means "no winner recorded yet".

The model follows the code, including where the code is looser than a
careful design of this game would be:

- Progress is not clamped, a lower report is not ignored, and progress is
  not stored in the room.
- Any client can report progress for any room that has started, and win it.
  Membership is not checked.
- The countdown callback is not cancelled when its room is torn down.
- `toggle_ready` on a room whose countdown has begun returns without
  broadcasting anything.
- `leave_room` emits `opponent_left` even when the room does not exist.
- Nothing stops a client from queueing twice under two different names.
  Such a client is then paired with itself. `find` always picks the first
  of its two records, so the second record is never ready and the room never
  counts down over any events that keep it (`Traces.SelfPairing`). A client that is already in
  a room can also queue again.
- The client sends `leave_queue` when a search is cancelled
  (typing-champion/src/App.jsx:140), but the server has no handler for it. A cancelled player stays queued until it
  disconnects, so the model has no such event.

## Model

| member | source | states |
|---|---|---|
| `Names.SameNameCharwise` | backend/src/server.js:42 | two names collide exactly when they have equal length and agree letter by letter up to ASCII case |
| `Names.Lower` | backend/src/server.js:42 | `toLowerCase`, character by character; its meaning is stated by `Names.LowerCharMeaning`, `Names.LowerCharCollide` and `Names.SameNameCharwise` |
| `Names.SameName` | backend/src/server.js:42 | the name comparison of the duplicate test; stated letter by letter by `Names.SameNameCharwise` and `Names.LowerCharCollide` |
| `Names.LowerCharMeaning` | backend/src/server.js:42 | lower-casing changes exactly the letters A-Z, each into its own lower-case partner (code point plus 32) |
| `Names.LowerCharCollide` | backend/src/server.js:42 | two characters collide exactly when they are equal or one is the upper-case partner of the other |
| `Queue.NameTaken` | backend/src/server.js:42 | the queue's duplicate test holds exactly when some queued name equals the new one ignoring case |
| `Queue.WithoutClient` | backend/src/server.js:111 | the filter keeps exactly the queue entries of other clients, and never grows the queue |
| `Queue.WithoutClientAppend` | backend/src/server.js:111 | the filter distributes over concatenation, so kept entries stay in queue order with duplicates kept |
| `Queue.WithoutClientIdempotent` | backend/src/server.js:111 | filtering the same client out twice gives the same queue as once |
| `Queue.WithoutAbsentClient` | backend/src/server.js:111 | a queue with no entry of the client is left unchanged, order included |
| `Rooms.NewRoom` | backend/src/server.js:53-58 | the room built for a pair; its contents are stated by `Protocol.JoinPairsFifo` |
| `Rooms.AllReady` | backend/src/server.js:78 | `players.every(p => p.isReady)`; used in `Protocol.ToggleEffect`, `Traces.CountdownOnlyWhenAllReady` and the invariant |
| `Rooms.HasPlayer` | backend/src/server.js:114 | `players.some(p => p.id === socket.id)`; `Rooms.FindPlayer` returns None exactly when it is false |
| `Rooms.FindPlayer` | backend/src/server.js:73 | `find` lands on the first record of the caller, or on none exactly when the caller has no record |
| `Rooms.ToggleCaller` | backend/src/server.js:73-74 | only `isReady` can change, and it flips on exactly the caller's first record |
| `Rooms.ToggleStranger` | backend/src/server.js:73-74 | a caller without a record in the room changes no record |
| `Protocol.Join` | backend/src/server.js:41-58 | the `join_queue` transition; stated by `Protocol.JoinRefusesTakenName`, `Protocol.JoinWaits`, `Protocol.JoinPairsFifo` and `Protocol.JoinKeepsInv` |
| `Protocol.Toggle` | backend/src/server.js:69-85 | the `toggle_ready` transition; stated by `Protocol.ToggleEffect`, `Protocol.ToggleKeepsInv` and `Traces.CountdownOnlyWhenAllReady` |
| `Protocol.Fire` | backend/src/server.js:81-84 | the countdown callback; stated by `Protocol.FireEffect`, `Protocol.FireKeepsInv` and `Traces.RaceOnlyFromCallback` |
| `Protocol.Progress` | backend/src/server.js:88-98 | the `update_progress` transition; stated by `Protocol.ProgressEffect` and `Traces.WinnerOnlyAtFinish` |
| `Protocol.Leave` | backend/src/server.js:100-104 | the `leave_room` transition; stated by `Protocol.LeaveEffect` and `Protocol.TeardownIdempotent` |
| `Protocol.Drop` | backend/src/server.js:110-119 | the `disconnect` transition; stated by `Protocol.DropEffect` and `Protocol.TeardownIdempotent` |
| `Protocol.RoomsWith` | backend/src/server.js:113-114 | the keys of the rooms that hold a record of the client; `Protocol.DropEffect` states that exactly these are deleted |
| `Protocol.Detach` | backend/src/server.js:81-84 | a callback whose captured room was deleted or replaced no longer reaches the registry; its effect is stated by `Protocol.FireEffect` and `Scenarios.BobLeavesDuringCountdown` |
| `Protocol.InitInv` | backend/src/server.js:35-36 | the empty queue and empty registry satisfy the invariant |
| `Protocol.JoinRefusesTakenName` | backend/src/server.js:41-46 | a join changes nothing exactly when the name is already queued ignoring case |
| `Protocol.JoinWaits` | backend/src/server.js:45-48 | a join that finds the queue empty only appends the new player |
| `Protocol.JoinPairsFifo` | backend/src/server.js:45-58 | with someone waiting, the new room's two records followed by the remaining queue are the old queue plus the newcomer, in order; the room is in the lobby with nobody ready and no winner, and no other room changes |
| `Protocol.ToggleEffect` | backend/src/server.js:69-85 | missing room or countdown begun: nothing changes; otherwise only that room changes, only the caller's first record flips, and countdown starts with one new callback exactly when every record is ready |
| `Protocol.FireEffect` | backend/src/server.js:81-84 | the callback is removed; its room starts its race only if the callback is live, and no other room or the queue changes |
| `Protocol.ProgressEffect` | backend/src/server.js:88-98 | nothing happens without a started race, with a winner already recorded, or below 100; otherwise only the winner of that room is set, to the caller |
| `Protocol.LeaveEffect` | backend/src/server.js:100-104 | exactly the named room is deleted; the queue and every other room are unchanged; that room's callbacks stop being live and every other callback is unchanged |
| `Protocol.DropEffect` | backend/src/server.js:110-119 | exactly the client's queue entries and the rooms holding a record of it are removed; the other entries keep their order (the filter splits over any cut of the queue); the deleted rooms' callbacks stop being live; every other room and callback is unchanged |
| `Protocol.TeardownIdempotent` | backend/src/server.js:100-119 | leaving a room twice, or disconnecting twice, leaves the same state as doing it once; a repeated `leave_room` still emits `opponent_left` again (server.js:101) |
| `Protocol.JoinKeepsInv` | backend/src/server.js:41-67 | `join_queue` keeps the invariant: at most one player waits, rooms are well formed, callbacks match the rooms counting down |
| `Protocol.ToggleKeepsInv` | backend/src/server.js:69-86 | `toggle_ready` keeps the invariant; in particular no room gets two live callbacks |
| `Protocol.FireKeepsInv` | backend/src/server.js:81-84 | running a callback keeps the invariant |
| `Protocol.ProgressKeepsInv` | backend/src/server.js:88-98 | `update_progress` keeps the invariant |
| `Protocol.LeaveKeepsInv` | backend/src/server.js:100-104 | `leave_room` keeps the invariant |
| `Protocol.DropKeepsInv` | backend/src/server.js:110-119 | `disconnect` keeps the invariant |
| `Protocol.StepKeepsInv` | backend/src/server.js:40-119 | every event keeps the invariant |
| `Traces.RunKeepsInv` | backend/src/server.js:40-119 | any sequence of events keeps the invariant |
| `Traces.Reachable` | backend/src/server.js:35-119 | from the empty server, after any events, at most one player waits, every room has two records with `gameStarted` implying `countdownStarted`, and each room counting down has exactly one live callback |
| `Traces.QueueNamesDistinct` | backend/src/server.js:42-50 | after any events no two queued players share a name ignoring case |
| `Traces.AdvancesPhase` | backend/src/server.js:71-97 | a later version of a room is never in an earlier phase |
| `Traces.StepAdvances` | backend/src/server.js:69-119 | one event never lowers a flag of a room it keeps, never changes a recorded winner, and freezes the records once countdown has begun |
| `Traces.RunAdvances` | backend/src/server.js:71-97 | over any events that keep a room, countdown is never reset, a started race stays started, the first winner sticks, and the phase never goes back |
| `Traces.CountdownAtMostOnce` | backend/src/server.js:71-79 | over any events that keep a room, it enters countdown at most once, and never if it already has |
| `Traces.CountdownOnlyWhenAllReady` | backend/src/server.js:78-84 | countdown begins only in a `toggle_ready` on that room that leaves every record ready, and that step schedules one callback |
| `Traces.RaceOnlyFromCallback` | backend/src/server.js:79-84 | a race begins only when that room's live callback runs, and in a reachable state the room was counting down |
| `Traces.WinnerOnlyAtFinish` | backend/src/server.js:90-97 | a winner is recorded only by a report of at least 100 on a started race, and it is the reporting client |
| `Traces.SelfPairedNeverStarts` | backend/src/server.js:41-79 | no single event makes the second record of a room whose two records belong to one client ready, or starts its countdown |
| `Traces.SelfPairedRunNeverStarts` | backend/src/server.js:41-79 | the same over any events that keep the room |
| `Traces.SelfPairing` | backend/src/server.js:41-79 | a client joining twice under two names with nobody else waiting is paired with itself, and that room never counts down over any events that keep it |
| `Scenarios.NameCollidesIgnoringCase` | backend/src/server.js:42-43 | while "Alice" waits, a join as "aLICE" changes nothing |
| `Scenarios.AliceBeatsBob` | backend/src/server.js:41-98 | pairing, ready-up, countdown, race start, "alice" wins at 100, and "bob" at 100 afterwards changes nothing |
| `Scenarios.BobLeavesDuringCountdown` | backend/src/server.js:69-119 | a disconnect during countdown deletes the room, its callback changes no room, and a later toggle on the old id changes nothing |
| `Server.MatchServer.constructor` | backend/src/server.js:35-36 | the server starts with an empty queue, registry and callback list |
| `Server.MatchServer.JoinQueue` | backend/src/server.js:41-67 | push and shift perform `Protocol.Join`; emits `queue_error` to the caller on a taken name and `match_found` for a new room |
| `Server.MatchServer.ToggleReady` | backend/src/server.js:69-86 | the in-place flip performs `Protocol.Toggle`; emits `lobby_update`, then `start_countdown` when the countdown begins |
| `Server.MatchServer.FireCountdownTimer` | backend/src/server.js:81-84 | performs `Protocol.Fire`; emits `start_game` with the fixed text for every callback that runs |
| `Server.MatchServer.UpdateProgress` | backend/src/server.js:88-98 | performs `Protocol.Progress`; emits `player_progress` during a race, and `game_finished` for the first report of at least 100 |
| `Server.MatchServer.LeaveRoom` | backend/src/server.js:100-104 | performs `Protocol.Leave`; always emits `opponent_left` |
| `Server.MatchServer.Disconnect` | backend/src/server.js:110-119 | the deleting loop performs `Protocol.Drop`; emits `opponent_left` once for each deleted room and nothing else |

## Left out

- HTTP routes and persistence: `/api/leaderboard`, `/api/scores`, `mongoose.connect` (backend/src/server.js:17-33) and the schema in backend/models/Score.js. They go through a database library whose behaviour is not visible here.
- socket.io transport: joining and leaving socket.io rooms, delivery of emits, and `send_message`, a stateless relay (backend/src/server.js:60-65, 106-108). Emits are recorded as values naming the event and the room.
- Real time: the 4000 ms delay is not modelled. The callback runs when a `FireCountdownTimer` event says so.
- Room id generation from `Date.now()`: the id is an input.
- Names.Lower: models `toLowerCase` for the ASCII letters A-Z only. Unicode case mapping of other letters is left out.
- Progress is a `real`. JavaScript's coercion of non-numeric progress values and NaN are left out.
- Malformed payloads that make a handler throw are left out, such as a non-string username or a missing `{ roomID }` object. So are room ids that name built-in object properties such as `toString`. The registry is treated as a plain map.
- Server.MatchServer.Disconnect: the order of the `opponent_left` emits is not specified. The source visits rooms in key-insertion order, and the model does not track insertion order.
- The client (typing-champion/src/App.jsx) and the build configuration (typing-champion/tailwind.config.js) are not part of this model. They hold UI, client wiring and floating-point WPM computation.
