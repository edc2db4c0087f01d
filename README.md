# ws_chat_room backend core, modelled in Dafny

This project models three sequential cores of the ws_chat_room chat backend (Rust, tokio, axum):

- **The room registry and the room actor** (`backend/src/room_manager/mod.rs`), in module `Rooms`.
  `RoomManager` owns the map from room id to room state. `create` inserts an entry and then writes the room row. `join` hands out handles to a room in the registry. `delete_room` broadcasts `Close` and removes the entry.
  Each room has an actor task. It races an idle timer against a loop that drains the room's command channel. It broadcasts every command other than `Close`, forwards `Send` commands to the persistence sink, stops on `Close` or when the timer fires, and then calls `delete_room`.
- **The session registry** (`backend/src/session/mod.rs`), in module `Sessions`.
  `SessionManager` maps session ids to `Session { user_id, expiration }`. It supports `new_session`, `update_session` (an upsert) and `delete_session`, plus a periodic sweep that keeps only the sessions whose expiration is after the current instant.
- **The response envelope and the room frames** (`backend/src/handler/api/mod.rs`), in module `Api`.
  These are the `ApiResponse` constructors and the `StreamCommand` join, send and leave builders, modelled as records.

`common.dfy` holds `Option`, `Result` and `i32`.

How the model represents things:

- Time is a `nat`.
- The command channel of a room is a sequence of time-stamped `Arrival`s.
- Shared maps are class fields, and their mutex is exclusive access to the object.
- Each room entry carries the log of its broadcast channel. When `delete_room` removes a room, its final log moves to `closedLogs`, so the last `Close` stays observable.
- The persistence sink is the log `persisted`.
- The set `running` holds the rooms whose actor task has been spawned and has not yet exited.
- A UUID is a `freshId` parameter that the caller guarantees is not in use.
- The outcome of the `insert into rooms` query is a boolean parameter `dbOk`.
- The Rust field `method` is called `kind`, because `method` is a Dafny keyword.

The model follows the code as written:

- `backend/src/session/mod.rs` has no operation that validates a session and extends its expiry, so none is modelled.
- The shutdown branch of the session checker (backend/src/session/mod.rs:67-68) only logs. It does not clear the sessions, and neither does the model.
- `create` leaves its registry entry in place when the room insert fails (backend/src/room_manager/mod.rs:85-87). `Create` models that. `CreateWithRollback` is the corrected version, which leaves no entry without an actor (see Findings).

## Model

| member | source | states |
|---|---|---|
| `Rooms.JoinCommand` | backend/src/room_manager/mod.rs:193-201 | the command has kind Join and carries only the user name; room id, user id and message are empty |
| `Rooms.SendCommand` | backend/src/room_manager/mod.rs:203-211 | the command has kind Send and carries the given room id, user id, user name and message |
| `Rooms.LeaveCommand` | backend/src/room_manager/mod.rs:213-221 | the command has kind Leave and carries only the user name |
| `Rooms.CloseCommand` | backend/src/room_manager/mod.rs:223-231 | the command has kind Close and every optional field is empty |
| `Rooms.WellFormedIsConstructed` | backend/src/room_manager/mod.rs:192-232 | a command with one of the four constructor field patterns is the command that constructor builds from its fields |
| `Rooms.Sends` | backend/src/room_manager/mod.rs:121-127 | the forwarded commands are never more than the input, and when none is dropped they are the input itself |
| `Rooms.SendsAreTheSends` | backend/src/room_manager/mod.rs:121-127 | the forwarded commands are all Send commands taken from the input, and every Send in the input is among them |
| `Rooms.SendsAppend` | backend/src/room_manager/mod.rs:113-133 | selecting the Send commands distributes over concatenation, so the sink sees the Sends in broadcast order |
| `Rooms.SendsAreStorable` | backend/src/db/mod.rs:57-61 | every Send selected from constructor-built commands has the room id, user id and message that the persistence consumer unwraps |
| `Rooms.FirstWake` | backend/src/room_manager/mod.rs:108-110 | the timer loop returns at or after the deadline it copied, and less than one sleep past it unless it did not sleep at all |
| `Rooms.FirstWakeIsWholeSleeps` | backend/src/room_manager/mod.rs:108-110 | the timer wakes only a whole number of sleeps after it started |
| `Rooms.Timer` | backend/src/room_manager/mod.rs:105-111 | the loop of sleeps of `idle` ends at or after the copied deadline, and less than one sleep past it unless it did not sleep at all; it is the wake-up `FirstWake` defines |
| `Rooms.FirstDeadlineWake` | backend/src/room_manager/mod.rs:100-110 | because the timer copies the first deadline, `start + idle`, it fires exactly at `start + idle` |
| `Rooms.TakeCommands` | backend/src/room_manager/mod.rs:113-133 | the drain loop takes arrivals in order while they come before the timer, stops on the first Close, broadcasts the others in order with no Close among them, forwards exactly their Sends, and leaves the deadline at the last taken arrival plus idle, or at `start + idle` when it takes none |
| `Rooms.DrainCommands` | backend/src/room_manager/mod.rs:104-135 | every command taken arrived before the timer fired; the race ends on a Close or at `start + idle`; the broadcast log is the received commands before the first Close, in order, with no Close in it; the sink gets exactly its Sends; the deadline is the last received command's arrival plus idle, or `start + idle` when none was received |
| `Rooms.TimerSnapshotScenario` | backend/src/room_manager/mod.rs:106-115 | on a join at 5 and a send at 12 with idle 10, the deadline is moved to 15, yet the room times out at 10 and never takes the send |
| `Rooms.SlidingCloseTime` | backend/src/room_manager/mod.rs:104-115 | the idle timer that re-reads the deadline after every sleep, the behaviour the drain loop's deadline writes at :114-115 exist for |
| `Rooms.SlidingTimerKeepsBusyRoomOpen` | backend/src/room_manager/mod.rs:113-115 | with the corrected timer, if commands arrive in time order and each comes less than `idle` after the previous command, before the deadline it set, the corrected timer does not fire before any of these commands, and fires `idle` after the last (a `Close` among them still ends the room when it is taken, as `DrainCommands` states) |
| `Rooms.SlidingScenario` | backend/src/room_manager/mod.rs:113-115 | with the corrected timer, the stream of `TimerSnapshotScenario` keeps the room open until 22 |
| `Rooms.RoomManager.Build` | backend/src/room_manager/mod.rs:20-25 | the registry, the set of running actors, the closed logs, the rooms table and the sink all start empty (so the registry is consistent); the idle duration is the one given |
| `Rooms.RoomManager.Create` | backend/src/room_manager/mod.rs:27-89 | the entry is inserted whatever the insert outcome. On success it returns the new id with a subscription from the start of the log, the actor is spawned and the row is recorded. On failure it returns `Err`, spawns no actor and adds the id to the orphans |
| `Rooms.RoomManager.CreateWithRollback` | backend/src/room_manager/mod.rs:46-88 | the corrected create: on a failed insert the registry is left as it was, the set of orphans never changes, and consistency is kept |
| `Rooms.RoomManager.Join` | backend/src/room_manager/mod.rs:142-157 | changes nothing; returns a handle exactly when the id is a registry key, subscribed at the current end of the room's broadcast log |
| `Rooms.RoomManager.DeleteRoom` | backend/src/room_manager/mod.rs:159-175 | on a present id, the room's log gains exactly one final Close and only that key leaves the registry; on an absent id nothing changes, so a second call is a no-op |
| `Rooms.RoomManager.RunActor` | backend/src/room_manager/mod.rs:91-139 | the drain loop, then `delete_room`: the room's final log is its old log, then what the actor broadcast, then one Close; the sink gains the Sends among them; the room is no longer joinable; consistency is kept |
| `Rooms.LifecycleScenario` | backend/src/room_manager/mod.rs:27-175 | after create, join, one send and a Close, the joiner got a handle; afterwards the log is the send then a single Close, the sink holds the send, and a join returns None |
| `Rooms.FailedCreateScenario` | backend/src/room_manager/mod.rs:46-87 | after a failed insert, `create` returns `Err`, yet the id is still joinable and has no actor |
| `Rooms.FailedCreateWithRollbackScenario` | backend/src/room_manager/mod.rs:46-87 | with the rollback, the failed create leaves the id unjoinable and the registry consistent |
| `Sessions.Unexpired` | backend/src/session/mod.rs:79 | the sweep keeps exactly the sessions whose expiration is after `now`, unaltered, and adds none |
| `Sessions.UnexpiredIdempotent` | backend/src/session/mod.rs:79 | sweeping twice at the same instant equals sweeping once |
| `Sessions.UnexpiredLater` | backend/src/session/mod.rs:73-80 | a sweep at an earlier instant followed by one at a later instant equals the later sweep alone |
| `Sessions.StampedSessionIsSwept` | backend/src/session/mod.rs:79 | a session stored with expiration `t`, as `new_session` and `update_session` store it, is removed by every sweep at `now >= t` |
| `Sessions.WindowedSessionSurvives` | backend/src/session/mod.rs:79 | a session stored with expiration `t + window` survives, unaltered, every sweep before `t + window` |
| `Sessions.SessionManager.Build` | backend/src/session/mod.rs:20-28 | the session map starts empty; the duration is the one given |
| `Sessions.SessionManager.NewSession` | backend/src/session/mod.rs:30-42 | returns the fresh id; the map gains exactly that key, mapped to the user and the current instant; no other key changes |
| `Sessions.SessionManager.UpdateSession` | backend/src/session/mod.rs:44-54 | an upsert: afterwards the id maps to the user and the current instant, whether or not it was present; no other key changes |
| `Sessions.SessionManager.NewSessionWindowed` | backend/src/session/mod.rs:30-42 | the corrected create: the new session expires one duration after it is created |
| `Sessions.SessionManager.UpdateSessionWindowed` | backend/src/session/mod.rs:44-54 | the corrected upsert: the session's expiry slides to one duration after the current instant |
| `Sessions.SessionManager.DeleteSession` | backend/src/session/mod.rs:56-60 | removes exactly the given key; a no-op when it is absent |
| `Sessions.SessionManager.Sweep` | backend/src/session/mod.rs:76-79 | the new map is the unexpired part of the old one at `now` |
| `Sessions.SessionManager.RunChecker` | backend/src/session/mod.rs:71-80 | after `rounds` periods of sleeping then sweeping, the map is the unexpired part of the old one at the last wake-up; with no rounds it is unchanged |
| `Sessions.FreshSessionScenario` | backend/src/session/mod.rs:30-42 | a session created at 100 is gone after the sweep at 100 |
| `Sessions.WindowedSessionScenario` | backend/src/session/mod.rs:30-42 | with the corrected create, the session created at 100 is still there at the sweep at 1899 |
| `Api.Success` | backend/src/handler/api/mod.rs:31-38 | status "success", code "ok", the given message and no data |
| `Api.SuccessWithData` | backend/src/handler/api/mod.rs:40-47 | the same response as `success` with the same message, except that the data is `Some(d)` |
| `Api.Error` | backend/src/handler/api/mod.rs:49-56 | status "error", the given code and message, no data; never a success |
| `Api.Unauthorized` | backend/src/handler/api/mod.rs:58-65 | equals `error("UNAUTHORZIED", "Unauthorized operation")`, with the code spelled as in the source |
| `Api.ResponseKinds` | backend/src/handler/api/mod.rs:31-65 | only `success_with_data` produces data; exactly the two success constructors report success; all others report an error |
| `Api.StreamJoin` | backend/src/handler/api/mod.rs:76-86 | kind Join, sender "System", message "User " + u + " join the room" |
| `Api.StreamSend` | backend/src/handler/api/mod.rs:88-96 | kind Send, the user as sender, the message verbatim |
| `Api.StreamLeave` | backend/src/handler/api/mod.rs:98-108 | kind Leave, sender "System", message "User " + u + " leave the room" |
| `Api.NoticeSubject` | backend/src/handler/api/mod.rs:77 | reads a presence text back: the user it returns is the one the text names, and it returns None only when no user's notice has that text |
| `Api.NoticeRoundTrip` | backend/src/handler/api/mod.rs:76-108 | reading back a join or leave notice gives the user it was built for |
| `Api.NoticesInjective` | backend/src/handler/api/mod.rs:76-108 | different users get different join notices and different leave notices |
| `Api.JoinTextIsNotLeaveText` | backend/src/handler/api/mod.rs:77-99 | a join notice's text never equals a leave notice's text, whatever the two user names are |

## Left out

- Tokio concurrency is not modelled: `tokio::spawn`, `select!` polling order, the mutexes, channel capacity (128), backpressure and broadcast lag. Each operation runs alone on the state, and a channel is a log.
- The timer's copy of the deadline: the model assumes the timer reads the deadline before the drain loop handles any command. It also assumes that a command arriving at the instant the timer fires loses the race.
- Rooms.Timer: the model leaves out scheduler latency. Each sleep lasts exactly `idle`.
- Sessions.SessionManager.RunChecker: each sleep of the checker loop lasts exactly `duration`, so sweep `i` runs at exactly `start + i * duration`. `sleep` (backend/src/session/mod.rs:74) only promises a sleep at least that long, and scheduler latency is left out.
- Rooms.RoomManager.RunActor: requires that the room's entry is still in the registry when the actor runs. The model leaves out a concurrent external `delete_room` during the actor's life.
- Rooms.RoomManager.RunActor: it runs the actor to completion in one step. Joins and broadcasts are not interleaved with it.
- The end of the command stream (`recv` returning `None`) is not modelled as a separate exit, because the registry entry keeps a sender alive. When the arrivals run out, the timer ends the race.
- Failed sends are not modelled. A broadcast with no subscribers and a sink send to a closed consumer are ignored or only logged in the source. The model records every send in its log.
- The `insert into rooms` query is abstracted to the `dbOk` outcome (backend/src/room_manager/mod.rs:59-68). `backend/src/db/mod.rs` (pool setup and the message consumer) is not part of this model. It is only cited for the fields the consumer unwraps.
- UUID generation is replaced by a fresh-id parameter. On `create` the id must be new to the registry, to the running actors and to the closed rooms. On `new_session` it must be new to the session map.
- serde_json serialisation of `StreamCommand` is not modelled (backend/src/handler/api/mod.rs:85, 95, 107). The builders return the record rather than its JSON text.
- Sessions.SessionManager.Sweep: `retain` reads the clock once per entry. The model sweeps every entry at one instant `now`.
- Sessions.SessionManager.RunChecker: the source loop never ends, and the model runs a given number of rounds. The shutdown branch of `run_checker` only logs, so it is not modelled. Nor is the fact that the caller never awaits the checker (backend/src/server.rs:16).
- The login and signup handlers, the WebSocket, auth and logout handlers, the router, the server and static files, and the frontend are not part of this model. They are HTTP, database and UI plumbing around the core.

## Findings

| source | as written | input that shows it | evidently intended | confidence | as-written member | corrected member |
|---|---|---|---|---|---|---|
| backend/src/session/mod.rs:37 | `new_session` and `update_session` store `expiration: Instant::now()` | a session created at 100 and a sweep at 100: the session is gone | expiration one window after the current instant, so the session lives until then (`update_session` at :51 likewise: `UpdateSessionWindowed`) | high; not executed | `Sessions.FreshSessionScenario` | `Sessions.SessionManager.NewSessionWindowed` |
| backend/src/room_manager/mod.rs:85-87 | the entry inserted at :47 stays when the room insert fails | create with a failed insert: `Err`, yet the id is still joinable and has no actor | remove the entry on failure, so no orphan is left | high; not executed | `Rooms.FailedCreateScenario` | `Rooms.RoomManager.CreateWithRollback` |
| backend/src/room_manager/mod.rs:106 | the timer copies the deadline once and never re-reads it | idle 10, a join at 5 and a send at 12: the room closes at 10 and the send is never taken | the timer re-reads the deadline, so the room closes only after `idle` without commands | high; not executed | `Rooms.TimerSnapshotScenario` | `Rooms.SlidingTimerKeepsBusyRoomOpen` |
