/**
 * The room registry and the per-room actor (backend/src/room_manager/mod.rs).
 *
 * The registry maps room ids to room entries; each entry stands for the
 * room's channels, and here carries the log of everything broadcast to the
 * room's subscribers. The actor drains the room's command channel, modelled
 * as a sequence of time-stamped arrivals, while racing an idle timer; when
 * it stops it removes its room from the registry.
 */
module Rooms {
  import opened Common

  // ---------------------------------------------------------------------
  // Commands
  // ---------------------------------------------------------------------

  /** `Method`: what a room command asks for. */
  datatype Method = Send | Leave | Join | Close

  /**
   * `RoomCommand`, carried by the command channel into the actor, by the
   * broadcast channel out to the subscribers, and to the persistence sink.
   * `kind` is the source's `method` field (a Dafny keyword).
   */
  datatype RoomCommand = RoomCommand(
    kind: Method,
    roomId: Option<string>,
    userId: Option<i32>,
    user: Option<string>,
    message: Option<string>)

  /** The field pattern each constructor of `RoomCommand` produces. */
  predicate WellFormed(c: RoomCommand) {
    match c.kind
    case Join => c.roomId.None? && c.userId.None? && c.user.Some? && c.message.None?
    case Leave => c.roomId.None? && c.userId.None? && c.user.Some? && c.message.None?
    case Send => c.roomId.Some? && c.userId.Some? && c.user.Some? && c.message.Some?
    case Close => c.roomId.None? && c.userId.None? && c.user.None? && c.message.None?
  }

  /** `RoomCommand::join`: only the joining user's name is set. */
  function JoinCommand(user: string): (c: RoomCommand)
    ensures c.kind == Join && c.user == Some(user) && WellFormed(c)
  {
    RoomCommand(Join, None, None, Some(user), None)
  }

  /** `RoomCommand::send`: a chat message with its room, user id, user name and text. */
  function SendCommand(userId: i32, user: string, roomId: string, message: string): (c: RoomCommand)
    ensures c.kind == Send && WellFormed(c)
    ensures c.roomId == Some(roomId) && c.userId == Some(userId)
    ensures c.user == Some(user) && c.message == Some(message)
  {
    RoomCommand(Send, Some(roomId), Some(userId), Some(user), Some(message))
  }

  /** `RoomCommand::leave`: only the leaving user's name is set. */
  function LeaveCommand(user: string): (c: RoomCommand)
    ensures c.kind == Leave && c.user == Some(user) && WellFormed(c)
  {
    RoomCommand(Leave, None, None, Some(user), None)
  }

  /** `RoomCommand::close`: every optional field is empty. */
  function CloseCommand(): (c: RoomCommand)
    ensures c.kind == Close && WellFormed(c)
  {
    RoomCommand(Close, None, None, None, None)
  }

  /** Builds a command again from its fields with the constructor its kind names. */
  function Rebuild(c: RoomCommand): RoomCommand
    requires WellFormed(c)
  {
    match c.kind
    case Join => JoinCommand(c.user.value)
    case Leave => LeaveCommand(c.user.value)
    case Send => SendCommand(c.userId.value, c.user.value, c.roomId.value, c.message.value)
    case Close => CloseCommand()
  }

  /**
   * Every command with a constructor's field pattern is the one that
   * constructor builds from its fields (the constructors' own contracts give
   * the converse: what they build is well-formed).
   */
  lemma WellFormedIsConstructed(c: RoomCommand)
    requires WellFormed(c)
    ensures Rebuild(c) == c
  {
  }

  /** The command has every field the persistence consumer unwraps (backend/src/db/mod.rs:57-61). */
  predicate Storable(c: RoomCommand) {
    c.roomId.Some? && c.userId.Some? && c.message.Some?
  }

  // ---------------------------------------------------------------------
  // Specification functions over command sequences
  // ---------------------------------------------------------------------

  /** One command taken off the command channel at time `at`. */
  datatype Arrival = Arrival(at: nat, command: RoomCommand)

  /** The commands of a sequence of arrivals, in arrival order. */
  function Commands(arrivals: seq<Arrival>): (cs: seq<RoomCommand>)
    ensures |cs| == |arrivals|
    ensures forall i :: 0 <= i < |arrivals| ==> cs[i] == arrivals[i].command
  {
    seq(|arrivals|, i requires 0 <= i < |arrivals| => arrivals[i].command)
  }

  /** The `Send` commands among `cs`, in their order. */
  function Sends(cs: seq<RoomCommand>): (r: seq<RoomCommand>)
    ensures |r| <= |cs|
    ensures |r| == |cs| ==> r == cs
  {
    if cs == [] then []
    else if cs[0].kind == Send then [cs[0]] + Sends(cs[1..])
    else Sends(cs[1..])
  }

  /** Filtering distributes over concatenation, so the order of `Send`s is kept. */
  lemma {:induction false} SendsAppend(a: seq<RoomCommand>, b: seq<RoomCommand>)
    ensures Sends(a + b) == Sends(a) + Sends(b)
  {
    if a == [] {
      assert a + b == b;
    } else {
      assert (a + b)[1..] == a[1..] + b;
      SendsAppend(a[1..], b);
    }
  }

  /** Appending one command appends it to the `Send`s exactly when it is one. */
  lemma SendsSnoc(cs: seq<RoomCommand>, c: RoomCommand)
    ensures Sends(cs + [c]) == Sends(cs) + (if c.kind == Send then [c] else [])
  {
    SendsAppend(cs, [c]);
    assert Sends([c]) == (if c.kind == Send then [c] else []) by {
      assert [c][1..] == [];
    }
  }

  /**
   * The commands `Sends` selects are the `Send` commands of its input: all
   * of them come from the input and are `Send`s, and none is missed.
   */
  lemma {:induction false} SendsAreTheSends(cs: seq<RoomCommand>)
    ensures forall c :: c in Sends(cs) ==> c in cs && c.kind == Send
    ensures forall c :: c in cs && c.kind == Send ==> c in Sends(cs)
  {
    if cs != [] {
      SendsAreTheSends(cs[1..]);
      assert cs == [cs[0]] + cs[1..];
    }
  }

  /** Every command `Sends` selects from well-formed commands can be stored. */
  lemma {:induction false} SendsAreStorable(cs: seq<RoomCommand>)
    requires forall c :: c in cs ==> WellFormed(c)
    ensures forall c :: c in Sends(cs) ==> Storable(c)
  {
    SendsAreTheSends(cs);
  }

  // ---------------------------------------------------------------------
  // The idle timer
  // ---------------------------------------------------------------------

  /**
   * The time at which a timer that starts at `now` and sleeps `idle` at a
   * time, until the clock is no longer before `snapshot`, returns.
   */
  function FirstWake(now: nat, idle: nat, snapshot: nat): (w: nat)
    requires idle > 0 || snapshot <= now
    ensures snapshot <= w && now <= w
    ensures w == now || w < snapshot + idle
    decreases snapshot - now
  {
    if snapshot <= now then now else FirstWake(now + idle, idle, snapshot)
  }

  /** The clock after `sleeps` sleeps of `idle` from `now`. */
  function After(now: nat, sleeps: nat, idle: nat): nat
  {
    now + sleeps * idle
  }

  /** The timer only ever wakes a whole number of sleeps after it started. */
  lemma {:induction false} FirstWakeIsWholeSleeps(now: nat, idle: nat, snapshot: nat)
    requires idle > 0 || snapshot <= now
    ensures exists k: nat :: FirstWake(now, idle, snapshot) == After(now, k, idle)
    decreases snapshot - now
  {
    if snapshot <= now {
      assert FirstWake(now, idle, snapshot) == After(now, 0, idle);
    } else {
      FirstWakeIsWholeSleeps(now + idle, idle, snapshot);
      var k: nat :| FirstWake(now + idle, idle, snapshot) == After(now + idle, k, idle);
      assert After(now + idle, k, idle) == After(now, k + 1, idle) by {
        assert (k + 1) * idle == k * idle + idle;
      }
    }
  }

  /** The timer branch of the room's `select!`, given the deadline it copied. */
  method Timer(start: nat, idle: nat, snapshot: nat) returns (fireAt: nat)
    requires idle > 0 || snapshot <= start
    ensures fireAt == FirstWake(start, idle, snapshot)
    ensures snapshot <= fireAt && (fireAt == start || fireAt < snapshot + idle)
  {
    var now := start;
    while now < snapshot
      invariant start <= now
      invariant idle > 0 || snapshot <= now
      invariant FirstWake(now, idle, snapshot) == FirstWake(start, idle, snapshot)
      invariant now == start || now - idle < snapshot
      decreases snapshot - now
    {
      now := now + idle;
    }
    fireAt := now;
  }

  /** The deadline the timer copies is the first one, so it fires exactly `idle` after the room starts. */
  lemma FirstDeadlineWake(start: nat, idle: nat)
    ensures FirstWake(start, idle, start + idle) == start + idle
  {
    if idle > 0 {
      assert FirstWake(start + idle, idle, start + idle) == start + idle;
    }
  }

  // ---------------------------------------------------------------------
  // The actor's drain loop
  // ---------------------------------------------------------------------

  /** A sequence that agrees index by index with the first arrivals is their commands. */
  lemma CommandsOfPrefix(arrivals: seq<Arrival>, cs: seq<RoomCommand>)
    requires |cs| <= |arrivals|
    requires forall i :: 0 <= i < |cs| ==> cs[i] == arrivals[i].command
    ensures cs == Commands(arrivals[..|cs|])
  {
    assert forall i :: 0 <= i < |cs| ==> arrivals[..|cs|][i] == arrivals[i];
  }

  /** Taking one more arrival adds its command to the end. */
  lemma CommandsSnoc(arrivals: seq<Arrival>, n: nat)
    requires n < |arrivals|
    ensures Commands(arrivals[..n + 1]) == Commands(arrivals[..n]) + [arrivals[n].command]
  {
    assert forall i :: 0 <= i < n ==> arrivals[..n + 1][i] == arrivals[..n][i];
  }

  /** How the actor's race ended. */
  datatype Exit = ClosedByCommand | TimedOut(at: nat)

  /**
   * The loop draining the command channel, raced against a timer that
   * fires at `fireAt`: it takes each arrival that comes before the timer,
   * moves the deadline to its arrival plus `idle`, stops on `Close`, and
   * otherwise broadcasts the command and forwards it to the persistence
   * sink when it is a `Send`.
   */
  method TakeCommands(start: nat, idle: nat, fireAt: nat, arrivals: seq<Arrival>)
    returns (broadcast: seq<RoomCommand>, persisted: seq<RoomCommand>, received: nat, deadline: nat, closed: bool)
    ensures received <= |arrivals|
    ensures forall i :: 0 <= i < received ==> arrivals[i].at < fireAt
    ensures closed <==> received > 0 && arrivals[received - 1].command.kind == Close
    ensures !closed ==> received == |arrivals| || arrivals[received].at >= fireAt
    ensures |broadcast| == (if closed then received - 1 else received)
    ensures forall i :: 0 <= i < |broadcast| ==> broadcast[i] == arrivals[i].command && broadcast[i].kind != Close
    ensures persisted == Sends(broadcast)
    ensures deadline == (if received == 0 then start + idle else arrivals[received - 1].at + idle)
  {
    deadline := start + idle;
    broadcast, persisted, received := [], [], 0;
    closed := false;
    while received < |arrivals| && arrivals[received].at < fireAt
      invariant received <= |arrivals|
      invariant forall i :: 0 <= i < received ==> arrivals[i].at < fireAt && arrivals[i].command.kind != Close
      invariant broadcast == Commands(arrivals[..received])
      invariant persisted == Sends(broadcast)
      invariant deadline == (if received == 0 then start + idle else arrivals[received - 1].at + idle)
    {
      var a := arrivals[received];
      deadline := a.at + idle;
      received := received + 1;
      if a.command.kind == Close {
        closed := true;
        break;
      }
      SendsSnoc(broadcast, a.command);
      CommandsSnoc(arrivals, received - 1);
      if a.command.kind == Send {
        persisted := persisted + [a.command];
      }
      broadcast := broadcast + [a.command];
    }
  }

  /**
   * The body of the actor task up to the call of `delete_room`: the race
   * between the idle timer and the loop draining the command channel.
   * Returns what was broadcast, what was forwarded to the persistence sink,
   * how many arrivals were taken off the channel, the final value of the
   * deadline cell and how the race ended.
   */
  method DrainCommands(start: nat, idle: nat, arrivals: seq<Arrival>)
    returns (broadcast: seq<RoomCommand>, persisted: seq<RoomCommand>, received: nat, deadline: nat, exit: Exit)
    ensures received <= |arrivals|
    // every command taken arrived before the timer fired
    ensures forall i :: 0 <= i < received ==> arrivals[i].at < start + idle
    // the race ends on a Close command or on the timer, which fires at the first deadline
    ensures exit == ClosedByCommand <==> received > 0 && arrivals[received - 1].command.kind == Close
    ensures exit.TimedOut? ==> exit.at == start + idle
    ensures exit.TimedOut? ==> received == |arrivals| || arrivals[received].at >= start + idle
    // the broadcast log is the received commands before the first Close, in order
    ensures |broadcast| == (if exit == ClosedByCommand then received - 1 else received)
    ensures broadcast == Commands(arrivals[..|broadcast|])
    ensures forall c :: c in broadcast ==> c.kind != Close
    // the persistence sink gets exactly the Send commands among them
    ensures persisted == Sends(broadcast)
    // every received command, whatever it is, moves the deadline to its arrival plus idle
    ensures deadline == (if received == 0 then start + idle else arrivals[received - 1].at + idle)
  {
    // the timer branch copies the deadline, still `start + idle`, once before the loop runs
    var fireAt := Timer(start, idle, start + idle);
    FirstDeadlineWake(start, idle);
    var closed;
    broadcast, persisted, received, deadline, closed := TakeCommands(start, idle, fireAt, arrivals);
    exit := if closed then ClosedByCommand else TimedOut(fireAt);
    CommandsOfPrefix(arrivals, broadcast);
  }

  /**
   * The timer reads the deadline once: a room that is busy the whole time
   * still closes `idle` after it starts. A join at time 5 moves the deadline
   * to 15, yet with idle 10 the room times out at 10 and never takes the
   * message that arrives at 12.
   */
  method TimerSnapshotScenario() returns (exit: Exit, deadline: nat, received: nat, broadcast: seq<RoomCommand>)
    ensures exit == TimedOut(10) && deadline == 15 && exit.at < deadline
    ensures received == 1 && broadcast == [JoinCommand("ann")]
  {
    var arrivals := [Arrival(5, JoinCommand("ann")), Arrival(12, SendCommand(1, "ann", "r", "hi"))];
    var persisted;
    broadcast, persisted, received, deadline, exit := DrainCommands(0, 10, arrivals);
    assert arrivals[..1] == [arrivals[0]];
  }

  /**
   * The idle timer that the drain loop's deadline writes are there for
   * (backend/src/room_manager/mod.rs:114-115): it re-reads the deadline after
   * each sleep, so each command taken before the current deadline pushes
   * the close time to that command's arrival plus idle.
   */
  function SlidingCloseTime(deadline: nat, idle: nat, arrivals: seq<Arrival>): nat
    decreases |arrivals|
  {
    if arrivals == [] || arrivals[0].at >= deadline then deadline
    else SlidingCloseTime(arrivals[0].at + idle, idle, arrivals[1..])
  }

  /** Arrivals come off the channel in time order. */
  ghost predicate Chronological(arrivals: seq<Arrival>) {
    forall i, j :: 0 <= i < j < |arrivals| ==> arrivals[i].at <= arrivals[j].at
  }

  /** Each arrival comes before the deadline left by the one before it. */
  ghost predicate Steady(deadline: nat, idle: nat, arrivals: seq<Arrival>) {
    && (|arrivals| > 0 ==> arrivals[0].at < deadline)
    && forall i :: 0 < i < |arrivals| ==> arrivals[i].at < arrivals[i - 1].at + idle
  }

  /**
   * With the sliding timer, commands that keep coming less than `idle`
   * apart, each before the deadline the previous one set, never see the
   * timer fire before them, and it fires `idle` after the last. (A `Close`
   * among them still ends the room by itself when it is taken.)
   */
  lemma {:induction false} SlidingTimerKeepsBusyRoomOpen(deadline: nat, idle: nat, arrivals: seq<Arrival>)
    requires idle > 0 && Chronological(arrivals) && Steady(deadline, idle, arrivals)
    ensures forall i :: 0 <= i < |arrivals| ==> arrivals[i].at < SlidingCloseTime(deadline, idle, arrivals)
    ensures |arrivals| > 0 ==> SlidingCloseTime(deadline, idle, arrivals) == arrivals[|arrivals| - 1].at + idle
    decreases |arrivals|
  {
    if |arrivals| > 0 {
      var rest := arrivals[1..];
      assert Chronological(rest);
      assert Steady(arrivals[0].at + idle, idle, rest) by {
        assert forall i :: 0 < i < |rest| ==> rest[i] == arrivals[i + 1] && rest[i - 1] == arrivals[i];
      }
      SlidingTimerKeepsBusyRoomOpen(arrivals[0].at + idle, idle, rest);
      var t := SlidingCloseTime(deadline, idle, arrivals);
      assert t == SlidingCloseTime(arrivals[0].at + idle, idle, rest);
      forall i | 0 <= i < |arrivals|
        ensures arrivals[i].at < t
      {
        if i > 0 {
          assert arrivals[i] == rest[i - 1];
        } else if |rest| > 0 {
          assert arrivals[0].at <= arrivals[|arrivals| - 1].at;
        }
      }
    }
  }

  /** The same busy stream as in `TimerSnapshotScenario` keeps a room with the sliding timer open until 22. */
  lemma SlidingScenario()
    ensures SlidingCloseTime(10, 10, [Arrival(5, JoinCommand("ann")), Arrival(12, SendCommand(1, "ann", "r", "hi"))]) == 22
  {
    var arrivals := [Arrival(5, JoinCommand("ann")), Arrival(12, SendCommand(1, "ann", "r", "hi"))];
    assert arrivals[1..] == [arrivals[1]];
    assert arrivals[1..][1..] == [];
  }

  // ---------------------------------------------------------------------
  // The registry
  // ---------------------------------------------------------------------

  /** `RoomState`: the room's channels, represented by the log of its broadcast channel. */
  datatype RoomEntry = RoomEntry(broadcast: seq<RoomCommand>)

  /** What `create` and `join` hand out: the room id and where in the broadcast log the new subscriber starts reading. */
  datatype RoomHandle = RoomHandle(roomId: string, subscribedAt: nat)

  /** The database error returned when the room row cannot be inserted. */
  datatype DbError = InsertFailed

  /** `RoomManager`. */
  class RoomManager {
    /** The shared `rooms` map. */
    var rooms: map<string, RoomEntry>
    /** The rooms whose actor task has been spawned and has not yet exited. */
    var running: set<string>
    /** The final broadcast log of each room removed from the registry. */
    var closedLogs: map<string, seq<RoomCommand>>
    /** The rooms table: id to name of every room whose row was inserted. */
    var stored: map<string, string>
    /** Everything the actors forwarded to the persistence sink, in order. */
    var persisted: seq<RoomCommand>
    /** The idle duration after which a room closes. */
    const idle: nat

    /** Every registry entry has a running actor and every running actor an entry. */
    ghost predicate Consistent()
      reads this
    {
      rooms.Keys == running
    }

    /** The entries no actor will ever remove. */
    ghost function Orphans(): set<string>
      reads this
    {
      rooms.Keys - running
    }

    /** `RoomManager::build`: an empty registry. */
    constructor Build(idle: nat)
      ensures this.idle == idle
      ensures rooms == map[] && running == {} && closedLogs == map[] && stored == map[] && persisted == []
      ensures Consistent()
    {
      this.idle := idle;
      rooms, running, closedLogs, stored, persisted := map[], {}, map[], map[], [];
    }

    /**
     * `RoomManager::create`, as written: the entry goes into the registry
     * before the row is inserted and stays there when the insert fails; the
     * actor is spawned only on success. `freshId` stands for the new UUID
     * and `dbOk` for the outcome of the insert.
     */
    method Create(roomName: string, freshId: string, dbOk: bool) returns (r: Result<RoomHandle, DbError>)
      requires freshId !in rooms && freshId !in running && freshId !in closedLogs
      modifies this
      ensures rooms == old(rooms)[freshId := RoomEntry([])]
      ensures dbOk ==> r == Ok(RoomHandle(freshId, 0))
      ensures dbOk ==> running == old(running) + {freshId} && stored == old(stored)[freshId := roomName]
      ensures !dbOk ==> r == Err(InsertFailed) && running == old(running) && stored == old(stored)
      ensures !dbOk ==> Orphans() == old(Orphans()) + {freshId}
      ensures dbOk && old(Consistent()) ==> Consistent()
      ensures closedLogs == old(closedLogs) && persisted == old(persisted)
    {
      rooms := rooms[freshId := RoomEntry([])];
      if dbOk {
        stored := stored[freshId := roomName];
        running := running + {freshId};
        r := Ok(RoomHandle(freshId, 0));
      } else {
        r := Err(InsertFailed);
      }
    }

    /**
     * `create` with a rollback: on a failed insert the entry just put into
     * the registry is taken out again, so no entry is left without an actor.
     */
    method CreateWithRollback(roomName: string, freshId: string, dbOk: bool) returns (r: Result<RoomHandle, DbError>)
      requires freshId !in rooms && freshId !in running && freshId !in closedLogs
      modifies this
      ensures dbOk ==> r == Ok(RoomHandle(freshId, 0)) && rooms == old(rooms)[freshId := RoomEntry([])]
      ensures dbOk ==> running == old(running) + {freshId} && stored == old(stored)[freshId := roomName]
      ensures !dbOk ==> r == Err(InsertFailed) && rooms == old(rooms) && running == old(running) && stored == old(stored)
      ensures Orphans() == old(Orphans())
      ensures old(Consistent()) ==> Consistent()
      ensures closedLogs == old(closedLogs) && persisted == old(persisted)
    {
      rooms := rooms[freshId := RoomEntry([])];
      if dbOk {
        stored := stored[freshId := roomName];
        running := running + {freshId};
        r := Ok(RoomHandle(freshId, 0));
      } else {
        rooms := rooms - {freshId};
        r := Err(InsertFailed);
      }
    }

    /** `RoomManager::join`: handles to a room in the registry, read-only. */
    method Join(roomId: string) returns (h: Option<RoomHandle>)
      ensures h.Some? <==> roomId in rooms
      ensures h.Some? ==> h.value == RoomHandle(roomId, |rooms[roomId].broadcast|)
    {
      if roomId in rooms {
        h := Some(RoomHandle(roomId, |rooms[roomId].broadcast|));
      } else {
        h := None;
      }
    }

    /**
     * `RoomManager::delete_room`: broadcasts Close to the room and removes
     * its entry; nothing happens when the id is absent.
     */
    method DeleteRoom(roomId: string)
      modifies this
      ensures roomId !in rooms
      ensures rooms == old(rooms) - {roomId}
      ensures roomId in old(rooms) ==> closedLogs == old(closedLogs)[roomId := old(rooms)[roomId].broadcast + [CloseCommand()]]
      ensures roomId !in old(rooms) ==> closedLogs == old(closedLogs)
      ensures running == old(running) && stored == old(stored) && persisted == old(persisted)
    {
      if roomId in rooms {
        closedLogs := closedLogs[roomId := rooms[roomId].broadcast + [CloseCommand()]];
        rooms := rooms - {roomId};
      }
    }

    /**
     * The actor task that `create_room` spawns, run to its end: drain the
     * commands, broadcasting each and forwarding each Send to the
     * persistence sink, until a Close or the idle timer; then `delete_room`.
     */
    method RunActor(roomId: string, start: nat, arrivals: seq<Arrival>)
      returns (broadcast: seq<RoomCommand>, received: nat, deadline: nat, exit: Exit)
      requires roomId in rooms && roomId in running
      modifies this
      ensures received <= |arrivals| && forall i :: 0 <= i < received ==> arrivals[i].at < start + idle
      ensures exit == ClosedByCommand <==> received > 0 && arrivals[received - 1].command.kind == Close
      ensures exit.TimedOut? ==> exit.at == start + idle
      ensures exit.TimedOut? ==> received == |arrivals| || arrivals[received].at >= start + idle
      ensures |broadcast| == (if exit == ClosedByCommand then received - 1 else received)
      ensures broadcast == Commands(arrivals[..|broadcast|])
      ensures forall c :: c in broadcast ==> c.kind != Close
      ensures deadline == (if received == 0 then start + idle else arrivals[received - 1].at + idle)
      // the room's channel log ends with what the actor broadcast and the Close of delete_room
      ensures closedLogs == old(closedLogs)[roomId := old(rooms)[roomId].broadcast + broadcast + [CloseCommand()]]
      ensures persisted == old(persisted) + Sends(broadcast)
      // the room is no longer joinable, and only its entry is gone
      ensures rooms == old(rooms) - {roomId} && running == old(running) - {roomId}
      ensures stored == old(stored)
      ensures old(Consistent()) ==> Consistent()
    {
      var sent;
      broadcast, sent, received, deadline, exit := DrainCommands(start, idle, arrivals);
      rooms := rooms[roomId := RoomEntry(rooms[roomId].broadcast + broadcast)];
      persisted := persisted + sent;
      DeleteRoom(roomId);
      running := running - {roomId};
    }
  }

  /**
   * A room's life: created, joined, one message sent and then Close; after
   * the actor ends the room's log holds the message and a single final
   * Close, the sink holds the message, and the room cannot be joined.
   */
  method LifecycleScenario() returns (created: Result<RoomHandle, DbError>, before: Option<RoomHandle>, after: Option<RoomHandle>, log: seq<RoomCommand>, sink: seq<RoomCommand>)
    ensures created == Ok(RoomHandle("r", 0)) && before == Some(RoomHandle("r", 0)) && after == None
    ensures log == [SendCommand(7, "ann", "r", "hi"), CloseCommand()] && sink == [SendCommand(7, "ann", "r", "hi")]
  {
    var m := new RoomManager.Build(10);
    created := m.Create("general", "r", true);
    before := m.Join("r");
    var hi := SendCommand(7, "ann", "r", "hi");
    var arrivals := [Arrival(1, hi), Arrival(2, CloseCommand())];
    var broadcast, received, deadline, exit := m.RunActor("r", 0, arrivals);
    assert received == 2;
    assert arrivals[..1] == [Arrival(1, hi)];
    assert Sends([hi]) == [hi] + Sends([]);
    after := m.Join("r");
    log, sink := m.closedLogs["r"], m.persisted;
  }

  /** As written, a failed insert leaves a joinable entry that no actor will ever remove. */
  method FailedCreateScenario() returns (created: Result<RoomHandle, DbError>, joined: Option<RoomHandle>, orphaned: bool)
    ensures created == Err(InsertFailed) && joined == Some(RoomHandle("r", 0)) && orphaned
  {
    var m := new RoomManager.Build(10);
    created := m.Create("general", "r", false);
    joined := m.Join("r");
    orphaned := "r" in m.rooms && "r" !in m.running;
  }

  /** With the rollback, the same failed insert leaves nothing behind. */
  method FailedCreateWithRollbackScenario() returns (created: Result<RoomHandle, DbError>, joined: Option<RoomHandle>, consistent: bool)
    ensures created == Err(InsertFailed) && joined == None && consistent
  {
    var m := new RoomManager.Build(10);
    created := m.CreateWithRollback("general", "r", false);
    joined := m.Join("r");
    consistent := m.rooms.Keys == m.running;
  }
}
