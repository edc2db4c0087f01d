/**
 * The session registry (backend/src/session/mod.rs): a map from session id
 * to the user it authenticates and the instant it expires, with a periodic
 * sweep that drops the expired sessions.
 */
module Sessions {
  import opened Common

  /** `Session`. */
  datatype Session = Session(userId: i32, expiration: nat)

  /** The sessions a sweep at `now` keeps: those still to expire. */
  function Unexpired(sessions: map<string, Session>, now: nat): (live: map<string, Session>)
    ensures forall id :: id in live <==> id in sessions && sessions[id].expiration > now
    ensures forall id :: id in live ==> live[id] == sessions[id]
  {
    map id | id in sessions && sessions[id].expiration > now :: sessions[id]
  }

  /** Sweeping twice at the same instant changes nothing more. */
  lemma UnexpiredIdempotent(sessions: map<string, Session>, now: nat)
    ensures Unexpired(Unexpired(sessions, now), now) == Unexpired(sessions, now)
  {
  }

  /** A sweep at a later instant subsumes an earlier one. */
  lemma UnexpiredLater(sessions: map<string, Session>, earlier: nat, later: nat)
    requires earlier <= later
    ensures Unexpired(Unexpired(sessions, earlier), later) == Unexpired(sessions, later)
  {
  }

  /** A session stamped with expiration `t` is removed by every sweep at or after `t`. */
  lemma StampedSessionIsSwept(sessions: map<string, Session>, id: string, userId: i32, t: nat, now: nat)
    requires t <= now
    ensures id !in Unexpired(sessions[id := Session(userId, t)], now)
  {
  }

  /** A session stamped with `t + window` survives every sweep before that instant. */
  lemma WindowedSessionSurvives(sessions: map<string, Session>, id: string, userId: i32, t: nat, window: nat, now: nat)
    requires now < t + window
    ensures id in Unexpired(sessions[id := Session(userId, t + window)], now)
    ensures Unexpired(sessions[id := Session(userId, t + window)], now)[id] == Session(userId, t + window)
  {
  }

  /** `SessionManager`. */
  class SessionManager {
    /** The shared `sessions` map. */
    var sessions: map<string, Session>
    /** The sweep period, which the sliding-window operations below also use as the session window. */
    const duration: nat

    /** `SessionManager::build`: no sessions. */
    constructor Build(duration: nat)
      ensures sessions == map[] && this.duration == duration
    {
      this.duration := duration;
      sessions := map[];
    }

    /**
     * `SessionManager::new_session`, as written: the new session expires
     * at the instant it is created. `freshId` stands for the new UUID.
     */
    method NewSession(userId: i32, now: nat, freshId: string) returns (id: string)
      requires freshId !in sessions
      modifies this
      ensures id == freshId && id !in old(sessions)
      ensures sessions == old(sessions)[id := Session(userId, now)]
    {
      id := freshId;
      sessions := sessions[id := Session(userId, now)];
    }

    /** `SessionManager::update_session`, as written: an upsert stamped with the current instant. */
    method UpdateSession(sessionId: string, userId: i32, now: nat)
      modifies this
      ensures sessions == old(sessions)[sessionId := Session(userId, now)]
    {
      sessions := sessions[sessionId := Session(userId, now)];
    }

    /** `new_session` with its sliding-window intent: the session lasts one window. */
    method NewSessionWindowed(userId: i32, now: nat, freshId: string) returns (id: string)
      requires freshId !in sessions
      modifies this
      ensures id == freshId && id !in old(sessions)
      ensures sessions == old(sessions)[id := Session(userId, now + duration)]
    {
      id := freshId;
      sessions := sessions[id := Session(userId, now + duration)];
    }

    /** `update_session` with its sliding-window intent: the window slides from the current instant. */
    method UpdateSessionWindowed(sessionId: string, userId: i32, now: nat)
      modifies this
      ensures sessions == old(sessions)[sessionId := Session(userId, now + duration)]
    {
      sessions := sessions[sessionId := Session(userId, now + duration)];
    }

    /** `SessionManager::delete_session`: removes the one key, if present. */
    method DeleteSession(sessionId: string)
      modifies this
      ensures sessions == old(sessions) - {sessionId}
      ensures sessionId !in old(sessions) ==> sessions == old(sessions)
    {
      sessions := sessions - {sessionId};
    }

    /** One pass of the sweep in `run_checker`: `retain` the sessions still to expire. */
    method Sweep(now: nat)
      modifies this
      ensures sessions == Unexpired(old(sessions), now)
    {
      sessions := Unexpired(sessions, now);
    }

    /**
     * The checker loop of `run_checker`, started at `start` and run for
     * `rounds` periods: it sleeps one period, then sweeps at the instant it
     * woke. Its effect is that of the last sweep alone.
     */
    method RunChecker(start: nat, rounds: nat)
      modifies this
      ensures rounds == 0 ==> sessions == old(sessions)
      ensures rounds > 0 ==> sessions == Unexpired(old(sessions), start + rounds * duration)
    {
      var now := start;
      var i := 0;
      while i < rounds
        invariant i <= rounds
        invariant now == start + i * duration
        invariant i == 0 ==> sessions == old(sessions)
        invariant i > 0 ==> sessions == Unexpired(old(sessions), now)
      {
        now := now + duration;
        if i > 0 {
          UnexpiredLater(old(sessions), now - duration, now);
        }
        Sweep(now);
        i := i + 1;
      }
    }
  }

  /**
   * As written, a user who signs up at time 100 has lost the session by the
   * sweep that runs at that same instant.
   */
  method FreshSessionScenario() returns (id: string, alive: bool)
    ensures id == "s" && !alive
  {
    var m := new SessionManager.Build(1800);
    id := m.NewSession(7, 100, "s");
    m.Sweep(100);
    alive := id in m.sessions;
  }

  /** With the window applied, the same session is still there at the sweep one period later less one. */
  method WindowedSessionScenario() returns (id: string, alive: bool)
    ensures id == "s" && alive
  {
    var m := new SessionManager.Build(1800);
    id := m.NewSessionWindowed(7, 100, "s");
    m.Sweep(1899);
    alive := id in m.sessions;
  }
}
