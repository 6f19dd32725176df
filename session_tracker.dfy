/**
 * GameSessionTracker: a two-state machine, idle or holding one active
 * GameSession, that opens, annotates and closes sessions against the
 * session store. The pure functions below give each operation on the
 * tracker's value (store plus active session); the class's methods are
 * proved to follow them.
 */
module SessionTracking {
  import opened Common
  import opened GameSessions
  import opened SessionStore

  /** The tracker as a value: the persisted rows and the in-flight session, if any. */
  datatype TrackerState = TrackerState(store: Store, active: Option<SessionRecord>)

  /**
   * The tracker's invariant: the store's ids are its row numbers, and an
   * active session has been persisted under the id it carries, is not yet
   * ended, and differs from its row at most in telemetry written since.
   */
  ghost predicate Valid(t: TrackerState)
  {
    WellFormed(t.store) &&
    (t.active.Some? ==>
      var a := t.active.value;
      a.id.Some? && HasRow(t.store, a.id.value) && a.endTime.None? &&
      t.store.rows[a.id.value - 1] == a.(sessionData := t.store.rows[a.id.value - 1].sessionData))
  }

  /** start_session: a new session replaces whatever was active, and is persisted under a fresh id. */
  function OpenSpec(t: TrackerState, userId: int, gameId: string, difficulty: string, now: int): (res: (TrackerState, int))
    ensures !HasRow(t.store, res.1)
    ensures res.0.active == Some(NewRecord(userId, gameId, difficulty, now).(id := Some(res.1)))
    ensures res.0.store.rows == t.store.rows + [res.0.active.value]
    ensures WellFormed(t.store) ==> Valid(res.0)
  {
    var rec := NewRecord(userId, gameId, difficulty, now);
    var created := Create(t.store, rec);
    (TrackerState(created.0, Some(rec.(id := Some(created.1)))), created.1)
  }

  /** end_session: fails without an active session; otherwise ends it, persists it and goes idle. */
  function CloseSpec(t: TrackerState, score: Option<int>, completed: bool, data: map<string, Datum>, now: int): (res: (TrackerState, bool))
    ensures t.active.None? ==> res == (t, false)
    ensures t.active.Some? ==> res.0.active.None?
    ensures WellFormed(t.store) ==> WellFormed(res.0.store)
  {
    match t.active
    case None => (t, false)
    case Some(a) =>
      var updated := Update(t.store, EndRecord(a, score, completed, data, now));
      (TrackerState(updated.0, None), updated.1)
  }

  /** update_session_data: fails without an active session; otherwise sets key to value. */
  function PutSpec(t: TrackerState, key: string, value: Datum): (res: (TrackerState, bool))
    ensures res.1 <==> t.active.Some?
    ensures !res.1 ==> res.0 == t
    ensures res.1 ==> res.0.store == t.store && res.0.active.Some?
    ensures res.1 ==> res.0.active.value == t.active.value.(sessionData := t.active.value.sessionData[key := value])
  {
    match t.active
    case None => (t, false)
    case Some(a) => (TrackerState(t.store, Some(a.(sessionData := a.sessionData[key := value]))), true)
  }

  /** end_session with no active session answers False and leaves the tracker as it was. */
  lemma EndWhenIdle(t: TrackerState, score: Option<int>, completed: bool, data: map<string, Datum>, now: int)
    requires t.active.None?
    ensures CloseSpec(t, score, completed, data, now) == (t, false)
  {
  }

  /**
   * Ending the active session of a valid tracker persists it: the store's
   * answer is True, the row with the session's id now holds the end time,
   * duration, score, outcome and merged telemetry, no other row changes,
   * and the tracker is idle and still valid.
   */
  lemma {:induction false} EndPersists(t: TrackerState, score: Option<int>, completed: bool, data: map<string, Datum>, now: int)
    requires Valid(t) && t.active.Some?
    ensures var res := CloseSpec(t, score, completed, data, now);
      var a := t.active.value;
      var row := res.0.store.rows[a.id.value - 1];
      && res.1
      && res.0.active.None? && Valid(res.0)
      && |res.0.store.rows| == |t.store.rows|
      && row.endTime == Some(now) && row.duration == Some(now - row.startTime)
      && row.score == score && row.completed == completed
      && row.sessionData == a.sessionData + data
      && (forall i :: 0 <= i < |t.store.rows| && i != a.id.value - 1 ==> res.0.store.rows[i] == t.store.rows[i])
  {
    var a := t.active.value;
    var e := EndRecord(a, score, completed, data, now);
    assert e.id == a.id;
    var updated := Update(t.store, e);
    assert updated.1;
    var i := a.id.value - 1;
    assert updated.0.rows[i] == t.store.rows[i].(endTime := e.endTime, duration := e.duration, score := e.score,
      completed := e.completed, difficultyLevel := e.difficultyLevel, sessionData := e.sessionData);
  }

  /** A second end_session in a row always answers False. */
  lemma SecondEndFails(t: TrackerState, s1: Option<int>, c1: bool, d1: map<string, Datum>, n1: int,
                       s2: Option<int>, c2: bool, d2: map<string, Datum>, n2: int)
    ensures var first := CloseSpec(t, s1, c1, d1, n1).0;
      CloseSpec(first, s2, c2, d2, n2) == (first, false)
  {
  }

  /** update_session_data: the last write to a key wins, and other keys are untouched. */
  lemma LastWriteWins(t: TrackerState, key: string, v1: Datum, v2: Datum, other: string)
    requires t.active.Some? && other != key
    ensures var after := PutSpec(PutSpec(t, key, v1).0, key, v2).0;
      after.active.Some? && after.active.value.sessionData[key] == v2 &&
      (other in t.active.value.sessionData ==> after.active.value.sessionData[other] == t.active.value.sessionData[other]) &&
      (other !in t.active.value.sessionData ==> other !in after.active.value.sessionData)
  {
  }

  /** One call the game makes on its tracker. */
  datatype Effect =
    | Open(userId: int, gameId: string, difficulty: string, now: int)
    | Put(key: string, value: Datum)
    | Close(score: int, completed: bool, data: map<string, Datum>, now: int)

  function Step(t: TrackerState, e: Effect): TrackerState
  {
    match e
    case Open(u, g, d, now) => OpenSpec(t, u, g, d, now).0
    case Put(k, v) => PutSpec(t, k, v).0
    case Close(s, c, data, now) => CloseSpec(t, Some(s), c, data, now).0
  }

  /** The tracker after a sequence of calls, in order. */
  function Replay(t: TrackerState, effects: seq<Effect>): TrackerState
    decreases |effects|
  {
    if effects == [] then t else Replay(Step(t, effects[0]), effects[1..])
  }

  lemma {:induction false} ReplayAppend(t: TrackerState, a: seq<Effect>, b: seq<Effect>)
    ensures Replay(t, a + b) == Replay(Replay(t, a), b)
    decreases |a|
  {
    if a == [] {
      assert a + b == b;
    } else {
      assert (a + b)[0] == a[0];
      assert (a + b)[1..] == a[1..] + b;
      ReplayAppend(Step(t, a[0]), a[1..], b);
    }
  }

  /** Replaying one more call is one more step. */
  lemma ReplaySnoc(t: TrackerState, done: seq<Effect>, e: Effect)
    ensures Replay(t, done + [e]) == Step(Replay(t, done), e)
  {
    ReplayAppend(t, done, [e]);
    assert Replay(Replay(t, done), [e]) == Replay(Step(Replay(t, done), e), []);
  }

  lemma ReplayTwo(t: TrackerState, a: Effect, b: Effect)
    ensures Replay(t, [a, b]) == Step(Step(t, a), b)
  {
    ReplaySnoc(t, [a], b);
    ReplaySnoc(t, [], a);
    assert [a] + [b] == [a, b];
    assert [] + [a] == [a];
  }

  lemma ReplayThree(t: TrackerState, a: Effect, b: Effect, c: Effect)
    ensures Replay(t, [a, b, c]) == Step(Step(Step(t, a), b), c)
  {
    ReplaySnoc(t, [a, b], c);
    ReplayTwo(t, a, b);
    assert [a, b] + [c] == [a, b, c];
  }

  ghost predicate AllPuts(effects: seq<Effect>)
  {
    forall i :: 0 <= i < |effects| ==> effects[i].Put?
  }

  lemma AllPutsAppend(a: seq<Effect>, b: seq<Effect>)
    requires AllPuts(a) && AllPuts(b)
    ensures AllPuts(a + b)
  {
    forall i | 0 <= i < |a + b|
      ensures (a + b)[i].Put?
    {
      if i >= |a| {
        assert (a + b)[i] == b[i - |a|];
      }
    }
  }

  /**
   * Telemetry writes on an active session keep it active under the same
   * id, leave the store and every column but the telemetry alone, and
   * keep the tracker valid.
   */
  lemma {:induction false} ReplayPuts(t: TrackerState, effects: seq<Effect>)
    requires Valid(t) && t.active.Some? && AllPuts(effects)
    ensures var r := Replay(t, effects);
      Valid(r) && r.store == t.store && r.active.Some? &&
      r.active.value == t.active.value.(sessionData := r.active.value.sessionData)
    decreases |effects|
  {
    if effects != [] {
      ReplayPuts(Step(t, effects[0]), effects[1..]);
    }
  }

  /**
   * A play that opens a session, writes telemetry and closes it leaves a
   * valid tracker idle, with the opened session persisted as ended with
   * the closing score and outcome.
   */
  lemma {:induction false} OpenPutsCloseLeavesIdle(t: TrackerState, open: Effect, puts: seq<Effect>, close: Effect)
    requires WellFormed(t.store) && open.Open? && close.Close? && AllPuts(puts)
    ensures var r := Replay(t, [open] + puts + [close]);
      var id := |t.store.rows| + 1;
      && Valid(r) && r.active.None?
      && |r.store.rows| == |t.store.rows| + 1
      && r.store.rows[..|t.store.rows|] == t.store.rows
      && r.store.rows[id - 1].id == Some(id)
      && r.store.rows[id - 1].userId == open.userId
      && r.store.rows[id - 1].gameId == open.gameId
      && r.store.rows[id - 1].difficultyLevel == open.difficulty
      && r.store.rows[id - 1].startTime == open.now
      && r.store.rows[id - 1].endTime == Some(close.now)
      && r.store.rows[id - 1].score == Some(close.score)
      && r.store.rows[id - 1].completed == close.completed
  {
    var t1 := Step(t, open);
    var t2 := Replay(t1, puts);
    ReplayPuts(t1, puts);
    assert Replay(t2, [close]) == Step(t2, close);
    ReplayAppend(t, [open], puts);
    ReplayAppend(t, [open] + puts, [close]);
    EndPersists(t2, Some(close.score), close.completed, close.data, close.now);
    var r := Step(t2, close);
    var id := |t.store.rows| + 1;
    assert t2.active.value.id == Some(id);
    forall i | 0 <= i < |t.store.rows|
      ensures r.store.rows[i] == t.store.rows[i]
    {
      assert t1.store.rows[i] == t.store.rows[i];
    }
  }

  /** The same, for a play whose calls after the opening ones end with its single close. */
  lemma OpenPlayLeavesIdle(t: TrackerState, open: Effect, prefix: seq<Effect>, play: seq<Effect>)
    requires WellFormed(t.store) && open.Open? && AllPuts(prefix)
    requires |play| >= 1 && AllPuts(play[..|play| - 1]) && play[|play| - 1].Close?
    ensures var r := Replay(t, [open] + prefix + play);
      var id := |t.store.rows| + 1;
      var close := play[|play| - 1];
      && Valid(r) && r.active.None?
      && |r.store.rows| == |t.store.rows| + 1
      && r.store.rows[..|t.store.rows|] == t.store.rows
      && r.store.rows[id - 1].id == Some(id)
      && r.store.rows[id - 1].userId == open.userId
      && r.store.rows[id - 1].gameId == open.gameId
      && r.store.rows[id - 1].difficultyLevel == open.difficulty
      && r.store.rows[id - 1].startTime == open.now
      && r.store.rows[id - 1].endTime == Some(close.now)
      && r.store.rows[id - 1].score == Some(close.score)
      && r.store.rows[id - 1].completed == close.completed
  {
    var body := play[..|play| - 1];
    var close := play[|play| - 1];
    assert play == body + [close];
    AllPutsAppend(prefix, body);
    assert [open] + prefix + play == [open] + (prefix + body) + [close];
    OpenPutsCloseLeavesIdle(t, open, prefix + body, close);
  }

  class GameSessionTracker {
    var store: Store
    var active: GameSession?

    /** The tracker's value: its store and a snapshot of the active session. */
    function State(): (t: TrackerState)
      reads this, active
      ensures t.active.None? <==> active == null
    {
      TrackerState(store, if active == null then None else Some(active.ToDict()))
    }

    /** A new tracker is idle; the store it talks to is a parameter. */
    constructor (store: Store)
      ensures State() == TrackerState(store, None)
    {
      this.store := store;
      this.active := null;
    }

    /** start_session: returns the id the store assigned to the new active session. */
    method StartSession(userId: int, gameId: string, difficultyLevel: string, now: int) returns (id: int)
      modifies this
      ensures fresh(active)
      ensures (State(), id) == OpenSpec(old(State()), userId, gameId, difficultyLevel, now)
    {
      var session := new GameSession(userId, gameId, difficultyLevel, now);
      var created := Create(store, session.ToDict());
      store := created.0;
      session.id := Some(created.1);
      active := session;
      id := created.1;
    }

    /** end_session: the store's answer, or False when idle. */
    method EndSession(score: Option<int>, completed: bool, data: map<string, Datum>, now: int) returns (ok: bool)
      modifies this, active
      ensures (State(), ok) == CloseSpec(old(State()), score, completed, data, now)
    {
      if active == null {
        return false;
      }
      active.End(score, completed, data, now);
      var updated := Update(store, active.ToDict());
      store := updated.0;
      active := null;
      ok := updated.1;
    }

    /** update_session_data: True when a session is active and now maps key to value. */
    method UpdateSessionData(key: string, value: Datum) returns (ok: bool)
      modifies active
      ensures (State(), ok) == PutSpec(old(State()), key, value)
    {
      if active == null {
        return false;
      }
      active.sessionData := active.sessionData[key := value];
      ok := true;
    }

    /** get_user_history: the store's newest-first, limited list of the user's sessions. */
    method GetUserHistory(userId: int, limit: int) returns (sessions: seq<SessionRecord>)
      ensures sessions == FindByUser(store, userId, limit)
    {
      sessions := FindByUser(store, userId, limit);
    }

    /** active_session_id: None exactly when idle. */
    function ActiveSessionId(): (id: Option<int>)
      reads this, active
      requires Valid(State())
      ensures id.None? <==> State().active.None?
      ensures id.Some? ==> HasRow(store, id.value)
    {
      if active == null then None else active.id
    }
  }
}
