/**
 * The GameSession entity: one timed play of a game by one user, with its
 * outcome and a telemetry mapping. Timestamps are whole seconds supplied
 * by the caller (the clock is a parameter of this model).
 */
module GameSessions {
  import opened Common

  /** The value a session reports through to_dict, and the row the session store keeps. */
  datatype SessionRecord = SessionRecord(
    id: Option<int>,
    userId: int,
    gameId: string,
    startTime: int,
    endTime: Option<int>,
    duration: Option<int>,
    score: Option<int>,
    completed: bool,
    difficultyLevel: string,
    sessionData: map<string, Datum>)

  /** A session that has been stamped with an end time has the matching duration. */
  predicate Consistent(r: SessionRecord)
  {
    (r.endTime.Some? <==> r.duration.Some?) &&
    (r.endTime.Some? ==> r.duration.value == r.endTime.value - r.startTime)
  }

  /** The record a freshly constructed session reports. */
  function NewRecord(userId: int, gameId: string, difficulty: string, now: int): (r: SessionRecord)
    ensures r.id.None? && r.userId == userId && r.gameId == gameId && r.difficultyLevel == difficulty
    ensures r.startTime == now && r.endTime.None? && r.duration.None? && r.score.None?
    ensures !r.completed && r.sessionData == map[]
    ensures Consistent(r)
  {
    SessionRecord(None, userId, gameId, now, None, None, None, false, difficulty, map[])
  }

  /**
   * GameSession.end on a value: stamps the end, derives the duration,
   * overwrites score and completed, and merges the supplied telemetry
   * (supplied keys win; an empty mapping merges nothing).
   */
  function EndRecord(r: SessionRecord, score: Option<int>, completed: bool, data: map<string, Datum>, now: int): (e: SessionRecord)
    ensures e.endTime == Some(now) && e.duration == Some(now - r.startTime)
    ensures e.score == score && e.completed == completed
    ensures e.sessionData.Keys == r.sessionData.Keys + data.Keys
    ensures forall k :: k in data ==> e.sessionData[k] == data[k]
    ensures forall k :: k in r.sessionData && k !in data ==> e.sessionData[k] == r.sessionData[k]
    ensures e.id == r.id && e.userId == r.userId && e.gameId == r.gameId
    ensures e.startTime == r.startTime && e.difficultyLevel == r.difficultyLevel
    ensures Consistent(e)
  {
    r.(endTime := Some(now), duration := Some(now - r.startTime), score := score,
       completed := completed, sessionData := r.sessionData + data)
  }

  /** Ending never moves the end before the start when the clock does not run backwards. */
  lemma EndDurationNonNegative(r: SessionRecord, score: Option<int>, completed: bool, data: map<string, Datum>, now: int)
    requires now >= r.startTime
    ensures EndRecord(r, score, completed, data, now).duration.value >= 0
  {
  }

  class GameSession {
    var id: Option<int>
    var userId: int
    var gameId: string
    var startTime: int
    var endTime: Option<int>
    var duration: Option<int>
    var score: Option<int>
    var completed: bool
    var difficultyLevel: string
    var sessionData: map<string, Datum>

    /** to_dict: every field as stored; unset end fields stay None. */
    function ToDict(): (r: SessionRecord)
      reads this
      ensures r.id == id && r.userId == userId && r.gameId == gameId && r.startTime == startTime
      ensures r.endTime == endTime && r.duration == duration && r.score == score
      ensures r.completed == completed && r.difficultyLevel == difficultyLevel && r.sessionData == sessionData
    {
      SessionRecord(id, userId, gameId, startTime, endTime, duration, score, completed, difficultyLevel, sessionData)
    }

    /**
     * GameSession(user_id=..., game_id=..., difficulty_level=...), the way
     * the tracker builds it: no id, started now, not completed, no end,
     * duration or score, empty telemetry.
     */
    constructor (userId: int, gameId: string, difficultyLevel: string, now: int)
      ensures ToDict() == NewRecord(userId, gameId, difficultyLevel, now)
    {
      this.id := None;
      this.userId := userId;
      this.gameId := gameId;
      this.startTime := now;
      this.endTime := None;
      this.duration := None;
      this.score := None;
      this.completed := false;
      this.difficultyLevel := difficultyLevel;
      this.sessionData := map[];
    }

    /** end(score, completed, session_data) at clock reading now. */
    method End(score: Option<int>, completed: bool, data: map<string, Datum>, now: int)
      modifies this
      ensures ToDict() == EndRecord(old(ToDict()), score, completed, data, now)
    {
      this.endTime := Some(now);
      this.duration := Some(now - this.startTime);
      this.score := score;
      this.completed := completed;
      if data != map[] {
        this.sessionData := this.sessionData + data;
      }
    }
  }
}
