/**
 * NumberGuessingGame together with the BaseGame lifecycle it inherits:
 * the object whose fields start, configure_difficulty, setup, run and the
 * outcome handlers update in place, talking to an optional session
 * tracker. Every method is proved against the value-level play of
 * GuessingPlay and the tracker operations of SessionTracking.
 */
module NumberGuessing {
  import opened Common
  import opened Scoring
  import opened SessionStore
  import opened SessionTracking
  import opened GuessingPlay

  /** Everything start(user_id, tracker) tells the tracker, in order. */
  function StartTrace(userId: int, gameId: string, difficulty: string, startNow: int, r: Round): seq<Effect>
  {
    [Open(userId, gameId, difficulty, startNow)] + ConfigureEffects(ConfigFor(difficulty)) +
    SetupEffects(ConfigFor(difficulty)) + r.effects
  }

  /**
   * A whole play leaves a tracker with a well-formed store idle, with
   * exactly one new row: the session it opened for this user, game and
   * difficulty, ended with the play's final score and marked completed
   * exactly when the play was won or lost.
   */
  lemma StartLeavesTrackerIdle(t: TrackerState, userId: int, gameId: string, difficulty: string,
                               startNow: int, secret: int, events: seq<InputEvent>, endNow: int)
    requires WellFormed(t.store)
    ensures var r := PlayFrom(difficulty, ConfigFor(difficulty), secret, events, 0, 0, [], 0, endNow);
      var after := Replay(t, StartTrace(userId, gameId, difficulty, startNow, r));
      && Valid(after) && after.active.None?
      && |after.store.rows| == |t.store.rows| + 1
      && after.store.rows[..|t.store.rows|] == t.store.rows
      && var row := after.store.rows[|t.store.rows|];
      && row.id == Some(|t.store.rows| + 1) && row.userId == userId && row.gameId == gameId
      && row.difficultyLevel == difficulty && row.startTime == startNow && row.endTime == Some(endNow)
      && row.score == Some(r.score) && row.completed == (r.outcome.Won? || r.outcome.Lost?)
  {
    var c := ConfigFor(difficulty);
    var r := PlayFrom(difficulty, c, secret, events, 0, 0, [], 0, endNow);
    ClosesOnce(difficulty, c, secret, events, 0, 0, [], 0, endNow);
    var prefix := ConfigureEffects(c) + SetupEffects(c);
    AllPutsAppend(ConfigureEffects(c), SetupEffects(c));
    assert StartTrace(userId, gameId, difficulty, startNow, r) == [Open(userId, gameId, difficulty, startNow)] + prefix + r.effects;
    OpenPlayLeavesIdle(t, Open(userId, gameId, difficulty, startNow), prefix, r.effects);
  }

  /** The exception that ends start as written: an attribute looked up on an object that lacks it. */
  datatype StartFailure = MissingAttribute(owner: string, attribute: string)

  class NumberGuessingGame {
    const gameId: string
    const name: string
    const description: string
    var difficulty: string
    var score: int
    var isRunning: bool
    var session: GameSessionTracker?
    var attempts: int
    var minNumber: int
    var maxNumber: int
    var maxAttempts: int
    var secretNumber: int
    var attemptsMade: int
    var guesses: seq<int>

    /** The bounds configure_difficulty last chose. */
    function Bounds(): Config
      reads this`minNumber, this`maxNumber, this`maxAttempts
    {
      Config(minNumber, maxNumber, maxAttempts)
    }

    /** The objects a call on the attached tracker may change. */
    ghost function Tracker(): set<object>
      reads this, session
    {
      if session == null then {}
      else if session.active == null then {session}
      else {session, session.active}
    }

    /** The tracker's active session, the only object a telemetry write changes. */
    ghost function ActiveSession(): set<object>
      reads this, session
    {
      if session == null || session.active == null then {} else {session.active}
    }

    /**
     * NumberGuessingGame(): the BaseGame defaults (score 0, not running,
     * no tracker, difficulty "Medium") and no guesses yet. The bounds and
     * secret, None in the source until configured, start at 0 here.
     */
    constructor ()
      ensures gameId == "number_guessing" && name == "Number Guessing Game"
      ensures description == "Guess the secret number within the given range and attempts"
      ensures difficulty == "Medium" && score == 0 && !isRunning && session == null && attempts == 0
      ensures attemptsMade == 0 && guesses == []
    {
      gameId := "number_guessing";
      name := "Number Guessing Game";
      description := "Guess the secret number within the given range and attempts";
      difficulty := "Medium";
      score := 0;
      isRunning := false;
      session := null;
      attempts := 0;
      minNumber, maxNumber, maxAttempts, secretNumber := 0, 0, 0, 0;
      attemptsMade := 0;
      guesses := [];
    }

    /** get_info: exactly the four descriptive fields. */
    function GetInfo(): (info: map<string, string>)
      reads this
      ensures info.Keys == {"game_id", "name", "description", "difficulty"}
      ensures info["game_id"] == gameId && info["name"] == name
      ensures info["description"] == description && info["difficulty"] == difficulty
    {
      map["game_id" := gameId, "name" := name, "description" := description, "difficulty" := difficulty]
    }

    /** track_progress: forwarded to the tracker when there is one; without one nothing changes. */
    method TrackProgress(key: string, value: Datum)
      modifies ActiveSession()
      ensures session != null ==> session.State() == Step(old(session.State()), Put(key, value))
    {
      if session != null {
        var _ := session.UpdateSessionData(key, value);
      }
    }

    /** record_metric: track_progress guarded by the same tracker check. */
    method RecordMetric(key: string, value: Datum)
      modifies ActiveSession()
      ensures session != null ==> session.State() == Step(old(session.State()), Put(key, value))
    {
      if session != null {
        TrackProgress(key, value);
      }
    }

    /** update_score: adds points (possibly negative) and mirrors the total under "score". */
    method UpdateScore(points: int) returns (total: int)
      modifies this`score, ActiveSession()
      ensures score == old(score) + points && total == score
      ensures session != null ==> session.State() == Step(old(session.State()), Put("score", Int(score)))
    {
      score := score + points;
      if session != null {
        var _ := session.UpdateSessionData("score", Int(score));
      }
      total := score;
    }

    /**
     * stop(completed, session_data): ends the tracked session with the
     * current score, stops the game and returns the score unchanged.
     */
    method Stop(completed: bool, data: map<string, Datum>, now: int) returns (finalScore: int)
      modifies this`isRunning, Tracker()
      ensures !isRunning && finalScore == score
      ensures session != null ==> session.State() == Step(old(session.State()), Close(score, completed, data, now))
    {
      if session != null {
        var _ := session.EndSession(Some(score), completed, data, now);
      }
      isRunning := false;
      finalScore := score;
    }

    /** configure_difficulty: the tier's bounds, recorded under "difficulty_settings". */
    method ConfigureDifficulty()
      modifies this`minNumber, this`maxNumber, this`maxAttempts, ActiveSession()
      ensures Bounds() == ConfigFor(difficulty)
      ensures session != null ==> session.State() == Replay(old(session.State()), ConfigureEffects(Bounds()))
    {
      if difficulty == "Easy" {
        minNumber, maxNumber, maxAttempts := 1, 50, 10;
      } else if difficulty == "Medium" {
        minNumber, maxNumber, maxAttempts := 1, 100, 7;
      } else if difficulty == "Hard" {
        minNumber, maxNumber, maxAttempts := 1, 200, 5;
      } else {
        minNumber, maxNumber, maxAttempts := 1, 100, 7;
      }
      if session != null {
        ghost var t0 := session.State();
        TrackProgress("difficulty_settings",
          Dict(map["min_number" := Int(minNumber), "max_number" := Int(maxNumber), "max_attempts" := Int(maxAttempts)]));
        ReplaySnoc(t0, [], ConfigureEffects(Bounds())[0]);
        assert [] + ConfigureEffects(Bounds()) == ConfigureEffects(Bounds());
      }
    }

    /** setup: no attempts, no guesses, a secret drawn from the bounds, and the bounds recorded. */
    method Setup(roll: int)
      requires minNumber <= maxNumber
      modifies this`attemptsMade, this`guesses, this`secretNumber, ActiveSession()
      ensures attemptsMade == 0 && guesses == []
      ensures secretNumber == Draw(minNumber, maxNumber, roll) && minNumber <= secretNumber <= maxNumber
      ensures session != null ==> session.State() == Replay(old(session.State()), SetupEffects(Bounds()))
    {
      attemptsMade := 0;
      guesses := [];
      secretNumber := Draw(minNumber, maxNumber, roll);
      ghost var t0 := if session != null then session.State() else TrackerState(Store([]), None);
      RecordMetric("range", Str(Decimal(minNumber) + "-" + Decimal(maxNumber)));
      RecordMetric("max_attempts", Int(maxAttempts));
      if session != null {
        ReplayTwo(t0, SetupEffects(Bounds())[0], SetupEffects(Bounds())[1]);
      }
    }

    /**
     * get_player_guess, reading events from pos: prompts until an
     * in-range number, a confirmed quit or the end of input; an accepted
     * guess is appended and recorded under guess_<attempt>.
     */
    method GetPlayerGuess(events: seq<InputEvent>, pos: nat) returns (p: Prompt)
      requires pos <= |events|
      modifies this`guesses, ActiveSession()
      ensures p == NextGuess(events, pos, minNumber, maxNumber)
      ensures guesses == old(guesses) + (if p.Accepted? then [p.guess] else [])
      ensures session != null ==>
        session.State() == Replay(old(session.State()),
          if p.Accepted? then [Put(GuessKey(attemptsMade + 1), GuessDatum(p.guess, p.hundredths))] else [])
    {
      var i := pos;
      while i < |events|
        invariant pos <= i <= |events|
        invariant NextGuess(events, i, minNumber, maxNumber) == NextGuess(events, pos, minNumber, maxNumber)
        invariant guesses == old(guesses)
        invariant session != null ==> session.State() == old(session.State())
        decreases |events| - i
      {
        match events[i] {
          case QuitKey(yes) =>
            if yes {
              return QuitChosen(i + 1);
            }
          case Interrupt(yes) =>
            if yes {
              return QuitChosen(i + 1);
            }
          case NotANumber =>
          case Number(n, t) =>
            if minNumber <= n <= maxNumber {
              KeepGuess(n, t);
              // The source calls log_attempt() here, which no class defines; the
              // model follows the evident intent and returns the guess.
              return Accepted(n, t, i + 1);
            }
        }
        i := i + 1;
      }
      if session != null {
        assert Replay(session.State(), []) == session.State();
      }
      return NoInput;
    }

    /** What get_player_guess does with an accepted guess: appends it and records it under guess_<attempt>. */
    method KeepGuess(n: int, t: int)
      modifies this`guesses, ActiveSession()
      ensures guesses == old(guesses) + [n]
      ensures session != null ==>
        session.State() == Replay(old(session.State()), [Put(GuessKey(attemptsMade + 1), GuessDatum(n, t))])
    {
      guesses := guesses + [n];
      ghost var t0 := if session != null then session.State() else TrackerState(Store([]), None);
      RecordMetric(GuessKey(attemptsMade + 1), GuessDatum(n, t));
      if session != null {
        ReplaySnoc(t0, [], Put(GuessKey(attemptsMade + 1), GuessDatum(n, t)));
        assert [] + [Put(GuessKey(attemptsMade + 1), GuessDatum(n, t))] == [Put(GuessKey(attemptsMade + 1), GuessDatum(n, t))];
      }
    }

    /** handle_victory: scores the win, records it and stops as completed. */
    method HandleVictory(now: int)
      requires maxAttempts > 0
      modifies this`score, this`isRunning, Tracker()
      ensures score == Score(difficulty, Bounds(), attemptsMade + 1) && !isRunning
      ensures session != null ==>
        session.State() == Replay(old(session.State()), VictoryEffects(attemptsMade + 1, score, now))
    {
      ghost var t0 := if session != null then session.State() else TrackerState(Store([]), None);
      var attemptsUsed := attemptsMade + 1;
      score := Score(difficulty, Bounds(), attemptsUsed);
      RecordMetric("attempts_used", Int(attemptsUsed));
      RecordMetric("success", Bool(true));
      var _ := Stop(true, map[], now);
      if session != null {
        ReplayThree(t0, Put("attempts_used", Int(attemptsUsed)), Put("success", Bool(true)), Close(score, true, map[], now));
      }
    }

    /** handle_defeat: records the exhausted budget, scores 0 and stops as completed. */
    method HandleDefeat(now: int)
      modifies this`score, this`isRunning, Tracker()
      ensures score == 0 && !isRunning
      ensures session != null ==>
        session.State() == Replay(old(session.State()), DefeatEffects(maxAttempts, now))
    {
      ghost var t0 := if session != null then session.State() else TrackerState(Store([]), None);
      RecordMetric("attempts_used", Int(maxAttempts));
      RecordMetric("success", Bool(false));
      score := 0;
      var _ := Stop(true, map[], now);
      if session != null {
        ReplayThree(t0, Put("attempts_used", Int(maxAttempts)), Put("success", Bool(false)), Close(0, true, map[], now));
      }
    }

    /** handle_quit: records the early quit and the guesses made, then stops as not completed. */
    method HandleQuit(now: int) returns (finalScore: int)
      modifies this`isRunning, Tracker()
      ensures !isRunning && finalScore == score
      ensures session != null ==>
        session.State() == Replay(old(session.State()), QuitEffects(|guesses|, score, now))
    {
      ghost var t0 := if session != null then session.State() else TrackerState(Store([]), None);
      RecordMetric("quit_early", Bool(true));
      RecordMetric("attempts_before_quit", Int(|guesses|));
      finalScore := Stop(false, map[], now);
      if session != null {
        ReplayThree(t0, Put("quit_early", Bool(true)), Put("attempts_before_quit", Int(|guesses|)), Close(score, false, map[], now));
      }
    }

    /**
     * The rest of run's loop body once a guess is accepted: a correct
     * guess goes to handle_victory; a wrong one uses an attempt, and the
     * last wrong one goes to handle_defeat.
     */
    method Judge(g: int, now: int) returns (ghost emitted: seq<Effect>)
      requires isRunning && 0 <= attemptsMade < maxAttempts
      modifies this`attemptsMade, this`score, this`isRunning, Tracker()
      ensures session != null ==> session.State() == Replay(old(session.State()), emitted)
      ensures g == secretNumber ==>
        && !isRunning && attemptsMade == old(attemptsMade)
        && score == Score(difficulty, Bounds(), attemptsMade + 1)
        && emitted == VictoryEffects(attemptsMade + 1, score, now)
      ensures g != secretNumber ==> attemptsMade == old(attemptsMade) + 1
      ensures g != secretNumber && attemptsMade >= maxAttempts ==>
        !isRunning && score == 0 && emitted == DefeatEffects(maxAttempts, now)
      ensures g != secretNumber && attemptsMade < maxAttempts ==>
        && isRunning && score == old(score) && emitted == []
        && (session != null ==> session.State() == old(session.State()) && session.active == old(session.active))
    {
      if ProcessGuess(g, secretNumber) == Correct {
        HandleVictory(now);
        emitted := VictoryEffects(attemptsMade + 1, score, now);
      } else {
        attemptsMade := attemptsMade + 1;
        if attemptsMade >= maxAttempts {
          HandleDefeat(now);
          emitted := DefeatEffects(maxAttempts, now);
        } else {
          emitted := [];
        }
      }
    }

    /**
     * One pass of run's loop body from event pos: a guess (or a quit, or
     * the end of input) and what it leads to, as PassFrom says. emitted
     * is what the pass tells the tracker; next is where the following
     * pass reads from.
     */
    method Turn(events: seq<InputEvent>, pos: nat, now: int) returns (next: nat, ghost emitted: seq<Effect>)
      requires isRunning && 0 <= attemptsMade < maxAttempts && pos <= |events|
      modifies this`attemptsMade, this`guesses, this`score, this`isRunning, Tracker()
      ensures session != null ==> session.State() == Replay(old(session.State()), emitted)
      ensures match old(PassFrom(difficulty, Bounds(), secretNumber, events, pos, attemptsMade, guesses, score, now))
        case Ends(r) =>
          && !isRunning && attemptsMade == r.attemptsMade && guesses == r.guesses && score == r.score
          && emitted == r.effects
        case Continues(n, g, logged) =>
          && isRunning && next == n && attemptsMade == old(attemptsMade) + 1
          && guesses == old(guesses) + [g] && score == old(score) && emitted == logged
          && (session != null ==> session.active == old(session.active))
    {
      ghost var t0 := if session != null then session.State() else TrackerState(Store([]), None);
      ghost var pass := PassFrom(difficulty, Bounds(), secretNumber, events, pos, attemptsMade, guesses, score, now);
      var p := GetPlayerGuess(events, pos);
      match p {
        case NoInput =>
          assert pass == Ends(Round(Errored, guesses, attemptsMade, score, ErrorEffects(score, now)));
          // input() raised EOFError, which run's `except Exception` turns into stop(completed=False)
          var _ := Stop(false, map[], now);
          next, emitted := pos, ErrorEffects(score, now);
          if session != null {
            ReplaySnoc(t0, [], Close(score, false, map[], now));
          }
        case QuitChosen(n) =>
          assert pass == Ends(Round(Quit, guesses, attemptsMade, score, QuitEffects(|guesses|, score, now)));
          var _ := HandleQuit(now);
          next, emitted := n, QuitEffects(|guesses|, score, now);
        case Accepted(g, t, n) =>
          next := n;
          emitted := Settle(events, pos, old(guesses), g, t, now);
          if session != null {
            assert emitted == [emitted[0]] + emitted[1..];
            ReplayAppend(t0, [emitted[0]], emitted[1..]);
          }
      }
    }

    /**
     * The rest of a pass once get_player_guess has accepted g: judged as
     * PassFrom says, with the guess's record ahead of the judgement's.
     */
    method Settle(ghost events: seq<InputEvent>, ghost pos: nat, ghost before: seq<int>, g: int, t: int, now: int)
      returns (ghost emitted: seq<Effect>)
      requires isRunning && 0 <= attemptsMade < maxAttempts && pos <= |events|
      requires NextGuess(events, pos, minNumber, maxNumber).Accepted?
      requires NextGuess(events, pos, minNumber, maxNumber).guess == g
      requires NextGuess(events, pos, minNumber, maxNumber).hundredths == t
      requires guesses == before + [g]
      modifies this`attemptsMade, this`score, this`isRunning, Tracker()
      ensures |emitted| >= 1 && emitted[0] == Put(GuessKey(old(attemptsMade) + 1), GuessDatum(g, t))
      ensures session != null ==> session.State() == Replay(old(session.State()), emitted[1..])
      ensures match PassFrom(difficulty, Bounds(), secretNumber, events, pos, old(attemptsMade), before, old(score), now)
        case Ends(r) =>
          && !isRunning && attemptsMade == r.attemptsMade && guesses == r.guesses && score == r.score
          && emitted == r.effects
        case Continues(n, g', logged) =>
          && isRunning && attemptsMade == old(attemptsMade) + 1
          && g' == g && score == old(score) && emitted == logged
          && (session != null ==> session.active == old(session.active))
    {
      ghost var logged := [Put(GuessKey(attemptsMade + 1), GuessDatum(g, t))];
      ghost var pass := PassFrom(difficulty, Bounds(), secretNumber, events, pos, attemptsMade, before, score, now);
      if g == secretNumber {
        ghost var won := Score(difficulty, Bounds(), attemptsMade + 1);
        assert pass == Ends(Round(Won(attemptsMade + 1), guesses, attemptsMade, won,
                                  logged + VictoryEffects(attemptsMade + 1, won, now)));
      } else if attemptsMade + 1 >= maxAttempts {
        assert pass == Ends(Round(Lost, guesses, attemptsMade + 1, 0, logged + DefeatEffects(maxAttempts, now)));
      } else {
        assert pass.Continues? && pass.logged == logged;
      }
      var judged := Judge(g, now);
      emitted := logged + judged;
      assert emitted[1..] == judged;
    }

    /**
     * run: prompts for guesses while the game runs and attempts remain.
     * A correct guess wins, a wrong one uses an attempt and the last
     * wrong one loses; a confirmed quit ends the play through
     * handle_quit, and running out of input ends it through run's
     * `except` path, stop(completed=False). The whole loop does what
     * PlayFrom says, to the fields and to the tracker.
     */
    method Run(events: seq<InputEvent>, now: int)
      requires isRunning && 0 <= attemptsMade < maxAttempts
      modifies this`attemptsMade, this`guesses, this`score, this`isRunning, Tracker()
      ensures var r := PlayFrom(difficulty, Bounds(), secretNumber, events, 0, old(attemptsMade), old(guesses), old(score), now);
        && attemptsMade == r.attemptsMade && guesses == r.guesses && score == r.score && !isRunning
        && (session != null ==> session.State() == Replay(old(session.State()), r.effects))
    {
      ghost var target := PlayFrom(difficulty, Bounds(), secretNumber, events, 0, attemptsMade, guesses, score, now);
      ghost var t0 := if session != null then session.State() else TrackerState(Store([]), None);
      ghost var done: seq<Effect> := [];
      assert done + target.effects == target.effects;
      var pos: nat := 0;
      while isRunning && attemptsMade < maxAttempts
        invariant pos <= |events|
        invariant session != null ==> session.State() == Replay(t0, done)
        invariant isRunning ==> 0 <= attemptsMade < maxAttempts
        invariant isRunning && session != null ==> session.active == old(session.active)
        invariant isRunning ==>
          Pending(target, done, PlayFrom(difficulty, Bounds(), secretNumber, events, pos, attemptsMade, guesses, score, now))
        invariant !isRunning ==>
          attemptsMade == target.attemptsMade && guesses == target.guesses && score == target.score && done == target.effects
        decreases |events| - pos
      {
        pos, done := Advance(target, t0, done, events, pos, now);
        if !isRunning {
          // a quit or the end of input returns from run, a win breaks out of the loop, a loss ends it
          break;
        }
      }
    }

    /**
     * One pass of run's loop, accounted against the whole play target:
     * done grows by what the pass tells the tracker, and either the rest
     * of the play is still pending or the play is over.
     */
    method Advance(ghost target: Round, ghost t0: TrackerState, ghost done: seq<Effect>,
                   events: seq<InputEvent>, pos: nat, now: int) returns (next: nat, ghost done': seq<Effect>)
      requires isRunning && 0 <= attemptsMade < maxAttempts && pos <= |events|
      requires session != null ==> session.State() == Replay(t0, done)
      requires Pending(target, done, PlayFrom(difficulty, Bounds(), secretNumber, events, pos, attemptsMade, guesses, score, now))
      modifies this`attemptsMade, this`guesses, this`score, this`isRunning, Tracker()
      ensures session != null ==> session.State() == Replay(t0, done')
      ensures isRunning ==>
        && pos < next <= |events| && 0 <= attemptsMade < maxAttempts
        && (session != null ==> session.active == old(session.active))
        && Pending(target, done', PlayFrom(difficulty, Bounds(), secretNumber, events, next, attemptsMade, guesses, score, now))
      ensures !isRunning ==>
        attemptsMade == target.attemptsMade && guesses == target.guesses && score == target.score && done' == target.effects
    {
      PendingStep(target, done, difficulty, Bounds(), secretNumber, events, pos, attemptsMade, guesses, score, now);
      ghost var emitted;
      next, emitted := Turn(events, pos, now);
      if session != null {
        ReplayAppend(t0, done, emitted);
      }
      done' := done + emitted;
    }

    /**
     * The part of start before run: resets score, attempts and the
     * running flag, opens a session when a tracker is given, then
     * configures and sets up the play. roll is the random source of the
     * secret and startNow the clock when the session opens.
     */
    method Prepare(userId: int, tracker: GameSessionTracker?, roll: int, startNow: int)
      modifies this, tracker
      ensures session == tracker && attempts == 0 && score == 0 && isRunning && difficulty == old(difficulty)
      ensures Bounds() == ConfigFor(difficulty) && attemptsMade == 0 && guesses == []
      ensures secretNumber == Draw(minNumber, maxNumber, roll)
      ensures tracker != null ==> fresh(tracker.active)
      ensures tracker != null ==>
        tracker.State() == Replay(old(tracker.State()),
          [Open(userId, gameId, difficulty, startNow)] + ConfigureEffects(Bounds()) + SetupEffects(Bounds()))
    {
      ghost var t0 := if tracker != null then tracker.State() else TrackerState(Store([]), None);
      Begin(userId, tracker, startNow);
      ghost var t1 := if tracker != null then tracker.State() else t0;
      ConfigureAndSetup(roll);
      if tracker != null {
        var open := Open(userId, gameId, difficulty, startNow);
        ReplayAppend(t0, [open], ConfigureEffects(Bounds()) + SetupEffects(Bounds()));
        assert [open] + (ConfigureEffects(Bounds()) + SetupEffects(Bounds()))
            == [open] + ConfigureEffects(Bounds()) + SetupEffects(Bounds());
      }
    }

    /** The opening of start: score, attempts and running flag reset, and a session opened on the tracker. */
    method Begin(userId: int, tracker: GameSessionTracker?, startNow: int)
      modifies this`score, this`attempts, this`isRunning, this`session, tracker
      ensures session == tracker && attempts == 0 && score == 0 && isRunning
      ensures tracker != null ==> fresh(tracker.active)
      ensures tracker != null ==> tracker.State() == Replay(old(tracker.State()), [Open(userId, gameId, difficulty, startNow)])
    {
      score := 0;
      attempts := 0;
      isRunning := true;
      session := tracker;
      if tracker != null {
        ghost var t0 := tracker.State();
        var _ := tracker.StartSession(userId, gameId, difficulty, startNow);
        ReplaySnoc(t0, [], Open(userId, gameId, difficulty, startNow));
        assert [] + [Open(userId, gameId, difficulty, startNow)] == [Open(userId, gameId, difficulty, startNow)];
      }
    }

    /** configure_difficulty followed by setup, as start calls them. */
    method ConfigureAndSetup(roll: int)
      modifies this`minNumber, this`maxNumber, this`maxAttempts, this`attemptsMade, this`guesses, this`secretNumber
      modifies ActiveSession()
      ensures Bounds() == ConfigFor(difficulty) && attemptsMade == 0 && guesses == []
      ensures secretNumber == Draw(minNumber, maxNumber, roll)
      ensures session != null ==>
        session.State() == Replay(old(session.State()), ConfigureEffects(Bounds()) + SetupEffects(Bounds()))
    {
      ghost var t0 := if session != null then session.State() else TrackerState(Store([]), None);
      ConfigureDifficulty();
      Setup(roll);
      if session != null {
        ReplayAppend(t0, ConfigureEffects(Bounds()), SetupEffects(Bounds()));
      }
    }

    /**
     * start(user_id, session_tracker): the preparation above, then the
     * play; endNow is the clock when the play stops.
     */
    method Start(userId: int, tracker: GameSessionTracker?, roll: int, events: seq<InputEvent>, startNow: int, endNow: int)
      modifies this, tracker
      ensures session == tracker && attempts == 0 && difficulty == old(difficulty) && !isRunning
      ensures Bounds() == ConfigFor(difficulty)
      ensures secretNumber == Draw(minNumber, maxNumber, roll)
      ensures var r := PlayFrom(difficulty, Bounds(), secretNumber, events, 0, 0, [], 0, endNow);
        && score == r.score && attemptsMade == r.attemptsMade && guesses == r.guesses
        && (tracker != null ==>
              tracker.State() == Replay(old(tracker.State()), StartTrace(userId, gameId, difficulty, startNow, r)))
    {
      ghost var t0 := if tracker != null then tracker.State() else TrackerState(Store([]), None);
      Prepare(userId, tracker, roll, startNow);
      ghost var prefix := [Open(userId, gameId, difficulty, startNow)] + ConfigureEffects(Bounds()) + SetupEffects(Bounds());
      Run(events, endNow);
      if tracker != null {
        ghost var r := PlayFrom(difficulty, Bounds(), secretNumber, events, 0, 0, [], 0, endNow);
        ReplayAppend(t0, prefix, r.effects);
      }
    }

    /**
     * start as written: the module imports the class datetime.time, so
     * `time.time()` raises AttributeError right after the reset. The
     * tracker is never attached, no session is opened, the difficulty is
     * not configured, no secret is drawn and the loop never runs; the game
     * is left marked running.
     */
    method StartAsWritten(userId: int, tracker: GameSessionTracker?) returns (e: StartFailure)
      modifies this`score, this`attempts, this`isRunning
      ensures e == MissingAttribute("datetime.time", "time")
      ensures score == 0 && attempts == 0 && isRunning
      ensures session == old(session) && Bounds() == old(Bounds()) && secretNumber == old(secretNumber)
      ensures attemptsMade == old(attemptsMade) && guesses == old(guesses)
      ensures tracker != null ==> tracker.State() == old(tracker.State())
    {
      score := 0;
      attempts := 0;
      isRunning := true;
      e := MissingAttribute("datetime.time", "time");
    }
  }
}
