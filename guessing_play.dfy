/**
 * One play of the number-guessing game as a value: the player's input is a
 * sequence of events, the secret number is given, and the play yields the
 * outcome, the accepted guesses, the attempt counter, the final score and
 * the calls the game makes on its session tracker, in order.
 */
module GuessingPlay {
  import opened Common
  import opened Scoring
  import opened SessionTracking

  /** One thing the player does at the guess prompt. */
  datatype InputEvent =
    | Number(n: int, hundredths: int)   // a line int() accepts; hundredths: time since the prompt, in 1/100 s
    | NotANumber                        // a line int() rejects with ValueError
    | QuitKey(confirmed: bool)          // 'q' or 'Q', then the answer to the quit confirmation
    | Interrupt(confirmed: bool)        // Ctrl+C at the prompt, then the answer to the quit confirmation

  /** An event after which get_player_guess prompts again. */
  predicate Reprompts(e: InputEvent, lo: int, hi: int)
  {
    match e
    case Number(n, _) => n < lo || n > hi
    case NotANumber => true
    case QuitKey(yes) => !yes
    case Interrupt(yes) => !yes
  }

  /** What get_player_guess ends with, and the position of the next unread event. */
  datatype Prompt =
    | Accepted(guess: int, hundredths: int, next: nat)
    | QuitChosen(next: nat)
    | NoInput                           // input() raised EOFError

  /**
   * get_player_guess from event pos on: the first in-range number is
   * accepted, a confirmed quit or interrupt returns None, and everything
   * before it is rejected and prompted again.
   */
  function NextGuess(events: seq<InputEvent>, pos: nat, lo: int, hi: int): (p: Prompt)
    requires pos <= |events|
    ensures p.Accepted? ==> pos < p.next <= |events| && events[p.next - 1] == Number(p.guess, p.hundredths)
    ensures p.Accepted? ==> lo <= p.guess <= hi
    ensures p.QuitChosen? ==> pos < p.next <= |events| && (events[p.next - 1] == QuitKey(true) || events[p.next - 1] == Interrupt(true))
    decreases |events| - pos
  {
    if pos == |events| then NoInput
    else
      match events[pos]
      case Number(n, t) => if lo <= n <= hi then Accepted(n, t, pos + 1) else NextGuess(events, pos + 1, lo, hi)
      case NotANumber => NextGuess(events, pos + 1, lo, hi)
      case QuitKey(yes) => if yes then QuitChosen(pos + 1) else NextGuess(events, pos + 1, lo, hi)
      case Interrupt(yes) => if yes then QuitChosen(pos + 1) else NextGuess(events, pos + 1, lo, hi)
  }

  /**
   * Everything get_player_guess reads before what it ends with (all of
   * the input when it runs out) is rejected and prompted again: a number
   * out of range, a line that is not a number, a quit that was not
   * confirmed.
   */
  lemma {:induction false} NextGuessSkipsRejected(events: seq<InputEvent>, pos: nat, lo: int, hi: int, k: int)
    requires pos <= |events|
    requires var p := NextGuess(events, pos, lo, hi);
      pos <= k < (if p.NoInput? then |events| else p.next - 1)
    ensures Reprompts(events[k], lo, hi)
    decreases |events| - pos
  {
    if k > pos {
      NextGuessSkipsRejected(events, pos + 1, lo, hi, k);
    }
  }

  /** The answer of process_guess. */
  datatype Hint = Higher | Lower | Correct

  function ProcessGuess(guess: int, secret: int): (h: Hint)
    ensures h == Higher <==> guess < secret
    ensures h == Lower <==> guess > secret
    ensures h == Correct <==> guess == secret
  {
    if guess < secret then Higher
    else if guess > secret then Lower
    else Correct
  }

  /** random.randint(lo, hi), with the random source a parameter: roll selects the value. */
  function Draw(lo: int, hi: int, roll: int): (v: int)
    requires lo <= hi
    ensures lo <= v <= hi
  {
    lo + roll % (hi - lo + 1)
  }

  /** Every value of the range can be drawn, so the model does not narrow randint. */
  lemma DrawCovers(lo: int, hi: int, v: int)
    requires lo <= v <= hi
    ensures Draw(lo, hi, v - lo) == v
  {
  }

  /** The telemetry key of the n-th guess. */
  function GuessKey(n: int): string
  {
    "guess_" + Decimal(n)
  }

  function GuessDatum(guess: int, hundredths: int): Datum
  {
    Dict(map["value" := Int(guess), "time_taken" := Hundredths(hundredths)])
  }

  /** configure_difficulty's record of the bounds, under "difficulty_settings". */
  function ConfigureEffects(c: Config): seq<Effect>
  {
    [Put("difficulty_settings",
         Dict(map["min_number" := Int(c.minNumber), "max_number" := Int(c.maxNumber), "max_attempts" := Int(c.maxAttempts)]))]
  }

  /** setup's records: the range as "min-max" and the attempt budget. */
  function SetupEffects(c: Config): seq<Effect>
  {
    [Put("range", Str(Decimal(c.minNumber) + "-" + Decimal(c.maxNumber))), Put("max_attempts", Int(c.maxAttempts))]
  }

  function VictoryEffects(attemptsUsed: int, score: int, now: int): seq<Effect>
  {
    [Put("attempts_used", Int(attemptsUsed)), Put("success", Bool(true)), Close(score, true, map[], now)]
  }

  function DefeatEffects(maxAttempts: int, now: int): seq<Effect>
  {
    [Put("attempts_used", Int(maxAttempts)), Put("success", Bool(false)), Close(0, true, map[], now)]
  }

  function QuitEffects(guessCount: int, score: int, now: int): seq<Effect>
  {
    [Put("quit_early", Bool(true)), Put("attempts_before_quit", Int(guessCount)), Close(score, false, map[], now)]
  }

  /** run's `except` path: stop(completed=False) and nothing else. */
  function ErrorEffects(score: int, now: int): seq<Effect>
  {
    [Close(score, false, map[], now)]
  }

  datatype Outcome = Won(attemptsUsed: int) | Lost | Quit | Errored

  /** The end state of a play: its outcome and the fields and tracker calls it leaves behind. */
  datatype Round = Round(outcome: Outcome, guesses: seq<int>, attemptsMade: int, score: int, effects: seq<Effect>)

  /**
   * One pass of run's loop body: either the play ends here, with the
   * round it leaves behind, or a wrong guess is counted and logged and
   * the loop goes on reading from next.
   */
  datatype Pass = Ends(round: Round) | Continues(next: nat, guess: int, logged: seq<Effect>)

  function PassFrom(difficulty: string, c: Config, secret: int, events: seq<InputEvent>, pos: nat,
                    made: int, guesses: seq<int>, score: int, now: int): (p: Pass)
    requires pos <= |events| && 0 <= made < c.maxAttempts
    ensures p.Continues? ==> pos < p.next <= |events| && made + 1 < c.maxAttempts && p.guess != secret
  {
    match NextGuess(events, pos, c.minNumber, c.maxNumber)
    case NoInput => Ends(Round(Errored, guesses, made, score, ErrorEffects(score, now)))
    case QuitChosen(_) => Ends(Round(Quit, guesses, made, score, QuitEffects(|guesses|, score, now)))
    case Accepted(g, t, next) =>
      var logged := [Put(GuessKey(made + 1), GuessDatum(g, t))];
      if ProcessGuess(g, secret) == Correct then
        var s := Score(difficulty, c, made + 1);
        Ends(Round(Won(made + 1), guesses + [g], made, s, logged + VictoryEffects(made + 1, s, now)))
      else if made + 1 >= c.maxAttempts then
        Ends(Round(Lost, guesses + [g], made + 1, 0, logged + DefeatEffects(c.maxAttempts, now)))
      else
        Continues(next, g, logged)
  }

  /**
   * run's loop from event pos on, with made attempts counted, guesses
   * accepted so far and the current score; now is the clock when the
   * play stops.
   */
  function PlayFrom(difficulty: string, c: Config, secret: int, events: seq<InputEvent>, pos: nat,
                    made: int, guesses: seq<int>, score: int, now: int): Round
    requires pos <= |events| && 0 <= made < c.maxAttempts
    decreases |events| - pos
  {
    match PassFrom(difficulty, c, secret, events, pos, made, guesses, score, now)
    case Ends(r) => r
    case Continues(next, g, logged) =>
      var rest := PlayFrom(difficulty, c, secret, events, next, made + 1, guesses + [g], score, now);
      rest.(effects := logged + rest.effects)
  }

  /**
   * Part of a play is done: target is the whole play, done the tracker
   * calls made so far and r what the rest of the play does.
   */
  ghost predicate Pending(target: Round, done: seq<Effect>, r: Round)
  {
    && target.outcome == r.outcome && target.guesses == r.guesses
    && target.attemptsMade == r.attemptsMade && target.score == r.score
    && target.effects == done + r.effects
  }

  /** After one more pass, either the play is over or the rest of it is pending. */
  lemma PendingStep(target: Round, done: seq<Effect>, difficulty: string, c: Config, secret: int,
                    events: seq<InputEvent>, pos: nat, made: int, guesses: seq<int>, score: int, now: int)
    requires pos <= |events| && 0 <= made < c.maxAttempts
    requires Pending(target, done, PlayFrom(difficulty, c, secret, events, pos, made, guesses, score, now))
    ensures match PassFrom(difficulty, c, secret, events, pos, made, guesses, score, now)
      case Ends(r) => Pending(target, done, r)
      case Continues(next, g, logged) =>
        Pending(target, done + logged, PlayFrom(difficulty, c, secret, events, next, made + 1, guesses + [g], score, now))
  {
    match PassFrom(difficulty, c, secret, events, pos, made, guesses, score, now)
    case Ends(r) =>
    case Continues(next, g, logged) =>
      var rest := PlayFrom(difficulty, c, secret, events, next, made + 1, guesses + [g], score, now);
      assert done + (logged + rest.effects) == (done + logged) + rest.effects;
  }

  /** The tracker calls that end a play, by outcome. */
  function Terminal(r: Round, c: Config, now: int): seq<Effect>
  {
    match r.outcome
    case Won(a) => VictoryEffects(a, r.score, now)
    case Lost => DefeatEffects(c.maxAttempts, now)
    case Quit => QuitEffects(|r.guesses|, r.score, now)
    case Errored => ErrorEffects(r.score, now)
  }

  /**
   * What a play does to the game's fields, starting from made attempts,
   * guesses and score: the attempt counter stays within the budget,
   * guesses are only appended, every accepted guess is in range and
   * every one before the last is wrong; a win scores
   * calculate_score(attempts_made + 1) with the guess equal to the
   * secret, a loss uses the whole budget and scores 0, and a quit or an
   * error leaves the score alone.
   */
  ghost predicate Played(difficulty: string, c: Config, secret: int, made: int, guesses: seq<int>, score: int, r: Round)
    requires c.maxAttempts > 0
  {
    var won := if r.outcome.Won? then 1 else 0;
    && made <= r.attemptsMade <= c.maxAttempts
    && |guesses| <= |r.guesses| && r.guesses[..|guesses|] == guesses
    && |r.guesses| - |guesses| == r.attemptsMade - made + won
    && (forall k :: |guesses| <= k < |r.guesses| ==> c.minNumber <= r.guesses[k] <= c.maxNumber)
    && (forall k :: |guesses| <= k < |r.guesses| - won ==> r.guesses[k] != secret)
    && (r.outcome.Won? ==>
          r.outcome.attemptsUsed == r.attemptsMade + 1 && r.attemptsMade < c.maxAttempts &&
          r.score == Score(difficulty, c, r.outcome.attemptsUsed) && r.guesses[|r.guesses| - 1] == secret)
    && (r.outcome.Lost? ==> r.attemptsMade == c.maxAttempts && r.score == 0)
    && (r.outcome.Quit? || r.outcome.Errored? ==> r.score == score)
  }

  /** One pass either ends the play as Played says, or counts one wrong, in-range guess. */
  lemma PassOutcome(difficulty: string, c: Config, secret: int, events: seq<InputEvent>, pos: nat,
                    made: int, guesses: seq<int>, score: int, now: int)
    requires pos <= |events| && 0 <= made < c.maxAttempts
    ensures match PassFrom(difficulty, c, secret, events, pos, made, guesses, score, now)
      case Ends(r) => Played(difficulty, c, secret, made, guesses, score, r)
      case Continues(_, g, logged) =>
        c.minNumber <= g <= c.maxNumber && g != secret && |logged| == 1 && LogsGuess(logged[0], made + 1, g)
  {
    match NextGuess(events, pos, c.minNumber, c.maxNumber)
    case NoInput =>
    case QuitChosen(_) =>
    case Accepted(g, t, next) =>
      assert (guesses + [g])[..|guesses|] == guesses;
  }

  /** A play only appends to the guesses it starts from. */
  lemma {:induction false} PlayExtendsGuesses(difficulty: string, c: Config, secret: int, events: seq<InputEvent>, pos: nat,
                                              made: int, guesses: seq<int>, score: int, now: int)
    requires pos <= |events| && 0 <= made < c.maxAttempts
    ensures var r := PlayFrom(difficulty, c, secret, events, pos, made, guesses, score, now);
      |guesses| <= |r.guesses| && r.guesses[..|guesses|] == guesses
    decreases |events| - pos
  {
    match PassFrom(difficulty, c, secret, events, pos, made, guesses, score, now)
    case Ends(_) =>
      match NextGuess(events, pos, c.minNumber, c.maxNumber) {
        case NoInput =>
        case QuitChosen(_) =>
        case Accepted(g, _, _) =>
          assert (guesses + [g])[..|guesses|] == guesses;
      }
    case Continues(next, g, _) =>
      PlayExtendsGuesses(difficulty, c, secret, events, next, made + 1, guesses + [g], score, now);
      var rest := PlayFrom(difficulty, c, secret, events, next, made + 1, guesses + [g], score, now);
      assert rest.guesses[..|guesses|] == (guesses + [g])[..|guesses|] == guesses;
  }

  /** Every play does to the game's fields what Played says. */
  lemma {:induction false} PlayOutcome(difficulty: string, c: Config, secret: int, events: seq<InputEvent>, pos: nat,
                                       made: int, guesses: seq<int>, score: int, now: int)
    requires pos <= |events| && 0 <= made < c.maxAttempts
    ensures Played(difficulty, c, secret, made, guesses, score, PlayFrom(difficulty, c, secret, events, pos, made, guesses, score, now))
    decreases |events| - pos
  {
    PassOutcome(difficulty, c, secret, events, pos, made, guesses, score, now);
    var r := PlayFrom(difficulty, c, secret, events, pos, made, guesses, score, now);
    match PassFrom(difficulty, c, secret, events, pos, made, guesses, score, now)
    case Ends(_) =>
    case Continues(next, g, logged) =>
      PlayOutcome(difficulty, c, secret, events, next, made + 1, guesses + [g], score, now);
      var rest := PlayFrom(difficulty, c, secret, events, next, made + 1, guesses + [g], score, now);
      assert r.outcome == rest.outcome && r.guesses == rest.guesses;
      assert r.attemptsMade == rest.attemptsMade && r.score == rest.score;
      var won := if r.outcome.Won? then 1 else 0;
      assert rest.guesses[..|guesses| + 1] == guesses + [g];
      assert rest.guesses[..|guesses|] == guesses;
      assert rest.guesses[|guesses|] == g;
      forall k | |guesses| <= k < |r.guesses|
        ensures c.minNumber <= r.guesses[k] <= c.maxNumber
      {
        if k > |guesses| {
          assert |guesses + [g]| <= k;
        }
      }
      forall k | |guesses| <= k < |r.guesses| - won
        ensures r.guesses[k] != secret
      {
        if k > |guesses| {
          assert |guesses + [g]| <= k;
        }
      }
  }

  /** A play's tracker calls end with the calls its outcome makes, after one call per accepted guess. */
  lemma {:induction false} PlayEndsWithTerminal(difficulty: string, c: Config, secret: int, events: seq<InputEvent>, pos: nat,
                                                made: int, guesses: seq<int>, score: int, now: int)
    requires pos <= |events| && 0 <= made < c.maxAttempts
    ensures var r := PlayFrom(difficulty, c, secret, events, pos, made, guesses, score, now);
      var n := |r.effects| - |Terminal(r, c, now)|;
      n == |r.guesses| - |guesses| >= 0 && r.effects[n..] == Terminal(r, c, now)
    decreases |events| - pos
  {
    var r := PlayFrom(difficulty, c, secret, events, pos, made, guesses, score, now);
    match NextGuess(events, pos, c.minNumber, c.maxNumber)
    case NoInput =>
    case QuitChosen(_) =>
    case Accepted(g, t, next) =>
      var logged := [Put(GuessKey(made + 1), GuessDatum(g, t))];
      if g != secret && made + 1 < c.maxAttempts {
        PlayEndsWithTerminal(difficulty, c, secret, events, next, made + 1, guesses + [g], score, now);
        var rest := PlayFrom(difficulty, c, secret, events, next, made + 1, guesses + [g], score, now);
        assert r == rest.(effects := logged + rest.effects);
        TerminalAfterLog(r, rest, logged, c, now, |guesses + [g]|);
      } else if g == secret {
        assert r.effects == logged + VictoryEffects(made + 1, r.score, now);
      } else {
        assert r.effects == logged + DefeatEffects(c.maxAttempts, now);
      }
  }

  /** Logging one more guess in front of a play keeps its outcome's calls at the end. */
  lemma TerminalAfterLog(r: Round, rest: Round, logged: seq<Effect>, c: Config, now: int, k: int)
    requires r == rest.(effects := logged + rest.effects) && |logged| == 1
    requires var n := |rest.effects| - |Terminal(rest, c, now)|;
      n == |rest.guesses| - k >= 0 && rest.effects[n..] == Terminal(rest, c, now)
    ensures var n := |r.effects| - |Terminal(r, c, now)|;
      n == |r.guesses| - (k - 1) >= 0 && r.effects[n..] == Terminal(r, c, now)
  {
    assert Terminal(r, c, now) == Terminal(rest, c, now);
    var n := |r.effects| - |Terminal(r, c, now)|;
    assert r.effects[n..] == rest.effects[n - 1..];
  }

  /** The record get_player_guess makes of guess g on attempt n. */
  predicate LogsGuess(e: Effect, n: int, g: int)
  {
    e.Put? && e.key == GuessKey(n) && e.value.Dict? && "value" in e.value.entries && e.value.entries["value"] == Int(g)
  }

  /** The record one pass leaves of the guess it accepts, if any. */
  lemma PassLogs(difficulty: string, c: Config, secret: int, events: seq<InputEvent>, pos: nat,
                 made: int, guesses: seq<int>, score: int, now: int)
    requires pos <= |events| && 0 <= made < c.maxAttempts
    ensures match PassFrom(difficulty, c, secret, events, pos, made, guesses, score, now)
      case Ends(r) =>
        && |r.guesses| <= |guesses| + 1
        && (|r.guesses| == |guesses| + 1 ==> |r.effects| >= 1 && LogsGuess(r.effects[0], made + 1, r.guesses[|guesses|]))
      case Continues(_, g, logged) => |logged| == 1 && LogsGuess(logged[0], made + 1, g)
  {
    match NextGuess(events, pos, c.minNumber, c.maxNumber)
    case NoInput =>
    case QuitChosen(_) =>
    case Accepted(g, t, next) =>
      assert (guesses + [g])[|guesses|] == g;
  }

  /**
   * What a play tells the tracker before its outcome: the i-th call
   * records the i-th newly accepted guess under guess_<n>, n = made + 1 + i
   * being the attempt it was made on.
   */
  lemma {:induction false} PlayGuessLog(difficulty: string, c: Config, secret: int, events: seq<InputEvent>, pos: nat,
                                        made: int, guesses: seq<int>, score: int, now: int, i: int, n: int)
    requires pos <= |events| && 0 <= made < c.maxAttempts && n == made + 1 + i
    requires var r := PlayFrom(difficulty, c, secret, events, pos, made, guesses, score, now);
      |guesses| <= |r.guesses| && 0 <= i < |r.guesses| - |guesses|
    ensures var r := PlayFrom(difficulty, c, secret, events, pos, made, guesses, score, now);
      i < |r.effects| && LogsGuess(r.effects[i], n, r.guesses[|guesses| + i])
    decreases |events| - pos
  {
    var r := PlayFrom(difficulty, c, secret, events, pos, made, guesses, score, now);
    var pass := PassFrom(difficulty, c, secret, events, pos, made, guesses, score, now);
    PassLogs(difficulty, c, secret, events, pos, made, guesses, score, now);
    if pass.Ends? {
      assert r == pass.round;
      GuessLogEnds(r, pass.round, guesses, made + 1, i, n);
    } else {
      var rest := PlayFrom(difficulty, c, secret, events, pass.next, made + 1, guesses + [pass.guess], score, now);
      assert r == rest.(effects := pass.logged + rest.effects);
      PlayExtendsGuesses(difficulty, c, secret, events, pass.next, made + 1, guesses + [pass.guess], score, now);
      if 0 < i {
        assert r.guesses == rest.guesses;
        PlayGuessLog(difficulty, c, secret, events, pass.next, made + 1, guesses + [pass.guess], score, now, i - 1, n);
      }
      LogStep(r, rest, pass.logged, guesses, pass.guess, made + 1, i, n);
    }
  }

  /** The call of a play that one pass ends: its only guess is logged first. */
  lemma GuessLogEnds(r: Round, e: Round, guesses: seq<int>, m: int, i: int, n: int)
    requires r == e && n == m + i && |guesses| <= |r.guesses| && 0 <= i < |r.guesses| - |guesses|
    requires |e.guesses| <= |guesses| + 1
    requires |e.guesses| == |guesses| + 1 ==> |e.effects| >= 1 && LogsGuess(e.effects[0], m, e.guesses[|guesses|])
    ensures i < |r.effects| && LogsGuess(r.effects[i], n, r.guesses[|guesses| + i])
  {
    LogRenamed(r.effects, r.guesses, m, |guesses|, n, |guesses| + i, i);
  }

  /** The i-th call of a play that begins with one logged pass, given the calls of the rest of it. */
  lemma LogStep(r: Round, rest: Round, logged: seq<Effect>, guesses: seq<int>, g: int, m: int, i: int, n: int)
    requires r == rest.(effects := logged + rest.effects) && |logged| == 1 && LogsGuess(logged[0], m, g)
    requires |guesses| + 1 <= |rest.guesses| && rest.guesses[..|guesses| + 1] == guesses + [g]
    requires 0 <= i && n == m + i
    requires 0 < i ==> && i - 1 < |rest.effects| && |guesses + [g]| + (i - 1) < |rest.guesses|
                       && LogsGuess(rest.effects[i - 1], n, rest.guesses[|guesses + [g]| + (i - 1)])
    ensures i < |r.effects| && |guesses| + i < |r.guesses| && LogsGuess(r.effects[i], n, r.guesses[|guesses| + i])
  {
    if i == 0 {
      LogFirst(r, rest, logged, guesses, g, m);
      LogRenamed(r.effects, r.guesses, m, |guesses|, n, |guesses| + i, i);
    } else {
      LogLater(r, rest, logged, |guesses|, |guesses + [g]|, i, n);
    }
  }

  /** The same record read under equal attempt numbers and positions. */
  lemma LogRenamed(effects: seq<Effect>, guesses: seq<int>, m: int, k: int, n: int, j: int, i: int)
    requires 0 < |effects| && 0 <= k < |guesses| && LogsGuess(effects[0], m, guesses[k])
    requires i == 0 && n == m && j == k
    ensures i < |effects| && j < |guesses| && LogsGuess(effects[i], n, guesses[j])
  {
  }

  /** The call one pass logs is the first call of the play it starts. */
  lemma LogFirst(r: Round, rest: Round, logged: seq<Effect>, guesses: seq<int>, g: int, m: int)
    requires r == rest.(effects := logged + rest.effects) && |logged| == 1 && LogsGuess(logged[0], m, g)
    requires |guesses| + 1 <= |rest.guesses| && rest.guesses[..|guesses| + 1] == guesses + [g]
    ensures 0 < |r.effects| && |guesses| < |r.guesses| && LogsGuess(r.effects[0], m, r.guesses[|guesses|])
  {
    assert r.effects[0] == logged[0];
    assert r.guesses[|guesses|] == rest.guesses[..|guesses| + 1][|guesses|];
  }

  /** The later calls of a play are those of the rest of it, one place further. */
  lemma LogLater(r: Round, rest: Round, logged: seq<Effect>, k: nat, k1: nat, i: int, n: int)
    requires r == rest.(effects := logged + rest.effects) && |logged| == 1 && 0 < i && k1 == k + 1
    requires i - 1 < |rest.effects| && k1 + (i - 1) < |rest.guesses|
    requires LogsGuess(rest.effects[i - 1], n, rest.guesses[k1 + (i - 1)])
    ensures i < |r.effects| && k + i < |r.guesses| && LogsGuess(r.effects[i], n, r.guesses[k + i])
  {
    assert r.effects[i] == rest.effects[i - 1];
    assert k + i == k1 + (i - 1);
  }

  /** Exactly one end_session call per play, as its last call, and it reports completion for a win or a loss only. */
  lemma ClosesOnce(difficulty: string, c: Config, secret: int, events: seq<InputEvent>, pos: nat,
                   made: int, guesses: seq<int>, score: int, now: int)
    requires pos <= |events| && 0 <= made < c.maxAttempts
    ensures var r := PlayFrom(difficulty, c, secret, events, pos, made, guesses, score, now);
      && |r.effects| >= 1
      && r.effects[|r.effects| - 1] == Close(r.score, r.outcome.Won? || r.outcome.Lost?, map[], now)
      && AllPuts(r.effects[..|r.effects| - 1])
  {
    PlayEndsWithTerminal(difficulty, c, secret, events, pos, made, guesses, score, now);
    var r := PlayFrom(difficulty, c, secret, events, pos, made, guesses, score, now);
    var term := Terminal(r, c, now);
    var n := |r.effects| - |term|;
    forall i | 0 <= i < |r.effects| - 1
      ensures r.effects[i].Put?
    {
      if i < n {
        PlayGuessLog(difficulty, c, secret, events, pos, made, guesses, score, now, i, made + 1 + i);
      } else {
        assert r.effects[i] == term[i - n];
      }
    }
    assert r.effects[|r.effects| - 1] == term[|term| - 1];
    if r.outcome.Lost? {
      // a loss closes with score 0, which is the score the play leaves
      PlayOutcome(difficulty, c, secret, events, pos, made, guesses, score, now);
    }
  }

  /**
   * The loop as written: log_attempt, which no class defines, is called
   * after every accepted guess has been appended and recorded; the
   * AttributeError lands in run's `except Exception`, which calls
   * stop(completed=False).
   */
  function PlayAsWritten(difficulty: string, c: Config, secret: int, events: seq<InputEvent>, pos: nat,
                         made: int, guesses: seq<int>, score: int, now: int): Round
    requires pos <= |events| && 0 <= made < c.maxAttempts
  {
    match NextGuess(events, pos, c.minNumber, c.maxNumber)
    case NoInput => Round(Errored, guesses, made, score, ErrorEffects(score, now))
    case QuitChosen(_) => Round(Quit, guesses, made, score, QuitEffects(|guesses|, score, now))
    case Accepted(g, t, _) =>
      Round(Errored, guesses + [g], made, score, [Put(GuessKey(made + 1), GuessDatum(g, t))] + ErrorEffects(score, now))
  }

  /** As written, no play is ever won or lost, and the session is always closed as not completed. */
  lemma AsWrittenNeverCompletes(difficulty: string, c: Config, secret: int, events: seq<InputEvent>, pos: nat,
                                made: int, guesses: seq<int>, score: int, now: int)
    requires pos <= |events| && 0 <= made < c.maxAttempts
    ensures var r := PlayAsWritten(difficulty, c, secret, events, pos, made, guesses, score, now);
      && (r.outcome.Errored? || r.outcome.Quit?)
      && r.score == score && r.attemptsMade == made
      && r.effects[|r.effects| - 1] == Close(score, false, map[], now)
  {
  }

  /**
   * A Hard play with secret 150 and guesses 10, 20, 30, 150: the
   * intended loop wins on attempt 4 with 1600 points and closes the
   * session as completed; as written it stops after the first guess,
   * scoring 0 and closing the session as not completed.
   */
  lemma HardWinOnFourthAttempt()
    ensures var c := ConfigFor("Hard");
      var events := [Number(10, 120), Number(20, 95), Number(30, 80), Number(150, 210)];
      var r := PlayFrom("Hard", c, Draw(c.minNumber, c.maxNumber, 149), events, 0, 0, [], 0, 500);
      var w := PlayAsWritten("Hard", c, Draw(c.minNumber, c.maxNumber, 149), events, 0, 0, [], 0, 500);
      && r.outcome == Won(4) && r.score == 1600 && r.guesses == [10, 20, 30, 150] && r.attemptsMade == 3
      && r.effects[|r.effects| - 1] == Close(1600, true, map[], 500)
      && w.outcome == Errored && w.score == 0 && w.guesses == [10]
      && w.effects[|w.effects| - 1] == Close(0, false, map[], 500)
  {
    var c := ConfigFor("Hard");
    assert c == Config(1, 200, 5);
    assert Draw(1, 200, 149) == 150;
    var events := [Number(10, 120), Number(20, 95), Number(30, 80), Number(150, 210)];
    assert NextGuess(events, 3, 1, 200) == Accepted(150, 210, 4);
    assert NextGuess(events, 2, 1, 200) == Accepted(30, 80, 3);
    assert NextGuess(events, 1, 1, 200) == Accepted(20, 95, 2);
    assert NextGuess(events, 0, 1, 200) == Accepted(10, 120, 1);
    ScoreExamples();
  }

  /**
   * An Easy play where the player guesses 10, types "abc", guesses 99
   * (out of range), guesses 20 and then confirms a quit: two attempts
   * are counted, the quit is recorded with attempts_before_quit = 2 and
   * the session is closed as not completed with score 0.
   */
  lemma EasyQuitAfterTwoGuesses()
    ensures var c := ConfigFor("Easy");
      var events := [Number(10, 300), NotANumber, Number(99, 150), Number(20, 410), QuitKey(true)];
      var r := PlayFrom("Easy", c, 25, events, 0, 0, [], 0, 900);
      && r.outcome == Quit && r.guesses == [10, 20] && r.attemptsMade == 2 && r.score == 0
      && r.effects[2..] == QuitEffects(2, 0, 900)
      && r.effects[2] == Put("quit_early", Bool(true))
  {
    var c := ConfigFor("Easy");
    assert c == Config(1, 50, 10);
    var events := [Number(10, 300), NotANumber, Number(99, 150), Number(20, 410), QuitKey(true)];
    assert NextGuess(events, 4, 1, 50) == QuitChosen(5);
    assert NextGuess(events, 2, 1, 50) == Accepted(20, 410, 4);
    assert NextGuess(events, 1, 1, 50) == Accepted(20, 410, 4);
    assert NextGuess(events, 0, 1, 50) == Accepted(10, 300, 1);
  }
}
