/**
 * Difficulty configuration and the scoring formula of the number-guessing
 * game (NumberGuessingGame.configure_difficulty and calculate_score).
 */
module Scoring {

  /** The numeric bounds a difficulty tier selects. */
  datatype Config = Config(minNumber: int, maxNumber: int, maxAttempts: int)

  /**
   * configure_difficulty: Easy, Medium and Hard select their own bounds;
   * any other value falls back to Medium's.
   */
  function ConfigFor(difficulty: string): (c: Config)
    ensures c.minNumber < c.maxNumber && c.maxAttempts >= 1
    ensures 50 <= c.maxNumber - c.minNumber + 1 <= 200 && c.maxAttempts <= 10
  {
    if difficulty == "Easy" then Config(1, 50, 10)
    else if difficulty == "Medium" then Config(1, 100, 7)
    else if difficulty == "Hard" then Config(1, 200, 5)
    else Config(1, 100, 7)
  }

  /** The fixed tier table, and the fallback of every other value to Medium's bounds. */
  lemma DifficultyTable(difficulty: string)
    ensures ConfigFor("Easy") == Config(1, 50, 10)
    ensures ConfigFor("Medium") == Config(1, 100, 7)
    ensures ConfigFor("Hard") == Config(1, 200, 5)
    ensures difficulty != "Easy" && difficulty != "Hard" ==> ConfigFor(difficulty) == ConfigFor("Medium")
  {
  }

  /**
   * The difficulty multiplier of calculate_score, counted in halves:
   * Easy 1.0, Medium 1.5, Hard 2.0, and 1.0 for any other value.
   */
  function MultiplierHalves(difficulty: string): (h: int)
    ensures 2 <= h <= 4
    ensures h == 2 <==> difficulty != "Medium" && difficulty != "Hard"
  {
    if difficulty == "Easy" then 2
    else if difficulty == "Medium" then 3
    else if difficulty == "Hard" then 4
    else 2
  }

  /** Python's int() of a quotient: truncation toward zero, not Dafny's Euclidean division. */
  function TruncDiv(a: int, b: int): int
    requires b > 0
  {
    if a >= 0 then a / b else -((-a) / b)
  }

  /** TruncDiv rounds toward zero: down for a non-negative quotient, up for a negative one. */
  lemma TruncDivRoundsTowardZero(a: int, b: int)
    requires b > 0
    ensures var q := TruncDiv(a, b);
      (a >= 0 ==> q * b <= a < (q + 1) * b) && (a < 0 ==> q * b >= a > (q - 1) * b)
  {
  }

  /** What one spare attempt is worth, before the division by max_attempts: 5 * range * multiplier-in-halves. */
  function Weight(difficulty: string, c: Config): int
  {
    5 * (c.maxNumber - c.minNumber + 1) * MultiplierHalves(difficulty)
  }

  /**
   * calculate_score(attempts_used): the truncation of
   *   1000 * (max_attempts - attempts_used + 1) / max_attempts
   *        * (max_number - min_number + 1) / 100 * multiplier,
   * computed exactly: 1000 / 100 / 2 leaves the factor 5 when the
   * multiplier is counted in halves.
   */
  function Score(difficulty: string, c: Config, attemptsUsed: int): int
    requires c.maxAttempts > 0
  {
    TruncDiv((c.maxAttempts - attemptsUsed + 1) * Weight(difficulty, c), c.maxAttempts)
  }

  lemma {:induction false} MulNonNegative(x: int, k: int)
    requires x >= 0 && k >= 0
    ensures x * k >= 0
  {
    if x > 0 {
      MulNonNegative(x - 1, k);
      assert x * k == (x - 1) * k + k;
    }
  }

  lemma {:induction false} MulMonotone(x: int, y: int, k: int)
    requires 0 <= x <= y && k >= 0
    ensures 0 <= x * k <= y * k
    decreases y - x
  {
    if x < y {
      MulMonotone(x, y - 1, k);
      assert y * k == (y - 1) * k + k;
    } else {
      MulNonNegative(x, k);
    }
  }

  lemma MulCancel(a: int, b: int, m: int)
    requires a >= 0 && b >= 0 && m > 0
    ensures a * m < b * m ==> a < b
  {
    if b <= a {
      MulMonotone(b, a, m);
    }
  }

  lemma DivMonotone(x: int, y: int, m: int)
    requires 0 <= x <= y && m > 0
    ensures x / m <= y / m
  {
    var qx, qy := x / m, y / m;
    assert qx * m <= x && 0 <= qx;
    assert y < (qy + 1) * m && 0 <= qy;
    MulCancel(qx, qy + 1, m);
  }

  /**
   * Fewer attempts never score less: for attempts counts up to
   * max_attempts + 1 the score is non-increasing.
   */
  lemma ScoreNonIncreasing(difficulty: string, c: Config, a1: int, a2: int)
    requires c.maxAttempts > 0 && c.minNumber <= c.maxNumber
    requires a1 <= a2 <= c.maxAttempts + 1
    ensures Score(difficulty, c, a1) >= Score(difficulty, c, a2)
  {
    var w := Weight(difficulty, c);
    MulMonotone(5, 5 * (c.maxNumber - c.minNumber + 1), MultiplierHalves(difficulty));
    var x1, x2 := c.maxAttempts - a1 + 1, c.maxAttempts - a2 + 1;
    MulMonotone(x2, x1, w);
    DivMonotone(x2 * w, x1 * w, c.maxAttempts);
  }

  /**
   * A win within the attempt budget of a configured tier always scores
   * strictly more than zero, even on the last attempt.
   */
  lemma ScorePositive(difficulty: string, attemptsUsed: int)
    requires 1 <= attemptsUsed <= ConfigFor(difficulty).maxAttempts
    ensures Score(difficulty, ConfigFor(difficulty), attemptsUsed) >= 50
  {
    var c := ConfigFor(difficulty);
    var h, r, m := MultiplierHalves(difficulty), c.maxNumber - c.minNumber + 1, c.maxAttempts;
    ScoreNonIncreasing(difficulty, c, attemptsUsed, m);
    // the last attempt scores Weight / max_attempts, and Weight >= 5 * 50 * 2
    var w := Weight(difficulty, c);
    MulMonotone(250, 5 * r, h);
    MulMonotone(2, h, 250);
    assert (m - m + 1) * w == w >= 500;
    DivMonotone(500, w, m);
    // and 500 / max_attempts >= 50 because max_attempts <= 10
    var q := 500 / m;
    assert 50 * m <= 500 < (q + 1) * m;
    MulCancel(50, q + 1, m);
  }

  /** Worked values: the best and worst Medium wins, a Hard win on attempt 4, an unknown tier. */
  lemma ScoreExamples()
    ensures Score("Medium", ConfigFor("Medium"), 1) == 1500
    ensures Score("Medium", ConfigFor("Medium"), 7) == 214
    ensures Score("Hard", ConfigFor("Hard"), 4) == 1600
    ensures Score("Easy", ConfigFor("Easy"), 10) == 50
    ensures Score("Expert", ConfigFor("Expert"), 1) == 1000
  {
  }
}
