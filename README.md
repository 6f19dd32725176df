# CLI Game Collection — game engine, session tracking and user records in Dafny

This project models the core of the CLI Game Collection app:

- the number-guessing game (`NumberGuessingGame`) and the `BaseGame` lifecycle it inherits: start, configure the difficulty, set up, run the guessing loop, and handle victory, defeat and quitting;
- the session tracker that records one game session at a time, the `GameSession` entity it owns, and the session repository it persists into;
- the `User` model's validating setters, the profile-update and account-deletion controllers, and the user repository's update, delete, save and e-mail lookups;
- the migration manager that discovers `vN_name` modules and applies them or rolls them back.

The files follow the program's structure:

- `common.dfy` (`Common`): string helpers with Python's meaning: `strip`, ASCII `lower`, decimal rendering, counting, and `index`. It also holds the `Option`/`Result` wrappers and the JSON-like `Datum` values stored in session data.
- `scoring.dfy` (`Scoring`): the difficulty table and `calculate_score`, in exact integer arithmetic.
- `game_session.dfy` (`GameSessions`): `GameSession` as a class whose `end` updates its fields in place. Its value view is `SessionRecord`.
- `session_store.dfy` (`SessionStore`): the game-session repository as a value (`create`, `update`, `find_by_user`).
- `session_tracker.dfy` (`SessionTracking`): `GameSessionTracker` as a class with an optional active `GameSession`. Each operation is proved equal to a function on a `TrackerState` value. Tracker calls are also written as `Effect`s (open, put, close) and replayed with `Replay`.
- `guessing_play.dfy` (`GuessingPlay`): one play of the guessing loop as a function of the player's input events (`PlayFrom`). The lemmas state what a play does to the game's fields and which tracker calls it makes.
- `number_guessing.dfy` (`NumberGuessing`): the game object as a class. Its methods change the fields step by step, and `Run` and `Start` are proved equal to `PlayFrom` and its tracker trace.
- `users.dfy` (`Users`): the `User` class, its setters, the e-mail pattern `^[a-zA-Z0-9_.+-]+@[a-zA-Z0-9-]+\.[a-zA-Z0-9-.]+$` (with `re.match`'s `$`) and the constructor.
- `user_repository.dfy` (`UserRepository`): the users table as a class over a sequence of rows. `update`'s SET clause is built by a loop, and every table operation is proved equal to a function on rows.
- `user_controller.dfy` (`UserController`): `update_user_details` and `delete_current_user_account` over an explicit `Session` object.
- `migration.dfy` (`Migrations`): module-name parsing, sorting, choosing the default target, and the upgrade and rollback loops over a recorded-version map.

Collaborators that are not modelled become parameters:

- the random draw of the secret is a `roll` that is mapped into the range;
- every clock reading is an integer `now` (seconds; guess timing in hundredths of a second);
- player input is a sequence of events: a number, text that is not a number, `q` with a yes or no confirmation, or Ctrl+C with a yes or no confirmation;
- password hashing and verification are uninterpreted functions;
- the list of migration modules is given as a sequence of names with flags saying whether `up()` and `down()` exist.

## Model

| member | source | states |
|---|---|---|
| Scoring.ConfigFor | games/game1/game.py:32-51 | Every difficulty, known or not, gets bounds with min < max and at least one attempt. The range holds 50 to 200 numbers and the budget is at most 10. |
| Scoring.DifficultyTable | games/game1/game.py:35-51 | Easy is (1, 50, 10), Medium (1, 100, 7) and Hard (1, 200, 5). Any other difficulty falls back to Medium's bounds. |
| Scoring.MultiplierHalves | games/game1/game.py:232-240 | The multiplier, counted in halves, lies between 1.0 and 2.0. It is 1.0 exactly when the difficulty is neither Medium nor Hard, so an unknown difficulty gets Easy's multiplier. |
| Scoring.TruncDivRoundsTowardZero | games/game1/game.py:248 | The `int()` truncation used by the score gives the quotient closest to zero: never above the exact value for a non-negative dividend, never below it for a negative one. |
| Scoring.ScoreNonIncreasing | games/game1/game.py:225-248 | For attempts within the budget, using more attempts never gives a higher score. |
| Scoring.ScorePositive | games/game1/game.py:225-248 | With the configured bounds, every win within the budget scores at least 50 points. |
| Scoring.ScoreExamples | games/game1/game.py:225-248 | A Medium win on attempt 1 scores 1500 and on attempt 7 scores 214. A Hard win on attempt 4 scores 1600, an Easy win on attempt 10 scores 50, and an unknown difficulty's win on attempt 1 scores 1000. |
| GuessingPlay.NextGuess | games/game1/game.py:129-186 | An accepted guess lies within [min_number, max_number] and is the number in the last event consumed. A quit is a `q` or a Ctrl+C that the player confirmed. |
| GuessingPlay.NextGuessSkipsRejected | games/game1/game.py:136-158 | Every event passed over before the accepted guess or the quit is re-prompted: text that is not a number, a number out of range, or a quit the player withdrew. |
| GuessingPlay.ProcessGuess | games/game1/game.py:188-197 | Exactly one hint: "higher" iff the guess is below the secret, "lower" iff above, "correct" iff equal. |
| GuessingPlay.Draw | games/game1/game.py:66 | The secret always lies within [min_number, max_number]. |
| GuessingPlay.DrawCovers | games/game1/game.py:66 | Every number of the range is drawn by some roll. |
| GuessingPlay.PassFrom | games/game1/game.py:82-103 | A pass of the loop that goes on has consumed input, used one wrong guess and stayed below the attempt budget. |
| GuessingPlay.PassOutcome | games/game1/game.py:82-103 | One pass either ends the play with the fields Played describes, or counts exactly one wrong, in-range guess. |
| GuessingPlay.PlayExtendsGuesses | games/game1/game.py:163-164 | A play only appends to the guess history. What was there before is kept as a prefix. |
| GuessingPlay.PlayOutcome | games/game1/game.py:77-112 | A play keeps attempts_made within max_attempts and appends one guess per pass, each in range and all wrong but a winning last one. A win scores calculate_score(attempts_made + 1) with the last guess equal to the secret. A loss uses the whole budget and scores 0. A quit or an error leaves the score unchanged. |
| GuessingPlay.PlayEndsWithTerminal | games/game1/game.py:199-294 | A play's tracker calls are one call per accepted guess, followed by exactly the calls the outcome's handler makes (victory, defeat, quit or error). |
| GuessingPlay.PlayGuessLog | games/game1/game.py:166-170 | The i-th guess accepted during a play is recorded under `guess_<n>`, where n is the attempt it was made on, with the guess as its value. |
| GuessingPlay.ClosesOnce | games/game1/game.py:77-112 | Every play ends the tracked session exactly once, as its last call, with the play's score. The session is marked completed iff the play was won or lost. |
| GuessingPlay.AsWrittenNeverCompletes | games/game1/game.py:160-175 | With the undefined `log_attempt` call in place, no play is ever won or lost. The score stays unchanged and the session is always closed as not completed. |
| GuessingPlay.HardWinOnFourthAttempt | games/game1/game.py:173 | Guesses 10, 20, 30, 150 against secret 150 on Hard win on attempt 4 with 1600 points in the intended loop. As written, the same input errors after the first guess with score 0. |
| GuessingPlay.EasyQuitAfterTwoGuesses | games/game1/game.py:279-294 | On Easy, the input guess 10, "abc", 99, guess 20, confirmed quit counts two guesses. It records quit_early and attempts_before_quit = 2, then closes the session as not completed with score 0. |
| NumberGuessing.StartLeavesTrackerIdle | games/base.py:28-50 | On the intended path, a whole play leaves the tracker idle with exactly one new session row. That row has the game's user, game and difficulty, the play's final score, and completed iff the play was won or lost. |
| NumberGuessing.NumberGuessingGame.constructor | games/game1/game.py:14-30 | The game starts with score 0, not running, no tracker, difficulty "Medium", no attempts and no guesses, and with the game's id, name and description. |
| NumberGuessing.NumberGuessingGame.GetInfo | games/base.py:121-128 | The result has exactly the keys game_id, name, description and difficulty, holding the game's fields. |
| NumberGuessing.NumberGuessingGame.TrackProgress | games/base.py:107-115 | With a tracker, the value is stored under the key in the active session. Without one, nothing changes. |
| NumberGuessing.NumberGuessingGame.RecordMetric | games/game1/game.py:72-75 | Forwards to track_progress only when a tracker is attached. |
| NumberGuessing.NumberGuessingGame.UpdateScore | games/base.py:90-105 | Adds the points (which may be negative) and returns the new total. With a tracker, the total is also stored under "score". |
| NumberGuessing.NumberGuessingGame.Stop | games/base.py:69-88 | Ends the tracked session with the current score and the completed flag, stops the game, and returns the score unchanged. |
| NumberGuessing.NumberGuessingGame.ConfigureDifficulty | games/game1/game.py:32-59 | The bounds become the difficulty's table entry, and with a tracker they are recorded under "difficulty_settings". |
| NumberGuessing.NumberGuessingGame.Setup | games/game1/game.py:61-70 | Resets attempts to 0 and guesses to empty, and draws a secret within the bounds. With a tracker, records the range and the attempt budget. |
| NumberGuessing.NumberGuessingGame.GetPlayerGuess | games/game1/game.py:129-186 | Returns the next accepted guess or quit. Only an accepted guess is appended to the history and recorded under `guess_<attempts_made + 1>`. |
| NumberGuessing.NumberGuessingGame.KeepGuess | games/game1/game.py:163-170 | Appends the guess and records its value and timing under the current attempt's key. |
| NumberGuessing.NumberGuessingGame.HandleVictory | games/game1/game.py:199-223 | Sets the score to calculate_score(attempts_made + 1), records attempts_used and success, and stops as completed. |
| NumberGuessing.NumberGuessingGame.HandleDefeat | games/game1/game.py:250-268 | Records the whole budget as attempts_used and success as false, sets the score to 0, and stops as completed. |
| NumberGuessing.NumberGuessingGame.HandleQuit | games/game1/game.py:279-294 | Records quit_early and attempts_before_quit = len(guesses), stops as not completed, and returns the score. |
| NumberGuessing.NumberGuessingGame.Judge | games/game1/game.py:91-103 | A correct guess wins without counting the attempt. A wrong guess counts one attempt and ends in defeat when the budget is used up. |
| NumberGuessing.NumberGuessingGame.Turn | games/game1/game.py:82-103 | One iteration of the loop leaves the fields and the tracker exactly as one pass of the play function says. |
| NumberGuessing.NumberGuessingGame.Run | games/game1/game.py:77-112 | The loop leaves score, attempts_made and guesses as the whole play function says, and makes exactly the play's tracker calls. |
| NumberGuessing.NumberGuessingGame.Begin | games/base.py:28-43 | On the intended path (see "## Findings"), start resets score and attempts, sets is_running, attaches the tracker and opens a new session for the user, game and difficulty. |
| NumberGuessing.NumberGuessingGame.Prepare | games/base.py:28-49 | On the intended path, the steps of start before run: the reset, the session opened, the difficulty's bounds, and a fresh secret with no attempts or guesses, in that order on the tracker. |
| NumberGuessing.NumberGuessingGame.Start | games/base.py:28-50 | The intended start (without the failing `time.time()`; see "## Findings"): calls the tracker, then configure_difficulty, setup and run, in that order. The final fields are those of a whole play with the drawn secret, and the tracker sees exactly the open, configure, setup and play calls. |
| NumberGuessing.NumberGuessingGame.StartAsWritten | games/base.py:1-36 | start as written: score, attempts and is_running are reset, then the AttributeError from `time.time()` is the result. The tracker, the bounds, the secret, the guesses and the attached session are all left as they were. |
| GameSessions.NewRecord | models/game_session.py:23-32 | A new session has no id, starts now, is not completed, has difficulty as given, empty session data, and no end time, duration or score. |
| GameSessions.EndRecord | models/game_session.py:34-48 | Ending stamps the end time, sets the duration to end minus start, and overwrites score and completed. The given data is merged over the old data: supplied keys win and other keys stay. id, user, game, start time and difficulty are unchanged. |
| GameSessions.EndDurationNonNegative | models/game_session.py:42-43 | A session ended no earlier than it started has a non-negative duration. |
| GameSessions.GameSession.constructor | models/game_session.py:6-32 | A constructed session reports exactly the fields of a new record. |
| GameSessions.GameSession.End | models/game_session.py:34-48 | end updates the session in place to exactly the ended record. |
| GameSessions.GameSession.ToDict | models/game_session.py:50-62 | to_dict reports every field of the session unchanged. |
| SessionStore.Create | repositories/game_session.py:10-32 | create assigns an id not used before and appends the session under it. A well-formed store stays well-formed. |
| SessionStore.Update | repositories/game_session.py:34-61 | update succeeds iff the session's id is stored. It replaces only that row and keeps the store well-formed. |
| SessionStore.ForUser | repositories/game_session.py:95-100 | Keeps exactly the rows of the given user. |
| SessionStore.SortNewestFirst | repositories/game_session.py:98 | Orders the rows by start time, newest first, as a permutation of its input. |
| SessionStore.Limit | repositories/game_session.py:99-100 | Keeps the first `limit` rows. A negative limit, like SQLite's LIMIT -1, keeps all. |
| SessionStore.FindByUser | repositories/game_session.py:84-104 | find_by_user returns only the user's sessions, newest first, up to the limit and all of them below it. Each session is listed no more often than it is stored, and every session left out starts no later than every one listed. |
| SessionStore.PrefixKeepsNewest | repositories/game_session.py:98-100 | A LIMIT on a newest-first list keeps a sub-multiset, and every entry it cuts off starts no later than every entry it keeps. |
| SessionTracking.OpenSpec | utils/game_session_tracker.py:12-32 | start_session creates a new session for the user, game and difficulty under a fresh id, makes it the active one regardless of any earlier one, and returns the id. |
| SessionTracking.CloseSpec | utils/game_session_tracker.py:34-57 | end_session with no active session returns False and changes nothing. Otherwise the tracker becomes idle. |
| SessionTracking.PutSpec | utils/game_session_tracker.py:59-73 | update_session_data succeeds iff a session is active. It then sets that key only and otherwise changes nothing. |
| SessionTracking.EndWhenIdle | utils/game_session_tracker.py:45-46 | Ending while idle returns False and leaves the state as it was. |
| SessionTracking.EndPersists | utils/game_session_tracker.py:48-57 | Ending an active, stored session ends it with the given score, completed flag and data, writes it back over its row, clears it and returns True. |
| SessionTracking.SecondEndFails | utils/game_session_tracker.py:45-55 | A second consecutive end_session returns False and changes nothing. |
| SessionTracking.LastWriteWins | utils/game_session_tracker.py:72 | Two writes to one key keep the second value, and other keys keep theirs. |
| SessionTracking.ReplayPuts | utils/game_session_tracker.py:59-73 | A run of session-data updates never changes the store or the active session's identity. |
| SessionTracking.OpenPutsCloseLeavesIdle | utils/game_session_tracker.py:12-57 | Opening, updating and closing a session leaves the tracker idle with exactly one new row: the ended session. |
| SessionTracking.GameSessionTracker.constructor | utils/game_session_tracker.py:7-10 | A new tracker is idle over the given repository. |
| SessionTracking.GameSessionTracker.StartSession | utils/game_session_tracker.py:12-32 | Updates the tracker and returns the id exactly as start_session's specification does, with a fresh session object. |
| SessionTracking.GameSessionTracker.EndSession | utils/game_session_tracker.py:34-57 | Updates the tracker and returns the result exactly as end_session's specification does. |
| SessionTracking.GameSessionTracker.UpdateSessionData | utils/game_session_tracker.py:59-73 | Updates the active session's data in place, exactly as update_session_data's specification does. |
| SessionTracking.GameSessionTracker.GetUserHistory | utils/game_session_tracker.py:75-85 | Returns the repository's find_by_user result. |
| SessionTracking.GameSessionTracker.ActiveSessionId | utils/game_session_tracker.py:87-90 | None iff no session is active. Otherwise it is the id of a stored row. |
| Users.StoredNameAccepted | models/user.py:35-40 | The stripped name that the setter stores passes the setter again unchanged. |
| Users.ShapedIff | models/user.py:49 | The character-class check equals a full match of the pattern: one '@', a non-empty local part of `[a-zA-Z0-9_.+-]`, a domain of `[a-zA-Z0-9-]` and a '.' followed by a suffix of `[a-zA-Z0-9-.]`. |
| Users.EmailMatchesIff | models/user.py:49-50 | `re.match` with the trailing `$` accepts a full match, or a full match followed by a single newline, and nothing else. |
| Users.AcceptedCases | models/user.py:49-50 | Every accepted value is a full match, possibly followed by one newline. |
| Users.TrailingNewlineAccepted | models/user.py:49-50 | "a@b.co" and "a@b.co\n" are both accepted. |
| Users.TwoNewlinesRejected | models/user.py:49-50 | "a@b.co\n\n" is rejected. |
| Users.AcceptedEmailShape | models/user.py:49 | Every accepted e-mail contains exactly one '@', followed somewhere by a '.'. |
| Users.LowerKeepsAccepted | models/user.py:52 | The lower-cased e-mail that the setter stores is still accepted. |
| Users.CreateError | models/user.py:13-29 | The constructor's first failing check wins: a short name, then a bad e-mail, then a short unhashed password. Each error happens iff the earlier checks pass and its own fails. |
| Users.User.Blank | models/user.py:13-19 | A blank user with the given id, creation time and hashed flag, and no name, e-mail or password yet. |
| Users.User.SetName | models/user.py:35-40 | Accepts iff the stripped name has at least 3 characters, and stores it stripped. A rejected name leaves the old one. |
| Users.User.SetEmail | models/user.py:46-52 | Accepts iff the value matches the pattern, and stores it lower-cased. A rejected value leaves the old one. |
| Users.User.SetPassword | models/user.py:58-76 | Once the password is hashed, any value is stored verbatim. Otherwise a password under 6 characters is rejected and the old one kept, and a valid one is stored hashed. |
| Users.User.ToDict | models/user.py:82-90 | Exactly the keys id, name, email, password and created_at, holding the user's fields. |
| Users.Create | models/user.py:13-29 | Fails with exactly the constructor's first error. On success the user holds the stripped name, the lower-cased e-mail, the id, and created_at (defaulting to now). The password is stored verbatim when already hashed and hashed otherwise. |
| Users.ConstructedUserValid | models/user.py:13-52 | A constructed user's stripped name and lower-cased e-mail pass their setters again and are stored unchanged by them. |
| UserRepository.FirstRow | repositories/user.py:36-52 | The row a single-row lookup returns matches its WHERE clause (the id, or the exact e-mail), and nothing is returned iff no row matches. |
| UserRepository.RebuildStoredRow | repositories/user.py:42-51 | A row written through the User model is rebuilt by find_by_id without error, with its own fields. |
| UserRepository.FindById | repositories/user.py:26-52 | Returns None exactly when no row has the id. A found row is rebuilt through the User model, which may raise. |
| UserRepository.FindByEmail | repositories/user.py:143-161 | Returns None iff no stored e-mail equals the lower-cased address. |
| UserRepository.EmailExistsIff | repositories/user.py:163-171 | email_exists holds iff find_by_email finds a row (or fails to rebuild one). |
| UserRepository.LookupIgnoresCase | repositories/user.py:147-168 | Both lookups give the same answer for an address and its lower-cased form. |
| UserRepository.SaveSpec | repositories/user.py:10-23 | save inserts iff the e-mail is not registered (and a password is given). It appends the new row with the next id, and otherwise leaves the table unchanged. |
| UserRepository.SavedEmailRefused | repositories/user.py:13-15 | Once a row with an e-mail is stored, saving that e-mail again is refused. |
| UserRepository.SelectedColumns | repositories/user.py:85-89 | The SET clause has a pair for a field iff it is one of name, email, password and is present and not None. The pairs come in the order name, email, password. |
| UserRepository.SelectFromIff | repositories/user.py:86-89 | The loop keeps a (field, value) pair iff the field is listed and present with that non-None value. |
| UserRepository.SelectFromOrdered | repositories/user.py:85-89 | The kept fields appear in the fixed field order, each at most once. |
| UserRepository.OtherKeysIgnored | repositories/user.py:85-89 | Keys other than the three fields do not change the SET clause. |
| UserRepository.BuildSet | repositories/user.py:81-89 | The loop builds exactly the `field = ?` parts and the parameter values of the selected fields, in order. |
| UserRepository.PlaceholdersMatchParams | repositories/user.py:96-97 | The UPDATE statement has exactly as many placeholders as parameters, counting the trailing user id. |
| UserRepository.AssignSelected | repositories/user.py:96-99 | The UPDATE writes every selected field's new value and leaves the other columns, id and created_at as they were. |
| UserRepository.UpdateSpec | repositories/user.py:55-109 | No data iff the data is empty. Not found iff there is data and no such id. A row that cannot be rebuilt is a database error with the table unchanged. No valid fields iff a rebuildable row is found and nothing is selected. A UNIQUE clash iff the rewritten e-mail is held by another row. Every refusal and clash leaves the table unchanged. Otherwise only the target row is rewritten with the selected values, and the reply is the row find_by_id reads back, or its failure as a database error. |
| UserRepository.DeleteSpec | repositories/user.py:112-140 | Not found iff no row has the id. A row that cannot be rebuilt is a database error. Deleted iff the row is found and rebuilt, and then exactly the rows with that id are removed. A failure changes nothing. |
| UserRepository.UserTable.Save | repositories/user.py:10-23 | Behaves as save's specification. On success it sets the user's id to the new row's id, and it keeps ids and e-mails unique. |
| UserRepository.UserTable.Update | repositories/user.py:55-109 | Behaves as update's specification and keeps ids and e-mails unique. |
| UserRepository.UserTable.Delete | repositories/user.py:112-140 | Behaves as delete's specification and keeps ids and e-mails unique. |
| UserRepository.UpdateKeepsValid | repositories/user.py:99 | Rewriting one row with no e-mail clash keeps ids and e-mails unique. |
| UserRepository.WithoutKeepsValid | repositories/user.py:131 | Deleting a row keeps ids and e-mails unique. |
| UserController.NameStep | controllers/user.py:130-135 | No name change iff no non-empty name is given. A given name passes iff its stripped form reaches the minimum length, and the stripped form is the change; otherwise the name error. |
| UserController.EmailStep | controllers/user.py:137-147 | No e-mail change iff no non-empty address is given. A stripped address of the wrong shape is refused. When find_by_email raises, so does the step. "In use" iff find_by_email returns a user with another id. Otherwise the stripped address (lower-cased under the corrected checks) is the change. |
| UserController.PasswordStep | controllers/user.py:149-163 | No password change iff none is given. A given one fails iff it is under 8 characters or differs from a supplied confirmation, and is otherwise stored as its hash. |
| UserController.Validate | controllers/user.py:127-167 | The changes are non-empty, only name, email and password, all set. A name failure is returned before anything else. Validation only refuses or raises, never with "no session". |
| UserController.ValidateSteps | controllers/user.py:127-167 | The steps run in the order name, e-mail, password, and the first failure is the answer. "No changes" iff no step produced a value. Otherwise each column holds exactly the value its step produced. |
| UserController.DetailsSpec | controllers/user.py:110-182 | "No active user session" iff there is no current user. A refusal or raise changes neither the table nor the session. A changed session holds the updated user without a password. |
| UserController.DetailsOutcome | controllers/user.py:166-182 | A failed check is the reply, with table and session unchanged. Validated changes reach the repository's update. The reply is a success iff the repository returns the updated user, and the session then holds that user without its password. Any other repository result is passed through with the session unchanged. On success the table holds the changes written to the user's row, and the session holds that row as find_by_id rebuilds it. |
| UserController.DetailsMessage | controllers/user.py:123-182 | update_user_details returns a pair unless find_by_email raises. The pair reports success iff the profile was updated or the repository reported success. |
| UserController.CollectChanges | controllers/user.py:127-167 | Builds the update dictionary step by step with early returns, equal to the corrected validation. |
| UserController.UpdateUserDetails | controllers/user.py:110-182 | Replies, writes the table and replaces the session user exactly as the corrected specification says, keeping the table valid. |
| UserController.DeleteAccountSpec | controllers/user.py:185-216 | "No active user session" iff there is no current user. A wrong confirmation password cancels. With no confirmation, or one that verifies, the reply and the table are the repository delete's, and the session ends iff the delete succeeded. |
| UserController.DeleteAccountMessage | controllers/user.py:185-216 | delete_current_user_account reports success iff the repository deleted the row. |
| UserController.ConfirmedDeleteRemoves | controllers/user.py:203-216 | A logged-in user whose row can be rebuilt, with no confirmation or one that verifies, loses exactly the rows with their id, the session ends and the reply is a success. |
| UserController.DeleteCurrentUserAccount | controllers/user.py:185-216 | Replies, deletes and clears the session exactly as the specification says, keeping the table valid. |
| UserController.CorrectedUpdateSucceeds | controllers/user.py:110-182 | With the corrected checks, every update the controller accepts is written, read back and reported as a success. The session then holds the user's row with the changes applied, without its password. The table still holds only rows the User model can rebuild. |
| UserController.ShortNameChecks | controllers/user.py:131-135 | The name "Al" passes the controller's check as written and fails the corrected one. |
| UserController.ShortNameWrittenButReported | controllers/user.py:131-135 | As written, updating a stored user's name to "Al" writes "Al" into the table while reporting a failure and keeping the old session user. The table then holds a row the User model rejects. |
| Migrations.DigitsRoundTrip | db/migration.py:37 | Parsing the decimal digits of a natural number gives it back. |
| Migrations.ParseDecimal | db/migration.py:37 | `int()` of any integer's decimal rendering gives that integer back. |
| Migrations.VersionOfIff | db/migration.py:35-40 | A module name yields version v iff it starts with 'v', has a '_', and the text between the 'v' and the first '_' is an integer literal for v. Every other name is skipped. |
| Migrations.ConventionalName | db/migration.py:35-37 | A name "v<n>_<description>" yields version n, whatever the description. |
| Migrations.Discovered | db/migration.py:30-40 | Every discovered migration comes from a listed module whose name parses to its version. |
| Migrations.DiscoveredIncludes | db/migration.py:33-38 | Every module whose name parses is discovered. |
| Migrations.SortByVersion | db/migration.py:41 | The sort is a permutation of its input. |
| Migrations.SortSorted | db/migration.py:41 | The sorted list is ordered by version (ascending, or descending for rollback). |
| Migrations.SortStable | db/migration.py:41 | The sort is stable: migrations sharing a version keep their discovery order. |
| Migrations.DefaultTargetHighest | db/migration.py:51-52 | The default target is 0 when nothing is discovered, and otherwise the highest discovered version, which some module declares. |
| Migrations.CurrentVersion | db/migration.py:11-18 | The current version is -1 when the query fails or nothing is recorded, and otherwise the highest recorded version. |
| Migrations.UpgradeRecorded | db/migration.py:57-65 | Upgrading records exactly the versions v with current < v <= target whose module has up(), keeping earlier records. |
| Migrations.UpgradeRuns | db/migration.py:57-65 | Every up() script run is for a version in (current, target] and is recorded under its module's name. Scripts run for exactly the applicable versions not already recorded. |
| Migrations.UpgradeAscending | db/migration.py:57-65 | Over the sorted list, up() scripts run in strictly ascending version order, so no version is applied twice. |
| Migrations.FirstModuleApplied | db/migration.py:59-65 | Of several modules sharing a version, the first one with up() is the one applied and recorded. |
| Migrations.DowngradeRecorded | db/migration.py:70-78 | Rolling back deletes exactly the records of versions in (target, current] whose module has down(). |
| Migrations.DowngradeRuns | db/migration.py:70-78 | Every down() script run is for a version in (target, current], exactly the rolled-back versions, in descending order over the reverse-sorted list. |
| Migrations.MigrateUpgrade | db/migration.py:44-68 | Below the target, migrate runs the initial script, then up() of each discovered version in (current, target] in ascending order, recording exactly those. |
| Migrations.MigrateRollback | db/migration.py:70-81 | Above the target, migrate runs the initial script, then down() of each discovered version in (target, current] in descending order, deleting exactly those records. |
| Migrations.MigrateAtTarget | db/migration.py:82-83 | At the target, migrate runs only the initial script and changes no record. |
| Migrations.MigrationDatabase.GetMigrationModules | db/migration.py:30-41 | The loop and sort give the discovered migrations, sorted ascending by version. |
| Migrations.MigrationDatabase.ApplyUp | db/migration.py:57-68 | The upgrade loop changes the recorded versions and script log exactly as the upgrade specification says. |
| Migrations.MigrationDatabase.RollBack | db/migration.py:70-81 | The rollback loop changes the recorded versions and script log exactly as the rollback specification says. |
| Migrations.MigrationDatabase.Migrate | db/migration.py:44-83 | migrate changes the schema table and script log exactly as the migrate specification says. |

## Left out

- Console output, rich panels, `display_welcome`, the prompt strings and the messages printed on errors are not modelled. `_confirm_quit` is modelled only through its answer, which each quit or Ctrl+C event carries.
- NumberGuessing.NumberGuessingGame.Start, Begin, Prepare and NumberGuessing.StartLeavesTrackerIdle model start as evidently intended, without `time.time()` (games/base.py:36) and `_update_metrics()` (games/base.py:43). As written, games/base.py:1 imports the class `datetime.time`, which has no `time` attribute. Every call of start therefore raises AttributeError after the reset of score, attempts and is_running. It skips attaching the tracker, start_session, configure_difficulty, setup and run, so no game is played and no session row is written (the caller at utils/game_helper.py:81-99 reports the error). NumberGuessing.NumberGuessingGame.StartAsWritten models that path; see "## Findings". `_update_metrics` is defined nowhere, so with the import fixed, start with a tracker would next raise right after start_session, leaving that session open.
- run's own `except KeyboardInterrupt` (games/game1/game.py:104-107) is unreachable from input, because get_player_guess catches Ctrl+C itself. Running out of input (EOFError) is run's `except Exception`: the play ends Errored and stops as not completed.
- Guess timing is in hundredths of a second, a stand-in for `round(guess_time, 2)`. Session durations are whole seconds where the source uses float `total_seconds()`. Float rounding in calculate_score is replaced by exact arithmetic: Python's floats could differ by one at an exact truncation boundary.
- Random draws are a `roll` integer mapped into the range, and clocks are integer parameters.
- The end time of a session is the `now` argument. A non-negative duration is proved only for an end no earlier than the start, since a wall clock may be set back.
- The JSON encoding of session data and timestamps is not modelled. The game-session repository is a value (rows and an id counter), not a class, so aliasing between the tracker's session object and stored rows is not modelled.
- repositories/game_session.py's `find_by_id` and `_map_row_to_session` are not part of this model.
- password hashing and verification (bcrypt, with a random salt) are uninterpreted function parameters.
- `Session.get_current_user`, `set_current_user` and `clear` are reads and assignments of `Session.current`. auth/session.py does not define `set_current_user` or `clear`.
- The controller indexes User objects as dictionaries (`existing_user['id']`, `updated_user.items()`, `current_user.get`). The model treats the current user, the found user and the updated user as records with those fields.
- UserController.UpdateUserDetails and UserController.CollectChanges implement the corrected checks (name of at least 3 characters, address matching the User pattern and stored lower-case). The as-written checks are kept as `AsWritten` and used by the finding below.
- "No changes made" (repositories/user.py:101-102) and "No user was deleted" (repositories/user.py:134-135) cannot happen in the model: the row was found just before, and no other writer runs in between.
- The `print(existing_user)` debugging output and other printing in the repository are left out. Database failures other than a UNIQUE e-mail clash and a row that cannot be rebuilt are not modelled.
- Python's `int()` also accepts surrounding whitespace, Unicode digits and `_` digit separators. The model accepts ASCII digits with an optional sign and surrounding whitespace (Python's whitespace set, as `str.strip` uses). `str.lower` is modelled on ASCII letters only.
- pkgutil and importlib discovery is replaced by a sequence of module names with flags saying whether `up()` and `down()` are defined. Script contents and `execute_script` failures are not modelled. `_record_migration` and `_is_version_applied` are operations on the recorded-version map. The v1 module's `up(cursor)` signature mismatch with the call `up()` is not reproduced.
- The schema query error in `_get_current_version` is modelled as an absent set of versions.
- `from_db_row` (models/user.py:92-102) is covered only as the rebuilding of rows inside the repository's lookups.

## Findings

| source | as written | input that shows it | evidently intended | confidence | as-written member | corrected member |
|---|---|---|---|---|---|---|
| games/game1/game.py:173 | get_player_guess calls `self.log_attempt()`, which neither the game nor BaseGame defines. The AttributeError reaches run's `except Exception`, which stops the game as not completed after the first accepted guess. This is reached once start's own failure at games/base.py:36 is fixed. | Hard, secret 150, guesses 10, 20, 30, 150 | the loop goes on: a win on attempt 4 with 1600 points and the session closed as completed | not executed | GuessingPlay.AsWrittenNeverCompletes | GuessingPlay.PlayOutcome |
| games/base.py:36 | `from datetime import time` (games/base.py:1) binds the class datetime.time, so `time.time()` raises AttributeError on every call of start, right after the reset. No session is opened and configure_difficulty, setup and run never run. With a tracker, the undefined `_update_metrics()` at games/base.py:43 is the next failure. | any call of start, with or without a tracker | start opens the session, configures, draws the secret and plays; the tracker ends idle with one new row for the play | not executed | NumberGuessing.NumberGuessingGame.StartAsWritten | NumberGuessing.NumberGuessingGame.Start |
| controllers/user.py:131-135 | update_user_details accepts names of 2 characters and addresses that only contain '@' and '.'. The repository writes them, then rebuilds the row through the User model (3-character names, the e-mail pattern), which raises. This holds under the reading of the session user as a record (see "## Left out"); as written, `current_user['id']` at controllers/user.py:170 would already raise on the User object login_user stores. | update_user_details({"name": "Al"}) for a stored user | the controller applies the User model's checks, so an accepted update is written and reported as a success | not executed | UserController.ShortNameWrittenButReported | UserController.CorrectedUpdateSucceeds |
