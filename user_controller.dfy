/**
 * The profile operations of the user controller: update_user_details
 * validates the submitted fields in a fixed order, stopping at the first
 * failure, builds the changes, hands them to UserRepository.update and
 * refreshes the session's user on success; delete_current_user_account
 * checks the confirmation password, deletes the row and ends the session.
 * The session's current user is the account the lookups return; the
 * password hash and its check are parameters.
 */
module UserController {
  import opened Common
  import opened Users
  import opened UserRepository

  /** The global current-user holder. */
  class Session {
    var current: Option<Account>

    constructor (current: Option<Account>)
      ensures this.current == current
    {
      this.current := current;
    }
  }

  /** Why update_user_details refused before reaching the repository. */
  datatype Refusal =
    | NoSession
    | ShortName
    | BadEmail
    | EmailInUse
    | ShortPassword
    | PasswordsDiffer
    | NothingToChange

  /** How update_user_details ended. */
  datatype DetailsReply =
    | Refused(reason: Refusal)
    | Raised(error: UserError)          // the call raises: find_by_email could not rebuild the owner of the address
    | Repository(outcome: UpdateOutcome) // the repository's own (success, message)
    | ProfileUpdated

  /**
   * The checks the controller applies: the shortest name it takes and
   * whether the address must pass the User model's pattern (and is then
   * stored lower-case) or only contain '@' and '.' and be 5 long.
   */
  datatype Checks = Checks(nameMin: nat, strictEmail: bool)

  /** The checks as controllers/user.py writes them. */
  const AsWritten: Checks := Checks(2, false)

  /** The checks that agree with the User model the repository rebuilds rows with. */
  const Corrected: Checks := Checks(3, true)

  /**
   * The (success, message) pair update_user_details returns; None when it
   * raises instead (there is no try around find_by_email).
   */
  function DetailsMessage(c: Checks, r: DetailsReply): (m: Option<(bool, string)>)
    ensures m.None? <==> r.Raised?
    ensures m.Some? ==> (m.value.0 <==> r == ProfileUpdated || (r.Repository? && r.outcome.Updated?))
  {
    match r
    case Refused(NoSession) => Some((false, "No active user session found"))
    case Refused(ShortName) => Some((false, "Name must be at least " + Decimal(c.nameMin) + " characters long"))
    case Refused(BadEmail) => Some((false, "Please enter a valid email address"))
    case Refused(EmailInUse) => Some((false, "Email address is already in use by another account"))
    case Refused(ShortPassword) => Some((false, "Password must be at least 8 characters long"))
    case Refused(PasswordsDiffer) => Some((false, "Passwords do not match"))
    case Refused(NothingToChange) => Some((false, "No changes were made to your profile"))
    case Raised(_) => None
    case Repository(o) => Some((UpdateReply(o).0, UpdateReply(o).1))
    case ProfileUpdated => Some((true, "Your profile has been updated successfully"))
  }

  /** `key in user_data and user_data[key]`: present, not None and not empty. */
  predicate Given(data: map<string, Option<string>>, key: string)
  {
    key in data && data[key].Some? && data[key].value != []
  }

  /** The name step: nothing when no name is given, else the stripped name if long enough. */
  function NameStep(c: Checks, data: map<string, Option<string>>): (r: Result<Option<string>, Refusal>)
    ensures r.Err? ==> r.error == ShortName
    ensures r == Ok(None) <==> !Given(data, "name")
    ensures r.Ok? && r.value.Some? ==> |r.value.value| >= c.nameMin
    ensures Given(data, "name") ==>
      (r.Ok? <==> |Strip(data["name"].value)| >= c.nameMin) && (r.Ok? ==> r.value == Some(Strip(data["name"].value)))
  {
    if !Given(data, "name") then Ok(None)
    else
      var name := Strip(data["name"].value);
      if |name| < c.nameMin then Err(ShortName) else Ok(Some(name))
  }

  /** The shape check on the stripped address. */
  predicate EmailShape(c: Checks, e: string)
  {
    if c.strictEmail then EmailAccepted(e) else '@' in e && '.' in e && |e| >= 5
  }

  /**
   * The e-mail step: the stripped address must pass the shape check and
   * must not belong to another account (find_by_email, which raises when
   * it cannot rebuild the owner).
   */
  function EmailStep(c: Checks, data: map<string, Option<string>>, rows: seq<Row>, currentId: int): (r: Result<Option<string>, DetailsReply>)
    ensures r == Ok(None) <==> !Given(data, "email")
    ensures r.Err? ==> r.error in {Refused(BadEmail), Refused(EmailInUse)} || r.error.Raised?
    ensures Given(data, "email") ==> (var e := Strip(data["email"].value);
      (!EmailShape(c, e) ==> r == Err(Refused(BadEmail))) &&
      (EmailShape(c, e) && FindByEmail(rows, e).Err? ==> r == Err(Raised(FindByEmail(rows, e).error))) &&
      (r == Err(Refused(EmailInUse)) <==>
        EmailShape(c, e) && FindByEmail(rows, e).Ok? && FindByEmail(rows, e).value.Some? &&
        FindByEmail(rows, e).value.value.id != currentId) &&
      (r.Ok? ==> r.value == Some(if c.strictEmail then Lower(e) else e)))
  {
    if !Given(data, "email") then Ok(None)
    else
      var email := Strip(data["email"].value);
      if !EmailShape(c, email) then Err(Refused(BadEmail))
      else match FindByEmail(rows, email)
        case Err(e) => Err(Raised(e))
        case Ok(owner) =>
          if owner.Some? && owner.value.id != currentId then Err(Refused(EmailInUse))
          else Ok(Some(if c.strictEmail then Lower(email) else email))
  }

  /** The password step: at least 8 long, equal to confirm_password when that key is present, stored hashed. */
  function PasswordStep(data: map<string, Option<string>>, hash: string -> string): (r: Result<Option<string>, Refusal>)
    ensures r == Ok(None) <==> !Given(data, "password")
    ensures r.Err? <==> (Given(data, "password") &&
      (|data["password"].value| < 8 || ("confirm_password" in data && data["confirm_password"] != data["password"])))
    ensures r.Ok? && r.value.Some? ==> r.value.value == hash(data["password"].value)
  {
    if !Given(data, "password") then Ok(None)
    else
      var password := data["password"].value;
      if |password| < 8 then Err(ShortPassword)
      else if "confirm_password" in data && data["confirm_password"] != Some(password) then Err(PasswordsDiffer)
      else Ok(Some(hash(password)))
  }

  /** update_data[key] = value, when the step produced one. */
  function Put(m: map<string, Option<string>>, key: string, v: Option<string>): map<string, Option<string>>
  {
    if v.Some? then m[key := v] else m
  }

  /** `key` is in the changes exactly when the step produced a value, and holds that value. */
  predicate Carries(m: map<string, Option<string>>, key: string, v: Option<string>)
  {
    (key in m <==> v.Some?) && (key in m ==> m[key] == v)
  }

  /** The checks in the controller's order; the changes for the repository, or the first refusal. */
  function Validate(c: Checks, data: map<string, Option<string>>, rows: seq<Row>, currentId: int, hash: string -> string): (r: Result<map<string, Option<string>>, DetailsReply>)
    ensures r.Ok? ==> r.value != map[] && r.value.Keys <= {"name", "email", "password"}
    ensures r.Ok? ==> forall k :: k in r.value ==> r.value[k].Some?
    ensures NameStep(c, data).Err? ==> r == Err(Refused(ShortName))
    ensures r.Err? ==> (r.error.Refused? && r.error.reason != NoSession) || r.error.Raised?
  {
    match NameStep(c, data)
    case Err(e) => Err(Refused(e))
    case Ok(name) =>
      match EmailStep(c, data, rows, currentId)
      case Err(e) => Err(e)
      case Ok(email) =>
        match PasswordStep(data, hash)
        case Err(e) => Err(Refused(e))
        case Ok(password) =>
          var changes := Put(Put(Put(map[], "name", name), "email", email), "password", password);
          if changes == map[] then Err(Refused(NothingToChange)) else Ok(changes)
  }

  /**
   * The steps run in order and the first refusal is the answer; nothing
   * to change is refused exactly when no step produced a value; otherwise
   * each column holds what its step produced.
   */
  lemma ValidateSteps(c: Checks, data: map<string, Option<string>>, rows: seq<Row>, currentId: int, hash: string -> string)
    ensures var r := Validate(c, data, rows, currentId, hash);
      var name := NameStep(c, data);
      var email := EmailStep(c, data, rows, currentId);
      var password := PasswordStep(data, hash);
      && (name.Ok? && email.Err? ==> r == Err(email.error))
      && (name.Ok? && email.Ok? && password.Err? ==> r == Err(Refused(password.error)))
      && (r == Err(Refused(NothingToChange)) <==> name == Ok(None) && email == Ok(None) && password == Ok(None))
      && (r.Ok? ==> name.Ok? && email.Ok? && password.Ok?)
      && (r.Ok? ==> Carries(r.value, "name", name.value) && Carries(r.value, "email", email.value) &&
                    Carries(r.value, "password", password.value))
  {
    match NameStep(c, data)
    case Err(_) =>
    case Ok(name) =>
      match EmailStep(c, data, rows, currentId)
      case Err(_) =>
      case Ok(email) =>
        match PasswordStep(data, hash)
        case Err(_) =>
        case Ok(password) =>
          var changes := Put(Put(Put(map[], "name", name), "email", email), "password", password);
          PutCarries(map[], "name", name);
          PutCarries(Put(map[], "name", name), "email", email);
          PutCarries(Put(Put(map[], "name", name), "email", email), "password", password);
          if name.Some? || email.Some? || password.Some? {
            assert changes != map[];
          }
  }

  /** Put sets its own key as the step says and leaves the others alone. */
  lemma PutCarries(m: map<string, Option<string>>, key: string, v: Option<string>)
    requires key !in m
    ensures Carries(Put(m, key, v), key, v)
    ensures forall k :: k != key ==> (k in Put(m, key, v) <==> k in m) && (k in m ==> Put(m, key, v)[k] == m[k])
  {
  }

  /**
   * update_user_details: with no session, or when a check refuses,
   * nothing changes; otherwise the repository runs the update, and when
   * it returns the rebuilt user the session holds that user without its
   * password.
   */
  function DetailsSpec(c: Checks, current: Option<Account>, rows: seq<Row>, data: map<string, Option<string>>,
                       hash: string -> string): (r: (DetailsReply, seq<Row>, Option<Account>))
    ensures r.0 == Refused(NoSession) <==> current.None?
    ensures r.0.Refused? || r.0.Raised? ==> r.1 == rows && r.2 == current
    ensures r.2 != current ==> r.0 == ProfileUpdated && r.2.Some? && r.2.value.password.None?
  {
    if current.None? then (Refused(NoSession), rows, current)
    else match Validate(c, data, rows, current.value.id, hash)
      case Err(reply) => (reply, rows, current)
      case Ok(changes) =>
        var (o, after) := UpdateSpec(rows, current.value.id, changes);
        if o.Updated? && o.user.Some? then (ProfileUpdated, after, Some(o.user.value.(password := None)))
        else (Repository(o), after, current)
  }

  /**
   * A refusal changes nothing; validated changes go to the repository's
   * update; on success the table holds the changes written to the user's
   * row and the session holds that row as find_by_id rebuilds it, without
   * its password.
   */
  lemma DetailsOutcome(c: Checks, current: Option<Account>, rows: seq<Row>, data: map<string, Option<string>>,
                       hash: string -> string)
    ensures var r := DetailsSpec(c, current, rows, data, hash);
      current.Some? ==>
        var id := current.value.id;
        var v := Validate(c, data, rows, id, hash);
        && (v.Err? ==> r == (v.error, rows, current))
        && (v.Ok? ==> r.1 == UpdateSpec(rows, id, v.value).1)
        // The repository's reply decides: a returned user replaces the session, anything else is passed through.
        && (v.Ok? ==>
              var u := UpdateSpec(rows, id, v.value);
              && (r.0 == ProfileUpdated <==> u.0.Updated? && u.0.user.Some?)
              && (r.0 == ProfileUpdated ==> r.2 == Some(u.0.user.value.(password := None)))
              && (r.0 != ProfileUpdated ==> r.0 == Repository(u.0) && r.2 == current))
        && (r.0 == ProfileUpdated ==>
              v.Ok? && r.1 == UpdateRows(rows, id, Selected(v.value)) && FirstRow(r.1, ById(id)).Some? &&
              var row := FirstRow(r.1, ById(id)).value;
              r.2 == Some(Account(row.id, Strip(row.name), Lower(row.email), None, row.createdAt)))
  {
    if current.Some? {
      var id := current.value.id;
      match Validate(c, data, rows, id, hash)
      case Err(_) =>
      case Ok(changes) =>
        var (o, after) := UpdateSpec(rows, id, changes);
        if o.Updated? && o.user.Some? {
          assert FindById(after, id) == Ok(o.user);
        }
    }
  }

  /** The checks of update_user_details, corrected, building update_data step by step with early returns. */
  method CollectChanges(data: map<string, Option<string>>, rows: seq<Row>, id: int, hash: string -> string)
    returns (r: Result<map<string, Option<string>>, DetailsReply>)
    ensures r == Validate(Corrected, data, rows, id, hash)
  {
    var changes: map<string, Option<string>> := map[];
    if Given(data, "name") {
      var name := Strip(data["name"].value);
      if |name| < Corrected.nameMin {
        return Err(Refused(ShortName));
      }
      changes := changes["name" := Some(name)];
    }
    if Given(data, "email") {
      var email := Strip(data["email"].value);
      if !EmailAccepted(email) {
        return Err(Refused(BadEmail));
      }
      var owner := FindByEmail(rows, email);
      if owner.Err? {
        return Err(Raised(owner.error));
      }
      if owner.value.Some? && owner.value.value.id != id {
        return Err(Refused(EmailInUse));
      }
      changes := changes["email" := Some(Lower(email))];
    }
    if Given(data, "password") {
      var password := data["password"].value;
      if |password| < 8 {
        return Err(Refused(ShortPassword));
      }
      if "confirm_password" in data && data["confirm_password"] != Some(password) {
        return Err(Refused(PasswordsDiffer));
      }
      changes := changes["password" := Some(hash(password))];
    }
    if changes == map[] {
      return Err(Refused(NothingToChange));
    }
    r := Ok(changes);
  }

  /** update_user_details with the corrected checks. */
  method UpdateUserDetails(session: Session, table: UserTable, data: map<string, Option<string>>, hash: string -> string)
    returns (reply: DetailsReply)
    requires table.Valid()
    modifies session, table`rows
    ensures (reply, table.rows, session.current) == DetailsSpec(Corrected, old(session.current), old(table.rows), data, hash)
    ensures table.Valid()
  {
    var current := session.current;
    if current.None? {
      return Refused(NoSession);
    }
    var checked := CollectChanges(data, table.rows, current.value.id, hash);
    if checked.Err? {
      return checked.error;
    }
    var outcome := table.Update(current.value.id, checked.value);
    if outcome.Updated? && outcome.user.Some? {
      session.current := Some(outcome.user.value.(password := None));
      return ProfileUpdated;
    }
    reply := Repository(outcome);
  }

  /** How delete_current_user_account ended. */
  datatype AccountDeletion = NoActiveSession | WrongPassword | Removal(outcome: DeleteOutcome)

  /** The (success, message) pair delete_current_user_account returns. */
  function DeleteAccountMessage(r: AccountDeletion): (m: (bool, string))
    ensures m.0 <==> r == Removal(Deleted)
  {
    match r
    case NoActiveSession => (false, "No active user session found")
    case WrongPassword => (false, "Incorrect password. Account deletion cancelled.")
    case Removal(o) => DeleteReply(o)
  }

  /** current_user.get('password', ''): the stored hash, or the empty string. */
  function StoredHash(a: Account): string
  {
    if a.password.Some? then a.password.value else ""
  }

  /**
   * delete_current_user_account(confirm_password): a given confirmation
   * must verify against the stored hash; then the repository deletes the
   * row, and only a successful delete ends the session.
   */
  function DeleteAccountSpec(current: Option<Account>, rows: seq<Row>, confirm: Option<string>,
                             verify: (string, string) -> bool): (r: (AccountDeletion, seq<Row>, Option<Account>))
    ensures r.0 == NoActiveSession <==> current.None?
    ensures current.Some? && confirm.Some? && !verify(confirm.value, StoredHash(current.value)) ==>
      r == (WrongPassword, rows, current)
    ensures r.1 != rows || r.2 != current ==> r.0 == Removal(Deleted)
    ensures r.0 == Removal(Deleted) ==> r.2 == None && FirstRow(r.1, ById(current.value.id)).None?
    // No confirmation, or one that verifies: the repository's delete decides, and only its success ends the session.
    ensures current.Some? && (confirm.None? || verify(confirm.value, StoredHash(current.value))) ==>
      r.0 == Removal(DeleteSpec(rows, current.value.id).0) && r.1 == DeleteSpec(rows, current.value.id).1 &&
      (r.2 == None <==> r.0 == Removal(Deleted)) && (r.2 != None ==> r.2 == current)
  {
    if current.None? then (NoActiveSession, rows, current)
    else if confirm.Some? && !verify(confirm.value, StoredHash(current.value)) then (WrongPassword, rows, current)
    else
      var (o, after) := DeleteSpec(rows, current.value.id);
      (Removal(o), after, if o == Deleted then None else current)
  }

  method DeleteCurrentUserAccount(session: Session, table: UserTable, confirm: Option<string>, verify: (string, string) -> bool)
    returns (reply: AccountDeletion)
    requires table.Valid()
    modifies session, table`rows
    ensures (reply, table.rows, session.current) == DeleteAccountSpec(old(session.current), old(table.rows), confirm, verify)
    ensures table.Valid()
  {
    var current := session.current;
    if current.None? {
      return NoActiveSession;
    }
    if confirm.Some? {
      var isValid := verify(confirm.value, StoredHash(current.value));
      if !isValid {
        return WrongPassword;
      }
    }
    var outcome := table.Delete(current.value.id);
    if outcome == Deleted {
      session.current := None;
    }
    reply := Removal(outcome);
  }

  /** Every row holds what the User setters store, so every lookup can rebuild it. */
  ghost predicate AllStored(rows: seq<Row>)
  {
    forall i :: 0 <= i < |rows| ==> StoredRow(rows[i])
  }

  /** Two rows of a valid table with the same e-mail are the same row. */
  lemma SameEmailSameRow(rows: seq<Row>, nextId: int, x: Row, y: Row)
    requires TableValid(rows, nextId) && x in rows && y in rows && x.email == y.email
    ensures x == y
  {
    var i :| 0 <= i < |rows| && rows[i] == x;
    var j :| 0 <= j < |rows| && rows[j] == y;
  }

  /** What the corrected checks let through is what the setters would store, and an address no other row holds. */
  predicate ChangesStorable(changes: map<string, Option<string>>, rows: seq<Row>, id: int)
  {
    && ("name" in changes && changes["name"].Some? ==> StoredName(changes["name"].value))
    && ("email" in changes && changes["email"].Some? ==>
          var v := changes["email"].value;
          EmailAccepted(v) && Lower(v) == v && forall x :: x in rows && x.email == v ==> x.id == id)
  }

  /** An address the corrected e-mail step passes is stored as the setter would store it, and no other row holds it. */
  lemma CorrectedEmailStorable(data: map<string, Option<string>>, rows: seq<Row>, nextId: int, id: int)
    requires TableValid(rows, nextId)
    requires EmailStep(Corrected, data, rows, id).Ok? && EmailStep(Corrected, data, rows, id).value.Some?
    ensures var v := EmailStep(Corrected, data, rows, id).value.value;
      EmailAccepted(v) && Lower(v) == v && forall x :: x in rows && x.email == v ==> x.id == id
  {
    var e := Strip(data["email"].value);
    LowerKeepsAccepted(e);
    LowerIdempotent(e);
    var v := Lower(e);
    forall x | x in rows && x.email == v ensures x.id == id {
      var row := FirstRow(rows, ByEmail(v)).value;
      SameEmailSameRow(rows, nextId, x, row);
    }
  }

  lemma CorrectedChangesStorable(data: map<string, Option<string>>, rows: seq<Row>, nextId: int, id: int, hash: string -> string)
    requires TableValid(rows, nextId)
    requires Validate(Corrected, data, rows, id, hash).Ok?
    ensures ChangesStorable(Validate(Corrected, data, rows, id, hash).value, rows, id)
  {
    var name := NameStep(Corrected, data);
    if name.value.Some? {
      StoredNameAccepted(data["name"].value);
    }
    var email := EmailStep(Corrected, data, rows, id);
    if email.value.Some? {
      CorrectedEmailStorable(data, rows, nextId, id);
    }
  }

  /** A stored row rewritten with storable changes is still a stored row. */
  lemma AssignStorable(row: Row, changes: map<string, Option<string>>, rows: seq<Row>, id: int)
    requires StoredRow(row) && ChangesStorable(changes, rows, id)
    ensures StoredRow(Assign(row, Selected(changes)))
  {
    AssignSelected(row, changes);
  }

  /** Storable changes raise no UNIQUE clash. */
  lemma StorableNoClash(rows: seq<Row>, nextId: int, target: Row, changes: map<string, Option<string>>)
    requires TableValid(rows, nextId) && target in rows && ChangesStorable(changes, rows, target.id)
    ensures !EmailClash(rows, target, Selected(changes))
  {
    AssignSelected(target, changes);
    forall x | x in rows && x.id != target.id ensures x.email != Assign(target, Selected(changes)).email {
      if !("email" in changes && changes["email"].Some?) && x.email == target.email {
        SameEmailSameRow(rows, nextId, x, target);
      }
    }
  }

  /** The row update reads back is the first row with the id, rewritten. */
  lemma {:induction false} UpdatedRowFound(rows: seq<Row>, id: int, pairs: seq<(string, string)>)
    requires FirstRow(rows, ById(id)).Some?
    ensures FirstRow(UpdateRows(rows, id, pairs), ById(id)) == Some(Assign(FirstRow(rows, ById(id)).value, pairs))
  {
    var after := UpdateRows(rows, id, pairs);
    AssignKeepsId(rows[0], pairs);
    if rows[0].id != id {
      assert after[1..] == UpdateRows(rows[1..], id, pairs);
      UpdatedRowFound(rows[1..], id, pairs);
    }
  }

  /** Storable changes keep every row stored. */
  lemma UpdateKeepsStored(rows: seq<Row>, id: int, changes: map<string, Option<string>>)
    requires AllStored(rows) && ChangesStorable(changes, rows, id)
    ensures AllStored(UpdateRows(rows, id, Selected(changes)))
  {
    forall i | 0 <= i < |rows| ensures StoredRow(UpdateRows(rows, id, Selected(changes))[i]) {
      AssignStorable(rows[i], changes, rows, id);
    }
  }

  /** A non-empty change set names a column update writes. */
  lemma ChangesSelected(changes: map<string, Option<string>>)
    requires changes != map[] && changes.Keys <= {"name", "email", "password"}
    requires forall k :: k in changes ==> changes[k].Some?
    ensures Selected(changes) != []
  {
    var k :| k in changes;
    SelectedColumns(changes, k, changes[k].value);
  }

  /** Storable changes to a rebuildable row are written, read back and reported as updated. */
  lemma StorableUpdateSucceeds(rows: seq<Row>, nextId: int, id: int, changes: map<string, Option<string>>)
    requires TableValid(rows, nextId) && AllStored(rows) && FirstRow(rows, ById(id)).Some?
    requires changes != map[] && changes.Keys <= {"name", "email", "password"}
    requires forall k :: k in changes ==> changes[k].Some?
    requires ChangesStorable(changes, rows, id)
    ensures var r := UpdateSpec(rows, id, changes);
      r.0.Updated? && r.0.user.Some? && r.1 == UpdateRows(rows, id, Selected(changes)) && AllStored(r.1)
  {
    var target := FirstRow(rows, ById(id)).value;
    assert StoredRow(target) by {
      var i :| 0 <= i < |rows| && rows[i] == target;
    }
    RebuildStoredRow(target, None);
    ChangesSelected(changes);
    var pairs := Selected(changes);
    StorableNoClash(rows, nextId, target, changes);
    UpdatedRowFound(rows, id, pairs);
    AssignStorable(target, changes, rows, id);
    RebuildStoredRow(Assign(target, pairs), None);
    UpdateKeepsStored(rows, id, changes);
  }

  /**
   * With the corrected checks, every profile update the controller
   * accepts is written, read back and reported as a success, the session
   * then holds the user's row with the changes applied (without its
   * password), and the table still holds only rows the User model can
   * rebuild.
   */
  lemma CorrectedUpdateSucceeds(current: Account, rows: seq<Row>, nextId: int, data: map<string, Option<string>>, hash: string -> string)
    requires TableValid(rows, nextId) && AllStored(rows) && FirstRow(rows, ById(current.id)).Some?
    requires Validate(Corrected, data, rows, current.id, hash).Ok?
    ensures var r := DetailsSpec(Corrected, Some(current), rows, data, hash);
      var changes := Validate(Corrected, data, rows, current.id, hash).value;
      var row := Assign(FirstRow(rows, ById(current.id)).value, Selected(changes));
      && r.0 == ProfileUpdated && AllStored(r.1) && r.1 == UpdateRows(rows, current.id, Selected(changes))
      && FirstRow(r.1, ById(current.id)) == Some(row)
      && r.2 == Some(Account(row.id, row.name, row.email, None, row.createdAt))
  {
    var changes := Validate(Corrected, data, rows, current.id, hash).value;
    CorrectedChangesStorable(data, rows, nextId, current.id, hash);
    StorableUpdateSucceeds(rows, nextId, current.id, changes);
    var after := UpdateRows(rows, current.id, Selected(changes));
    UpdatedRowFound(rows, current.id, Selected(changes));
    var row := FirstRow(after, ById(current.id)).value;
    assert StoredRow(row) by {
      var i :| 0 <= i < |after| && after[i] == row;
    }
    RebuildStoredRow(row, None);
  }

  /**
   * A logged-in user whose row the User model can rebuild, asking with no
   * confirmation or one that verifies, loses exactly the rows with the
   * id, and the session ends.
   */
  lemma ConfirmedDeleteRemoves(current: Account, rows: seq<Row>, confirm: Option<string>, verify: (string, string) -> bool)
    requires AllStored(rows) && FirstRow(rows, ById(current.id)).Some?
    requires confirm.None? || verify(confirm.value, StoredHash(current))
    ensures var r := DeleteAccountSpec(Some(current), rows, confirm, verify);
      && r.0 == Removal(Deleted) && r.2 == None
      && (forall x :: x in r.1 <==> x in rows && x.id != current.id)
      && DeleteAccountMessage(r.0) == (true, "User deleted successfully")
  {
    var row := FirstRow(rows, ById(current.id)).value;
    assert StoredRow(row) by {
      var i :| 0 <= i < |rows| && rows[i] == row;
    }
    RebuildStoredRow(row, None);
  }

  /** The stripped two-letter name "Al" is two characters long. */
  lemma StripAl()
    ensures Strip("Al") == "Al" && !NameAccepted("Al")
  {
    StripUnchanged("Al");
  }

  /** As written, the controller passes the name "Al" on; corrected, it refuses it. */
  lemma ShortNameChecks(rows: seq<Row>, id: int, hash: string -> string)
    ensures var data := map["name" := Some("Al")];
      && Validate(AsWritten, data, rows, id, hash) == Ok(data)
      && Validate(Corrected, data, rows, id, hash) == Err(Refused(ShortName))
  {
    StripAl();
    var data := map["name" := Some("Al")];
    assert !Given(data, "email") && !Given(data, "password");
    assert NameStep(AsWritten, data) == Ok(Some("Al"));
    assert NameStep(Corrected, data) == Err(ShortName);
    assert EmailStep(AsWritten, data, rows, id) == Ok(None);
    assert PasswordStep(data, hash) == Ok(None);
    assert Put(Put(Put(map[], "name", Some("Al")), "email", None), "password", None) == data;
  }

  /** update writes only the name the data gives. */
  lemma NameOnlySelected()
    ensures Selected(map["name" := Some("Al")]) == [("name", "Al")]
  {
    var data := map["name" := Some("Al")];
    assert Fields[..1] == ["name"] && Fields[..2] == ["name", "email"] && Fields[..0] == [];
    assert SelectFrom(data, Fields[..1]) == [("name", "Al")];
    assert SelectFrom(data, Fields[..2]) == [("name", "Al")];
  }

  /** The repository writes "Al" over a stored row, then cannot rebuild the row it wrote, and reports a database error. */
  lemma ShortNameUpdateFails(row: Row)
    requires StoredRow(row)
    ensures UpdateSpec([row], row.id, map["name" := Some("Al")]) == (Failed(Invalid(NameTooShort)), [row.(name := "Al")])
  {
    RebuildStoredRow(row, None);
    NameOnlySelected();
    assert Assign(row, [("name", "Al")]) == row.(name := "Al");
    assert UpdateRows([row], row.id, [("name", "Al")]) == [row.(name := "Al")];
    assert !EmailClash([row], row, [("name", "Al")]);
    StripAl();
    assert Rebuild(row.(name := "Al"), None) == Err(NameTooShort);
    assert FindById([row], row.id).Ok?;
    assert FindById([row.(name := "Al")], row.id) == Err(NameTooShort);
    var data := map["name" := Some("Al")];
    var empty: map<string, Option<string>> := map[];
    assert "name" in data && "name" !in empty;
  }

  /**
   * update_user_details({"name": "Al"}) as written, for the owner of any
   * stored row: the row now holds "Al", a name the User model rejects,
   * while the caller is told the update failed and the session keeps the
   * old name.
   */
  lemma ShortNameWrittenButReported(row: Row, hash: string -> string)
    requires StoredRow(row)
    ensures var acc := Account(row.id, row.name, row.email, None, row.createdAt);
      var r := DetailsSpec(AsWritten, Some(acc), [row], map["name" := Some("Al")], hash);
      && r == (Repository(Failed(Invalid(NameTooShort))), [row.(name := "Al")], Some(acc))
      && AllStored([row]) && !AllStored(r.1)
  {
    ShortNameChecks([row], row.id, hash);
    ShortNameUpdateFails(row);
    StripAl();
    assert !StoredName("Al");
    assert !StoredRow([row.(name := "Al")][0]);
  }
}
