/**
 * UserRepository over the users table. The table is a class whose rows
 * the statements rewrite; each statement is proved against a pure
 * function of the old rows. The schema's constraints are kept: ids are
 * AUTOINCREMENT (never reused), e-mail is UNIQUE, password is NOT NULL,
 * created_at defaults to the current time. Lookups rebuild a User from a
 * row through the constructor with password_is_hashed set, so a stored
 * name or e-mail that the setters reject raises.
 */
module UserRepository {
  import opened Common
  import opened Users

  /** A row of the users table. */
  datatype Row = Row(id: int, name: string, email: string, password: string, createdAt: int)

  /** A User rebuilt from a row; password is None where the query did not select it. */
  datatype Account = Account(id: int, name: string, email: string, password: Option<string>, createdAt: int)

  /** The WHERE clause of a single-row lookup: `id = ?` or `email = ?` (an exact comparison). */
  datatype Where = ById(id: int) | ByEmail(email: string)

  predicate Matches(row: Row, w: Where)
  {
    match w
    case ById(id) => row.id == id
    case ByEmail(email) => row.email == email
  }

  /** The row `SELECT ... WHERE <w>` returns first. */
  function FirstRow(rows: seq<Row>, w: Where): (r: Option<Row>)
    ensures r.Some? ==> r.value in rows && Matches(r.value, w)
    ensures r.None? <==> forall x :: x in rows ==> !Matches(x, w)
  {
    if rows == [] then None
    else if Matches(rows[0], w) then Some(rows[0])
    else FirstRow(rows[1..], w)
  }

  /** `SELECT COUNT(*) FROM users WHERE email = ?`. */
  function EmailCount(rows: seq<Row>, email: string): (n: nat)
    ensures n <= |rows|
  {
    if rows == [] then 0
    else (if rows[0].email == email then 1 else 0) + EmailCount(rows[1..], email)
  }

  /** User(id=.., name=.., email=.., password=.., created_at=.., password_is_hashed=True) on a row. */
  function Rebuild(row: Row, password: Option<string>): Result<Account, UserError>
  {
    match CreateError(row.name, row.email, password, true)
    case Some(e) => Err(e)
    case None => Ok(Account(row.id, Strip(row.name), Lower(row.email), password, row.createdAt))
  }

  /** A name and e-mail as the setters store them: stripped, accepted, lower-case. */
  predicate StoredRow(row: Row)
  {
    StoredName(row.name) && EmailAccepted(row.email) && Lower(row.email) == row.email
  }

  /** A row holding what the setters store is rebuilt as it is. */
  lemma RebuildStoredRow(row: Row, password: Option<string>)
    requires StoredRow(row)
    ensures Rebuild(row, password) == Ok(Account(row.id, row.name, row.email, password, row.createdAt))
  {
    StripStored(row.name);
  }

  /** Stripping a stored name gives it back. */
  lemma StripStored(name: string)
    requires StoredName(name)
    ensures Strip(name) == name && NameAccepted(name)
  {
    assert StripLeft(name) == name;
  }

  /** find_by_id: the row's User without its password, None when no row has the id. */
  function FindById(rows: seq<Row>, id: int): (r: Result<Option<Account>, UserError>)
    ensures r == Ok(None) <==> FirstRow(rows, ById(id)).None?
  {
    match FirstRow(rows, ById(id))
    case None => Ok(None)
    case Some(row) =>
      match Rebuild(row, None)
      case Err(e) => Err(e)
      case Ok(a) => Ok(Some(a))
  }

  /** find_by_email: the lookup is by the lower-cased address, and returns the stored hash. */
  function FindByEmail(rows: seq<Row>, email: string): (r: Result<Option<Account>, UserError>)
    ensures r == Ok(None) <==> forall x :: x in rows ==> x.email != Lower(email)
  {
    match FirstRow(rows, ByEmail(Lower(email)))
    case None => Ok(None)
    case Some(row) =>
      match Rebuild(row, Some(row.password))
      case Err(e) => Err(e)
      case Ok(a) => Ok(Some(a))
  }

  /** email_exists: COUNT(*) > 0 for the lower-cased address. */
  predicate EmailExists(rows: seq<Row>, email: string)
  {
    EmailCount(rows, Lower(email)) > 0
  }

  /** The count and the first-row lookup agree: an address exists exactly when a row carries it. */
  lemma {:induction false} EmailCountPositive(rows: seq<Row>, email: string)
    ensures EmailCount(rows, email) > 0 <==> FirstRow(rows, ByEmail(email)).Some?
  {
    if rows != [] {
      EmailCountPositive(rows[1..], email);
    }
  }

  /** email_exists and find_by_email look at the same rows: one finds a row exactly when the other counts one. */
  lemma EmailExistsIff(rows: seq<Row>, email: string)
    ensures EmailExists(rows, email) <==> FindByEmail(rows, email) != Ok(None)
  {
    EmailCountPositive(rows, Lower(email));
  }

  /** Both lookups ignore the case of the address they are given. */
  lemma LookupIgnoresCase(rows: seq<Row>, email: string)
    ensures EmailExists(rows, email) == EmailExists(rows, Lower(email))
    ensures FindByEmail(rows, email) == FindByEmail(rows, Lower(email))
  {
    LowerIdempotent(email);
  }

  lemma {:induction false} EmailCountAppend(rows: seq<Row>, row: Row, email: string)
    ensures EmailCount(rows + [row], email) == EmailCount(rows, email) + (if row.email == email then 1 else 0)
  {
    if rows != [] {
      assert (rows + [row])[1..] == rows[1..] + [row];
      EmailCountAppend(rows[1..], row, email);
    }
  }

  /**
   * What save needs to insert: no row counted for the lower-cased address,
   * a password for the NOT NULL column and no row holding the exact
   * address (the UNIQUE column).
   */
  predicate Insertable(rows: seq<Row>, email: string, password: Option<string>)
  {
    !EmailExists(rows, email) && password.Some? && FirstRow(rows, ByEmail(email)).None?
  }

  /** Once an address is saved lower-case, every later save of it, in any case, is refused. */
  lemma SavedEmailRefused(rows: seq<Row>, row: Row, email: string, password: Option<string>)
    requires row.email == Lower(email)
    ensures !Insertable(rows + [row], email, password)
  {
    EmailCountAppend(rows, row, Lower(email));
  }

  /** save(user): true when inserted; the user then carries its new id. */
  function SaveSpec(rows: seq<Row>, nextId: int, name: string, email: string, password: Option<string>, now: int): (r: (bool, seq<Row>))
    ensures r.0 <==> Insertable(rows, email, password)
    ensures r.0 ==> r.1 == rows + [Row(nextId, name, email, password.value, now)]
    ensures !r.0 ==> r.1 == rows
  {
    if Insertable(rows, email, password) then (true, rows + [Row(nextId, name, email, password.value, now)])
    else (false, rows)
  }

  /** The columns update may set, in the order it considers them. */
  const Fields: seq<string> := ["name", "email", "password"]

  /** The (column, value) pairs of data that update writes: the given fields present with a value, in their order. */
  function SelectFrom(data: map<string, Option<string>>, fields: seq<string>): (r: seq<(string, string)>)
    ensures |r| <= |fields|
  {
    if fields == [] then []
    else
      var f := fields[|fields| - 1];
      SelectFrom(data, fields[..|fields| - 1]) + (if f in data && data[f].Some? then [(f, data[f].value)] else [])
  }

  function Selected(data: map<string, Option<string>>): seq<(string, string)>
  {
    SelectFrom(data, Fields)
  }

  /** A pair is selected exactly when its column is one of the fields and data maps it to that value. */
  lemma {:induction false} SelectFromIff(data: map<string, Option<string>>, fields: seq<string>, f: string, v: string)
    ensures (f, v) in SelectFrom(data, fields) <==> f in fields && f in data && data[f] == Some(v)
  {
    if fields != [] {
      var init := fields[..|fields| - 1];
      SelectFromIff(data, init, f, v);
      assert fields == init + [fields[|fields| - 1]];
    }
  }

  /** Position of a column in Fields. */
  function Rank(f: string): int
  {
    if f == "name" then 0 else if f == "email" then 1 else 2
  }

  /** The columns of pairs rank below k, in increasing order. */
  predicate RankedBelow(pairs: seq<(string, string)>, k: int)
  {
    forall i :: 0 <= i < |pairs| ==> Rank(pairs[i].0) < k && (i > 0 ==> Rank(pairs[i - 1].0) < Rank(pairs[i].0))
  }

  /** The selected columns keep the order of Fields. */
  lemma {:induction false} SelectFromOrdered(data: map<string, Option<string>>, k: nat)
    requires k <= |Fields|
    ensures RankedBelow(SelectFrom(data, Fields[..k]), k)
  {
    if k > 0 {
      SelectFromOrdered(data, k - 1);
      var pre := Fields[..k];
      assert pre[..k - 1] == Fields[..k - 1];
      var f := pre[k - 1];
      assert Rank(f) == k - 1 by {
        assert Fields[0] == "name" && Fields[1] == "email" && Fields[2] == "password";
      }
      var prev := SelectFrom(data, Fields[..k - 1]);
      assert RankedBelow(prev, k - 1);
      var r := SelectFrom(data, pre);
      assert r == prev + (if f in data && data[f].Some? then [(f, data[f].value)] else []);
      forall i | 0 <= i < |r| ensures Rank(r[i].0) < k && (i > 0 ==> Rank(r[i - 1].0) < Rank(r[i].0)) {
        if i < |prev| {
          assert r[i] == prev[i];
          assert Rank(prev[i].0) < k - 1;
          if i > 0 {
            assert r[i - 1] == prev[i - 1];
            assert Rank(prev[i - 1].0) < Rank(prev[i].0);
          }
        } else {
          assert i == |prev|;
          assert r[i] == (f, data[f].value);
          assert Rank(r[i].0) == k - 1;
          if i > 0 {
            assert r[i - 1] == prev[i - 1];
            assert Rank(prev[i - 1].0) < k - 1;
          }
        }
      }
    }
  }

  /** The columns update writes are exactly name, email, password where given a value, in that order; other keys play no part. */
  lemma SelectedColumns(data: map<string, Option<string>>, f: string, v: string)
    ensures (f, v) in Selected(data) <==> (f == "name" || f == "email" || f == "password") && f in data && data[f] == Some(v)
    ensures RankedBelow(Selected(data), |Fields|)
  {
    SelectFromIff(data, Fields, f, v);
    SelectFromOrdered(data, |Fields|);
    assert Fields[..|Fields|] == Fields;
  }

  /** Keys outside Fields do not change what update writes. */
  lemma {:induction false} OtherKeysIgnored(data: map<string, Option<string>>, fields: seq<string>, k: string, v: Option<string>)
    requires k !in fields
    ensures SelectFrom(data[k := v], fields) == SelectFrom(data, fields)
  {
    if fields != [] {
      OtherKeysIgnored(data, fields[..|fields| - 1], k, v);
    }
  }

  /** The SET-clause parts, `f = ?` for each selected column. */
  function Clause(pairs: seq<(string, string)>): (r: seq<string>)
    ensures |r| == |pairs|
  {
    if pairs == [] then [] else Clause(pairs[..|pairs| - 1]) + [pairs[|pairs| - 1].0 + " = ?"]
  }

  /** The parameters bound to the parts, in the same order. */
  function Values(pairs: seq<(string, string)>): (r: seq<Datum>)
    ensures |r| == |pairs|
  {
    if pairs == [] then [] else Values(pairs[..|pairs| - 1]) + [Str(pairs[|pairs| - 1].1)]
  }

  /** Python's sep.join(parts). */
  function Join(parts: seq<string>, sep: string): string
  {
    if parts == [] then []
    else if |parts| == 1 then parts[0]
    else Join(parts[..|parts| - 1], sep) + sep + parts[|parts| - 1]
  }

  /** The statement update executes. */
  function UpdateSql(parts: seq<string>): string
  {
    "UPDATE users SET " + Join(parts, ", ") + " WHERE id = " + "?"
  }

  /**
   * The loop of update: walks the fields in order and appends a part and
   * a parameter for each one data gives a value.
   */
  method BuildSet(data: map<string, Option<string>>) returns (parts: seq<string>, params: seq<Datum>)
    ensures parts == Clause(Selected(data)) && params == Values(Selected(data))
  {
    parts, params := [], [];
    for i := 0 to |Fields|
      invariant parts == Clause(SelectFrom(data, Fields[..i]))
      invariant params == Values(SelectFrom(data, Fields[..i]))
    {
      var field := Fields[i];
      assert Fields[..i + 1][..i] == Fields[..i];
      if field in data && data[field].Some? {
        parts := parts + [field + " = ?"];
        params := params + [Str(data[field].value)];
      }
    }
    assert Fields[..|Fields|] == Fields;
  }

  lemma {:induction false} JoinCount(parts: seq<string>, sep: string, c: char)
    requires forall i :: 0 <= i < |parts| ==> Count(parts[i], c) == 1
    requires Count(sep, c) == 0
    ensures Count(Join(parts, sep), c) == |parts|
  {
    if |parts| == 1 {
    } else if |parts| > 1 {
      var init := parts[..|parts| - 1];
      JoinCount(init, sep, c);
      CountAppend(Join(init, sep) + sep, parts[|parts| - 1], c);
      CountAppend(Join(init, sep), sep, c);
    }
  }

  /** A column name with no placeholder in it gives a part with exactly one. */
  lemma PartCount(f: string)
    requires Count(f, '?') == 0
    ensures Count(f + " = ?", '?') == 1
  {
    CountAppend(f, " = ?", '?');
  }

  /** Every part of the clause holds one placeholder. */
  lemma {:induction false} ClauseCounts(pairs: seq<(string, string)>)
    requires forall i :: 0 <= i < |pairs| ==> Count(pairs[i].0, '?') == 0
    ensures forall i :: 0 <= i < |pairs| ==> Count(Clause(pairs)[i], '?') == 1
  {
    if pairs != [] {
      var init := pairs[..|pairs| - 1];
      ClauseCounts(init);
      PartCount(pairs[|pairs| - 1].0);
      var parts := Clause(pairs);
      assert parts == Clause(init) + [pairs[|pairs| - 1].0 + " = ?"];
      forall i | 0 <= i < |parts| ensures Count(parts[i], '?') == 1 {
        if i < |init| {
          assert parts[i] == Clause(init)[i];
        }
      }
    }
  }

  lemma HeadCount()
    ensures Count("UPDATE users SET ", '?') == 0
  {
    CountAbsent("UPDATE users SET ", '?');
  }

  lemma WhereCount()
    ensures Count(" WHERE id = ", '?') == 0
  {
    CountAbsent(" WHERE id = ", '?');
  }

  lemma MarkCount()
    ensures Count("?", '?') == 1
  {
    assert "?"[1..] == [];
  }

  /** The statement adds the id's placeholder to those of the parts. */
  lemma SqlCount(parts: seq<string>)
    requires Count(Join(parts, ", "), '?') == |parts|
    ensures Count(UpdateSql(parts), '?') == |parts| + 1
  {
    var joined := Join(parts, ", ");
    HeadCount();
    CountAppend("UPDATE users SET ", joined, '?');
    var head := "UPDATE users SET " + joined;
    WhereCount();
    CountAppend(head, " WHERE id = ", '?');
    MarkCount();
    CountAppend(head + " WHERE id = ", "?", '?');
  }

  /**
   * The statement has as many placeholders as parameters: one per
   * selected column and one for the id appended after them.
   */
  lemma PlaceholdersMatchParams(data: map<string, Option<string>>, userId: int)
    ensures Count(UpdateSql(Clause(Selected(data))), '?') == |Values(Selected(data)) + [Int(userId)]|
  {
    var pairs := Selected(data);
    assert Count("name", '?') == 0 && Count("email", '?') == 0 && Count("password", '?') == 0;
    forall i | 0 <= i < |pairs| ensures Count(pairs[i].0, '?') == 0 {
      assert pairs[i] in pairs;
      SelectFromIff(data, Fields, pairs[i].0, pairs[i].1);
    }
    ClauseCounts(pairs);
    assert Count(", ", '?') == 0;
    JoinCount(Clause(pairs), ", ", '?');
    SqlCount(Clause(pairs));
  }

  /** One row after `SET f = ?, ...`: each pair writes its column, the rest of the row stays. */
  function Assign(row: Row, pairs: seq<(string, string)>): Row
  {
    if pairs == [] then row
    else
      var r := Assign(row, pairs[..|pairs| - 1]);
      var (f, v) := pairs[|pairs| - 1];
      if f == "name" then r.(name := v)
      else if f == "email" then r.(email := v)
      else if f == "password" then r.(password := v)
      else r
  }

  /** The value a column holds after the write: the one data gives it, or the old one. */
  function NewValue(data: map<string, Option<string>>, fields: seq<string>, f: string, old_: string): string
  {
    if f in fields && f in data && data[f].Some? then data[f].value else old_
  }

  /** Each of the given columns ends holding the value data gives it, or its old value; id and created_at never change. */
  lemma {:induction false} AssignSelectFrom(row: Row, data: map<string, Option<string>>, fields: seq<string>)
    ensures var r := Assign(row, SelectFrom(data, fields));
      && r.id == row.id && r.createdAt == row.createdAt
      && r.name == NewValue(data, fields, "name", row.name)
      && r.email == NewValue(data, fields, "email", row.email)
      && r.password == NewValue(data, fields, "password", row.password)
  {
    if fields != [] {
      var init := fields[..|fields| - 1];
      var f := fields[|fields| - 1];
      assert fields == init + [f];
      AssignSelectFrom(row, data, init);
      var prev := SelectFrom(data, init);
      assert ("name" in fields) == ("name" in init || f == "name");
      assert ("email" in fields) == ("email" in init || f == "email");
      assert ("password" in fields) == ("password" in init || f == "password");
      if f in data && data[f].Some? {
        var pairs := prev + [(f, data[f].value)];
        assert SelectFrom(data, fields) == pairs;
        assert pairs[..|pairs| - 1] == prev;
      } else {
        assert SelectFrom(data, fields) == prev;
      }
    }
  }

  /** After update, each of name, email and password holds the value data gives it, or its old value. */
  lemma AssignSelected(row: Row, data: map<string, Option<string>>)
    ensures var r := Assign(row, Selected(data));
      && r.id == row.id && r.createdAt == row.createdAt
      && r.name == (if "name" in data && data["name"].Some? then data["name"].value else row.name)
      && r.email == (if "email" in data && data["email"].Some? then data["email"].value else row.email)
      && r.password == (if "password" in data && data["password"].Some? then data["password"].value else row.password)
  {
    AssignSelectFrom(row, data, Fields);
    assert "name" in Fields && "email" in Fields && "password" in Fields;
  }

  /** The rows after `UPDATE users SET ... WHERE id = ?`. */
  function UpdateRows(rows: seq<Row>, id: int, pairs: seq<(string, string)>): (r: seq<Row>)
    ensures |r| == |rows|
  {
    seq(|rows|, i requires 0 <= i < |rows| => if rows[i].id == id then Assign(rows[i], pairs) else rows[i])
  }

  /** Whether the written row would carry another row's e-mail (the UNIQUE constraint). */
  predicate EmailClash(rows: seq<Row>, target: Row, pairs: seq<(string, string)>)
  {
    exists x :: x in rows && x.id != target.id && x.email == Assign(target, pairs).email
  }

  /** Why a statement raised: a setter rejected a stored value, or the UNIQUE e-mail constraint. */
  datatype DbError = Invalid(cause: UserError) | UniqueEmail

  /** str(e) of the exception. */
  function DbMessage(e: DbError): string
  {
    match e
    case Invalid(cause) => Message(cause)
    case UniqueEmail => "UNIQUE constraint failed: users.email"
  }

  /** How update ended. */
  datatype UpdateOutcome =
    | NoData
    | NotFound(id: int)
    | NoValidFields
    | Failed(error: DbError)
    | Updated(user: Option<Account>)

  /** The (success, message, user_data) triple update returns. */
  function UpdateReply(o: UpdateOutcome): (bool, string, Option<Account>)
  {
    match o
    case NoData => (false, "No data provided for update", None)
    case NotFound(id) => (false, "User with ID " + Decimal(id) + " not found", None)
    case NoValidFields => (false, "No valid fields to update", None)
    case Failed(e) => (false, "Database error: " + DbMessage(e), None)
    case Updated(user) => (true, "User updated successfully", user)
  }

  /**
   * update(user_id, data): refuses empty data, an unknown id and data
   * without a value for any column before writing; a UNIQUE clash aborts
   * the statement; after the write, the row is read back through
   * find_by_id, whose failure is reported as a database error although
   * the row has been written.
   */
  function UpdateSpec(rows: seq<Row>, id: int, data: map<string, Option<string>>): (r: (UpdateOutcome, seq<Row>))
    ensures r.0 == NoData <==> data == map[]
    ensures r.0 == NotFound(id) <==> data != map[] && FirstRow(rows, ById(id)).None?
    ensures data != map[] && FindById(rows, id).Err? ==> r == (Failed(Invalid(FindById(rows, id).error)), rows)
    ensures r.0 == NoValidFields <==>
      data != map[] && FindById(rows, id).Ok? && FirstRow(rows, ById(id)).Some? && Selected(data) == []
    ensures r.0 == Failed(UniqueEmail) <==>
      data != map[] && FindById(rows, id).Ok? && FirstRow(rows, ById(id)).Some? && Selected(data) != [] &&
      EmailClash(rows, FirstRow(rows, ById(id)).value, Selected(data))
    ensures r.0 == NoData || r.0.NotFound? || r.0 == NoValidFields || r.0 == Failed(UniqueEmail) ==> r.1 == rows
    ensures r.0.Updated? || r.1 != rows ==>
      FirstRow(rows, ById(id)).Some? && Selected(data) != [] && r.1 == UpdateRows(rows, id, Selected(data))
    // A found row, some column to set and no clash: the write happens, and the reply is what find_by_id reads back.
    ensures data != map[] && FindById(rows, id).Ok? && FirstRow(rows, ById(id)).Some? && Selected(data) != [] &&
            !EmailClash(rows, FirstRow(rows, ById(id)).value, Selected(data)) ==>
      r.1 == UpdateRows(rows, id, Selected(data)) &&
      (FindById(r.1, id).Ok? ==> r.0 == Updated(FindById(r.1, id).value)) &&
      (FindById(r.1, id).Err? ==> r.0 == Failed(Invalid(FindById(r.1, id).error)))
  {
    if data == map[] then (NoData, rows)
    else match FindById(rows, id)
      case Err(e) => (Failed(Invalid(e)), rows)
      case Ok(None) => (NotFound(id), rows)
      case Ok(Some(_)) =>
        var pairs := Selected(data);
        if pairs == [] then (NoValidFields, rows)
        else if EmailClash(rows, FirstRow(rows, ById(id)).value, pairs) then (Failed(UniqueEmail), rows)
        else
          var after := UpdateRows(rows, id, pairs);
          match FindById(after, id)
          case Err(e) => (Failed(Invalid(e)), after)
          case Ok(a) => (Updated(a), after)
  }

  /** The rows left after `DELETE FROM users WHERE id = ?`. */
  function Without(rows: seq<Row>, id: int): (r: seq<Row>)
    ensures forall x :: x in r <==> x in rows && x.id != id
    ensures |r| <= |rows|
  {
    if rows == [] then []
    else (if rows[0].id == id then [] else [rows[0]]) + Without(rows[1..], id)
  }

  /** How delete ended. */
  datatype DeleteOutcome = DeleteNotFound(id: int) | DeleteFailed(error: UserError) | Deleted

  /** The (success, message) pair delete returns. */
  function DeleteReply(o: DeleteOutcome): (bool, string)
  {
    match o
    case DeleteNotFound(id) => (false, "User with ID " + Decimal(id) + " not found")
    case DeleteFailed(e) => (false, "Database error during deletion: " + Message(e))
    case Deleted => (true, "User deleted successfully")
  }

  /** delete(user_id): looks the user up first, then removes its row. */
  function DeleteSpec(rows: seq<Row>, id: int): (r: (DeleteOutcome, seq<Row>))
    ensures r.0 == DeleteNotFound(id) <==> FirstRow(rows, ById(id)).None?
    ensures FindById(rows, id).Err? ==> r.0 == DeleteFailed(FindById(rows, id).error)
    ensures r.0 == Deleted <==> FindById(rows, id).Ok? && FirstRow(rows, ById(id)).Some?
    ensures r.0 == Deleted ==> FirstRow(r.1, ById(id)).None? && forall x :: x in r.1 <==> x in rows && x.id != id
    ensures r.0 != Deleted ==> r.1 == rows
  {
    match FindById(rows, id)
    case Err(e) => (DeleteFailed(e), rows)
    case Ok(None) => (DeleteNotFound(id), rows)
    case Ok(Some(_)) => (Deleted, Without(rows, id))
  }

  /**
   * The table's constraints: ids ascend in insertion order below the
   * AUTOINCREMENT counter, and no two rows share an e-mail.
   */
  ghost predicate TableValid(rows: seq<Row>, nextId: int)
  {
    && nextId >= 1
    && (forall i :: 0 <= i < |rows| ==> 1 <= rows[i].id < nextId)
    && (forall i, j :: 0 <= i < j < |rows| ==> rows[i].id < rows[j].id)
    && (forall i, j :: 0 <= i < j < |rows| ==> rows[i].email != rows[j].email)
  }

  class UserTable {
    var rows: seq<Row>
    var nextId: int

    ghost predicate Valid()
      reads this
    {
      TableValid(rows, nextId)
    }

    constructor ()
      ensures rows == [] && nextId == 1 && Valid()
    {
      rows := [];
      nextId := 1;
    }

    /**
     * save(user): refuses an address email_exists counts; otherwise
     * inserts name, email and password (the NOT NULL and UNIQUE
     * constraints refuse a missing password or an exact duplicate),
     * with created_at the current time, and gives the user its id.
     */
    method Save(u: User, now: int) returns (ok: bool)
      requires Valid()
      modifies this, u`id
      ensures (ok, rows) == SaveSpec(old(rows), old(nextId), u.name, u.email, u.password, now)
      ensures ok ==> u.id == Some(old(nextId)) && nextId == old(nextId) + 1
      ensures !ok ==> u.id == old(u.id) && nextId == old(nextId)
      ensures Valid()
    {
      if EmailCount(rows, Lower(u.email)) > 0 {
        return false;
      }
      if u.password.None? || FirstRow(rows, ByEmail(u.email)).Some? {
        return false;
      }
      AppendKeepsValid(rows, nextId, Row(nextId, u.name, u.email, u.password.value, now));
      rows := rows + [Row(nextId, u.name, u.email, u.password.value, now)];
      u.id := Some(nextId);
      nextId := nextId + 1;
      ok := true;
    }

    method Update(userId: int, data: map<string, Option<string>>) returns (o: UpdateOutcome)
      requires Valid()
      modifies this`rows
      ensures (o, rows) == UpdateSpec(old(rows), userId, data)
      ensures Valid()
    {
      if data == map[] {
        return NoData;
      }
      var existing := FindById(rows, userId);
      if existing.Err? {
        return Failed(Invalid(existing.error));
      }
      if existing.value.None? {
        return NotFound(userId);
      }
      var parts, params := BuildSet(data);
      if parts == [] {
        return NoValidFields;
      }
      var sql := UpdateSql(parts);
      params := params + [Int(userId)];
      var target := FirstRow(rows, ById(userId)).value;
      if EmailClash(rows, target, Selected(data)) {
        return Failed(UniqueEmail);
      }
      UpdateKeepsValid(rows, nextId, target, Selected(data));
      rows := UpdateRows(rows, userId, Selected(data));
      var updated := FindById(rows, userId);
      if updated.Err? {
        return Failed(Invalid(updated.error));
      }
      o := Updated(updated.value);
    }

    method Delete(userId: int) returns (o: DeleteOutcome)
      requires Valid()
      modifies this`rows
      ensures (o, rows) == DeleteSpec(old(rows), userId)
      ensures Valid()
    {
      var existing := FindById(rows, userId);
      if existing.Err? {
        return DeleteFailed(existing.error);
      }
      if existing.value.None? {
        return DeleteNotFound(userId);
      }
      WithoutKeepsValid(rows, nextId, userId);
      rows := Without(rows, userId);
      o := Deleted;
    }
  }

  /** A write that raises no UNIQUE clash keeps the table's constraints. */
  lemma UpdateKeepsValid(rows: seq<Row>, nextId: int, target: Row, pairs: seq<(string, string)>)
    requires TableValid(rows, nextId) && target in rows && !EmailClash(rows, target, pairs)
    ensures TableValid(UpdateRows(rows, target.id, pairs), nextId)
  {
    var after := UpdateRows(rows, target.id, pairs);
    forall i | 0 <= i < |rows| ensures after[i].id == rows[i].id && (rows[i].id == target.id ==> rows[i] == target) {
      AssignKeepsId(rows[i], pairs);
    }
    forall i, j | 0 <= i < j < |rows| ensures after[i].email != after[j].email {
      if rows[i].id == target.id {
        assert rows[j] in rows;
      } else if rows[j].id == target.id {
        assert rows[i] in rows;
      }
    }
  }

  lemma {:induction false} AssignKeepsId(row: Row, pairs: seq<(string, string)>)
    ensures Assign(row, pairs).id == row.id && Assign(row, pairs).createdAt == row.createdAt
  {
    if pairs != [] {
      AssignKeepsId(row, pairs[..|pairs| - 1]);
    }
  }

  /** Inserting a row with the next id and a new e-mail keeps the table's constraints. */
  lemma AppendKeepsValid(rows: seq<Row>, nextId: int, row: Row)
    requires TableValid(rows, nextId) && row.id == nextId && nextId >= 1 && FirstRow(rows, ByEmail(row.email)).None?
    ensures TableValid(rows + [row], nextId + 1)
  {
    forall i | 0 <= i < |rows| ensures rows[i].email != row.email {
      assert rows[i] in rows;
    }
  }

  /** Deleting rows keeps the table's constraints. */
  lemma {:induction false} WithoutKeepsValid(rows: seq<Row>, nextId: int, id: int)
    requires TableValid(rows, nextId)
    ensures TableValid(Without(rows, id), nextId)
  {
    if rows != [] {
      var rest := rows[1..];
      assert TableValid(rest, nextId) by {
        forall i | 0 <= i < |rest| ensures rest[i] == rows[i + 1] { }
      }
      WithoutKeepsValid(rest, nextId, id);
      if rows[0].id != id {
        PrependKeepsValid(rows[0], Without(rest, id), rest, nextId);
      } else {
        assert Without(rows, id) == Without(rest, id);
      }
    }
  }

  /** A row placed before rows drawn from a later part of a valid table keeps it valid. */
  lemma PrependKeepsValid(head: Row, w: seq<Row>, rest: seq<Row>, nextId: int)
    requires TableValid([head] + rest, nextId) && TableValid(w, nextId)
    requires forall x :: x in w ==> x in rest
    ensures TableValid([head] + w, nextId)
  {
    var all := [head] + rest;
    var r := [head] + w;
    forall i | 0 <= i < |r| ensures 1 <= r[i].id < nextId {
      if i > 0 {
        assert r[i] == w[i - 1];
      }
    }
    forall j | 0 < j < |r| ensures head.id < r[j].id && head.email != r[j].email {
      assert r[j] == w[j - 1] && w[j - 1] in rest;
      var p :| 0 <= p < |rest| && rest[p] == w[j - 1];
      assert all[p + 1] == rest[p] && all[0] == head;
    }
    forall i, j | 0 <= i < j < |r| ensures r[i].id < r[j].id && r[i].email != r[j].email {
      if i > 0 {
        assert r[i] == w[i - 1] && r[j] == w[j - 1];
      }
    }
  }
}
