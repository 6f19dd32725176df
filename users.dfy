/**
 * The User entity: a name, an e-mail address and a password, each
 * guarded by its own validator, and the flag that says whether the
 * stored password is already a hash. The hash function is a parameter
 * (bcrypt with a random salt in the running system); a validation error
 * is returned as a message instead of being raised.
 */
module Users {
  import opened Common

  /** The ValidationError a setter raises. */
  datatype UserError = NameTooShort | InvalidEmail | PasswordTooShort

  /** The message each ValidationError carries. */
  function Message(e: UserError): string
  {
    match e
    case NameTooShort => "Name must be at least 3 characters long."
    case InvalidEmail => "Invalid email format."
    case PasswordTooShort => "Password must be at least 6 characters long"
  }

  /** The name setter's check: a non-empty value of at least 3 characters once stripped. */
  predicate NameAccepted(value: string)
  {
    value != [] && |Strip(value)| >= 3
  }

  /** What the name setter leaves in the field: at least 3 characters, with no whitespace at either end. */
  predicate StoredName(name: string)
  {
    |name| >= 3 && !IsSpace(name[0]) && !IsSpace(name[|name| - 1])
  }

  /** The setter stores an accepted name, and setting the stored name again accepts it and stores it unchanged. */
  lemma StoredNameAccepted(value: string)
    requires NameAccepted(value)
    ensures StoredName(Strip(value))
    ensures Strip(Strip(value)) == Strip(value) && NameAccepted(Strip(value))
  {
    StripEnds(value);
    StripUnchanged(Strip(value));
  }

  // The e-mail pattern ^[a-zA-Z0-9_.+-]+@[a-zA-Z0-9-]+\.[a-zA-Z0-9-.]+$, class by class.

  predicate Alnum(c: char)
  {
    'a' <= c <= 'z' || 'A' <= c <= 'Z' || '0' <= c <= '9'
  }

  /** [a-zA-Z0-9_.+-], the characters before the '@'. */
  predicate LocalChar(c: char)
  {
    Alnum(c) || c == '_' || c == '.' || c == '+' || c == '-'
  }

  /** [a-zA-Z0-9-], the characters between the '@' and the dot. */
  predicate DomainChar(c: char)
  {
    Alnum(c) || c == '-'
  }

  /** [a-zA-Z0-9-.], the characters after the dot. */
  predicate SuffixChar(c: char)
  {
    Alnum(c) || c == '-' || c == '.'
  }

  predicate AllLocal(s: string)
  {
    forall k :: 0 <= k < |s| ==> LocalChar(s[k])
  }

  predicate AllDomain(s: string)
  {
    forall k :: 0 <= k < |s| ==> DomainChar(s[k])
  }

  predicate AllSuffix(s: string)
  {
    forall k :: 0 <= k < |s| ==> SuffixChar(s[k])
  }

  /**
   * Whether all of t is local@domain.suffix. No class before the '@'
   * admits an '@' and the domain class admits no dot, so the '@' is the
   * first one and the dot the first one after it: a left-to-right scan
   * decides the match.
   */
  predicate Shaped(t: string)
  {
    var at := IndexOf(t, '@');
    && 0 < at < |t| && AllLocal(t[..at])
    && var rest := t[at + 1..];
    && var dot := IndexOf(rest, '.');
    && 0 < dot && dot + 1 < |rest| && AllDomain(rest[..dot]) && AllSuffix(rest[dot + 1..])
  }

  /** re.match of the pattern: `$` also matches just before one final newline. */
  predicate EmailMatches(s: string)
  {
    Shaped(s) || (|s| > 0 && s[|s| - 1] == '\n' && Shaped(s[..|s| - 1]))
  }

  /** The e-mail setter's check: a non-empty value the pattern matches. */
  predicate EmailAccepted(value: string)
  {
    value != [] && EmailMatches(value)
  }

  /** The pattern read declaratively: an '@' at a and a dot at d split t into the three classes. */
  ghost predicate SplitAt(t: string, a: int, d: int)
  {
    && 0 < a && a + 1 < d && d + 1 < |t| && t[a] == '@' && t[d] == '.'
    && AllLocal(t[..a]) && AllDomain(t[a + 1..d]) && AllSuffix(t[d + 1..])
  }

  ghost predicate FullMatch(t: string)
  {
    exists a, d :: SplitAt(t, a, d)
  }

  ghost predicate PatternMatches(s: string)
  {
    FullMatch(s) || (|s| > 0 && s[|s| - 1] == '\n' && FullMatch(s[..|s| - 1]))
  }

  /** The scan decides exactly the declarative reading of the pattern. */
  lemma ShapedIff(t: string)
    ensures Shaped(t) <==> FullMatch(t)
  {
    var at := IndexOf(t, '@');
    if Shaped(t) {
      var rest := t[at + 1..];
      var dot := IndexOf(rest, '.');
      assert t[at + 1..at + 1 + dot] == rest[..dot];
      assert t[at + 1 + dot + 1..] == rest[dot + 1..];
      assert SplitAt(t, at, at + 1 + dot);
    }
    if FullMatch(t) {
      var a, d :| SplitAt(t, a, d);
      forall j | 0 <= j < a ensures t[j] != '@' {
        assert LocalChar(t[..a][j]);
      }
      IndexOfIs(t, '@', a);
      var rest := t[a + 1..];
      var domain := t[a + 1..d];
      forall j | 0 <= j < d - a - 1 ensures rest[j] != '.' {
        assert DomainChar(domain[j]);
      }
      IndexOfIs(rest, '.', d - a - 1);
      assert rest[..d - a - 1] == domain;
      assert rest[d - a..] == t[d + 1..];
    }
  }

  /** The setter's matcher is re.match of the pattern. */
  lemma EmailMatchesIff(s: string)
    ensures EmailMatches(s) <==> PatternMatches(s)
  {
    ShapedIff(s);
    if |s| > 0 {
      ShapedIff(s[..|s| - 1]);
    }
  }

  /** A split string is accepted. */
  lemma SplitAccepted(t: string, a: int, d: int)
    requires SplitAt(t, a, d)
    ensures EmailAccepted(t)
  {
    ShapedIff(t);
  }

  /** A split string followed by one newline is accepted too. */
  lemma SplitAcceptedWithNewline(t: string, a: int, d: int)
    requires SplitAt(t, a, d)
    ensures EmailAccepted(t + ['\n'])
  {
    ShapedIff(t);
    var n := t + ['\n'];
    assert n[..|n| - 1] == t;
  }

  /** An accepted value is split, or split once its one final newline is dropped. */
  lemma AcceptedCases(s: string)
    requires EmailAccepted(s)
    ensures FullMatch(s) || (|s| > 0 && s[|s| - 1] == '\n' && FullMatch(s[..|s| - 1]))
  {
    ShapedIff(s);
    if |s| > 0 {
      ShapedIff(s[..|s| - 1]);
    }
  }

  /** Python's `$` lets one trailing newline through: the setter accepts "a@b.co\n"... */
  lemma TrailingNewlineAccepted()
    ensures EmailAccepted("a@b.co") && EmailAccepted("a@b.co\n")
  {
    var s := "a@b.co";
    assert SplitAt(s, 1, 3) by {
      assert s[..1] == "a" && s[2..3] == "b" && s[4..] == "co";
    }
    SplitAccepted(s, 1, 3);
    SplitAcceptedWithNewline(s, 1, 3);
    assert s + ['\n'] == "a@b.co\n";
  }

  /** ... but not two. */
  lemma TwoNewlinesRejected()
    ensures !EmailAccepted("a@b.co\n\n")
  {
    var s := "a@b.co\n\n";
    assert IndexOf(s, '@') == 1 && s[2..] == "b.co\n\n" && IndexOf("b.co\n\n", '.') == 1;
    assert "b.co\n\n"[2..][2] == '\n';
    var t := s[..7];
    assert t == "a@b.co\n";
    assert IndexOf(t, '@') == 1 && t[2..] == "b.co\n" && IndexOf("b.co\n", '.') == 1;
    assert "b.co\n"[2..][2] == '\n';
  }

  lemma {:induction false} CountNone(s: string, c: char)
    requires forall k :: 0 <= k < |s| ==> s[k] != c
    ensures Count(s, c) == 0
  {
    CountAbsent(s, c);
  }

  /** t split as SplitAt says holds exactly one '@', and a dot after it. */
  lemma SplitHasOneAt(t: string, a: int, d: int)
    requires SplitAt(t, a, d)
    ensures Count(t, '@') == 1 && IndexOf(t, '@') == a < d && t[d] == '.'
  {
    var pre, post := t[..a], t[a + 1..];
    forall k | 0 <= k < |pre| ensures pre[k] != '@' {
      assert LocalChar(pre[k]);
    }
    IndexOfIs(t, '@', a);
    var domain, suffix := t[a + 1..d], t[d + 1..];
    forall k | 0 <= k < |post| ensures post[k] != '@' {
      if k < |domain| {
        assert DomainChar(domain[k]) && post[k] == domain[k];
      } else if k > |domain| {
        assert SuffixChar(suffix[k - |domain| - 1]) && post[k] == suffix[k - |domain| - 1];
      }
    }
    CountNone(pre, '@');
    CountNone(post, '@');
    assert t == pre + [t[a]] + post;
    CountAppend(pre + [t[a]], post, '@');
    CountAppend(pre, [t[a]], '@');
    assert Count([t[a]], '@') == 1 by {
      assert [t[a]][1..] == [];
    }
  }

  /** The same holds with the newline Python's `$` lets through. */
  lemma SplitWithNewline(s: string, a: int, d: int)
    requires |s| > 0 && s[|s| - 1] == '\n' && SplitAt(s[..|s| - 1], a, d)
    ensures Count(s, '@') == 1 && IndexOf(s, '@') == a < d && s[d] == '.'
  {
    var t := s[..|s| - 1];
    assert s == t + ['\n'];
    SplitHasOneAt(t, a, d);
    CountAppend(t, ['\n'], '@');
    assert Count(['\n'], '@') == 0 by {
      assert ['\n'][1..] == [];
    }
    forall k | 0 <= k < a ensures s[k] != '@' {
      assert LocalChar(t[..a][k]);
    }
    IndexOfIs(s, '@', a);
  }

  /** Every accepted e-mail contains exactly one '@', followed somewhere by a '.'. */
  lemma AcceptedEmailShape(s: string)
    requires EmailAccepted(s)
    ensures Count(s, '@') == 1
    ensures exists d :: IndexOf(s, '@') < d < |s| && s[d] == '.'
  {
    AcceptedCases(s);
    if FullMatch(s) {
      var a, d :| SplitAt(s, a, d);
      SplitHasOneAt(s, a, d);
      assert IndexOf(s, '@') < d < |s| && s[d] == '.';
    } else {
      var a, d :| SplitAt(s[..|s| - 1], a, d);
      SplitWithNewline(s, a, d);
      assert IndexOf(s, '@') < d < |s| && s[d] == '.';
    }
  }

  /** Lower-casing an accepted e-mail keeps it accepted: every class holds both cases of each letter. */
  lemma LowerKeepsSplit(t: string, a: int, d: int)
    requires SplitAt(t, a, d)
    ensures SplitAt(Lower(t), a, d)
  {
    var l := Lower(t);
    forall k | 0 <= k < a ensures LocalChar(l[..a][k]) {
      assert t[..a][k] == t[k];
    }
    var domain, suffix := l[a + 1..d], l[d + 1..];
    forall k | 0 <= k < |domain| ensures DomainChar(domain[k]) {
      assert t[a + 1..d][k] == t[a + 1 + k];
    }
    forall k | 0 <= k < |suffix| ensures SuffixChar(suffix[k]) {
      assert t[d + 1..][k] == t[d + 1 + k];
    }
  }

  /** The newline lower-cases to itself. */
  lemma LowerDropsNewline(s: string)
    requires |s| > 0 && s[|s| - 1] == '\n'
    ensures Lower(s) == Lower(s[..|s| - 1]) + ['\n']
  {
    assert LowerChar('\n') == '\n';
  }

  lemma LowerKeepsAccepted(s: string)
    requires EmailAccepted(s)
    ensures EmailAccepted(Lower(s))
  {
    AcceptedCases(s);
    if FullMatch(s) {
      var a, d :| SplitAt(s, a, d);
      LowerKeepsSplit(s, a, d);
      SplitAccepted(Lower(s), a, d);
    } else {
      var t := s[..|s| - 1];
      var a, d :| SplitAt(t, a, d);
      LowerKeepsSplit(t, a, d);
      LowerDropsNewline(s);
      SplitAcceptedWithNewline(Lower(t), a, d);
    }
  }

  /** The password setter's check on an unhashed value: present, non-empty and at least 6 characters. */
  predicate PasswordAccepted(value: Option<string>)
  {
    value.Some? && value.value != [] && |value.value| >= 6
  }

  /** The first check User(...) fails, in the order the constructor runs them; None when all pass. */
  function CreateError(name: string, email: string, password: Option<string>, passwordIsHashed: bool): (e: Option<UserError>)
    ensures e.None? <==> NameAccepted(name) && EmailAccepted(email) && (passwordIsHashed || PasswordAccepted(password))
    ensures e == Some(NameTooShort) <==> !NameAccepted(name)
    ensures e == Some(InvalidEmail) <==> NameAccepted(name) && !EmailAccepted(email)
    ensures e == Some(PasswordTooShort) <==> NameAccepted(name) && EmailAccepted(email) && !passwordIsHashed && !PasswordAccepted(password)
  {
    if !NameAccepted(name) then Some(NameTooShort)
    else if !EmailAccepted(email) then Some(InvalidEmail)
    else if !passwordIsHashed && !PasswordAccepted(password) then Some(PasswordTooShort)
    else None
  }

  /** What the constructor leaves in the password field once every check has passed. */
  function StoredPassword(password: Option<string>, passwordIsHashed: bool, hash: string -> string): Option<string>
  {
    if passwordIsHashed || password.None? then password else Some(hash(password.value))
  }

  function OptInt(o: Option<int>): Datum
  {
    if o.Some? then Int(o.value) else Null
  }

  function OptStr(o: Option<string>): Datum
  {
    if o.Some? then Str(o.value) else Null
  }

  class User {
    var id: Option<int>
    var name: string
    var email: string
    var password: Option<string>
    var passwordIsHashed: bool
    const createdAt: int

    /** The state before the setters run: no name, e-mail or password yet. */
    constructor Blank(id: Option<int>, createdAt: int, passwordIsHashed: bool)
      ensures this.id == id && this.createdAt == createdAt && this.passwordIsHashed == passwordIsHashed
      ensures name == [] && email == [] && password.None?
    {
      this.id := id;
      this.name := [];
      this.email := [];
      this.password := None;
      this.passwordIsHashed := passwordIsHashed;
      this.createdAt := createdAt;
    }

    /** The name setter: stores the stripped value, or rejects it and keeps the old name. */
    method SetName(value: string) returns (err: Option<UserError>)
      modifies this`name
      ensures NameAccepted(value) ==> err.None? && name == Strip(value)
      ensures !NameAccepted(value) ==> err == Some(NameTooShort) && name == old(name)
    {
      if value == [] || |Strip(value)| < 3 {
        return Some(NameTooShort);
      }
      name := Strip(value);
      err := None;
    }

    /** The e-mail setter: stores the value lower-cased, or rejects it and keeps the old address. */
    method SetEmail(value: string) returns (err: Option<UserError>)
      modifies this`email
      ensures EmailAccepted(value) ==> err.None? && email == Lower(value)
      ensures !EmailAccepted(value) ==> err == Some(InvalidEmail) && email == old(email)
    {
      if value == [] || !EmailMatches(value) {
        return Some(InvalidEmail);
      }
      email := Lower(value);
      err := None;
    }

    /**
     * The password setter. Once the stored password is a hash, any later
     * value is stored verbatim, unchecked; otherwise the value must pass
     * the length check, is stored hashed and the flag is set.
     */
    method SetPassword(value: Option<string>, hash: string -> string) returns (err: Option<UserError>)
      modifies this`password, this`passwordIsHashed
      ensures old(passwordIsHashed) ==> err.None? && password == value && passwordIsHashed
      ensures !old(passwordIsHashed) && PasswordAccepted(value) ==>
        err.None? && password == Some(hash(value.value)) && passwordIsHashed
      ensures !old(passwordIsHashed) && !PasswordAccepted(value) ==>
        err == Some(PasswordTooShort) && password == old(password) && !passwordIsHashed
    {
      if passwordIsHashed {
        password := value;
        return None;
      }
      if value.None? || value.value == [] || |value.value| < 6 {
        return Some(PasswordTooShort);
      }
      password := Some(hash(value.value));
      passwordIsHashed := true;
      err := None;
    }

    /** to_dict: exactly the five keys, each holding the field's value. */
    function ToDict(): (d: map<string, Datum>)
      reads this
      ensures d.Keys == {"id", "name", "email", "password", "created_at"}
      ensures d["id"] == OptInt(id) && d["name"] == Str(name) && d["email"] == Str(email)
      ensures d["password"] == OptStr(password) && d["created_at"] == Int(createdAt)
    {
      map["id" := OptInt(id), "name" := Str(name), "email" := Str(email),
          "password" := OptStr(password), "created_at" := Int(createdAt)]
    }
  }

  /**
   * User(name, email, password, id, created_at, password_is_hashed): runs
   * the name, then the e-mail setter, then stores the password verbatim
   * when it is already hashed or through the password setter otherwise;
   * the first failing check is the error. created_at defaults to now.
   */
  method Create(name: string, email: string, password: Option<string>, id: Option<int>, createdAt: Option<int>,
                passwordIsHashed: bool, now: int, hash: string -> string) returns (r: Result<User, UserError>)
    ensures r.Err? <==> CreateError(name, email, password, passwordIsHashed).Some?
    ensures r.Err? ==> r.error == CreateError(name, email, password, passwordIsHashed).value
    ensures r.Ok? ==> && fresh(r.value) && r.value.passwordIsHashed
                      && r.value.id == id && r.value.name == Strip(name) && r.value.email == Lower(email)
                      && r.value.password == StoredPassword(password, passwordIsHashed, hash)
                      && r.value.createdAt == (if createdAt.Some? then createdAt.value else now)
  {
    var u := new User.Blank(id, if createdAt.Some? then createdAt.value else now, passwordIsHashed);
    ghost var expected := CreateError(name, email, password, passwordIsHashed);
    var err := u.SetName(name);
    if err.Some? {
      assert expected == Some(NameTooShort);
      return Err(err.value);
    }
    assert NameAccepted(name) && u.name == Strip(name);
    err := u.SetEmail(email);
    if err.Some? {
      assert expected == Some(InvalidEmail);
      return Err(err.value);
    }
    assert EmailAccepted(email) && u.email == Lower(email);
    if passwordIsHashed {
      u.password := password;
    } else {
      err := u.SetPassword(password, hash);
      if err.Some? {
        assert expected == Some(PasswordTooShort);
        return Err(err.value);
      }
    }
    assert expected.None?;
    return Ok(u);
  }

  /**
   * What a successful construction stores passes the setters' checks
   * again and is stored unchanged by them: the name is stripped and at
   * least 3 characters long, the e-mail is accepted and already
   * lower-case.
   */
  lemma ConstructedUserValid(name: string, email: string, password: Option<string>, passwordIsHashed: bool)
    requires CreateError(name, email, password, passwordIsHashed).None?
    ensures StoredName(Strip(name))
    ensures Strip(Strip(name)) == Strip(name) && NameAccepted(Strip(name))
    ensures EmailAccepted(Lower(email)) && Lower(Lower(email)) == Lower(email)
  {
    StoredNameAccepted(name);
    LowerKeepsAccepted(email);
    LowerIdempotent(email);
  }
}
