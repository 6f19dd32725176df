/**
 * The migration manager (db/migration.py): reading the current schema
 * version, discovering the versioned migration modules, and choosing
 * which of them to apply on an upgrade or to roll back on a downgrade.
 *
 * The database is reduced to what the manager reads and writes: the
 * schema_migrations table (version, its primary key, to module name) and
 * the sequence of migration scripts executed against it.
 */
module Migrations {
  import opened Common

  /** A module of the migrations package: its name and whether it defines a callable up() and down(). */
  datatype MigrationModule = MigrationModule(name: string, hasUp: bool, hasDown: bool)

  /** A discovered migration: the version its name declares and the module. */
  datatype Migration = Migration(version: int, source: MigrationModule)

  datatype Direction = Up | Down

  /** One migration script executed against the database. */
  datatype ScriptRun = ScriptRun(version: int, name: string, direction: Direction)

  /** What migrate reads and changes: the schema_migrations rows and the scripts run, oldest first. */
  datatype Schema = Schema(recorded: map<int, string>, scripts: seq<ScriptRun>)

  /** migrate always executes v0_initialize's up() first; it does not record it. */
  const InitializeRun := ScriptRun(0, "v0_initialize", Up)

  // ---------------------------------------------------------------------
  // Version numbers in module names
  // ---------------------------------------------------------------------

  predicate IsDigit(c: char)
  {
    '0' <= c <= '9'
  }

  predicate AllDigits(s: string)
  {
    forall k :: 0 <= k < |s| ==> IsDigit(s[k])
  }

  /** The value of a string of decimal digits, most significant first. */
  function DigitsValue(s: string): (r: nat)
    requires AllDigits(s)
  {
    if s == [] then 0 else DigitsValue(s[..|s| - 1]) * 10 + (s[|s| - 1] as int - '0' as int)
  }

  /** int() of a string already stripped: an optional sign, then at least one ASCII digit. */
  function ParseSigned(t: string): Option<int>
  {
    var signed := |t| > 0 && (t[0] == '+' || t[0] == '-');
    var body := if signed then t[1..] else t;
    if body == [] || !AllDigits(body) then None
    else if signed && t[0] == '-' then Some(-(DigitsValue(body) as int))
    else Some(DigitsValue(body))
  }

  /**
   * Python's int() on a string without '_': surrounding whitespace, an
   * optional sign and at least one ASCII digit; anything else raises
   * ValueError, here None.
   */
  function ParseInt(s: string): Option<int>
  {
    ParseSigned(Strip(s))
  }

  /** Reading back the decimal digits of n gives n. */
  lemma {:induction false} DigitsRoundTrip(n: nat)
    ensures AllDigits(Digits(n)) && DigitsValue(Digits(n)) == n
  {
    if n >= 10 {
      DigitsRoundTrip(n / 10);
      var d := Digits(n);
      assert d[..|d| - 1] == Digits(n / 10);
    }
  }

  /** str(n) has no surrounding whitespace. */
  lemma {:induction false} DecimalStripped(n: int)
    ensures Strip(Decimal(n)) == Decimal(n)
  {
    var s := Decimal(n);
    if n < 0 {
      DigitsRoundTrip(-n);
      var d := Digits(-n);
      assert s[|s| - 1] == d[|d| - 1];
      assert IsDigit(s[|s| - 1]);
    } else {
      DigitsRoundTrip(n);
      assert IsDigit(s[0]) && IsDigit(s[|s| - 1]);
    }
    StripUnchanged(s);
  }

  lemma {:induction false} ParseUnsigned(d: string)
    requires d != [] && AllDigits(d)
    ensures ParseSigned(d) == Some(DigitsValue(d) as int)
  {
    assert IsDigit(d[0]);
  }

  lemma {:induction false} ParseNegative(d: string)
    requires d != [] && AllDigits(d)
    ensures ParseSigned("-" + d) == Some(-(DigitsValue(d) as int))
  {
    assert ("-" + d)[1..] == d;
  }

  lemma {:induction false} SignedDecimal(n: int)
    ensures ParseSigned(Decimal(n)) == Some(n)
  {
    if n < 0 {
      DigitsRoundTrip(-n);
      ParseNegative(Digits(-n));
    } else {
      DigitsRoundTrip(n);
      ParseUnsigned(Digits(n));
    }
  }

  /** int(str(n)) == n. */
  lemma {:induction false} ParseDecimal(n: int)
    ensures ParseInt(Decimal(n)) == Some(n)
  {
    DecimalStripped(n);
    SignedDecimal(n);
  }

  /**
   * The version a module's name declares, or None when discovery skips
   * it: the name must start with 'v' and contain '_', and the text
   * between the 'v' and the first '_' must be an integer.
   */
  function VersionOf(name: string): (r: Option<int>)
    ensures r.Some? ==> |name| > 0 && name[0] == 'v' && '_' in name
  {
    if |name| > 0 && name[0] == 'v' && '_' in name then ParseInt(name[1..IndexOf(name, '_')]) else None
  }

  /** The name is 'v', a text without '_' that int() reads as v, '_', then anything. */
  ghost predicate Declares(name: string, mid: string, rest: string, v: int)
  {
    name == "v" + mid + "_" + rest && '_' !in mid && ParseInt(mid) == Some(v)
  }

  /** A name starting with 'v' and holding a '_' splits at its first '_'. */
  lemma {:induction false} NameSplit(name: string)
    requires |name| > 0 && name[0] == 'v' && '_' in name
    ensures var u := IndexOf(name, '_');
      && 1 <= u < |name|
      && name == "v" + name[1..u] + "_" + name[u + 1..]
      && '_' !in name[1..u]
  {
    IndexOfPresent(name, '_');
    var u := IndexOf(name, '_');
    var mid := name[1..u];
    assert name == "v" + mid + "_" + name[u + 1..];
    forall k | 0 <= k < |mid|
      ensures mid[k] != '_'
    {
      IndexOfFirst(name, '_', k + 1);
    }
  }

  /** In v<mid>_<rest> with no '_' in mid, the first '_' closes mid. */
  lemma {:induction false} NameParts(name: string, mid: string, rest: string)
    requires name == "v" + mid + "_" + rest && '_' !in mid
    ensures |name| > 0 && name[0] == 'v' && '_' in name
    ensures IndexOf(name, '_') == 1 + |mid| && name[1..IndexOf(name, '_')] == mid
  {
    assert name[1 + |mid|] == '_';
    forall j | 0 <= j < 1 + |mid|
      ensures name[j] != '_'
    {
      if j > 0 {
        assert name[j] == mid[j - 1];
      }
    }
    IndexOfIs(name, '_', 1 + |mid|);
    assert name[1..1 + |mid|] == mid;
  }

  /** VersionOf reads exactly the names of the form v<int>_<description>. */
  lemma {:induction false} VersionOfIff(name: string, v: int)
    ensures VersionOf(name) == Some(v) <==> exists mid, rest :: Declares(name, mid, rest, v)
  {
    if VersionOf(name) == Some(v) {
      NameSplit(name);
      var u := IndexOf(name, '_');
      assert Declares(name, name[1..u], name[u + 1..], v);
    }
    if exists mid, rest :: Declares(name, mid, rest, v) {
      var mid, rest :| Declares(name, mid, rest, v);
      NameParts(name, mid, rest);
    }
  }

  lemma {:induction false} DecimalHasNoUnderscore(n: int)
    ensures '_' !in Decimal(n)
  {
    var s := Decimal(n);
    if n < 0 {
      DigitsRoundTrip(-n);
      forall k | 0 <= k < |s|
        ensures s[k] != '_'
      {
        if k > 0 {
          assert s[k] == Digits(-n)[k - 1];
        }
      }
    } else {
      DigitsRoundTrip(n);
      assert forall k :: 0 <= k < |s| ==> IsDigit(s[k]);
    }
  }

  /** A module named v<n>_<description> declares version n, whatever the description. */
  lemma {:induction false} ConventionalName(n: int, description: string)
    ensures VersionOf("v" + Decimal(n) + "_" + description) == Some(n)
  {
    ParseDecimal(n);
    DecimalHasNoUnderscore(n);
    NameParts("v" + Decimal(n) + "_" + description, Decimal(n), description);
  }

  // ---------------------------------------------------------------------
  // Discovery and ordering
  // ---------------------------------------------------------------------

  /** The discovery loop: the listed modules that declare a version, in listing order. */
  function Discovered(modules: seq<MigrationModule>): (r: seq<Migration>)
    ensures |r| <= |modules|
    ensures forall m :: m in r ==> m.source in modules && VersionOf(m.source.name) == Some(m.version)
  {
    if modules == [] then []
    else
      var last := modules[|modules| - 1];
      var v := VersionOf(last.name);
      assert forall x :: x in modules[..|modules| - 1] ==> x in modules;
      Discovered(modules[..|modules| - 1]) + (if v.Some? then [Migration(v.value, last)] else [])
  }

  /** Every listed module that declares a version is discovered. */
  lemma {:induction false} DiscoveredIncludes(modules: seq<MigrationModule>, i: int)
    requires 0 <= i < |modules| && VersionOf(modules[i].name).Some?
    ensures Migration(VersionOf(modules[i].name).value, modules[i]) in Discovered(modules)
  {
    if i < |modules| - 1 {
      DiscoveredIncludes(modules[..|modules| - 1], i);
    }
  }

  /** The sort key of sorted(..., key=version, reverse=descending). */
  function Key(m: Migration, descending: bool): int
  {
    if descending then -m.version else m.version
  }

  /** Puts x before the first element whose key is not smaller, so x stays ahead of equal keys. */
  function Insert(x: Migration, s: seq<Migration>, descending: bool): (r: seq<Migration>)
    ensures multiset(r) == multiset(s) + multiset{x}
  {
    if s == [] || Key(x, descending) <= Key(s[0], descending) then [x] + s
    else
      assert s == [s[0]] + s[1..];
      [s[0]] + Insert(x, s[1..], descending)
  }

  /** Python's stable sorted(migrations, key=version, reverse=descending). */
  function SortByVersion(s: seq<Migration>, descending: bool): (r: seq<Migration>)
    ensures multiset(r) == multiset(s)
  {
    if s == [] then []
    else
      assert s == [s[0]] + s[1..];
      Insert(s[0], SortByVersion(s[1..], descending), descending)
  }

  predicate Sorted(s: seq<Migration>, descending: bool)
  {
    forall i, j :: 0 <= i < j < |s| ==> Key(s[i], descending) <= Key(s[j], descending)
  }

  /** The migrations of s that have version v, in their order in s. */
  function WithVersion(s: seq<Migration>, v: int): (r: seq<Migration>)
    ensures |r| <= |s|
  {
    if s == [] then [] else (if s[0].version == v then [s[0]] else []) + WithVersion(s[1..], v)
  }

  lemma {:induction false} InsertSorted(x: Migration, s: seq<Migration>, descending: bool)
    requires Sorted(s, descending)
    ensures Sorted(Insert(x, s, descending), descending)
  {
    if s != [] && Key(s[0], descending) < Key(x, descending) {
      InsertSorted(x, s[1..], descending);
      var r := Insert(x, s[1..], descending);
      forall j | 0 <= j < |r|
        ensures Key(s[0], descending) <= Key(r[j], descending)
      {
        assert r[j] in multiset(r);
        assert r[j] == x || r[j] in s[1..];
      }
    }
  }

  /** sorted() orders by version: ascending, or descending when reversed. */
  lemma {:induction false} SortSorted(s: seq<Migration>, descending: bool)
    ensures Sorted(SortByVersion(s, descending), descending)
  {
    if s != [] {
      SortSorted(s[1..], descending);
      InsertSorted(s[0], SortByVersion(s[1..], descending), descending);
    }
  }

  lemma {:induction false} InsertStable(x: Migration, s: seq<Migration>, descending: bool, v: int)
    ensures WithVersion(Insert(x, s, descending), v) == WithVersion([x] + s, v)
  {
    if s == [] || Key(x, descending) <= Key(s[0], descending) {
    } else {
      var r := Insert(x, s, descending);
      assert r[1..] == Insert(x, s[1..], descending);
      InsertStable(x, s[1..], descending, v);
      assert ([x] + s[1..])[1..] == s[1..];
      assert ([x] + s)[1..] == s;
      assert s[0].version != x.version;
    }
  }

  /**
   * sorted() is stable: for every version, the migrations with that
   * version keep their relative order, in both directions.
   */
  lemma {:induction false} SortStable(s: seq<Migration>, descending: bool, v: int)
    ensures WithVersion(SortByVersion(s, descending), v) == WithVersion(s, v)
  {
    if s != [] {
      SortStable(s[1..], descending, v);
      InsertStable(s[0], SortByVersion(s[1..], descending), descending, v);
    }
  }

  /** The discovered migrations sorted by version, the result of _get_migration_modules. */
  function MigrationList(modules: seq<MigrationModule>): seq<Migration>
  {
    SortByVersion(Discovered(modules), false)
  }

  /** The default target: the last migration's version, or 0 when there are none. */
  function DefaultTarget(migrations: seq<Migration>): int
  {
    if migrations == [] then 0 else migrations[|migrations| - 1].version
  }

  /** Sorting keeps exactly the elements it was given. */
  lemma {:induction false} SortedMembers(s: seq<Migration>, descending: bool, m: Migration)
    ensures m in SortByVersion(s, descending) <==> m in s
  {
    assert m in SortByVersion(s, descending) <==> m in multiset(s);
  }

  /** In a list sorted ascending no version exceeds the last one. */
  lemma {:induction false} LastIsHighest(ms: seq<Migration>, m: Migration)
    requires Sorted(ms, false) && m in ms
    ensures m.version <= DefaultTarget(ms)
  {
    var k :| 0 <= k < |ms| && ms[k] == m;
    if k < |ms| - 1 {
      assert Key(ms[k], false) <= Key(ms[|ms| - 1], false);
    }
  }

  lemma {:induction false} DefaultTargetAbove(modules: seq<MigrationModule>, i: int)
    requires 0 <= i < |modules| && VersionOf(modules[i].name).Some?
    ensures VersionOf(modules[i].name).value <= DefaultTarget(MigrationList(modules))
  {
    var found := Discovered(modules);
    var m := Migration(VersionOf(modules[i].name).value, modules[i]);
    DiscoveredIncludes(modules, i);
    SortedMembers(found, false, m);
    SortSorted(found, false);
    LastIsHighest(MigrationList(modules), m);
  }

  lemma {:induction false} DefaultTargetDeclared(modules: seq<MigrationModule>)
    requires MigrationList(modules) != []
    ensures exists i :: 0 <= i < |modules| && VersionOf(modules[i].name) == Some(DefaultTarget(MigrationList(modules)))
  {
    var ms := MigrationList(modules);
    var last := ms[|ms| - 1];
    SortedMembers(Discovered(modules), false, last);
    var i :| 0 <= i < |modules| && modules[i] == last.source;
    assert VersionOf(modules[i].name) == Some(DefaultTarget(ms));
  }

  /** The default target is the highest version any listed module declares, or 0 when none declares one. */
  lemma {:induction false} DefaultTargetHighest(modules: seq<MigrationModule>)
    ensures var t := DefaultTarget(MigrationList(modules));
      && (forall i :: 0 <= i < |modules| && VersionOf(modules[i].name).Some? ==> VersionOf(modules[i].name).value <= t)
      && ((forall i :: 0 <= i < |modules| ==> VersionOf(modules[i].name).None?) ==> t == 0)
      && ((exists i :: 0 <= i < |modules| && VersionOf(modules[i].name).Some?) ==>
            exists i :: 0 <= i < |modules| && VersionOf(modules[i].name) == Some(t))
  {
    var ms := MigrationList(modules);
    forall i | 0 <= i < |modules| && VersionOf(modules[i].name).Some?
      ensures VersionOf(modules[i].name).value <= DefaultTarget(ms)
    {
      DefaultTargetAbove(modules, i);
    }
    if ms != [] {
      DefaultTargetDeclared(modules);
    }
    if exists i :: 0 <= i < |modules| && VersionOf(modules[i].name).Some? {
      var i :| 0 <= i < |modules| && VersionOf(modules[i].name).Some?;
      var m := Migration(VersionOf(modules[i].name).value, modules[i]);
      DiscoveredIncludes(modules, i);
      SortedMembers(Discovered(modules), false, m);
      assert m in ms;
      DefaultTargetDeclared(modules);
    }
  }

  // ---------------------------------------------------------------------
  // The current version
  // ---------------------------------------------------------------------

  /** A finite non-empty set of versions has a largest element. */
  lemma {:induction false} MaxExists(s: set<int>)
    requires s != {}
    ensures exists m :: m in s && forall k :: k in s ==> k <= m
    decreases |s|
  {
    if forall y: int :: y !in s {
      assert false;
    }
    var x :| x in s;
    var rest := s - {x};
    if rest == {} {
      forall k | k in s
        ensures k <= x
      {
        assert k == x || k in rest;
      }
    } else {
      MaxExists(rest);
      var m :| m in rest && forall k :: k in rest ==> k <= m;
      var top := if m < x then x else m;
      forall k | k in s
        ensures k <= top
      {
        if k != x {
          assert k in rest;
        }
      }
      assert top in s;
    }
  }

  /**
   * _get_current_version: SELECT MAX(version) over the recorded
   * versions, or -1 when none is recorded or the query raised (None).
   */
  function CurrentVersion(versions: Option<set<int>>): (r: int)
    ensures versions.None? || versions.value == {} ==> r == -1
    ensures versions.Some? && versions.value != {} ==>
      r in versions.value && forall k :: k in versions.value ==> k <= r
  {
    if versions.None? || versions.value == {} then -1
    else
      MaxExists(versions.value);
      var m :| m in versions.value && forall k :: k in versions.value ==> k <= m;
      m
  }

  // ---------------------------------------------------------------------
  // Upgrade and downgrade
  // ---------------------------------------------------------------------

  /** One pass of the upgrade loop: a version in (current, target] whose module has up() and is not yet recorded is run and recorded. */
  function UpStep(db: Schema, m: Migration, current: int, target: int): Schema
  {
    if current < m.version <= target && m.source.hasUp && m.version !in db.recorded then
      Schema(db.recorded[m.version := m.source.name], db.scripts + [ScriptRun(m.version, m.source.name, Up)])
    else db
  }

  /** The upgrade loop over ms from the recorded rows: the final rows and the scripts it ran. */
  function Upgrade(recorded: map<int, string>, ms: seq<Migration>, current: int, target: int): Schema
  {
    if ms == [] then Schema(recorded, [])
    else UpStep(Upgrade(recorded, ms[..|ms| - 1], current, target), ms[|ms| - 1], current, target)
  }

  /** One pass of the rollback loop: a version in (target, current] whose module has down() is run and its row deleted. */
  function DownStep(db: Schema, m: Migration, current: int, target: int): Schema
  {
    if target < m.version <= current && m.source.hasDown then
      Schema(db.recorded - {m.version}, db.scripts + [ScriptRun(m.version, m.source.name, Down)])
    else db
  }

  function Downgrade(recorded: map<int, string>, ms: seq<Migration>, current: int, target: int): Schema
  {
    if ms == [] then Schema(recorded, [])
    else DownStep(Downgrade(recorded, ms[..|ms| - 1], current, target), ms[|ms| - 1], current, target)
  }

  /** The versions an upgrade from current to target should apply. */
  function Applied(ms: seq<Migration>, current: int, target: int): set<int>
  {
    set m | m in ms && current < m.version <= target && m.source.hasUp :: m.version
  }

  /** The versions a rollback from current to target should undo. */
  function RolledBack(ms: seq<Migration>, current: int, target: int): set<int>
  {
    set m | m in ms && target < m.version <= current && m.source.hasDown :: m.version
  }

  function VersionSet(runs: seq<ScriptRun>): set<int>
  {
    set k | 0 <= k < |runs| :: runs[k].version
  }

  lemma {:induction false} VersionSetAppend(runs: seq<ScriptRun>, x: ScriptRun)
    ensures VersionSet(runs + [x]) == VersionSet(runs) + {x.version}
  {
    var r := runs + [x];
    assert r[|runs|] == x;
    forall v | v in VersionSet(runs)
      ensures v in VersionSet(r)
    {
      var k :| 0 <= k < |runs| && runs[k].version == v;
      assert r[k] == runs[k];
    }
  }

  /** Each version at most once, in ascending order. */
  predicate StrictlyAscending(runs: seq<ScriptRun>)
  {
    forall i, j :: 0 <= i < j < |runs| ==> runs[i].version < runs[j].version
  }

  predicate NonIncreasing(runs: seq<ScriptRun>)
  {
    forall i, j :: 0 <= i < j < |runs| ==> runs[i].version >= runs[j].version
  }

  lemma {:induction false} SplitLast(ms: seq<Migration>)
    requires ms != []
    ensures forall m :: m in ms <==> m in ms[..|ms| - 1] || m == ms[|ms| - 1]
  {
    assert ms == ms[..|ms| - 1] + [ms[|ms| - 1]];
  }

  /**
   * An upgrade records exactly the versions in (current, target] whose
   * module has up(), and leaves the rows already recorded as they were.
   */
  lemma {:induction false} UpgradeRecorded(recorded: map<int, string>, ms: seq<Migration>, current: int, target: int)
    ensures var r := Upgrade(recorded, ms, current, target);
      && r.recorded.Keys == recorded.Keys + Applied(ms, current, target)
      && forall k :: k in recorded ==> r.recorded[k] == recorded[k]
  {
    if ms != [] {
      var prefix := ms[..|ms| - 1];
      UpgradeRecorded(recorded, prefix, current, target);
      SplitLast(ms);
      var m := ms[|ms| - 1];
      if current < m.version <= target && m.source.hasUp {
        assert Applied(ms, current, target) == Applied(prefix, current, target) + {m.version};
      } else {
        assert Applied(ms, current, target) == Applied(prefix, current, target);
      }
    }
  }

  /**
   * Every script an upgrade runs is an up() of a version in (current,
   * target] whose row now names the module run; the versions run are
   * exactly those to apply that were not yet recorded.
   */
  lemma {:induction false} UpgradeRuns(recorded: map<int, string>, ms: seq<Migration>, current: int, target: int)
    ensures var r := Upgrade(recorded, ms, current, target);
      && (forall k :: 0 <= k < |r.scripts| ==>
            && r.scripts[k].direction == Up
            && current < r.scripts[k].version <= target
            && r.scripts[k].version in r.recorded && r.recorded[r.scripts[k].version] == r.scripts[k].name)
      && VersionSet(r.scripts) == Applied(ms, current, target) - recorded.Keys
  {
    if ms != [] {
      var prefix := ms[..|ms| - 1];
      var m := ms[|ms| - 1];
      var p := Upgrade(recorded, prefix, current, target);
      UpgradeRuns(recorded, prefix, current, target);
      UpgradeRecorded(recorded, prefix, current, target);
      SplitLast(ms);
      if current < m.version <= target && m.source.hasUp && m.version !in p.recorded {
        var r := Upgrade(recorded, ms, current, target);
        assert r.scripts == p.scripts + [ScriptRun(m.version, m.source.name, Up)];
        VersionSetAppend(p.scripts, ScriptRun(m.version, m.source.name, Up));
        assert Applied(ms, current, target) == Applied(prefix, current, target) + {m.version};
      } else if current < m.version <= target && m.source.hasUp {
        assert Applied(ms, current, target) == Applied(prefix, current, target) + {m.version};
      } else {
        assert Applied(ms, current, target) == Applied(prefix, current, target);
      }
    }
  }

  /**
   * Over migrations sorted ascending, the upgrade runs each version at
   * most once and in ascending order: of two modules sharing a version
   * only one is applied.
   */
  lemma {:induction false} UpgradeAscending(recorded: map<int, string>, ms: seq<Migration>, current: int, target: int)
    requires Sorted(ms, false)
    ensures var r := Upgrade(recorded, ms, current, target);
      && StrictlyAscending(r.scripts)
      && (ms != [] ==> forall k :: 0 <= k < |r.scripts| ==> r.scripts[k].version <= ms[|ms| - 1].version)
  {
    if ms != [] {
      var prefix := ms[..|ms| - 1];
      var m := ms[|ms| - 1];
      var p := Upgrade(recorded, prefix, current, target);
      UpgradeAscending(recorded, prefix, current, target);
      UpgradeRuns(recorded, prefix, current, target);
      if prefix != [] {
        assert Key(prefix[|prefix| - 1], false) <= Key(m, false);
      }
      if current < m.version <= target && m.source.hasUp && m.version !in p.recorded {
        var r := Upgrade(recorded, ms, current, target);
        assert r.scripts == p.scripts + [ScriptRun(m.version, m.source.name, Up)];
        forall k | 0 <= k < |p.scripts|
          ensures p.scripts[k].version < m.version
        {
          assert p.scripts[k].version in p.recorded;
        }
      }
    }
  }

  /**
   * The first module in the list with up() for a version to apply is the
   * one that runs and is recorded, when its version was not recorded
   * before: later modules sharing its version are skipped.
   */
  lemma {:induction false} FirstModuleApplied(recorded: map<int, string>, ms: seq<Migration>, current: int, target: int, i: int)
    requires 0 <= i < |ms| && current < ms[i].version <= target && ms[i].source.hasUp
    requires ms[i].version !in recorded
    requires forall j :: 0 <= j < i && ms[j].version == ms[i].version ==> !ms[j].source.hasUp
    ensures var r := Upgrade(recorded, ms, current, target);
      && ms[i].version in r.recorded && r.recorded[ms[i].version] == ms[i].source.name
      && ScriptRun(ms[i].version, ms[i].source.name, Up) in r.scripts
  {
    var prefix := ms[..|ms| - 1];
    var p := Upgrade(recorded, prefix, current, target);
    var r := Upgrade(recorded, ms, current, target);
    var v := ms[i].version;
    if i < |ms| - 1 {
      FirstModuleApplied(recorded, prefix, current, target, i);
      assert r.scripts[..|p.scripts|] == p.scripts;
    } else {
      UpgradeRecorded(recorded, prefix, current, target);
      assert v !in p.recorded;
      assert r.scripts == p.scripts + [ScriptRun(v, ms[i].source.name, Up)];
    }
  }

  /** A rollback deletes exactly the rows of versions in (target, current] whose module has down(). */
  lemma {:induction false} DowngradeRecorded(recorded: map<int, string>, ms: seq<Migration>, current: int, target: int)
    ensures var r := Downgrade(recorded, ms, current, target);
      && r.recorded.Keys == recorded.Keys - RolledBack(ms, current, target)
      && forall k :: k in r.recorded ==> r.recorded[k] == recorded[k]
  {
    if ms != [] {
      var prefix := ms[..|ms| - 1];
      DowngradeRecorded(recorded, prefix, current, target);
      SplitLast(ms);
      var m := ms[|ms| - 1];
      if target < m.version <= current && m.source.hasDown {
        assert RolledBack(ms, current, target) == RolledBack(prefix, current, target) + {m.version};
      } else {
        assert RolledBack(ms, current, target) == RolledBack(prefix, current, target);
      }
    }
  }

  /**
   * Every script a rollback runs is a down() of a version in (target,
   * current], it runs one for each version to undo, and over migrations
   * sorted descending it runs them in descending order.
   */
  lemma {:induction false} DowngradeRuns(recorded: map<int, string>, ms: seq<Migration>, current: int, target: int)
    ensures var r := Downgrade(recorded, ms, current, target);
      && (forall k :: 0 <= k < |r.scripts| ==>
            r.scripts[k].direction == Down && target < r.scripts[k].version <= current)
      && VersionSet(r.scripts) == RolledBack(ms, current, target)
      && (Sorted(ms, true) ==> NonIncreasing(r.scripts))
      && (Sorted(ms, true) && ms != [] ==> forall k :: 0 <= k < |r.scripts| ==> r.scripts[k].version >= ms[|ms| - 1].version)
  {
    if ms != [] {
      var prefix := ms[..|ms| - 1];
      var m := ms[|ms| - 1];
      var p := Downgrade(recorded, prefix, current, target);
      DowngradeRuns(recorded, prefix, current, target);
      SplitLast(ms);
      if Sorted(ms, true) && prefix != [] {
        assert Key(prefix[|prefix| - 1], true) <= Key(m, true);
      }
      if target < m.version <= current && m.source.hasDown {
        var r := Downgrade(recorded, ms, current, target);
        assert r.scripts == p.scripts + [ScriptRun(m.version, m.source.name, Down)];
        VersionSetAppend(p.scripts, ScriptRun(m.version, m.source.name, Down));
        assert RolledBack(ms, current, target) == RolledBack(prefix, current, target) + {m.version};
      } else {
        assert RolledBack(ms, current, target) == RolledBack(prefix, current, target);
      }
    }
  }

  // ---------------------------------------------------------------------
  // migrate
  // ---------------------------------------------------------------------

  /** The target migrate works towards: the one given, or the default. */
  function TargetOf(modules: seq<MigrationModule>, target: Option<int>): int
  {
    if target.Some? then target.value else DefaultTarget(MigrationList(modules))
  }

  /** migrate(target): what the rows and the script log are afterwards. */
  function MigrateSpec(db: Schema, modules: seq<MigrationModule>, target: Option<int>): Schema
  {
    var current := CurrentVersion(Some(db.recorded.Keys));
    var ms := MigrationList(modules);
    var t := TargetOf(modules, target);
    var change :=
      if current < t then Upgrade(db.recorded, ms, current, t)
      else if current > t then Downgrade(db.recorded, SortByVersion(ms, true), current, t)
      else Schema(db.recorded, []);
    Schema(change.recorded, db.scripts + [InitializeRun] + change.scripts)
  }

  /** The versions discovered from the listed modules: those some module's name declares. */
  lemma {:induction false} ListedVersions(modules: seq<MigrationModule>, descending: bool, m: Migration)
    ensures m in SortByVersion(MigrationList(modules), descending) <==> m in Discovered(modules)
  {
    var found := Discovered(modules);
    assert m in SortByVersion(MigrationList(modules), descending) <==> m in multiset(found);
  }

  /**
   * Upgrading (current below target): after initialising the schema
   * table, migrate runs up() of each discovered version in (current,
   * target] once, in ascending order, and records each of them; the
   * rows already recorded are kept.
   */
  lemma {:induction false} MigrateUpgrade(db: Schema, modules: seq<MigrationModule>, target: Option<int>)
    requires CurrentVersion(Some(db.recorded.Keys)) < TargetOf(modules, target)
    ensures var current, t := CurrentVersion(Some(db.recorded.Keys)), TargetOf(modules, target);
      var r := MigrateSpec(db, modules, target);
      var runs := r.scripts[|db.scripts| + 1..];
      && r.scripts[..|db.scripts| + 1] == db.scripts + [InitializeRun]
      && StrictlyAscending(runs)
      && (forall k :: 0 <= k < |runs| ==> runs[k].direction == Up && current < runs[k].version <= t)
      && VersionSet(runs) == Applied(MigrationList(modules), current, t)
      && r.recorded.Keys == db.recorded.Keys + Applied(MigrationList(modules), current, t)
      && forall k :: k in db.recorded ==> r.recorded[k] == db.recorded[k]
  {
    var current, t := CurrentVersion(Some(db.recorded.Keys)), TargetOf(modules, target);
    var ms := MigrationList(modules);
    var u := Upgrade(db.recorded, ms, current, t);
    var r := MigrateSpec(db, modules, target);
    SortSorted(Discovered(modules), false);
    UpgradeAscending(db.recorded, ms, current, t);
    UpgradeRuns(db.recorded, ms, current, t);
    UpgradeRecorded(db.recorded, ms, current, t);
    assert r.scripts == db.scripts + [InitializeRun] + u.scripts;
    assert r.scripts[|db.scripts| + 1..] == u.scripts;
    assert Applied(ms, current, t) * db.recorded.Keys == {};
  }

  /**
   * Rolling back (current above target): migrate runs down() of each
   * discovered version in (target, current] in descending order and
   * deletes exactly those rows.
   */
  lemma {:induction false} MigrateRollback(db: Schema, modules: seq<MigrationModule>, target: Option<int>)
    requires CurrentVersion(Some(db.recorded.Keys)) > TargetOf(modules, target)
    ensures var current, t := CurrentVersion(Some(db.recorded.Keys)), TargetOf(modules, target);
      var r := MigrateSpec(db, modules, target);
      var runs := r.scripts[|db.scripts| + 1..];
      && r.scripts[..|db.scripts| + 1] == db.scripts + [InitializeRun]
      && NonIncreasing(runs)
      && (forall k :: 0 <= k < |runs| ==> runs[k].direction == Down && t < runs[k].version <= current)
      && VersionSet(runs) == RolledBack(MigrationList(modules), current, t)
      && r.recorded.Keys == db.recorded.Keys - RolledBack(MigrationList(modules), current, t)
      && forall k :: k in r.recorded ==> r.recorded[k] == db.recorded[k]
  {
    var current, t := CurrentVersion(Some(db.recorded.Keys)), TargetOf(modules, target);
    var ms := MigrationList(modules);
    var down := SortByVersion(ms, true);
    var d := Downgrade(db.recorded, down, current, t);
    var r := MigrateSpec(db, modules, target);
    SortSorted(ms, true);
    DowngradeRuns(db.recorded, down, current, t);
    DowngradeRecorded(db.recorded, down, current, t);
    forall v
      ensures v in RolledBack(down, current, t) <==> v in RolledBack(ms, current, t)
    {
      forall m
        ensures m in down <==> m in ms
      {
        assert m in down <==> m in multiset(ms);
      }
    }
    assert r.scripts == db.scripts + [InitializeRun] + d.scripts;
    assert r.scripts[|db.scripts| + 1..] == d.scripts;
  }

  /** At the target already, migrate only re-runs the schema table's creation. */
  lemma MigrateAtTarget(db: Schema, modules: seq<MigrationModule>, target: Option<int>)
    requires CurrentVersion(Some(db.recorded.Keys)) == TargetOf(modules, target)
    ensures MigrateSpec(db, modules, target) == Schema(db.recorded, db.scripts + [InitializeRun])
  {
  }

  /**
   * The rows and scripts migrate works on, as a mutable database: the
   * steps below update them as db/migration.py does through SQL.
   */
  class MigrationDatabase {
    var recorded: map<int, string>
    var scripts: seq<ScriptRun>

    constructor ()
      ensures recorded == map[] && scripts == []
    {
      recorded := map[];
      scripts := [];
    }

    /** _get_migration_modules: the discovery loop, then the ascending sort. */
    static method GetMigrationModules(modules: seq<MigrationModule>) returns (migrations: seq<Migration>)
      ensures migrations == MigrationList(modules)
      ensures Sorted(migrations, false)
      ensures forall m :: m in migrations <==> m in Discovered(modules)
    {
      var found: seq<Migration> := [];
      for i := 0 to |modules|
        invariant found == Discovered(modules[..i])
      {
        var v := VersionOf(modules[i].name);
        if v.Some? {
          found := found + [Migration(v.value, modules[i])];
        }
        assert modules[..i + 1][..i] == modules[..i];
      }
      assert modules[..|modules|] == modules;
      migrations := SortByVersion(found, false);
      SortSorted(found, false);
      forall m
        ensures m in migrations <==> m in Discovered(modules)
      {
        assert m in migrations <==> m in multiset(found);
      }
    }

    /** The upgrade loop: up() and a recorded row for each version to apply, skipping recorded ones. */
    method ApplyUp(migrations: seq<Migration>, current: int, target: int)
      modifies this
      ensures var u := Upgrade(old(recorded), migrations, current, target);
        recorded == u.recorded && scripts == old(scripts) + u.scripts
    {
      ghost var start := scripts;
      for i := 0 to |migrations|
        invariant var u := Upgrade(old(recorded), migrations[..i], current, target);
          recorded == u.recorded && scripts == start + u.scripts
      {
        var m := migrations[i];
        assert migrations[..i + 1][..i] == migrations[..i];
        if current < m.version <= target {
          if m.source.hasUp {
            var applied := m.version in recorded;
            if !applied {
              scripts := scripts + [ScriptRun(m.version, m.source.name, Up)];
              recorded := recorded[m.version := m.source.name];
            }
          }
        }
      }
      assert migrations[..|migrations|] == migrations;
    }

    /** The rollback loop: down() and a deleted row for each version to undo. */
    method RollBack(migrations: seq<Migration>, current: int, target: int)
      modifies this
      ensures var d := Downgrade(old(recorded), migrations, current, target);
        recorded == d.recorded && scripts == old(scripts) + d.scripts
    {
      ghost var start := scripts;
      for i := 0 to |migrations|
        invariant var d := Downgrade(old(recorded), migrations[..i], current, target);
          recorded == d.recorded && scripts == start + d.scripts
      {
        var m := migrations[i];
        assert migrations[..i + 1][..i] == migrations[..i];
        if target < m.version <= current {
          if m.source.hasDown {
            scripts := scripts + [ScriptRun(m.version, m.source.name, Down)];
            recorded := recorded - {m.version};
          }
        }
      }
      assert migrations[..|migrations|] == migrations;
    }

    /** migrate(target_version): target None is the default target. */
    method Migrate(modules: seq<MigrationModule>, target: Option<int>)
      modifies this
      ensures Schema(recorded, scripts) == MigrateSpec(Schema(old(recorded), old(scripts)), modules, target)
    {
      scripts := scripts + [InitializeRun];
      var current := CurrentVersion(Some(recorded.Keys));
      var migrations := GetMigrationModules(modules);
      var t := if target.Some? then target.value else DefaultTarget(migrations);
      if current < t {
        ApplyUp(migrations, current, t);
      } else if current > t {
        RollBack(SortByVersion(migrations, true), current, t);
      }
    }
  }
}
