/**
 * The persistence collaborator of the session tracker, as the tracker sees
 * it: create stores a new row and hands back a fresh id, update rewrites
 * the closing columns of an existing row and says whether a row matched,
 * find_by_user lists one user's sessions newest first, bounded by a limit.
 * The rows are kept as values; SQL and JSON encoding are not modelled.
 */
module SessionStore {
  import opened Common
  import opened GameSessions

  /** The game_sessions table: row i carries the autoincrement id i + 1. */
  datatype Store = Store(rows: seq<SessionRecord>)

  ghost predicate WellFormed(s: Store)
  {
    forall i :: 0 <= i < |s.rows| ==> s.rows[i].id == Some(i + 1)
  }

  /** Whether some row carries this id. */
  predicate HasRow(s: Store, id: int)
  {
    1 <= id <= |s.rows|
  }

  /** create: inserts the session and returns the id the table assigned it. */
  function Create(s: Store, r: SessionRecord): (res: (Store, int))
    ensures !HasRow(s, res.1) && HasRow(res.0, res.1)
    ensures res.0.rows == s.rows + [r.(id := Some(res.1))]
    ensures WellFormed(s) ==> WellFormed(res.0)
  {
    var id := |s.rows| + 1;
    (Store(s.rows + [r.(id := Some(id))]), id)
  }

  /**
   * update: the UPDATE statement rewrites end_time, duration, score,
   * completed, difficulty_level and session_data of the row with the
   * session's id; the result is whether a row matched.
   */
  function Update(s: Store, r: SessionRecord): (res: (Store, bool))
    ensures res.1 <==> r.id.Some? && HasRow(s, r.id.value)
    ensures !res.1 ==> res.0 == s
    ensures |res.0.rows| == |s.rows|
    ensures res.1 ==> forall i :: 0 <= i < |s.rows| && i != r.id.value - 1 ==> res.0.rows[i] == s.rows[i]
    ensures WellFormed(s) ==> WellFormed(res.0)
  {
    if r.id.Some? && HasRow(s, r.id.value) then
      var i := r.id.value - 1;
      var old_ := s.rows[i];
      var row := old_.(endTime := r.endTime, duration := r.duration, score := r.score, completed := r.completed,
                       difficultyLevel := r.difficultyLevel, sessionData := r.sessionData);
      (Store(s.rows[i := row]), true)
    else
      (s, false)
  }

  /** The rows of one user, in table order. */
  function ForUser(rows: seq<SessionRecord>, userId: int): (r: seq<SessionRecord>)
    ensures forall x :: x in r ==> x in rows && x.userId == userId
    ensures forall x :: x in rows && x.userId == userId ==> x in r
  {
    if rows == [] then []
    else (if rows[0].userId == userId then [rows[0]] else []) + ForUser(rows[1..], userId)
  }

  ghost predicate NewestFirst(xs: seq<SessionRecord>)
  {
    forall i, j :: 0 <= i < j < |xs| ==> xs[i].startTime >= xs[j].startTime
  }

  function InsertByStart(x: SessionRecord, xs: seq<SessionRecord>): (r: seq<SessionRecord>)
    requires NewestFirst(xs)
    ensures |r| == |xs| + 1
    ensures r[0] == x || (xs != [] && r[0] == xs[0])
    ensures NewestFirst(r)
    ensures multiset(r) == multiset(xs) + multiset{x}
  {
    if xs == [] || xs[0].startTime <= x.startTime then [x] + xs
    else
      var rest := InsertByStart(x, xs[1..]);
      assert xs == [xs[0]] + xs[1..];
      assert xs[0].startTime >= rest[0].startTime;
      [xs[0]] + rest
  }

  /** ORDER BY start_time DESC. */
  function SortNewestFirst(xs: seq<SessionRecord>): (r: seq<SessionRecord>)
    ensures NewestFirst(r)
    ensures multiset(r) == multiset(xs)
  {
    if xs == [] then []
    else
      assert xs == [xs[0]] + xs[1..];
      InsertByStart(xs[0], SortNewestFirst(xs[1..]))
  }

  /** SQLite's LIMIT: a negative limit means no limit. */
  function Limit(xs: seq<SessionRecord>, limit: int): (r: seq<SessionRecord>)
    ensures |r| == if 0 <= limit < |xs| then limit else |xs|
    ensures r == xs[..|r|]
  {
    if 0 <= limit < |xs| then xs[..limit] else xs
  }

  /** A prefix of a newest-first list keeps its newest entries: whatever is left out starts no later. */
  lemma PrefixKeepsNewest(xs: seq<SessionRecord>, k: nat)
    requires NewestFirst(xs) && k <= |xs|
    ensures multiset(xs[..k]) <= multiset(xs)
    ensures forall x, y :: x in xs[..k] && y in xs && y !in xs[..k] ==> y.startTime <= x.startTime
  {
    assert xs == xs[..k] + xs[k..];
    forall x, y | x in xs[..k] && y in xs && y !in xs[..k] ensures y.startTime <= x.startTime {
      var i :| 0 <= i < k && xs[..k][i] == x;
      var j :| 0 <= j < |xs| && xs[j] == y;
      assert forall t :: 0 <= t < k ==> xs[t] == xs[..k][t];
    }
  }

  /**
   * find_by_user(user_id, limit): the user's sessions, newest first, at
   * most limit of them, and all of them when there are no more; the
   * sessions left out start no later than those listed.
   */
  function FindByUser(s: Store, userId: int, limit: int): (r: seq<SessionRecord>)
    ensures NewestFirst(r)
    ensures forall x :: x in r ==> x in s.rows && x.userId == userId
    ensures |r| == if 0 <= limit < |ForUser(s.rows, userId)| then limit else |ForUser(s.rows, userId)|
    ensures multiset(r) <= multiset(ForUser(s.rows, userId))
    ensures forall x, y :: x in r && y in ForUser(s.rows, userId) && y !in r ==> y.startTime <= x.startTime
  {
    var sorted := SortNewestFirst(ForUser(s.rows, userId));
    assert |sorted| == |ForUser(s.rows, userId)| by {
      assert |multiset(sorted)| == |multiset(ForUser(s.rows, userId))|;
    }
    assert forall x :: x in sorted ==> x in ForUser(s.rows, userId) by {
      forall x | x in sorted ensures x in ForUser(s.rows, userId) {
        assert x in multiset(sorted);
      }
    }
    assert forall y :: y in ForUser(s.rows, userId) ==> y in sorted by {
      forall y | y in ForUser(s.rows, userId) ensures y in sorted {
        assert y in multiset(ForUser(s.rows, userId));
      }
    }
    var r := Limit(sorted, limit);
    PrefixKeepsNewest(sorted, |r|);
    assert forall x :: x in r ==> x in sorted;
    r
  }
}
