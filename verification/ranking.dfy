/** The read-only ranking endpoints of server.js: GET /api/leaderboard (rows ordered by
    `xp DESC, accuracy DESC`, cut to a limit, ranked by position) and GET /api/users/:id/rank
    (one plus the number of rows strictly ahead). SQL leaves the order of fully tied rows
    open, so the leaderboard is specified as a prefix of SOME sorted permutation of the table;
    the model computes one such permutation by insertion. */
module Ranking {
  import opened Wrappers
  import opened JsText
  import opened Users

  /** `a` sorts strictly before `b` under `ORDER BY xp DESC, accuracy DESC`. */
  predicate Ahead(a: User, b: User) {
    a.xp > b.xp || (a.xp == b.xp && a.accuracy > b.accuracy)
  }

  /** Equal on both sort keys: SQL may list the two in either order. */
  predicate Tied(a: User, b: User) {
    a.xp == b.xp && a.accuracy == b.accuracy
  }

  /** No row is ahead of a row listed before it. */
  predicate Sorted(s: seq<User>) {
    forall i, j :: 0 <= i < j < |s| ==> !Ahead(s[j], s[i])
  }

  predicate AdjacentSorted(s: seq<User>) {
    forall i :: 0 <= i < |s| - 1 ==> !Ahead(s[i + 1], s[i])
  }

  /** `p` is an order the database may return for `t`: all of its rows, sorted. */
  predicate IsRanking(p: seq<User>, t: Table) {
    multiset(p) == multiset(t) && Sorted(p)
  }

  lemma {:induction false} AdjacentSortedIsSorted(s: seq<User>)
    requires AdjacentSorted(s)
    ensures Sorted(s)
    decreases |s|
  {
    if |s| > 1 {
      AdjacentSortedIsSorted(s[1..]);
      forall i, j | 0 <= i < j < |s| ensures !Ahead(s[j], s[i]) {
        if i > 0 {
          assert s[j] == s[1..][j - 1] && s[i] == s[1..][i - 1];
        } else if j > 1 {
          assert s[j] == s[1..][j - 1] && s[1] == s[1..][0];
        }
      }
    }
  }

  /** Places `x` after every row that is not behind it. */
  function Insert(x: User, s: seq<User>): (r: seq<User>)
    ensures |r| == |s| + 1
    ensures multiset(r) == multiset(s) + multiset{x}
    ensures r[0] == x || (|s| > 0 && r[0] == s[0])
    ensures AdjacentSorted(s) ==> AdjacentSorted(r)
  {
    if |s| == 0 || Ahead(x, s[0]) then [x] + s
    else
      var rest := Insert(x, s[1..]);
      assert s == [s[0]] + s[1..];
      [s[0]] + rest
  }

  /** One of the orders `ORDER BY xp DESC, accuracy DESC` may produce. */
  function SortByScore(s: seq<User>): (r: seq<User>)
    ensures IsRanking(r, s)
    ensures AdjacentSorted(r)
    ensures |r| == |s|
  {
    if |s| == 0 then []
    else
      var rest := SortByScore(s[1..]);
      var r := Insert(s[0], rest);
      InsertRanks(s, rest, r);
      r
  }

  /** Inserting the first row into a ranking of the others ranks them all. */
  lemma InsertRanks(s: seq<User>, rest: seq<User>, r: seq<User>)
    requires |s| > 0 && multiset(rest) == multiset(s[1..]) && AdjacentSorted(rest)
    requires r == Insert(s[0], rest)
    ensures IsRanking(r, s) && AdjacentSorted(r) && |r| == |s|
  {
    assert s == [s[0]] + s[1..];
    assert multiset(s) == multiset(s[1..]) + multiset{s[0]};
    AdjacentSortedIsSorted(r);
  }

  // ---------------------------------------------------------------------------
  // GET /api/leaderboard
  // ---------------------------------------------------------------------------

  /** One leaderboard row: a projection of the user plus its 1-based position. */
  datatype LeaderboardEntry = LeaderboardEntry(
    id: string, name: string, xp: int, accuracy: int, totalQuestions: int, rank: int)

  /** `parseInt(req.query.limit) || 10`: a missing, unparsable (NaN) or zero limit becomes
      10; any other parsed value, negative included, is kept. */
  function EffectiveLimit(query: Option<string>): (n: int)
    ensures n != 0
    ensures query.None? ==> n == 10
    ensures query.Some? && !HasDigits(query.value) ==> n == 10
    ensures query.Some? && ParseInt(query.value) == Some(0) ==> n == 10
    ensures query.Some? && ParseInt(query.value).Some? && ParseInt(query.value).value != 0 ==>
              n == ParseInt(query.value).value
  {
    var parsed := match query case None => None case Some(s) => ParseInt(s);
    match parsed
    case Some(v) => if v == 0 then 10 else v
    case None => 10
  }

  /** A limit written as a decimal numeral is read back as that number, except that 0
      falls back to 10. */
  lemma EffectiveLimitOfNumeral(n: int)
    ensures EffectiveLimit(Some(IntToString(n))) == if n == 0 then 10 else n
  {
    ParseIntOfIntToString(n);
  }

  /** A limit that does not parse, as in `?limit=abc`, falls back to 10. */
  lemma EffectiveLimitOfText()
    ensures EffectiveLimit(Some("abc")) == 10
  {
    ParseIntNaN();
  }

  /** SQLite's `LIMIT n`: the first `n` rows, and every row when `n` is negative. */
  function Limit(s: seq<User>, n: int): (r: seq<User>)
    ensures |r| == if n < 0 || n > |s| then |s| else n
    ensures r == s[..|r|]
  {
    if n < 0 || n >= |s| then s else s[..n]
  }

  /** The rows the leaderboard query returns, in order. */
  function Board(t: Table, query: Option<string>): seq<User> {
    Limit(SortByScore(t), EffectiveLimit(query))
  }

  function ToEntries(s: seq<User>): (r: seq<LeaderboardEntry>)
    ensures |r| == |s|
    ensures forall i :: 0 <= i < |s| ==>
              r[i] == LeaderboardEntry(s[i].id, s[i].name, s[i].xp, s[i].accuracy,
                                       s[i].totalQuestions, i + 1)
  {
    seq(|s|, i requires 0 <= i < |s| =>
      LeaderboardEntry(s[i].id, s[i].name, s[i].xp, s[i].accuracy, s[i].totalQuestions, i + 1))
  }

  /** GET /api/leaderboard?limit=N. At most `limit` rows (all rows for a negative limit),
      ranked 1, 2, ... by position, in non-increasing (xp, accuracy) order, and taken from
      the front of an order the database may produce for the whole table. */
  function Leaderboard(t: Table, query: Option<string>, readOk: bool)
    : (r: Result<seq<LeaderboardEntry>, HttpError>)
    ensures r.Ok? <==> readOk
    ensures r.Err? ==> r.error.status == 500
    ensures r.Ok? ==> var n := EffectiveLimit(query);
              |r.value| == if n < 0 || n > |t| then |t| else n
    ensures r.Ok? ==> forall i :: 0 <= i < |r.value| ==> r.value[i].rank == i + 1
    ensures r.Ok? ==> forall i, j :: 0 <= i < j < |r.value| ==>
              r.value[i].xp > r.value[j].xp ||
              (r.value[i].xp == r.value[j].xp && r.value[i].accuracy >= r.value[j].accuracy)
    ensures r.Ok? ==> exists p :: IsRanking(p, t) && |r.value| <= |p| && r.value == ToEntries(p[..|r.value|])
  {
    if !readOk then Err(HttpError(500, "Database error"))
    else
      var p := SortByScore(t);
      var b := Board(t, query);
      assert b == p[..|b|];
      Ok(ToEntries(b))
  }

  /** The board is the top of the table: no row left off it is ahead of a row on it. */
  lemma BoardHoldsTheTop(t: Table, query: Option<string>, u: User)
    requires u in multiset(t) - multiset(Board(t, query))
    ensures forall i :: 0 <= i < |Board(t, query)| ==> !Ahead(u, Board(t, query)[i])
  {
    var p := SortByScore(t);
    var b := Board(t, query);
    var m := InSuffix(p, |b|, u);
    forall i | 0 <= i < |b| ensures !Ahead(u, b[i]) {
      assert b[i] == p[i];
    }
  }

  /** A row of `p` that is not among its first `n` rows sits at some position `n` or later. */
  lemma InSuffix(p: seq<User>, n: int, u: User) returns (m: int)
    requires 0 <= n <= |p| && u in multiset(p) - multiset(p[..n])
    ensures n <= m < |p| && p[m] == u
  {
    assert p == p[..n] + p[n..];
    assert multiset(p) == multiset(p[..n]) + multiset(p[n..]);
    assert u in multiset(p[n..]);
    var k :| 0 <= k < |p[n..]| && p[n..][k] == u;
    m := n + k;
  }

  // ---------------------------------------------------------------------------
  // GET /api/users/:id/rank
  // ---------------------------------------------------------------------------

  /** Number of rows of `s` strictly ahead of `u`. */
  function CountAhead(s: seq<User>, u: User): (n: nat)
    ensures n <= |s|
    ensures n == 0 <==> forall i :: 0 <= i < |s| ==> !Ahead(s[i], u)
    ensures n == |s| <==> forall i :: 0 <= i < |s| ==> Ahead(s[i], u)
  {
    if |s| == 0 then 0
    else
      var n := (if Ahead(s[0], u) then 1 else 0) + CountAhead(s[1..], u);
      assert forall i :: 1 <= i < |s| ==> s[i] == s[1..][i - 1];
      n
  }

  /** GET /api/users/:id/rank: `COUNT(*)` of rows with greater xp, or equal xp and greater
      accuracy, plus one. For an unknown id the sub-selects yield NULL, no comparison holds,
      and the answer is rank 1 rather than 404. */
  function UserRank(t: Table, id: string, readOk: bool): (r: Result<int, HttpError>)
    ensures r.Ok? <==> readOk
    ensures r.Err? ==> r.error.status == 500
    ensures r.Ok? ==> r.value >= 1
    ensures r.Ok? && !HasId(t, id) ==> r.value == 1
    ensures r.Ok? && HasId(t, id) ==> r.value <= |t|
    ensures r.Ok? && HasId(t, id) ==>
              (r.value == 1 <==> forall i :: 0 <= i < |t| ==> !Ahead(t[i], FindById(t, id).value))
    ensures r.Ok? && HasId(t, id) ==> r.value == 1 + CountAhead(t, FindById(t, id).value)
  {
    if !readOk then Err(HttpError(500, "Database error"))
    else match FindById(t, id)
      case None => Ok(1)
      case Some(u) =>
        CountAheadBelowLength(t, u);
        Ok(1 + CountAhead(t, u))
  }

  /** A row is never ahead of itself, so at most the other rows count. */
  lemma {:induction false} CountAheadBelowLength(s: seq<User>, u: User)
    requires u in s
    ensures CountAhead(s, u) < |s|
    decreases |s|
  {
    if s[0] != u {
      CountAheadBelowLength(s[1..], u);
    }
  }

  lemma {:induction false} CountAheadAppend(a: seq<User>, b: seq<User>, u: User)
    ensures CountAhead(a + b, u) == CountAhead(a, u) + CountAhead(b, u)
    decreases |a|
  {
    if |a| > 0 {
      assert (a + b)[1..] == a[1..] + b;
      CountAheadAppend(a[1..], b, u);
    } else {
      assert a + b == b;
    }
  }

  /** The count depends only on which rows there are, not on their order. */
  lemma {:induction false} CountAheadPermutation(a: seq<User>, b: seq<User>, u: User)
    requires multiset(a) == multiset(b)
    ensures CountAhead(a, u) == CountAhead(b, u)
    decreases |a|
  {
    if |a| == 0 {
      assert |b| == |multiset(b)| == 0;
    } else {
      assert a[0] in multiset(b);
      var j :| 0 <= j < |b| && b[j] == a[0];
      var b' := b[..j] + b[j + 1..];
      RemoveMatching(a, b, j);
      CountAheadPermutation(a[1..], b', u);
      CountAheadRemove(b, j, u);
    }
  }

  /** Taking the same row off the front of one list and out of a permutation of it leaves
      permutations. */
  lemma RemoveMatching(a: seq<User>, b: seq<User>, j: int)
    requires multiset(a) == multiset(b) && |a| > 0 && 0 <= j < |b| && b[j] == a[0]
    ensures multiset(a[1..]) == multiset(b[..j] + b[j + 1..])
  {
    assert a == [a[0]] + a[1..];
    assert b == b[..j] + [b[j]] + b[j + 1..];
    assert multiset(a[1..]) == multiset(a) - multiset{a[0]};
  }

  /** Removing row `j` lowers the count by one exactly when that row is ahead. */
  lemma CountAheadRemove(b: seq<User>, j: int, u: User)
    requires 0 <= j < |b|
    ensures CountAhead(b, u)
            == CountAhead(b[..j] + b[j + 1..], u) + (if Ahead(b[j], u) then 1 else 0)
  {
    var rest := [b[j]] + b[j + 1..];
    assert b == b[..j] + rest;
    CountAheadAppend(b[..j], rest, u);
    CountAheadAppend(b[..j], b[j + 1..], u);
    assert rest[1..] == b[j + 1..];
  }

  /** Rows tied on (xp, accuracy) have the same number of rows ahead of them. */
  lemma {:induction false} CountAheadTied(s: seq<User>, u: User, v: User)
    requires Tied(u, v)
    ensures CountAhead(s, u) == CountAhead(s, v)
    decreases |s|
  {
    if |s| > 0 {
      CountAheadTied(s[1..], u, v);
    }
  }

  /** Users tied on xp and accuracy share a rank. */
  lemma TiedUsersShareRank(t: Table, id1: string, id2: string)
    requires HasId(t, id1) && HasId(t, id2)
    requires Tied(FindById(t, id1).value, FindById(t, id2).value)
    ensures UserRank(t, id1, true) == UserRank(t, id2, true)
  {
    var u1, u2 := FindById(t, id1).value, FindById(t, id2).value;
    assert UserRank(t, id1, true) == Ok(1 + CountAhead(t, u1));
    assert UserRank(t, id2, true) == Ok(1 + CountAhead(t, u2));
    CountAheadTied(t, u1, u2);
  }

  /** The rank endpoint agrees with the leaderboard: in any order the database may
      produce, the user's 1-based position is at least its rank, and equal to it when no
      other row ties with it on both keys. */
  lemma RankMatchesBoardPosition(t: Table, p: seq<User>, k: int)
    requires UniqueIds(t) && IsRanking(p, t)
    requires 0 <= k < |p|
    ensures HasId(t, p[k].id)
    ensures UserRank(t, p[k].id, true).value <= k + 1
    ensures (forall i :: 0 <= i < |p| && i != k ==> !Tied(p[i], p[k])) ==>
              UserRank(t, p[k].id, true).value == k + 1
    ensures forall j :: 0 <= j < |p| ==>
              (j < UserRank(t, p[k].id, true).value - 1 <==> Ahead(p[j], p[k]))
  {
    var u := p[k];
    assert u in multiset(t);
    var i :| 0 <= i < |t| && t[i] == u;
    assert FindById(t, u.id) == Some(u) by {
      assert IdIndex(t, u.id) == i;
    }
    CountAheadPermutation(t, p, u);
    SortedPositionCount(p, k);
    SortedAheadPrefix(p, k);
  }

  /** The length of the run of rows from position `i` on that are ahead of `u`. */
  function LeadingAhead(s: seq<User>, u: User, i: nat): (m: nat)
    requires i <= |s|
    ensures i <= m <= |s|
    ensures forall j :: i <= j < m ==> Ahead(s[j], u)
    ensures m == |s| || !Ahead(s[m], u)
    decreases |s| - i
  {
    if i == |s| || !Ahead(s[i], u) then i else LeadingAhead(s, u, i + 1)
  }

  /** In a sorted list the rows ahead of the row at position `k` are exactly the first
      `CountAhead` positions: the rank is one past the start of the row's tie group. */
  lemma SortedAheadPrefix(p: seq<User>, k: int)
    requires Sorted(p) && 0 <= k < |p|
    ensures forall j :: 0 <= j < |p| ==> (j < CountAhead(p, p[k]) <==> Ahead(p[j], p[k]))
  {
    var u := p[k];
    var m := LeadingAhead(p, u, 0);
    forall j | m < j < |p| ensures !Ahead(p[j], u) {
      assert !Ahead(p[j], p[m]);
    }
    SplitCount(p, u, m);
    assert CountAhead(p, u) == m;
  }

  /** When the first `m` rows are ahead of `u` and the rest are not, `m` rows are ahead. */
  lemma SplitCount(p: seq<User>, u: User, m: nat)
    requires m <= |p|
    requires forall j :: 0 <= j < m ==> Ahead(p[j], u)
    requires forall j :: m <= j < |p| ==> !Ahead(p[j], u)
    ensures CountAhead(p, u) == m
  {
    assert p == p[..m] + p[m..];
    CountAheadAppend(p[..m], p[m..], u);
    assert CountAhead(p[..m], u) == m by {
      forall j | 0 <= j < m ensures Ahead(p[..m][j], u) {
        assert p[..m][j] == p[j];
      }
    }
    assert CountAhead(p[m..], u) == 0 by {
      forall j | 0 <= j < |p| - m ensures !Ahead(p[m..][j], u) {
        assert p[m..][j] == p[m + j];
      }
    }
  }

  /** In a sorted list only the rows before position `k` can be ahead of the row there, and
      all of them are unless one ties with it. */
  lemma SortedPositionCount(p: seq<User>, k: int)
    requires Sorted(p) && 0 <= k < |p|
    ensures CountAhead(p, p[k]) <= k
    ensures (forall i :: 0 <= i < |p| && i != k ==> !Tied(p[i], p[k])) ==> CountAhead(p, p[k]) == k
  {
    SortedAheadPrefix(p, k);
    if forall i :: 0 <= i < |p| && i != k ==> !Tied(p[i], p[k]) {
      if k > 0 {
        assert !Ahead(p[k], p[k - 1]) && !Tied(p[k - 1], p[k]);
      }
    }
  }

  // ---------------------------------------------------------------------------
  // Worked examples
  // ---------------------------------------------------------------------------

  /** With `limit=1` over users with 50 and 80 xp, the board is the 80-xp user at rank 1. */
  lemma LimitOneExample(a: User, b: User)
    requires a.xp == 50 && b.xp == 80
    ensures Leaderboard([a, b], Some("1"), true) ==
            Ok([LeaderboardEntry(b.id, b.name, 80, b.accuracy, b.totalQuestions, 1)])
  {
    LimitOneBoard(a, b);
    assert ToEntries([b]) == [LeaderboardEntry(b.id, b.name, 80, b.accuracy, b.totalQuestions, 1)];
  }

  /** The board half of the example: the sorted table cut to one row. */
  lemma LimitOneBoard(a: User, b: User)
    requires a.xp == 50 && b.xp == 80
    ensures Board([a, b], Some("1")) == [b]
  {
    LimitOfOne();
    assert SortByScore([b]) == [b];
    assert [a, b][1..] == [b];
    assert Insert(a, []) == [a];
    assert Insert(a, [b]) == [b, a];
    assert SortByScore([a, b]) == [b, a];
  }

  /** `?limit=1` asks for one row. */
  lemma LimitOfOne()
    ensures EffectiveLimit(Some("1")) == 1
  {
    EffectiveLimitOfNumeral(1);
    assert DigitChar(1) == '1';
    assert IntToString(1) == "1";
  }

  /** A user level on xp with the top scorer but less accurate is ranked 2. */
  lemma RankTwoExample(top: User, second: User)
    requires top.id != second.id
    requires top.xp == second.xp && top.accuracy > second.accuracy
    ensures UserRank([top, second], second.id, true) == Ok(2)
  {
    var t := [top, second];
    assert t[1..] == [second];
    assert IdIndex([second], second.id) == 0;
    assert IdIndex(t, second.id) == 1;
    assert FindById(t, second.id) == Some(second);
    assert CountAhead([second], second) == 0;
    assert CountAhead(t, second) == 1;
  }
}
