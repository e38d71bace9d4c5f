/** The leaderboard server's `users` table and the request handlers that read and write it
    (server.js). The SQLite table is a sequence of rows in insertion order; each handler is
    a pure transition that returns the new table together with either the JSON response
    or an HTTP error. Storage failures, fresh ids and timestamps come in as parameters. */
module Users {
  import opened Wrappers
  import opened JsText

  /** One row of the `users` table, with the field names of the JSON responses. */
  datatype User = User(
    id: string,
    name: string,
    xp: int,
    totalQuestions: int,
    correctAnswers: int,
    accuracy: int,
    lastPlayed: string,
    createdAt: string)

  /** The `users` table, rows in insertion (rowid) order. */
  type Table = seq<User>

  /** An error response: HTTP status and the `error` text of the JSON body. */
  datatype HttpError = HttpError(status: int, message: string)

  /** A field of a parsed JSON request body; `Missing` is an absent key (`undefined`).
      Numbers are integral; arrays and objects are `Compound`. */
  datatype Json = Missing | Null | Bool(b: bool) | Number(n: int) | Str(s: string) | Compound

  /** JavaScript truthiness of a body field. */
  predicate Truthy(v: Json) {
    match v
    case Missing => false
    case Null => false
    case Bool(b) => b
    case Number(n) => n != 0
    case Str(s) => |s| > 0
    case Compound => true
  }

  /** What a mutating handler produces: the table afterwards and the response. */
  datatype Reply<T> = Reply(table: Table, result: Result<T, HttpError>)

  // ---------------------------------------------------------------------------
  // Accuracy
  // ---------------------------------------------------------------------------

  /** `calculateAccuracy`: the percentage of correct answers rounded half up
      (`Math.round`), and 0 before any question has been answered. The second ensures
      pins `a` down as the integer nearest to 100 * correct / total. */
  function CalculateAccuracy(correct: int, total: int): (a: int)
    ensures total <= 0 ==> a == 0
    ensures total > 0 ==> (2 * a - 1) * total <= 200 * correct < (2 * a + 1) * total
    ensures 0 <= correct <= total ==> 0 <= a <= 100
  {
    if total > 0 then
      var a := (200 * correct + total) / (2 * total);
      AccuracyBounds(correct, total, a);
      a
    else 0
  }

  /** 23 right out of 40 is 57.5 per cent, which rounds half up to 58. */
  lemma AccuracyOfTwentyThreeInForty()
    ensures CalculateAccuracy(23, 40) == 58
  {
  }

  /** Rounding `correct / total` to a percentage stays within [0, 100]. */
  lemma AccuracyBounds(correct: int, total: int, a: int)
    requires total > 0 && a == (200 * correct + total) / (2 * total)
    ensures (2 * a - 1) * total <= 200 * correct < (2 * a + 1) * total
    ensures 0 <= correct <= total ==> 0 <= a <= 100
  {
    var d := 2 * total;
    var m := (200 * correct + total) % d;
    assert 200 * correct + total == d * a + m && 0 <= m < d;
    assert (2 * a - 1) * total == d * a - total;
    assert (2 * a + 1) * total == d * a + total;
    if 0 <= correct <= total {
      PercentInRange(correct, total, a);
    }
  }

  /** The nearest percentage of a fraction in [0, 1] lies in [0, 100]. */
  lemma PercentInRange(correct: int, total: int, a: int)
    requires 0 <= correct <= total && total > 0
    requires (2 * a - 1) * total <= 200 * correct < (2 * a + 1) * total
    ensures 0 <= a <= 100
  {
    ScaleMonotone(correct, total, 200);
    if a > 100 {
      ScaleMonotone(201, 2 * a - 1, total);
      assert false;
    }
    if a < 0 {
      ScaleMonotone(2 * a + 1, -1, total);
      ScaleMonotone(0, correct, 200);
      assert false;
    }
  }

  /** Multiplying by a non-negative factor keeps an order. */
  lemma ScaleMonotone(x: int, y: int, k: int)
    requires x <= y && k >= 0
    ensures x * k <= y * k
  {
    var d := y - x;
    assert y * k == x * k + d * k;
  }

  // ---------------------------------------------------------------------------
  // Table invariants
  // ---------------------------------------------------------------------------

  /** A row whose counters are consistent and whose accuracy is not stale. */
  predicate ValidUser(u: User) {
    && 0 <= u.correctAnswers <= u.totalQuestions
    && u.accuracy == CalculateAccuracy(u.correctAnswers, u.totalQuestions)
  }

  /** `id` is the PRIMARY KEY. */
  predicate UniqueIds(t: Table) {
    forall i, j :: 0 <= i < j < |t| ==> t[i].id != t[j].id
  }

  predicate ValidTable(t: Table) {
    UniqueIds(t) && forall i :: 0 <= i < |t| ==> ValidUser(t[i])
  }

  /** No two rows whose names agree under `LOWER`. */
  predicate DistinctNames(t: Table) {
    forall i, j :: 0 <= i < j < |t| ==> !SameIgnoringCase(t[i].name, t[j].name)
  }

  predicate HasId(t: Table, id: string) {
    exists i :: 0 <= i < |t| && t[i].id == id
  }

  // ---------------------------------------------------------------------------
  // Row lookup
  // ---------------------------------------------------------------------------

  /** Index of the first row with this id, or `|t|` when there is none: the row `db.get`
      hands back for `WHERE id = ?`. */
  function IdIndex(t: Table, id: string): (k: nat)
    ensures k <= |t|
    ensures k < |t| ==> t[k].id == id
    ensures forall j :: 0 <= j < k ==> t[j].id != id
  {
    if |t| == 0 then 0
    else if t[0].id == id then 0
    else 1 + IdIndex(t[1..], id)
  }

  /** Index of the first row whose name matches under `LOWER`, or `|t|` when there is none:
      the row `db.get` hands back for `WHERE LOWER(name) = LOWER(?)`. */
  function NameIndex(t: Table, name: string): (k: nat)
    ensures k <= |t|
    ensures k < |t| ==> SameIgnoringCase(t[k].name, name)
    ensures forall j :: 0 <= j < k ==> !SameIgnoringCase(t[j].name, name)
  {
    if |t| == 0 then 0
    else if SameIgnoringCase(t[0].name, name) then 0
    else 1 + NameIndex(t[1..], name)
  }

  /** `SELECT * FROM users WHERE id = ?`. */
  function FindById(t: Table, id: string): (r: Option<User>)
    ensures r.None? <==> !HasId(t, id)
    ensures r.Some? ==> r.value in t && r.value.id == id
  {
    var k := IdIndex(t, id);
    if k < |t| then Some(t[k]) else None
  }

  /** `SELECT * FROM users WHERE LOWER(name) = LOWER(?)`. */
  function FindByName(t: Table, name: string): (r: Option<User>)
    ensures r.None? <==> forall i :: 0 <= i < |t| ==> !SameIgnoringCase(t[i].name, name)
    ensures r.Some? ==> r.value in t && SameIgnoringCase(r.value.name, name)
  {
    var k := NameIndex(t, name);
    if k < |t| then Some(t[k]) else None
  }

  /** `UPDATE users SET ... WHERE id = ?`: every row with that id is rewritten by `f`. */
  function UpdateWhereId(t: Table, id: string, f: User -> User): (r: Table)
    ensures |r| == |t|
    ensures forall i :: 0 <= i < |t| ==> r[i] == (if t[i].id == id then f(t[i]) else t[i])
  {
    seq(|t|, i requires 0 <= i < |t| => if t[i].id == id then f(t[i]) else t[i])
  }

  // ---------------------------------------------------------------------------
  // POST /api/users: find or create
  // ---------------------------------------------------------------------------

  /** The row inserted for a new name: zeroed counters, both timestamps `now`. */
  function NewUser(id: string, name: string, now: string): User {
    User(id, name, 0, 0, 0, 0, now, now)
  }

  /** A `name` field that passes the handler's guard: a string with a non-blank character. */
  predicate AcceptableName(name: Json) {
    name.Str? && !AllSpaces(name.s)
  }

  /** POST /api/users. A falsy or blank name is a 400; a truthy non-string name makes
      `name.trim()` throw, which the framework answers with 500. Otherwise the trimmed name
      is looked up case-insensitively and the first match is returned as is; when there is
      none, a zeroed row with id `freshId` is inserted. `readOk`/`writeOk` say whether the
      SELECT and the INSERT succeed; an INSERT with an id already in the table fails. */
  function CreateOrGetUser(t: Table, name: Json, freshId: string, now: string,
                           readOk: bool, writeOk: bool): (r: Reply<User>)
    ensures r.result.Err? ==> r.table == t
    ensures r.result.Err? && r.result.error.status == 400
            <==> !Truthy(name) || (name.Str? && AllSpaces(name.s))
    ensures r.result.Err? && r.result.error.status != 400 ==> r.result.error.status == 500
    ensures Truthy(name) && !name.Str? ==> r.result.Err? && r.result.error.status == 500
    ensures r.result.Ok? <==>
              AcceptableName(name) && readOk &&
              (FindByName(t, Trim(name.s)).Some? || (writeOk && !HasId(t, freshId)))
    ensures r.result.Ok? ==> SameIgnoringCase(r.result.value.name, Trim(name.s))
    ensures r.result.Ok? && FindByName(t, Trim(name.s)).Some? ==>
              r.table == t && r.result.value in t
    ensures r.result.Ok? && FindByName(t, Trim(name.s)).None? ==>
              r.result.value == NewUser(freshId, Trim(name.s), now) &&
              r.table == t + [r.result.value]
  {
    if !Truthy(name) then Reply(t, Err(HttpError(400, "Name is required")))
    else if !name.Str? then Reply(t, Err(HttpError(500, "name.trim is not a function")))
    else
      var trimmed := Trim(name.s);
      if trimmed == "" then Reply(t, Err(HttpError(400, "Name is required")))
      else if !readOk then Reply(t, Err(HttpError(500, "Database error")))
      else match FindByName(t, trimmed)
        case Some(existing) => Reply(t, Ok(existing))
        case None =>
          if !writeOk || HasId(t, freshId) then
            Reply(t, Err(HttpError(500, "Failed to create user")))
          else
            var u := NewUser(freshId, trimmed, now);
            Reply(t + [u], Ok(u))
  }

  /** Find-or-create keeps every table invariant: the new row is zeroed, and a colliding
      id never gets in because the INSERT fails. */
  lemma CreateOrGetPreservesInvariants(t: Table, name: Json, freshId: string, now: string,
                                       readOk: bool, writeOk: bool)
    requires ValidTable(t) && DistinctNames(t)
    ensures var r := CreateOrGetUser(t, name, freshId, now, readOk, writeOk);
            ValidTable(r.table) && DistinctNames(r.table) && |t| <= |r.table| <= |t| + 1
  {
    if AcceptableName(name) && readOk && FindByName(t, Trim(name.s)).None?
       && writeOk && !HasId(t, freshId) {
      var u := NewUser(freshId, Trim(name.s), now);
      assert CreateOrGetUser(t, name, freshId, now, readOk, writeOk).table == t + [u];
      AppendRowPreservesInvariants(t, u);
    }
  }

  /** Appending a consistent row whose id and name are new keeps the invariants. */
  lemma AppendRowPreservesInvariants(t: Table, u: User)
    requires ValidTable(t) && DistinctNames(t) && ValidUser(u) && !HasId(t, u.id)
    requires forall i :: 0 <= i < |t| ==> !SameIgnoringCase(t[i].name, u.name)
    ensures ValidTable(t + [u]) && DistinctNames(t + [u])
  {
    var t' := t + [u];
    forall i, j | 0 <= i < j < |t'| ensures t'[i].id != t'[j].id
      && !SameIgnoringCase(t'[i].name, t'[j].name) {
      if j == |t| {
        assert t'[j] == u && t'[i] == t[i];
      } else {
        assert t'[i] == t[i] && t'[j] == t[j];
      }
    }
  }

  /** Submitting the same name twice, in any mix of letter case and surrounding blanks,
      yields the same user: the second call finds the row the first returned and leaves the
      table alone. */
  lemma {:induction false} CreateTwiceSameUser(t: Table, a: Json, b: Json,
                                               id1: string, id2: string, now1: string, now2: string,
                                               w1: bool, w2: bool)
    requires AcceptableName(a) && AcceptableName(b)
    requires SameIgnoringCase(Trim(a.s), Trim(b.s))
    requires FindByName(t, Trim(a.s)).Some? || (w1 && !HasId(t, id1))
    ensures var first := CreateOrGetUser(t, a, id1, now1, true, w1);
            var second := CreateOrGetUser(first.table, b, id2, now2, true, w2);
            second.result == first.result && second.table == first.table
  {
    var first := CreateOrGetUser(t, a, id1, now1, true, w1);
    var u := first.result.value;
    var na := Trim(a.s);
    var nb := Trim(b.s);
    NameIndexIgnoresCase(t, na, nb);
    if FindByName(t, na).Some? {
      assert first == Reply(t, Ok(u));
      assert FindByName(t, nb) == Some(u);
    } else {
      assert first.table == t + [u];
      NameIndexAppend(t, u, nb);
      assert FindByName(t + [u], nb) == Some(u);
    }
    CreateOrGetFound(first.table, b, id2, now2, w2, u);
  }

  /** When the trimmed name is already in the table, find-or-create returns that row. */
  lemma CreateOrGetFound(t: Table, name: Json, freshId: string, now: string, writeOk: bool, v: User)
    requires AcceptableName(name) && FindByName(t, Trim(name.s)) == Some(v)
    ensures CreateOrGetUser(t, name, freshId, now, true, writeOk) == Reply(t, Ok(v))
  {
    assert Truthy(name);
  }

  /** The name lookup sees only the lower-cased name. */
  lemma {:induction false} NameIndexIgnoresCase(t: Table, a: string, b: string)
    requires SameIgnoringCase(a, b)
    ensures NameIndex(t, a) == NameIndex(t, b)
    decreases |t|
  {
    if |t| > 0 {
      NameIndexIgnoresCase(t[1..], a, b);
    }
  }

  /** A name absent from `t` is found at the row appended after it. */
  lemma {:induction false} NameIndexAppend(t: Table, u: User, name: string)
    requires NameIndex(t, name) == |t| && SameIgnoringCase(u.name, name)
    ensures NameIndex(t + [u], name) == |t|
    decreases |t|
  {
    if |t| > 0 {
      assert (t + [u])[1..] == t[1..] + [u];
      assert !SameIgnoringCase(t[0].name, name);
      NameIndexAppend(t[1..], u, name);
    }
  }

  // ---------------------------------------------------------------------------
  // GET /api/users/:id
  // ---------------------------------------------------------------------------

  /** GET /api/users/:id: the row with that id, 404 when there is none, 500 when the
      SELECT fails. */
  function GetUser(t: Table, id: string, readOk: bool): (r: Result<User, HttpError>)
    ensures r.Ok? ==> r.value in t && r.value.id == id
    ensures r.Ok? <==> readOk && HasId(t, id)
    ensures r.Err? ==> r.error.status == (if readOk then 404 else 500)
  {
    if !readOk then Err(HttpError(500, "Database error"))
    else match FindById(t, id)
      case None => Err(HttpError(404, "User not found"))
      case Some(u) => Ok(u)
  }

  // ---------------------------------------------------------------------------
  // PUT /api/users/:id/stats
  // ---------------------------------------------------------------------------

  /** The row after one answered question. */
  function Answered(u: User, correct: bool, xpGained: int, now: string): User {
    var total := u.totalQuestions + 1;
    var right := u.correctAnswers + (if correct then 1 else 0);
    u.(xp := u.xp + xpGained, totalQuestions := total, correctAnswers := right,
       accuracy := CalculateAccuracy(right, total), lastPlayed := now)
  }

  /** PUT /api/users/:id/stats. The body must carry a boolean `correct` and a numeric
      `xpGained` (else 400); the row is read (500 on failure, 404 when absent), its counters
      advanced and accuracy recomputed, and the row written back (500 when the UPDATE fails).
      The response is the updated row. */
  function UpdateStats(t: Table, id: string, correct: Json, xpGained: Json, now: string,
                       readOk: bool, writeOk: bool): (r: Reply<User>)
    ensures r.result.Err? ==> r.table == t
    ensures r.result.Err? && r.result.error.status == 400 <==> !(correct.Bool? && xpGained.Number?)
    ensures r.result.Err? && r.result.error.status == 404 <==>
              correct.Bool? && xpGained.Number? && readOk && !HasId(t, id)
    ensures r.result.Ok? <==> correct.Bool? && xpGained.Number? && readOk && writeOk && HasId(t, id)
    ensures r.result.Err? ==> r.result.error.status in {400, 404, 500}
    ensures r.result.Err? && correct.Bool? && xpGained.Number? && !(readOk && !HasId(t, id)) ==>
              r.result.error.status == 500
    ensures r.result.Ok? ==>
              var before := FindById(t, id).value;
              var u := r.result.value;
              && u.id == id && u.name == before.name && u.createdAt == before.createdAt
              && u.totalQuestions == before.totalQuestions + 1
              && u.correctAnswers == before.correctAnswers + (if correct.b then 1 else 0)
              && u.xp == before.xp + xpGained.n
              && u.accuracy == CalculateAccuracy(u.correctAnswers, u.totalQuestions)
              && u.lastPlayed == now
              && r.table == UpdateWhereId(t, id, _ => u)
  {
    if !correct.Bool? || !xpGained.Number? then Reply(t, Err(HttpError(400, "Invalid data provided")))
    else if !readOk then Reply(t, Err(HttpError(500, "Database error")))
    else match FindById(t, id)
      case None => Reply(t, Err(HttpError(404, "User not found")))
      case Some(row) =>
        var u := Answered(row, correct.b, xpGained.n, now);
        if !writeOk then Reply(t, Err(HttpError(500, "Failed to update user stats")))
        else Reply(UpdateWhereId(t, id, _ => u), Ok(u))
  }

  /** An answered question keeps `correctAnswers <= totalQuestions`, keeps accuracy equal to
      its recomputed value, and touches only the answering user's row. */
  lemma UpdateStatsPreservesInvariants(t: Table, id: string, correct: Json, xpGained: Json,
                                       now: string, readOk: bool, writeOk: bool)
    requires ValidTable(t) && DistinctNames(t)
    ensures var r := UpdateStats(t, id, correct, xpGained, now, readOk, writeOk);
            && ValidTable(r.table) && DistinctNames(r.table) && |r.table| == |t|
            && forall i :: 0 <= i < |t| && t[i].id != id ==> r.table[i] == t[i]
  {
    var r := UpdateStats(t, id, correct, xpGained, now, readOk, writeOk);
    if r.result.Ok? {
      var before := FindById(t, id).value;
      assert ValidUser(before);
      ReplaceRowPreservesInvariants(t, id, r.result.value);
    }
  }

  /** Replacing the row of `id` by a valid row with the same id and name keeps the table's
      invariants. */
  lemma ReplaceRowPreservesInvariants(t: Table, id: string, u: User)
    requires ValidTable(t) && DistinctNames(t) && ValidUser(u) && u.id == id
    requires forall i :: 0 <= i < |t| && t[i].id == id ==> t[i].name == u.name
    ensures var t' := UpdateWhereId(t, id, _ => u);
            ValidTable(t') && DistinctNames(t')
  {
    var t' := UpdateWhereId(t, id, _ => u);
    assert forall i :: 0 <= i < |t| ==> t'[i].id == t[i].id && t'[i].name == t[i].name;
  }

  // ---------------------------------------------------------------------------
  // PUT /api/users/:id/reset
  // ---------------------------------------------------------------------------

  /** The row after a reset: every counter and the accuracy back to 0. */
  function Zeroed(u: User, now: string): User {
    u.(xp := 0, totalQuestions := 0, correctAnswers := 0, accuracy := 0, lastPlayed := now)
  }

  /** PUT /api/users/:id/reset: a single UPDATE. 500 when it fails, 404 when it changed no
      row, otherwise every row with that id is zeroed and stamped. */
  function ResetUser(t: Table, id: string, now: string, writeOk: bool): (r: Reply<string>)
    ensures r.result.Err? ==> r.table == t
    ensures r.result.Err? ==> r.result.error.status == (if writeOk then 404 else 500)
    ensures r.result.Ok? <==> writeOk && HasId(t, id)
    ensures |r.table| == |t|
    ensures forall i :: 0 <= i < |t| && t[i].id != id ==> r.table[i] == t[i]
    ensures r.result.Ok? ==> forall i :: 0 <= i < |t| && t[i].id == id ==>
              var u := r.table[i];
              && u.xp == 0 && u.totalQuestions == 0 && u.correctAnswers == 0 && u.accuracy == 0
              && u.lastPlayed == now
              && u.id == t[i].id && u.name == t[i].name && u.createdAt == t[i].createdAt
  {
    if !writeOk then Reply(t, Err(HttpError(500, "Failed to reset user data")))
    else if !HasId(t, id) then Reply(t, Err(HttpError(404, "User not found")))
    else Reply(UpdateWhereId(t, id, u => Zeroed(u, now)), Ok("User data reset successfully"))
  }

  /** A reset keeps every table invariant: zero counters have zero accuracy. */
  lemma ResetPreservesInvariants(t: Table, id: string, now: string, writeOk: bool)
    requires ValidTable(t) && DistinctNames(t)
    ensures var r := ResetUser(t, id, now, writeOk);
            ValidTable(r.table) && DistinctNames(r.table)
  {
    var r := ResetUser(t, id, now, writeOk);
    assert forall i :: 0 <= i < |t| ==> r.table[i].id == t[i].id && r.table[i].name == t[i].name;
  }

  // ---------------------------------------------------------------------------
  // GET /api/users/count
  // ---------------------------------------------------------------------------

  /** GET /api/users/count: `SELECT COUNT(*) FROM users`. */
  function CountUsers(t: Table, readOk: bool): (r: Result<int, HttpError>)
    ensures r.Ok? <==> readOk
    ensures r.Ok? ==> r.value == |t|
    ensures r.Err? ==> r.error.status == 500
  {
    if readOk then Ok(|t|) else Err(HttpError(500, "Database error"))
  }

  // ---------------------------------------------------------------------------
  // The worked example of a new user answering two questions
  // ---------------------------------------------------------------------------

  /** A new user "Ari" answers one question right for 10 XP and one wrong for 0 XP:
      counters go 0/0 -> 1/1 (accuracy 100) -> 1/2 (accuracy 50). */
  lemma AriExample()
    ensures var c := CreateOrGetUser([], Str("Ari"), "u1", "t0", true, true);
            && c.result == Ok(NewUser("u1", "Ari", "t0"))
            && var s1 := UpdateStats(c.table, "u1", Bool(true), Number(10), "t1", true, true);
            && s1.result.Ok?
            && s1.result.value.totalQuestions == 1 && s1.result.value.correctAnswers == 1
            && s1.result.value.xp == 10 && s1.result.value.accuracy == 100
            && var s2 := UpdateStats(s1.table, "u1", Bool(false), Number(0), "t2", true, true);
            && s2.result.Ok?
            && s2.result.value.totalQuestions == 2 && s2.result.value.correctAnswers == 1
            && s2.result.value.xp == 10 && s2.result.value.accuracy == 50
  {
    assert !IsJsSpace("Ari"[0]);
    assert Trim("Ari") == "Ari";
    var u0 := NewUser("u1", "Ari", "t0");
    assert CreateOrGetUser([], Str("Ari"), "u1", "t0", true, true) == Reply([u0], Ok(u0));
    assert CalculateAccuracy(1, 1) == 100;
    assert CalculateAccuracy(1, 2) == 50;
    var u1 := Answered(u0, true, 10, "t1");
    AnswerSingleRow(u0, true, 10, "t1");
    AnswerSingleRow(u1, false, 0, "t2");
  }

  /** On a one-row table, a well-formed stats update rewrites that row with `Answered`. */
  lemma AnswerSingleRow(u: User, correct: bool, xpGained: int, now: string)
    ensures var v := Answered(u, correct, xpGained, now);
            UpdateStats([u], u.id, Bool(correct), Number(xpGained), now, true, true) == Reply([v], Ok(v))
  {
    var v := Answered(u, correct, xpGained, now);
    assert FindById([u], u.id) == Some(u);
    assert UpdateWhereId([u], u.id, _ => v) == [v];
  }
}
