/** The client-side user cache of userManager.ts: the current user held in memory and its
    copy under the `mathmentor_current_user` key of localStorage. Server calls are
    parameters: each operation receives what the API returned, as a `Result` whose error
    is the message the API layer throws. */
module UserCache {
  import opened Wrappers
  import opened Users
  import opened Ranking
  import opened Routes

  /** The storage key's content: absent, a saved user, or text that does not parse. */
  datatype Stored = Empty | Saved(user: User) | Corrupt

  datatype Cache = Cache(current: Option<User>, stored: Stored)

  /** What the API layer returns: the parsed body, or the message of the error it throws. */
  type Api<T> = Result<T, string>

  /** The stored key mirrors the current user: present with the same user exactly when
      there is one. */
  predicate Mirrors(c: Cache) {
    match c.current
    case Some(u) => c.stored == Saved(u)
    case None => c.stored == Empty
  }

  /** `saveCurrentUser`: write the current user under the key, or remove the key. */
  function Save(c: Cache): (r: Cache)
    ensures Mirrors(r) && r.current == c.current
  {
    match c.current
    case Some(u) => c.(stored := Saved(u))
    case None => c.(stored := Empty)
  }

  /** `loadCurrentUser`: a stored user replaces the current one, text that does not parse
      clears it, an absent key leaves it alone. */
  function Load(c: Cache): (r: Cache)
    ensures r.stored == c.stored
    ensures c.stored.Saved? ==> r.current == Some(c.stored.user)
    ensures c.stored.Corrupt? ==> r.current.None?
    ensures c.stored.Empty? ==> r.current == c.current
  {
    match c.stored
    case Saved(u) => c.(current := Some(u))
    case Corrupt => c.(current := None)
    case Empty => c
  }

  /** The manager as a new page session constructs it: nothing in memory, then a load. */
  function Start(stored: Stored): Cache {
    Load(Cache(None, stored))
  }

  /** Saving then starting a new session restores exactly the user that was current. */
  lemma SaveThenStartRestores(c: Cache)
    ensures Start(Save(c).stored).current == c.current
    ensures Mirrors(Start(Save(c).stored))
  {
  }

  /** `createUser`: on success the returned user becomes current and is saved; on failure
      the error propagates and nothing changes. */
  function CreateUser(c: Cache, response: Api<User>): (r: (Cache, Api<User>))
    ensures r.1 == response
    ensures response.Ok? ==> r.0.current == Some(response.value) && Mirrors(r.0)
    ensures response.Err? ==> r.0 == c
  {
    match response
    case Ok(u) => (Save(c.(current := Some(u))), Ok(u))
    case Err(e) => (c, Err(e))
  }

  /** `updateUserStats`: without a current user nothing is sent and nothing changes; else
      the server's updated row replaces the cached one and is saved, and a failure leaves
      the cache as it was and propagates. */
  function UpdateUserStats(c: Cache, response: Api<User>): (r: (Cache, Api<()>))
    ensures c.current.None? ==> r == (c, Ok(()))
    ensures c.current.Some? && response.Ok? ==>
              r.0.current == Some(response.value) && Mirrors(r.0) && r.1.Ok?
    ensures c.current.Some? && response.Err? ==> r == (c, Err(response.error))
  {
    if c.current.None? then (c, Ok(()))
    else match response
      case Ok(u) => (Save(c.(current := Some(u))), Ok(()))
      case Err(e) => (c, Err(e))
  }

  /** `resetUserData`: the reset call, then a fetch of the reset row. Without a current user
      it does nothing; if either call fails the cache is kept and the error propagates. */
  function ResetUserData(c: Cache, reset: Api<()>, refetch: Api<User>): (r: (Cache, Api<()>))
    ensures c.current.None? ==> r == (c, Ok(()))
    ensures c.current.Some? && reset.Ok? && refetch.Ok? ==>
              r.0.current == Some(refetch.value) && Mirrors(r.0) && r.1.Ok?
    ensures c.current.Some? && reset.Err? ==> r == (c, Err(reset.error))
    ensures c.current.Some? && reset.Ok? && refetch.Err? ==> r == (c, Err(refetch.error))
  {
    if c.current.None? then (c, Ok(()))
    else if reset.Err? then (c, Err(reset.error))
    else match refetch
      case Ok(u) => (Save(c.(current := Some(u))), Ok(()))
      case Err(e) => (c, Err(e))
  }

  /** `logout`: forget the user in memory and in storage. */
  function Logout(c: Cache): (r: Cache)
    ensures !HasUser(r) && r.stored == Empty
  {
    Save(c.(current := None))
  }

  /** `hasUser`: whether a user is current; in a mirrored cache, whether the key holds one. */
  function HasUser(c: Cache): (b: bool)
    ensures Mirrors(c) ==> (b <==> c.stored.Saved?)
  {
    c.current.Some?
  }

  /** After a logout a new session starts without a user. */
  lemma LogoutIsFinal(c: Cache)
    ensures !HasUser(Start(Logout(c).stored))
  {
  }

  /** Every successful operation leaves the key mirroring the current user, so an
      operation that starts from a mirrored cache ends in one. */
  lemma OperationsKeepMirror(c: Cache, created: Api<User>, updated: Api<User>,
                             reset: Api<()>, refetch: Api<User>)
    requires Mirrors(c)
    ensures Mirrors(CreateUser(c, created).0)
    ensures Mirrors(UpdateUserStats(c, updated).0)
    ensures Mirrors(ResetUserData(c, reset, refetch).0)
    ensures Mirrors(Logout(c))
  {
  }

  // ---------------------------------------------------------------------------
  // Fallbacks
  // ---------------------------------------------------------------------------

  /** `getLeaderboard`: a failed fetch yields the empty list. */
  function GetLeaderboard(response: Api<seq<LeaderboardEntry>>): (r: seq<LeaderboardEntry>)
    ensures response.Ok? ==> r == response.value
    ensures response.Err? ==> r == []
  {
    response.GetOr([])
  }

  /** `getUserRank`: a failed fetch yields 0. */
  function GetUserRank(response: Api<int>): (r: int)
    ensures response.Ok? ==> r == response.value
    ensures response.Err? ==> r == 0
  {
    response.GetOr(0)
  }

  /** `getUserCount`: a failed fetch yields 0. */
  function GetUserCount(response: Api<int>): (r: int)
    ensures response.Ok? ==> r == response.value
    ensures response.Err? ==> r == 0
  {
    response.GetOr(0)
  }

  // ---------------------------------------------------------------------------
  // Against the server model
  // ---------------------------------------------------------------------------

  /** The API layer (`request` in apiService.ts) throws on a non-ok response and passes a
      success through. The thrown message is the server's `error` text; replies the
      framework writes itself carry no JSON body and throw 'Unknown error' instead, a
      difference the model does not draw. */
  function FromServer<T>(r: Result<T, HttpError>): (a: Api<T>)
    ensures r.Ok? <==> a.Ok?
    ensures r.Ok? ==> a.value == r.value
  {
    match r
    case Ok(v) => Ok(v)
    case Err(e) => Err(e.message)
  }

  /** A rank from the server is at least 1, so the client's fallback 0 only ever means the
      server failed. */
  lemma RankZeroMeansFailure(t: Table, id: string, readOk: bool)
    ensures GetUserRank(FromServer(UserRank(t, id, readOk))) == 0 <==> !readOk
  {
  }

  /** The cached user agrees with its row in the server's table. */
  predicate Synced(c: Cache, t: Table) {
    c.current.Some? ==> FindById(t, c.current.value.id) == c.current
  }

  /** A stats update that the server applies leaves the cache in step with the table. */
  lemma StatsUpdateKeepsSync(c: Cache, t: Table, correct: bool, xp: int, now: string,
                             readOk: bool, writeOk: bool)
    requires ValidTable(t) && Synced(c, t) && c.current.Some?
    ensures var reply := UpdateStats(t, c.current.value.id, Bool(correct), Number(xp), now,
                                     readOk, writeOk);
            Synced(UpdateUserStats(c, FromServer(reply.result)).0, reply.table)
  {
    var id := c.current.value.id;
    var reply := UpdateStats(t, id, Bool(correct), Number(xp), now, readOk, writeOk);
    if reply.result.Ok? {
      UpdatedRowFound(t, id, reply.result.value);
    }
  }

  /** After an update by id, looking the id up finds the new row. */
  lemma UpdatedRowFound(t: Table, id: string, u: User)
    requires UniqueIds(t) && HasId(t, id) && u.id == id
    ensures FindById(UpdateWhereId(t, id, _ => u), id) == Some(u)
  {
    var t' := UpdateWhereId(t, id, _ => u);
    var k := IdIndex(t, id);
    assert t'[k] == u;
    assert HasId(t', id);
    assert IdIndex(t', id) == k by { IdIndexUnique(t', id, k); }
  }

  /** With unique ids, the row holding an id is the one the lookup finds. */
  lemma IdIndexUnique(t: Table, id: string, k: nat)
    requires UniqueIds(t) && k < |t| && t[k].id == id
    ensures IdIndex(t, id) == k
  {
  }

  /** Reset then refetch, both served by the server, leaves the cache in step with the
      table when the refetch can read. */
  lemma ResetKeepsSync(c: Cache, t: Table, now: string, writeOk: bool)
    requires ValidTable(t) && Synced(c, t) && c.current.Some?
    ensures var id := c.current.value.id;
            var reset := ResetUser(t, id, now, writeOk);
            var refetch := GetUser(reset.table, id, true);
            Synced(ResetUserData(c, Unit(reset.result), FromServer(refetch)).0, reset.table)
  {
  }

  /** But when the reset is applied and the refetch fails, the cache keeps the old counters
      while the table holds zeros: the two disagree until the next successful update. */
  lemma ResetWithFailedRefetchIsStale(c: Cache, t: Table, now: string)
    requires ValidTable(t) && Synced(c, t) && c.current.Some? && c.current.value.xp != 0
    ensures var id := c.current.value.id;
            var reset := ResetUser(t, id, now, true);
            var refetch := GetUser(reset.table, id, false);
            var r := ResetUserData(c, Unit(reset.result), FromServer(refetch));
            r.1.Err? && !Synced(r.0, reset.table)
  {
    var id := c.current.value.id;
    var reset := ResetUser(t, id, now, true);
    assert HasId(t, id);
    UpdatedRowFound(t, id, Zeroed(FindById(t, id).value, now));
  }

  /** The reset call's reply as the API layer returns it. */
  function Unit(r: Result<string, HttpError>): (a: Api<()>)
    ensures r.Ok? <==> a.Ok?
    ensures r.Err? ==> a == Err(r.error.message)
  {
    match r
    case Ok(_) => Ok(())
    case Err(e) => Err(e.message)
  }

  /** With the route order of server.js the client's user count is always 0 when no user
      has the id "count": the count request reaches the user lookup, which answers 404 (or
      500 when the read fails), and the fallback hides the error. */
  lemma ClientCountIsZeroAsWritten(t: Table, req: Request, env: Env)
    requires req.verb == Get && req.path == CountPath && !HasId(t, "count")
    ensures Serve(t, req, env).result.Err?
    ensures env.readOk ==> Serve(t, req, env).result == Err(HttpError(404, "User not found"))
    ensures GetUserCount(Err(Serve(t, req, env).result.error.message)) == 0
  {
    CountRequestAnswersNotFound(t);
  }

  /** With the corrected order and a working database, the client sees the true count. */
  lemma ClientCountCorrected(t: Table, req: Request, env: Env)
    requires req.verb == Get && req.path == CountPath && env.readOk
    ensures ServeCorrected(t, req, env).result == Ok(CountBody(|t|))
    ensures GetUserCount(Ok(ServeCorrected(t, req, env).result.value.count)) == |t|
  {
  }
}
