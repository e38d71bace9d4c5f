# MathMentor quiz and leaderboard, modelled in Dafny

MathMentor is a browser maths quiz backed by a small leaderboard server. This project
models its logic as pure Dafny functions, methods and lemmas:

- **the server** (`server.js`). The SQLite `users` table is a sequence of rows in
  insertion order. Each route handler is a transition that returns the new table and
  either a JSON response or an HTTP error (400, 404 or 500). Modelled handlers: find-or-create
  a user, read a user, record an answer, leaderboard, rank, reset and count. Express's
  route order is modelled too.
- **the quiz component** (`src/components/MathQuiz.tsx`):
  - the animation reducer;
  - the arithmetic and geometry question generators, with every `Math.random()` call taken
    from an explicit list of draws;
  - the distractor loop, the Fisher–Yates shuffle and the correct-index lookup;
  - the XP rule and the answer-click guard.
- **the client user cache** (`src/utils/userManager.ts`). It holds the current user in
  memory and in localStorage. API results come in as `Result` values.
- **the name dialog** (`src/components/UserNameModal.tsx`): the submit guard, the Enter
  key, and the enabled state of the button.

Modules, one per file:

| module | file | content |
|---|---|---|
| `Wrappers` | wrappers.dfy | `Option`, `Result` |
| `JsText` | js_text.dfy | JavaScript `trim`, UTF-16 `length`, integer `toString`, `parseInt`; SQLite `LOWER` |
| `Users` | users.dfy | the table, `calculateAccuracy`, the create/get/stats/reset/count handlers |
| `Ranking` | ranking.dfy | leaderboard ordering and limit, rank |
| `Routes` | routes.dfy | route dispatch, the count-route finding, the whole server as registered (`Serve`) and with the corrected order (`ServeCorrected`) |
| `Animation` | animation.dfy | `animationReducer` |
| `QuizGen` | quiz_gen.dfy | question generation |
| `QuizAnswer` | quiz_answer.dfy | XP rule, `handleAnswerClick`, auto-advance |
| `UserCache` | user_cache.dfy | `UserManager` |
| `NameModal` | name_modal.dfy | `UserNameModal` guards |

Conventions:

- Table invariants:
  - ids are unique;
  - names are distinct under `LOWER`;
  - `0 <= correctAnswers <= totalQuestions`, and `accuracy` equals the recomputed value.

  These are predicates (`ValidTable`, `DistinctNames`) that each handler is proved to
  preserve. They are not preconditions.
- Parameters stand in for the environment: fresh ids, timestamps, whether a database
  read or write succeeds, and random draws.
- Numbers are integers. A JSON body field is a small datatype, so `!name`,
  `typeof correct !== 'boolean'` and the `TypeError` of `name.trim()` on a non-string
  are all modelled.

## Model

| member | source | states |
|---|---|---|
| JsText.Trim | server.js:58-62 | the result is the input minus leading and trailing ECMAScript whitespace, neither of its ends is whitespace, it is empty iff the input is all whitespace, and a trimmed string is a fixed point |
| JsText.Utf16Length | src/components/UserNameModal.tsx:15 | `.length` counts UTF-16 code units: a single character counts 2 above U+FFFF and 1 otherwise; between one and two per character, exactly one each when all are in the Basic Multilingual Plane |
| JsText.Utf16LengthAppend | src/components/UserNameModal.tsx:15 | the length of a concatenation is the sum of the lengths, so with the one-character case it pins `.length` of every string |
| JsText.Lower | server.js:65 | `LOWER` folds exactly A-Z, character by character, and keeps the length |
| JsText.IntToString | src/components/MathQuiz.tsx:206 | `Number.prototype.toString` on integers: non-empty, and it starts with '-' iff the number is negative |
| JsText.ParseInt | server.js:188 | `parseInt` without a radix yields a number iff, after leading whitespace and one optional sign, a decimal digit follows, or `0x`/`0X` and a hexadecimal digit; the number is negative only after a '-' and non-negative otherwise |
| JsText.ParseIntExamples | server.js:188 | "abc" and "0x" give NaN, " 12abc" gives 12 (blanks skipped, trailing letters ignored), "0x10" gives 16 and "-7" gives -7 |
| JsText.ParseIntOfIntToString | server.js:188 | `parseInt` reads back exactly the integer that `toString` printed |
| JsText.IntToStringInjective | src/components/MathQuiz.tsx:240 | two integers print the same iff they are equal, so `indexOf` on numerals compares the numbers |
| Users.CalculateAccuracy | server.js:48-50 | 0 when no question was answered; otherwise the integer `a` nearest to 100·correct/total, with halves rounded up ((2a-1)·total ≤ 200·correct < (2a+1)·total); within [0,100] when correct ≤ total |
| Users.AccuracyBounds | server.js:49 | the half-up quotient is the nearest percentage and stays in [0,100] for correct ≤ total |
| Users.AccuracyOfTwentyThreeInForty | server.js:49 | 23 right out of 40 is 57.5 per cent and rounds half up to 58 in the exact model |
| Users.CreateOrGetUser | server.js:55-109 | 400 iff the name is falsy or blank; 500 for every other error: a truthy non-string name (the `name.trim()` TypeError), a failed read, or an INSERT that fails or collides with an existing id; Ok iff the name is a non-blank string, the read succeeds, and either a row matches the trimmed name case-insensitively or the insert can happen; a match is returned with the table unchanged; otherwise exactly one zeroed row with the trimmed name and lastPlayed = createdAt is appended; every error leaves the table unchanged |
| Users.CreateOrGetPreservesInvariants | server.js:62-107 | find-or-create keeps ids unique, names distinct under LOWER, counters consistent, and grows the table by at most one row |
| Users.CreateTwiceSameUser | server.js:62-82 | when the first call can succeed (the name is already there, or the insert can happen), submitting case or blank variants of a name twice yields the same user and leaves the table as the first call left it |
| Users.CreateOrGetFound | server.js:65-82 | a name already in the table returns that row and changes nothing |
| Users.NameIndexIgnoresCase | server.js:65 | the name lookup depends only on the LOWER-folded name |
| Users.GetUser | server.js:112-135 | Ok iff the read succeeds and the id exists, returning that row; otherwise 404 or 500 |
| Users.UpdateStats | server.js:138-184 | 400 iff `correct` is not a boolean or `xpGained` not a number; 404 iff well-formed, the read succeeds and the id is unknown; 500 for every other error (a failed read or a failed UPDATE); on success total+1, correct+1 iff `correct`, xp+xpGained, accuracy recomputed, id/name/createdAt kept, only that row rewritten; errors leave the table unchanged |
| Users.UpdateStatsPreservesInvariants | server.js:157-179 | a stats update keeps correct ≤ total, keeps accuracy equal to its recomputation, and leaves every other row unchanged |
| Users.ReplaceRowPreservesInvariants | server.js:162-164 | rewriting the row of an id with a consistent row of the same id and name keeps ids unique and names distinct |
| Users.ResetUser | server.js:229-248 | 500 when the write fails, 404 iff no row has the id; otherwise xp, total, correct and accuracy become 0 and lastPlayed is set, with id, name and createdAt kept and other rows untouched |
| Users.ResetPreservesInvariants | server.js:233-245 | a reset keeps all table invariants |
| Users.CountUsers | server.js:251-259 | the count is the number of rows when the read succeeds, 500 otherwise |
| Users.AriExample | server.js:157-160 | a new user answering one right for 10 XP and one wrong goes 1/1 at accuracy 100, then 1/2 at accuracy 50 with 10 XP |
| Ranking.SortByScore | server.js:191 | the rows reordered into non-increasing (xp, accuracy) order: a permutation that is sorted |
| Ranking.EffectiveLimit | server.js:188 | `parseInt(limit) \|\| 10` is never 0; it is 10 when the limit is absent, when it does not parse (NaN), or when it parses to 0 in any spelling; any other parsed value, negative included, is kept |
| Ranking.EffectiveLimitOfNumeral | server.js:188 | a decimal limit is used as given, except 0 which becomes 10 |
| Ranking.EffectiveLimitOfText | server.js:188 | `?limit=abc` falls back to 10 |
| Ranking.Limit | server.js:191 | SQLite `LIMIT n`: the first n rows, all rows when n is negative or too large |
| Ranking.ToEntries | server.js:198-205 | each entry projects its row and carries rank = index + 1 |
| Ranking.Leaderboard | server.js:187-210 | length is the effective limit capped by the table size (all rows for a negative limit); ranks are 1..n; entries are in non-increasing (xp, accuracy) order; they are the front of some sorted permutation of the table; 500 when the read fails |
| Ranking.BoardHoldsTheTop | server.js:191 | no row left off the board is ahead of a row on it |
| Ranking.CountAhead | server.js:216 | counts the rows strictly ahead; 0 iff none is ahead |
| Ranking.UserRank | server.js:213-226 | rank = 1 + the number of rows with greater xp, or equal xp and greater accuracy: at least 1, at most the table size for a known id, 1 iff nobody is ahead, and 1 for an unknown id (the NULL sub-select) instead of 404; 500 when the read fails |
| Ranking.CountAheadPermutation | server.js:216 | the count does not depend on row order |
| Ranking.CountAheadTied | server.js:216 | rows tied on both keys have equally many rows ahead |
| Ranking.TiedUsersShareRank | server.js:216-223 | fully tied users share a rank |
| Ranking.SortedPositionCount | server.js:191-216 | in a sorted order, the rows ahead of the row at position k number at most k, and exactly k when nothing ties with it |
| Ranking.SortedAheadPrefix | server.js:191-216 | in a sorted order, the rows ahead of the row at position k are exactly the first CountAhead positions |
| Ranking.RankMatchesBoardPosition | server.js:191-223 | in any sorted order, a user's rank is at most its 1-based position, equal to it when nobody ties with it, and the positions before rank − 1 are exactly the rows ahead of it, so rank − 1 is where its tie group starts |
| Ranking.LimitOneExample | server.js:188-205 | `limit=1` over users with 50 and 80 XP gives only the 80-XP user, at rank 1 |
| Ranking.RankTwoExample | server.js:216-223 | a user level on xp with a more accurate user is ranked 2 |
| Routes.DispatchFirstMatch | server.js:55-264 | no route is chosen iff no registered route matches method and path; otherwise the chosen handler is that of a matching route with no matching route registered before it, bound to the path's id |
| Routes.CountRouteShadowed | server.js:112-251 | as written, GET /api/users/count is served by GET /api/users/:id with id "count" |
| Routes.CountHandlerUnreachable | server.js:251-259 | as written, no request reaches the count handler |
| Routes.CountRequestAnswersNotFound | server.js:112-122 | as written, the count request answers 404 on every table without a user "count" |
| Routes.CorrectedReachesCount | server.js:251-258 | with the count route registered first, the count request reaches it |
| Routes.CorrectedAgreesElsewhere | server.js:55-264 | the corrected order changes where that one request goes and no other |
| Routes.GetNeverWrites | server.js:112-264 | with the registered route order, and with the corrected one, no GET request reaches a handler that writes |
| Routes.ServeEndpoint | server.js:55-264 | read-only endpoints and error replies leave the table unchanged; the count endpoint answers the row count |
| Routes.Serve | server.js:55-264 | the server with its routes in registration order: any GET and any error leave the table unchanged; with a working database GET /api/users/count answers 404 "User not found" when no user has id "count", and that user's row when one has |
| Routes.ServeCorrected | server.js:55-264 | the server with the count route registered before `/:id` (the corrected order): any GET and any error leave the table unchanged, and with a working database GET /api/users/count answers the number of users |
| Routes.ServeCorrectedAgreesElsewhere | server.js:112-251 | the two servers give the same reply and table on every request other than GET /api/users/count |
| Routes.ServePreservesInvariants | server.js:55-248 | every request keeps the table invariants, under the registered order and the corrected one |
| Routes.EndpointPreservesInvariants | server.js:55-248 | whichever endpoint a request reaches, the table invariants survive it |
| Animation.Reduce | src/components/MathQuiz.tsx:52-87 | RESET gives the initial state whatever came before; each flag takes the value its own SHOW/HIDE gives it and keeps its value otherwise; only SHOW_XP changes xpGained and xpPosition, and it raises the key by exactly 1 |
| Animation.KeyCountsShowXp | src/components/MathQuiz.tsx:65-72 | between resets the key grows by the number of SHOW_XP actions |
| Animation.ResetForgetsHistory | src/components/MathQuiz.tsx:75-96 | after RESET_ANIMATIONS the state depends only on the actions that follow |
| Animation.FlagIsLastSet | src/components/MathQuiz.tsx:56-83 | each flag equals the value the last action owning it gave it |
| Animation.RepeatIsIdempotent | src/components/MathQuiz.tsx:57-74 | repeating any action other than SHOW_XP changes nothing |
| QuizGen.Pick | src/components/MathQuiz.tsx:168 | `Math.floor(Math.random() * n)` lies in [0, n) |
| QuizGen.JsRound | src/components/MathQuiz.tsx:221 | `Math.round` is within half of its argument, halves going up |
| QuizGen.ArithOperands | src/components/MathQuiz.tsx:171-196 | + operands in [1,50]; − with num1 in [25,74] and num2 in [1,25], so the answer is ≥ 0; × operands in [1,12]; ÷ with divisor and answer in [1,12] and num1 = divisor·answer (exact division) |
| QuizGen.GeoFigure | src/components/MathQuiz.tsx:255-306 | triangle base in [3,12] and height in [3,10], triangle sides in [4,11], rectangle length in [4,11] and width in [3,8] |
| QuizGen.FigureAnswer | src/components/MathQuiz.tsx:265-306 | rectangle area l·w and perimeter 2(l+w); triangle perimeter is the side sum; triangle area is base·height/2, whole exactly when the product is even |
| QuizGen.Candidate | src/components/MathQuiz.tsx:209-363 | candidates lie within −5..+4 of the answer for ÷ and −10..+9 otherwise; geometry candidates lie within ±3, ±10 or ±20 depending on the answer's size |
| QuizGen.Accepted | src/components/MathQuiz.tsx:224-232 | the accepted wrong answers are positive, differ from the correct answer, and are pairwise distinct |
| QuizGen.CollectDistractors | src/components/MathQuiz.tsx:208-232 | the loop's result is the accepted candidates of the draws it used; it stops at the first draw completing three, or when the draws run out |
| QuizGen.Shuffle | src/components/MathQuiz.tsx:234-238 | Fisher–Yates yields a permutation (equal multisets) |
| QuizGen.IndexOf | src/components/MathQuiz.tsx:240 | `indexOf` returns the first position holding the value, or -1 iff it is absent |
| QuizGen.DistinctPermutation | src/components/MathQuiz.tsx:234-240 | a shuffle of distinct options has distinct options |
| QuizGen.BuildOptions | src/components/MathQuiz.tsx:198-240 | four distinct options; the correct numeral sits at the returned index and nowhere else; the other three are numerals of positive integers other than the answer; the options are a permutation of the answer and the three accepted wrong answers; it succeeds whenever enough draws are available |
| QuizGen.GenerateArithmetic | src/components/MathQuiz.tsx:160-248 | a generated question has well-formed options, the answer and text of the drawn operator and operands, and operation name; it never reports a fractional answer, and it succeeds whenever the draws after the operands contain three acceptable wrong answers |
| QuizGen.GenerateGeometry | src/components/MathQuiz.tsx:251-395 | a generated question has well-formed options and the answer, shape, text and operation of the drawn figure; a fractional answer is reported iff the figure's answer is not whole |
| QuizGen.GenerateQuestion | src/components/MathQuiz.tsx:135-157 | the mode selects the kind, and mixed mode gives geometry iff its draw exceeds 0.5 |
| QuizGen.ArithPoolSuffices | src/components/MathQuiz.tsx:209-232 | for every arithmetic answer, three draws exist whose candidates are all accepted |
| QuizGen.GeoPoolSuffices | src/components/MathQuiz.tsx:348-370 | for every whole geometry answer, three draws exist whose candidates are all accepted |
| QuizAnswer.XpEarned | src/components/MathQuiz.tsx:528-531 | 15 for a right geometry answer, 10 for a right arithmetic one, 0 for a wrong one; positive iff right |
| QuizAnswer.AnswerClick | src/components/MathQuiz.tsx:503-548 | ignored with no change and no request iff an answer is selected, there is no question or user, or processing is on; otherwise it selects the option, sets processing, counts the answer, scores iff right, dispatches exactly the one popup action matching the answer to the animation state, and sends (correct, xp earned) |
| QuizAnswer.Advance | src/components/MathQuiz.tsx:593-599 | the next question with nothing selected, the result hidden, processing cleared, score and user kept, and the animation state changed only by HIDE_XP |
| QuizAnswer.SecondClickIgnored | src/components/MathQuiz.tsx:506-516 | a second click before the advance is ignored |
| QuizAnswer.AdvanceReenablesClick | src/components/MathQuiz.tsx:593-599 | after the advance a user can answer again |
| QuizAnswer.ClickKeepsScoreBounded | src/components/MathQuiz.tsx:540-546 | the score stays between 0 and the number answered |
| QuizAnswer.CorrectIffAnswerShown | src/components/MathQuiz.tsx:525 | clicking is right iff the clicked option shows the answer's numeral |
| QuizAnswer.RequestNeverRejected | src/components/MathQuiz.tsx:583 | the stats request a click sends never draws a 400, and when applied it credits exactly the XP awarded |
| UserCache.Save | src/utils/userManager.ts:36-46 | afterwards the key holds the current user iff there is one |
| UserCache.Load | src/utils/userManager.ts:24-34 | a stored user becomes current, unparsable text clears it, an absent key changes nothing |
| UserCache.SaveThenStartRestores | src/utils/userManager.ts:24-46 | a new session after a save starts with the same current user |
| UserCache.CreateUser | src/utils/userManager.ts:48-58 | on success the returned user is current and saved; on failure nothing changes and the error propagates |
| UserCache.UpdateUserStats | src/utils/userManager.ts:64-75 | no-op without a user; on success the server's row is current and saved; on failure the cache is unchanged and the error propagates |
| UserCache.ResetUserData | src/utils/userManager.ts:95-108 | no-op without a user; reset then refetch: on success the refetched row is current and saved; if either call fails the cache is unchanged and that error propagates |
| UserCache.Logout | src/utils/userManager.ts:110-113 | no current user and the key removed |
| UserCache.HasUser | src/utils/userManager.ts:116-118 | whether a user is current; in a cache whose key mirrors it, exactly when the key holds a user |
| UserCache.LogoutIsFinal | src/utils/userManager.ts:110-118 | after a logout a new session has no user (`hasUser` is false) |
| UserCache.OperationsKeepMirror | src/utils/userManager.ts:48-113 | every operation keeps the key mirroring the current user |
| UserCache.GetLeaderboard | src/utils/userManager.ts:77-84 | a failed fetch yields [] |
| UserCache.GetUserRank | src/utils/userManager.ts:86-93 | a failed fetch yields 0 |
| UserCache.GetUserCount | src/utils/userManager.ts:120-127 | a failed fetch yields 0 |
| UserCache.FromServer | src/utils/apiService.ts:35-40 | a server error becomes a thrown message and a success passes through |
| UserCache.RankZeroMeansFailure | src/utils/userManager.ts:86-93 | since the server's rank is at least 1, the client's 0 occurs iff the server failed |
| UserCache.StatsUpdateKeepsSync | src/utils/userManager.ts:64-75 | a stats update served by the server leaves the cached user equal to its row |
| UserCache.ResetKeepsSync | src/utils/userManager.ts:95-108 | a reset and refetch that can read leave the cached user equal to its row |
| UserCache.ResetWithFailedRefetchIsStale | src/utils/userManager.ts:98-107 | if the reset is applied but the refetch fails, the cache keeps the old counters while the table holds zeros |
| UserCache.ClientCountIsZeroAsWritten | src/utils/userManager.ts:120-127 | with the route order of server.js, on any table without a user whose id is "count", the count request fails (404 "User not found" when the database reads) and the client's user count is 0 |
| UserCache.ClientCountCorrected | server.js:251-258 | with the corrected order and a working database, the count request answers the number of users and the client reads that count |
| NameModal.HandleSubmit | src/components/UserNameModal.tsx:13-19 | rejected, with no callback and no change, iff the trimmed name is under two UTF-16 units; on acceptance the callback gets the trimmed name and submitting starts |
| NameModal.HandleKeyPress | src/components/UserNameModal.tsx:21-25 | submits iff the key is Enter and the trimmed name is long enough, exactly as submit would |
| NameModal.EnabledButtonSubmits | src/components/UserNameModal.tsx:62-66 | an enabled button submits, and afterwards the button is disabled |
| NameModal.TrimIdempotent | src/components/UserNameModal.tsx:18 | trimming a trimmed name changes nothing |
| NameModal.AcceptedNameReachesServer | src/components/UserNameModal.tsx:15-18 | an accepted name never draws the server's 400, and a new user is stored under exactly that name |
| NameModal.ServerAcceptsShorterNames | server.js:58 | the server accepts a one-character name that the dialog refuses |
| NameModal.OneAstralCharacterIsLongEnough | src/components/UserNameModal.tsx:15 | a name of a single character above U+FFFF is two code units long and passes the dialog |

## Left out

- Storage and transport. SQLite, Express, CORS, `fetch`, startup and shutdown are not
  modelled. Database success is a boolean parameter, and API results are `Result`
  inputs.
- Id generation and timestamps. `Date.now()`, `Math.random()` ids and
  `new Date().toISOString()` are opaque parameters. A fresh id that collides with an
  existing one fails the INSERT, with a 500.
- Concurrency. The read-modify-write race between concurrent stats updates and the
  duplicate-name race on create are outside a sequential model.
- Floating point. Numbers are mathematical integers and reals:
  - `calculateAccuracy` is computed exactly, as round-half-up of an exact rational, not in
    IEEE doubles. The two can differ on ordinary inputs: for 23 right out of 40 the double
    product `(23 / 40) * 100` is 57.49999999999999, which `Math.round` takes to 57, while
    the model gives 58 (`Users.AccuracyOfTwentyThreeInForty`).
  - A non-integer `xpGained` is not representable.
  - The distractor arithmetic `c + (r*20 - 10)` is done on exact reals.
- The fractional geometry branch. A triangle area with an odd base·height product is
  decimal and uses `round(x, 1)` distractors. `GenerateGeometry` reports
  `FractionalAnswer` there instead of building options.
- Running out of randomness. Draws are a finite list, so a generator can answer
  `OutOfDraws`, which the source never does. `ArithPoolSuffices` and `GeoPoolSuffices`
  show the source's loop always has three acceptable candidates available.
- Question details outside the options:
  - the random `id` is kept as the draw it comes from;
  - SVG paths are not modelled;
  - the default branches of the operator and shape switches cannot be reached, because
    every draw selects a listed entry.
- The delayed animations. `setTimeout` scheduling of HIDE_CELEBRATION, SHOW_XP, HIDE_XP
  and HIDE_WRONG, the random popup position, audio and rendering are not modelled. Their
  effect is covered by `Animation.Reduce` on the actions they dispatch.
- The health route's timestamp. It is the time parameter.
- Express details. Case-insensitive path matching, trailing slashes and URL decoding are
  not modelled. A path is a sequence of decoded segments.
- A stored `"null"` key. `JSON.parse` gives `null` without throwing, and `Stored` does
  not distinguish this case. A save failure of localStorage (a quota error, caught and
  logged) is not modelled either.
- The `maxLength={20}` attribute of the name input.
- Context components. Leaderboard.tsx, GlobalMusicToggle.tsx and both
  ComingSoonBackground.tsx files are not part of this model. Of apiService.ts only the
  error path of `request` is modelled (`UserCache.FromServer`); its endpoint wrappers are
  represented by the `Result` values they return.
- UserCache.FromServer: the thrown message is always the server's error text. Replies
  that Express writes itself (the 404 of an unmatched route, the 500 of the `name.trim`
  TypeError) have no JSON body, and apiService.ts throws 'Unknown error' for them; the
  model does not distinguish these bodies, and no contract states the message.
- Leaderboard tie order. Ties are ordered as the database pleases, so
  `Ranking.Leaderboard` promises only the front of some sorted permutation. The
  insertion sort inside is one such order.
- The multiplication symbols. The operator symbols × and ÷ appear garbled (as a
  two-byte mis-decoding) in the source file as stored. The model uses the intended
  characters U+00D7 and U+00F7. The symbols only affect the question text.
- UserCache.ClientCountIsZeroAsWritten: covers only tables without a user whose id is
  "count". With such a user the reply is that user, and the client reads an absent
  `count` field.

## Findings

| source | as written | input that shows it | evidently intended | confidence | as-written member | corrected member |
|---|---|---|---|---|---|---|
| server.js:112-251 | GET /api/users/:id is registered before GET /api/users/count, and Express runs the first matching route | GET /api/users/count on any table without a user "count": answered 404 "User not found" by the user lookup | the count route answers `{count: N}`, so it must be registered before `/:id` | high (not executed) | Routes.CountRouteShadowed | Routes.CorrectedReachesCount |
