# Voting API: a Dafny model of the server's request handling

This project models the back end of a small voting web site.

- **Requests.** Each HTTP route handler of the Express server is a pure transition
  `(token claims, request, store) -> (status, body, store')`. The store is an
  in-memory copy of the three Postgres tables `users`, `candidates` and `votes`.
- **Gate.** The `protect` middleware is a function from the `Authorization` header
  to an outcome. The outcomes are no token, token failed, and proceed with the
  decoded claims.
- **Reports.** The public results, the admin vote distribution and the voter turnout
  are pure functions over the candidate and vote relations.

Two versions of the server are modelled:

- `follder/index.ts` has every route. The model calls it `Current`.
- `server/index.ts` is the earlier subset: register, login, candidates, vote and
  profile. The model calls it `Early`. It differs in the key of the name field in
  the login response (`fullName` rather than `full_name`). Its other routes answer 404.

Modules:

| file | module | contents |
|---|---|---|
| wrappers.dfy | Wrappers | `Option` |
| js_text.dfy | JsText | JavaScript truthiness, `startsWith`/`endsWith`, `split(' ')`, `x \|\| ''` |
| records.dfy | Records | rows, the store, and its invariant `Valid` |
| auth_gate.dfy | AuthGate | `protect`, as written and corrected |
| tally.dfy | Tally | vote counting, ranking, percentages, turnout |
| http.dfy | Http | responses, bodies, the admin role test |
| accounts.dfy | Accounts | register, login, profile, admin register |
| ballot.dfy | Ballot | candidate list, vote casting |
| registry.dfy | Registry | candidate create, update, delete |
| reports.dfy | Reports | stats, vote distribution, turnout, results |
| server.dfy | Server | routing, the gate, and whole-API properties |

Assumptions the source does not show, stated once here:

- **bcrypt** is a pair of oracles. `hash` gives the stored digest and `matches` is
  `bcrypt.compare`. They are passed in as function values (`Accounts.Crypto`).
- **JWT verification** is an oracle `verify: string -> Option<Claims>`. A successful
  login yields `TokenGrant(claims, 3600)`: the claims `{userId, role}` with the
  one-hour lifetime. Signing itself is not modelled.
- **Store failure.** Any Postgres or library failure inside a handler's `try` block
  is a boolean `fault`. It answers 500 and changes nothing.
- **One vote per user.** `votes.user_id` is UNIQUE. A second insert by the same user
  is refused with SQLSTATE 23505, which the handler turns into 409.
- **Default role.** The `role` column defaults to `'voter'`, because the register
  INSERT omits it.
- **Vote references.** The foreign-key policy of `votes` is not shown. The store
  carries it as `VoteRefs`, and every result is proved for all three choices:
  - `Unenforced`: no references checked;
  - `RestrictDelete`: references checked, and deleting a candidate with votes fails;
  - `CascadeDelete`: references checked, and deleting a candidate deletes its votes.
- **Unique check first.** On a vote insert the unique index is checked before the
  references.
- **Serial ids.** They are counters that only grow, so each table stays ordered by
  id. This gives `ORDER BY id` for free.
- **Column range.** The id columns and `votes.candidate_id` are Postgres `integer`.
  A parameter outside -2^31 .. 2^31-1 is refused when it is bound (SQLSTATE 22003).
  That happens before any constraint is checked, so it answers 500 even for a user
  who already voted (`Records.FitsInteger`).
- **Nullable name.** `users.full_name` accepts null. An admin account created without
  `fullName` therefore stores null and answers 201. If the column were NOT NULL,
  that INSERT would fail with 500 instead.
- **Path id.** The `:id` path parameter is `Option<int>`. `None` is text Postgres
  cannot cast to an integer, such as `1.5` or `abc`, which answers 500.

Behaviour of the code worth knowing:

- Registration reads the body key `fullName`. The column it fills is `full_name`.
- The vote handler does not check that the candidate exists. Whether such a vote
  is refused depends on the schema's reference policy (500 when refused).
- The vote handler does not restrict the caller's role, so an admin can vote.
  That makes "Not Voted" able to go negative.

## Model

| member | source | states |
|---|---|---|
| JsText.OrEmpty | follder/index.ts:178 | `description \|\| ''` is the empty string exactly when the field is falsy, else the field itself |
| JsText.Split | server/middleware/authMiddleware.ts:17 | `split(' ')` yields at least one field and no field contains the separator |
| JsText.JoinSplit | server/middleware/authMiddleware.ts:17 | joining the fields of a split with the separator gives back the original header |
| JsText.SplitJoin | server/middleware/authMiddleware.ts:17 | splitting the join of separator-free fields gives back those fields |
| JsText.SplitAfterPrefix | server/middleware/authMiddleware.ts:17 | a separator-free word followed by the separator and the rest splits into that word, then the rest's fields |
| Records.FindUserByEmail | follder/index.ts:60-64 | the lookup finds nothing exactly when no row has the email, and otherwise finds a stored row with that email |
| Records.FindUserById | follder/index.ts:94-97 | the lookup finds nothing exactly when no row has the id, and otherwise finds a stored row with that id |
| Records.EmptyStore | follder/index_.ts:15-28 | a fresh database satisfies the store invariant |
| Records.UniqueEmailRow | follder/index.ts:34-37 | in a store with unique emails, two rows with the same email are the same row |
| AuthGate.Protect | server/middleware/authMiddleware.ts:11-35 | no-token exactly when the header is missing or lacks the `Bearer` prefix; proceed exactly when the header's second field is a non-empty token the verifier accepts, with exactly the decoded claims; token-failed exactly when that token is non-empty and rejected; the double response exactly when the prefix is there and the second field is missing or empty |
| AuthGate.ProtectFixed | server/middleware/authMiddleware.ts:11-35 | the corrected gate answers at most once: no-token and proceed exactly as in the written gate, and token-failed exactly when the prefix is there and the header's token is missing, empty or rejected |
| AuthGate.FixedAgreesWithWritten | server/middleware/authMiddleware.ts:14-34 | the corrected gate differs from the written one only where the written one answers twice, and answers token-failed there |
| AuthGate.BearerHeaderRoundTrip | server/middleware/authMiddleware.ts:17-25 | a header `Bearer <t>` with a space-free, non-empty token `t` passes `t` to the verifier, and proceeds exactly when `t` verifies |
| AuthGate.RejectedTokenNeverProceeds | server/middleware/authMiddleware.ts:26-29 | with a `Bearer` header whose own token is missing, empty or rejected, the gate never reaches the handler and answers at least once, whatever the verifier says about other tokens |
| AuthGate.LooseSchemeAccepted | server/middleware/authMiddleware.ts:14-17 | the header `BearerX y` passes the prefix test and sends `y` to the verifier |
| AuthGate.BareSchemeAnswersTwice | server/middleware/authMiddleware.ts:17-34 | the header `Bearer` makes the written gate answer twice (token failed, then no token); the corrected gate answers once |
| Accounts.AddUser | follder/index.ts:40-43 | inserting a user appends exactly one row with the next serial id and leaves the other tables alone |
| Accounts.Register | server/index.ts:32-56 | 400 exactly when a field is falsy; 409 exactly when the email is taken; 500 exactly on a store failure; 201 inserts exactly one voter row holding the hashed password; every non-201 answer leaves the store unchanged |
| Accounts.Login | server/index.ts:59-93 | never writes; 400 exactly when email or password is falsy; 401 "Invalid credentials." exactly when the email is unknown or the password does not match; 200 exactly when the email is known, the password matches and the store does not fail, and then a one-hour token whose claims are the matched row's id and role |
| Accounts.GetProfile | server/index.ts:132-144 | never writes; 404 exactly when no user has the token's id; 200 returns that user's public fields |
| Accounts.AdminRegister | follder/index.ts:138-165 | 403 exactly for a non-admin caller, before anything else; 400 exactly when the email lacks `@admin.gmail.com`; 409 exactly when the email is taken; 201 exactly when none of these applies, a password is given and the store does not fail, and then exactly one admin row is inserted; other answers leave the store unchanged |
| Accounts.AddUserKeepsValid | follder/index.ts:34-43 | inserting a user under an unused email keeps the store invariant, unique emails included |
| Accounts.RegisterKeepsValid | server/index.ts:38-47 | registration keeps emails unique and the store valid |
| Accounts.AdminRegisterKeepsValid | follder/index.ts:147-156 | admin registration keeps emails unique and the store valid |
| Accounts.LoginRefusalsIndistinguishable | server/index.ts:65-73 | any two refused logins get the identical response, so an unknown email cannot be told from a wrong password |
| Accounts.BadCredentialsRefused | server/index.ts:65-73 | an unknown email, or a password that matches no row with that email, is refused with 401 "Invalid credentials." |
| Accounts.RegisterThenLogin | server/index.ts:32-93 | a voter who has just registered can log in at once and gets a token for the new id with role `voter` |
| Accounts.SecondRegistrationConflicts | server/index.ts:38-41 | registering a second time with the same email answers 409 and changes nothing |
| Ballot.ListCandidates | server/index.ts:96-104 | never writes; lists exactly the stored candidates, in ascending id order when the store is valid |
| Ballot.InsertVote | follder/index.ts:122-125 | the insert is refused as a unique violation exactly when the user already voted; otherwise it is refused by the reference check exactly when that check applies and a row is missing; otherwise it appends one row |
| Ballot.CastVote | follder/index.ts:115-134 | 400 exactly when `candidateId` is falsy (absent or 0); an id outside the `integer` range answers 500 before the unique check; 409 "You have already voted." exactly when the user already has a vote; 201 exactly when the user has none and the schema accepts the references, appending exactly one `(userId, candidateId)` row; every other answer leaves the store unchanged |
| Ballot.CastVoteKeepsValid | follder/index.ts:122-131 | casting a vote keeps at most one vote per user and the store valid |
| Ballot.SecondVoteRefused | server/index.ts:111-127 | after a user's vote is accepted, any later vote by that user is refused and leaves the ledger unchanged; with a truthy id in the column's range and no store failure the refusal is 409 |
| Ballot.FirstVoteAccepted | follder/index.ts:118-126 | a user's first vote, with an id in the column's range for a candidate the schema accepts, answers 201 and adds one row |
| Registry.FindCandidate | follder/index.ts:200-206 | the lookup finds nothing exactly when no row has the id, and otherwise finds that row |
| Registry.RemoveCandidate | follder/index.ts:223 | the rows kept are exactly the rows whose id differs, in their original order |
| Registry.RemoveVotesFor | follder/index.ts:223 | the votes kept are exactly those for other candidates, in their original order |
| Registry.CreateCandidate | follder/index.ts:167-188 | 403 exactly for a non-admin caller, before anything else; 400 exactly when name or party is falsy; 500 exactly on a store failure after those checks; 201 appends one candidate with the next id and a falsy description stored as `''`; other answers leave the store unchanged |
| Registry.UpdateCandidate | follder/index.ts:190-215 | 403 exactly for a non-admin caller, before anything else; 400 exactly when name or party is falsy; after those checks, 500 exactly on a store failure or an id that is not an `integer`; 404 exactly when no candidate has the id; 200 exactly when one does and the store does not fail, replacing the name, party and description of that id and nothing else, and answering with that row as it is after the update |
| Registry.DeleteCandidate | follder/index.ts:217-232 | 403 exactly for a non-admin caller, before anything else; after that, 500 exactly on a store failure, an id that is not an `integer`, or a restricting reference that holds the candidate; 404 exactly when no candidate has the id; 200 exactly when one does, the store does not fail and no restricting reference holds it, removing exactly that candidate, and its votes too under a cascading reference; other answers leave the store unchanged |
| Registry.CreateCandidateKeepsValid | follder/index.ts:176-179 | creating a candidate keeps the store valid |
| Registry.UpdateCandidateKeepsValid | follder/index.ts:200-203 | updating a candidate keeps the store valid |
| Registry.DeleteCandidateKeepsValid | follder/index.ts:223 | deleting a candidate keeps the store valid under every reference policy |
| Registry.CreateThenList | follder/index.ts:167-188 | a created candidate, with the submitted name and party and the description or '', appears in the list the candidate route returns |
| Registry.DeleteRemovesOne | follder/index.ts:223-227 | a successful delete in a valid store removes exactly one row |
| Registry.RemoveOrdered | follder/index.ts:223 | in an id-ordered table, deleting the k-th row's id removes exactly the k-th row |
| Tally.CountFor | follder/index.ts:302-305 | a candidate's `COUNT(v.id)` is at most the number of votes, and it is zero exactly when no vote names the candidate |
| Tally.JoinCountsShape | follder/index.ts:302-305 | the LEFT JOIN yields one row per candidate, in order, each with that candidate's count |
| Tally.SumAfterVote | follder/index.ts:302-305 | one more vote raises the summed counts by the number of rows for its candidate |
| Tally.SumIsReferenced | follder/index.ts:302-305 | with distinct candidate ids, the counts sum to the number of votes that name a stored candidate |
| Tally.ZeroVotesSumZero | follder/index.ts:302-305 | with no votes every count is zero, so the counts sum to zero |
| Tally.ReferencedAll | follder/index.ts:302-310 | the number of votes that name a stored candidate is at most `totalVotes`, with equality exactly when no vote dangles |
| Tally.InsertByVotes | follder/index.ts:306 | inserting into a ranked list keeps it non-increasing by count and adds exactly that row |
| Tally.Rank | follder/index.ts:306 | `ORDER BY votes DESC` gives a permutation of its input that is non-increasing by count |
| Tally.PermutationKeepsDistinct | follder/index.ts:305-306 | reordering keeps one row per candidate |
| Tally.RankedTallyCounts | follder/index.ts:301-307 | the ranked tally has one row per candidate, each carrying a stored candidate and its count |
| Tally.RankedTallyCovers | follder/index.ts:301-307 | every candidate has a row, zero-vote candidates included |
| Tally.RankedTallyDistinct | follder/index.ts:301-307 | no candidate has two rows |
| Tally.RankedTallySum | follder/index.ts:301-310 | the counts sum to the referenced votes, and that equals `totalVotes` exactly when every vote names a stored candidate |
| Tally.Percent | follder/index.ts:315 | the percentage in tenths is 0 when `totalVotes` is 0 and never exceeds 100.0 |
| Tally.PercentIsNearestTenth | follder/index.ts:315 | the percentage is within half a tenth of the exact `votes / totalVotes * 100` |
| Tally.SumTenthsScaled | follder/index.ts:312-316 | summed rounding error over n rows is at most n half-tenths |
| Tally.PercentagesNearHundred | follder/index.ts:312-316 | when the counts sum to `totalVotes`, the percentages sum to 100.0 within n/2 tenths |
| Tally.ResultRows | follder/index.ts:312-316 | each published row carries its tally row's candidate id, name, party and description (the `...candidate` spread), its count, and its percentage |
| Tally.ComputeResults | follder/index.ts:299-321 | `totalVotes` is the number of vote rows and there is one result row per candidate |
| Tally.ResultsRanked | follder/index.ts:306 | the results are non-increasing by vote count |
| Tally.ResultsCoverCandidates | follder/index.ts:301-307 | every stored candidate appears in the results with its own count |
| Tally.ResultsDistinct | follder/index.ts:301-307 | no candidate appears twice in the results |
| Tally.ResultsPercentages | follder/index.ts:315 | every percentage is 0 when there are no votes and at most 100.0 otherwise |
| Tally.ResultsMatchLedger | follder/index.ts:301-310 | the row counts sum to `totalVotes` exactly when every vote names a stored candidate |
| Tally.RowVotesMatch | follder/index.ts:312-316 | the published counts and percentages sum to the tally's sums |
| Tally.ResultPercentagesNearHundred | follder/index.ts:312-316 | with votes and no dangling vote, the published percentages sum to 100.0 within n/2 tenths |
| Tally.VoteDistribution | follder/index.ts:263-270 | the chart has as many rows as there are candidates |
| Tally.DistributionCovers | follder/index.ts:263-267 | every stored candidate has the row with its name and its count, zero-vote candidates included |
| Tally.DistributionRanked | follder/index.ts:268 | the chart rows are non-increasing by count |
| Tally.DistributionCounts | follder/index.ts:263-267 | each chart row is a stored candidate's name with that candidate's count |
| Tally.VoterTurnout | follder/index.ts:282-291 | "Voted" is at most the number of votes, and equals it when each user votes at most once; "Voted" plus "Not Voted" is the number of voter-role users |
| Tally.DistinctVotersBound | follder/index.ts:283 | `COUNT(DISTINCT user_id)` is at most the number of votes, and equals it under one vote per user |
| Tally.VoterIdsBound | follder/index.ts:282 | the voter-role ids are at most the number of voter-role rows |
| Tally.NotVotedNonNegative | follder/index.ts:282-290 | "Not Voted" is non-negative when every vote comes from a stored voter-role user |
| Tally.NotVotedCanBeNegative | follder/index.ts:282-290 | when an admin with no voters in the store votes, the split is Voted 1, Not Voted -1 |
| Reports.GetStats | follder/index.ts:234-256 | never writes; 403 for non-admins before any read; otherwise the vote rows, the voter-role users and the candidate rows |
| Reports.GetVoteDistribution | follder/index.ts:258-275 | never writes; 403 for non-admins before any read; otherwise exactly the vote distribution, one row per candidate, ordered by count |
| Reports.GetVoterTurnout | follder/index.ts:277-296 | never writes; 403 for non-admins before any read; otherwise "Voted" counts distinct voters and the two values add up to the voter-role users |
| Reports.GetResults | follder/index.ts:299-326 | public and never writes; 500 exactly on a store failure; otherwise the computed results with `totalVotes` the number of vote rows |
| Reports.ResultsOfValidStore | follder/index.ts:301-321 | a valid store's results list each candidate once, ordered by count, and when references are enforced the counts add up to `totalVotes` |
| Reports.FiveThreeTwo | follder/index.ts:315 | 5, 3 and 2 votes of 10 give 50.0, 30.0 and 20.0; 1 of 16 gives 6.3 |
| Server.Serve | follder/index.ts:28-326 | an undefined route answers 404; register, login and results go straight to their handlers; a protected route answers the gate's 401s unchanged and reaches its handler only with verified claims |
| Server.ServeKeepsValid | follder/index.ts:28-326 | every request keeps the store valid: unique emails, one vote per user, ordered serial ids |
| Server.RejectedLeavesStore | follder/index.ts:28-326 | a request not answered 200 or 201 leaves the store unchanged |
| Server.ReadsLeaveStore | follder/index.ts:54-326 | login, profile, the candidate list, the reports and the results never write |
| Server.FaultLeavesStore | follder/index.ts:28-326 | a store failure never changes the store |
| Server.AdminGateBeforeStore | follder/index.ts:168-170 | a verified non-admin caller of any admin route gets the same 403 whatever the store holds or whether it fails, and nothing changes |
| Server.ProtectedNeedsToken | server/middleware/authMiddleware.ts:26-34 | without a token the verifier accepts, every protected route answers 401 and changes nothing |
| Server.VersionsAgree | server/index.ts:79-88 | on the earlier server's routes both versions answer alike, except the name key `fullName` vs `full_name` of a successful login |
| Server.SecondVoteThroughServer | follder/index.ts:115-131 | through the gate, once a user's vote was accepted, every later vote, whether its id is missing, 0 or any other, leaves the ledger as it is and is never accepted, and one with a truthy id in the column's range gets 409 "You have already voted." |

## Left out

- The React front end is not modelled. That covers pages, components, charts, the
  fetch service and the `localStorage` session. It is UI and I/O.
- The internals of bcrypt hashing, salting and JWT signing are not modelled. These
  are foreign libraries and appear as oracles. A token's real expiry depends on a
  clock, which is not modelled.
- Postgres itself is not modelled: SQL text, the connection pool and environment
  configuration. `created_at` and `cast_at` timestamps need a clock. The `parseInt`
  of counts is the identity on the model's integers.
- Concurrency is not modelled. Requests are taken one at a time, so the race between
  the email check and the insert in register is not represented. The unique index on
  `votes.user_id` is assumed atomic.
- Tally.Percent: models `toFixed(1)` as round half up of the exact ratio. Binary
  floating point can round a few exact ties the other way, so the model is exact
  where the source may be off by one tenth.
- Tally.Rank: `ORDER BY votes DESC` leaves the order of tied candidates unspecified.
  The model fixes one order (ties in candidate order), and its contracts state only
  the non-increasing order and the permutation.
- Accounts.AdminRegister: a missing `email` makes `email.endsWith` throw outside the
  `try` block, so no response is sent. The model types the email as present and does
  not model that crash.
- Ballot.CastVote: `candidateId` is an integer or missing. Other JSON values are not
  modelled. A fractional number such as `1.5` is refused by Postgres with 500, even
  for a user who already voted. A string may be cast by Postgres.
- Accounts.Register, Accounts.Login: the body fields are strings or missing. A
  non-string password makes bcrypt throw, which answers 500. That path is not
  modelled.
- Reports.GetVoteDistribution: `COUNT(v.id)` is a `bigint`, which node-postgres
  returns as a string. The route sends the rows unparsed, so the JSON carries `"5"`
  where the model has the number 5.
- Serial ids: Postgres advances a sequence even when the INSERT is refused, for
  example by a 409 vote or a failed candidate insert. Later ids then skip values. The
  model's counter advances only on success. Overflow of a sequence past the
  `integer` range is not modelled either. Candidate ids are visible through
  `RETURNING *`, so the exact ids differ, but ordering and uniqueness do not.
- Server.Serve: dispatches through the corrected gate `AuthGate.ProtectFixed`. With
  the header `Bearer`, the written gate answers 401 "token failed". Its second
  `res.json` then throws ERR_HTTP_HEADERS_SENT inside Express, and the client never
  sees it. So the client receives only the first 401, which is what the corrected
  gate answers.
- The `/` health-check route and `app.listen` are not modelled: there is no handler
  logic there.
- The `image_url` column is never written by any route, so every created candidate
  has none.

## Findings

| source | as written | input that shows it | evidently intended | confidence | as-written member | corrected member |
|---|---|---|---|---|---|---|
| server/middleware/authMiddleware.ts:14-34 | With a `Bearer` prefix but no second field, `token` stays undefined. The verify call throws, the catch sends 401 "token failed", and then `if (!token)` calls `res.status(401).json(...)` again on the same response. Express refuses that call with ERR_HTTP_HEADERS_SENT, an error raised after the first 401 was sent. | `Authorization: Bearer` (also `Bearer  x`, whose second field is empty) | one 401 per request | not executed | AuthGate.BareSchemeAnswersTwice | AuthGate.FixedAgreesWithWritten |

`AuthGate.Protect` models the gate as written. The outcome `TokenFailedThenNoToken`
counts two attempts to respond. `AuthGate.ProtectFixed` answers
once in that case. `Server.Serve` uses the corrected gate.
