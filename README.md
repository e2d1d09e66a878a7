# Daily Radio API — a Dafny model of its services

Daily Radio is a backend for "listening stations". Users register and confirm
their e-mail, then log in to sessions that hold a rotating refresh token.
Users create or join stations. Inside a station, members submit songs into
numbered rounds ("sets") and vote to end the current set. A quorum finishes the
set and opens the next one. Members review each other's submissions under the
station's rating and comment rules, and reply to reviews. Two daily sweeps
remove unconfirmed accounts and expired sessions. A global exception filter
turns every escaping error into one JSON error body.

The model keeps the whole relational store in one object, `Store.Db`.

- **Tables.** Each table is a map keyed by its primary key. Memberships are
  keyed by (user, station); votes are a set of (user, set) pairs.
- **Services.** Each service is a module.
  - Operations that write rows are methods. They change only the tables named
    in their `modifies` clause, and state the whole new content of those
    tables.
  - Read-only queries are functions. A query with an `ORDER BY` returns a
    sequence that is sorted and holds exactly the matching rows.
  - Every error a service raises is a value of `Common.Exception`: a framework
    HTTP exception, the application's domain exception, a known store error
    code, or anything else.
- **bcrypt** is a digest that accepts exactly the secret it was made from.
- **A JWT** is its claims, its kind (access or refresh) and its issue time in
  whole seconds.
- **Parameters.** The clock, random bytes, fresh ids and the outcome of
  sending an e-mail are passed in.

Modules, following the source tree:

- **Users** (`users.service.ts`): lookups and row updates on users and sessions.
- **AccessToken** (`access-token.strategy.ts`): the session and ban check on every request.
- **Auth** (`auth.service.ts`): register, login, refresh, logout, e-mail verification, session listing.
- **Sets** (`sets.service.ts`): submissions, votes and the set state machine.
- **Stations** (`stations.service.ts`): create, list, edit, delete, join and leave.
- **Reviews** (`reviews.service.ts`) and **Submissions** (`submissions.service.ts`): reviews and reply threads.
- **Tasks** (`tasks.service.ts`): the two maintenance sweeps.
- **PrismaErrors** (`prisma-error.mapper.ts`) and **ExceptionFilter** (`http-exception.filter.ts`): error classification.
- **Support modules.** Store, Common, Crypto and Text (ASCII lower-casing,
  code-point string order, hex encoding). Ordering provides sorting, and
  listing a set as a sorted sequence.

Behaviours of the code worth knowing, which the model keeps as they are:

- `register` stores the username exactly as given. Only the e-mail is
  lower-cased. `findByUsername` lower-cases its argument, so a username with a
  capital letter can never be found (`Users.CapitalisedUsernameNeverFound`).
- `refresh` for a session that does not exist, or that belongs to another
  user, fails with the store's not-found error, not with Unauthorized.
- `login` does not look at the account status. A banned user receives tokens,
  and the access-token check then refuses them.
- Station `create` opens no set. It ignores the mode parameters it validates:
  the columns keep their schema defaults.
- A framework exception is always resolved with the code VALIDATION, whatever
  its status, including 401, 403, 404 and 409.
- `voteToEnd` accepts a FINISHED_AND_OPEN set. If such a set reaches the
  quorum again, the service asks for a new set numbered one above it, in a
  station that already has a set of that number. In the model's store, which
  has no unique constraint on (station, set number), a second set with the
  same number results (`Sets.ReopenedSetAdvanceRepeatsNumber`).

## Model

| member | source | states |
|---|---|---|
| Users.FindByEmail | src/modules/users/users.service.ts:16-22 | the stored user whose e-mail equals the argument exactly, or none when no row has it |
| Users.FindByVerificationToken | src/modules/users/users.service.ts:24-28 | the stored user whose pending token is the argument, or none when no row holds it |
| Users.FindByUsername | src/modules/users/users.service.ts:100-113 | the public profile of the user whose username equals the lower-cased argument, or none |
| Users.CapitalisedUsernameNeverFound | src/modules/users/users.service.ts:100-113 | a stored username containing a capital letter is never returned, whatever the query |
| Users.FindUserStations | src/modules/users/users.service.ts:36-54 | exactly the stations where the user has a membership row, each with its member count, sorted by name, one entry per station |
| Users.SummaryCount | src/modules/users/users.service.ts:36-49 | distinct stations give distinct summaries, so the listing has one entry per station |
| Users.CreateUser | src/modules/users/users.service.ts:10-14 | inserts the row, or fails with the unique-constraint error and changes nothing when the e-mail, username or token is taken |
| Users.Verified | src/modules/users/users.service.ts:56-65 | the row is verified and ACTIVE with no token and no expiry; every other field is unchanged |
| Users.VerifyUser | src/modules/users/users.service.ts:56-65 | replaces only that user's row with its verified form; a missing user is the not-found error |
| Users.UpdateVerificationToken | src/modules/users/users.service.ts:68-80 | changes only the token and its expiry; not-found for a missing user, unique violation when another user holds the token |
| Users.DeleteSession | src/modules/users/users.service.ts:88-92 | removes exactly that session row and returns it; a missing row is the not-found error |
| Users.DeleteAllUserSessions | src/modules/users/users.service.ts:94-98 | removes all and only the user's sessions; the count equals the number of rows removed |
| AccessToken.Validate | src/modules/auth/access-token.strategy.ts:28-55 | Unauthorized when the session or its user is missing; Unauthorized when the user is BANNED; otherwise the session's user fields with the session id |
| AccessToken.SubjectIgnored | src/modules/auth/access-token.strategy.ts:28-55 | two payloads with the same session id validate alike: the `sub` claim is not consulted |
| AccessToken.ExpiryIgnored | src/modules/auth/access-token.strategy.ts:28-55 | changing a session's expiry does not change the outcome: expired sessions still validate |
| AccessToken.DeletedSessionRejected | src/modules/auth/access-token.strategy.ts:45-49 | a payload naming a session that does not exist is refused with the "session expired" message |
| Common.Patched | src/modules/auth/auth.service.ts:201-206 | an absent value in an update leaves the column as it was; a present one replaces it |
| Text.Lower | src/modules/auth/auth.service.ts:41 | lower-casing keeps the length and maps each character through the ASCII lower-case map |
| Text.LowerHasNoUpper | src/modules/users/users.service.ts:101 | a lower-cased string has no capital letter |
| Text.UnhexHex | src/modules/auth/auth.service.ts:35 | the hex string of a token reads back as exactly its bytes |
| Crypto.Hash | src/modules/auth/auth.service.ts:195 | a digest accepts exactly the secret it was made from |
| Crypto.Sign | src/modules/auth/auth.service.ts:174-185 | a signed token verifies under the secret of its own kind only, carrying its claims |
| Auth.Mailed | src/core/email/email.service.ts:44-57 | a failed send is InternalServerError with the provider-failure message; a delivered one returns the service's message |
| Auth.Registration | src/modules/auth/auth.service.ts:32-46 | lower-cased e-mail, username as given, a password digest, a 64-hex-character token that decodes to the 32 random bytes, expiry now + 3,600,000 ms, unverified and PENDING |
| Auth.Register | src/modules/auth/auth.service.ts:32-67 | a clash on a unique column is Conflict with nothing stored; otherwise the user is stored, and stays stored even when the verification e-mail then fails |
| Auth.GenerateTokens | src/modules/auth/auth.service.ts:170-187 | both tokens carry {sub: userId, sessionId}; the given session id is kept unless absent or empty, else the fresh one is used; each token verifies only as its own kind |
| Auth.AsUpdate | src/modules/auth/auth.service.ts:204-205 | an undefined connection field is no update; a defined one is written |
| Auth.UpdateUserSession | src/modules/auth/auth.service.ts:189-216 | the upsert touches only that session id; the row accepts exactly the new refresh token and expires now + 7 days; an existing row keeps its owner and creation time |
| Auth.Login | src/modules/auth/auth.service.ts:69-112 | unknown e-mail and wrong password give the same Unauthorized; an unverified account is refused before the password is checked; success adds exactly one session under the fresh id holding the refresh token's digest, returns the user without password hash, and the access token validates unless the user is banned |
| Auth.Refresh | src/modules/auth/auth.service.ts:114-128 | a missing (session, user) pair is the not-found error; a non-matching token is Unauthorized; it succeeds exactly when the user's session holds the presented token; success keeps the session id, re-hashes and re-expires the row, after which only the new token matches |
| Auth.Logout | src/modules/auth/auth.service.ts:131-159 | always answers the success message, removes that session if present, and afterwards no access token naming it validates |
| Auth.LogoutAll | src/modules/auth/auth.service.ts:161-168 | removes all and only the user's sessions; none of their access tokens validates afterwards |
| Auth.VerifyEmail | src/modules/auth/auth.service.ts:218-234 | unknown token or no expiry gives BadRequest "invalid"; an expiry before now gives BadRequest "expired" with no change; otherwise the user is verified and the token can no longer be found |
| Auth.ResendVerificationEmail | src/modules/auth/auth.service.ts:236-264 | unknown e-mail gets the generic notice with no change; a verified account is BadRequest; otherwise only that user's token and expiry (now + 1 h) change, even when the e-mail fails |
| Auth.GetActiveSessions | src/modules/auth/auth.service.ts:266-283 | every session of the user, expired ones included, one entry each, newest first |
| Auth.SessionViews | src/modules/auth/auth.service.ts:271-282 | the selected columns identify their session, so there is one view per session of the user |
| Sets.ValidateMembership | src/modules/sets/sets.service.ts:191-209 | Forbidden "not a member" without a membership row; Forbidden "no permission" when roles are given and the role is not among them; otherwise the row |
| Sets.FindOne | src/modules/sets/sets.service.ts:19-35 | a missing set is not-found, checked before membership; a non-member is Forbidden; otherwise the set with exactly its submissions, sorted by submitter username then creation time |
| Sets.SetViews | src/modules/sets/sets.service.ts:22-29 | one view per submission of the set, each with its submitter's card |
| Sets.BySubmitterThenTimeIsTotalPreorder | src/modules/sets/sets.service.ts:24 | the (username asc, createdAt asc) order is total and transitive |
| Sets.CountAfterInsert | src/modules/sets/sets.service.ts:55-71 | inserting a submission raises its own (set, submitter) count by one and no other |
| Sets.AddSubmission | src/modules/sets/sets.service.ts:37-78 | errors in order: not-found, Forbidden unless ACTIVE or FINISHED_AND_OPEN, Forbidden for non-members, Forbidden at the cap; it succeeds exactly when none of these applies, and success inserts exactly one submission of the caller to the set, after which the caller's count is at most the cap |
| Sets.QuorumIsPercentage | src/modules/sets/sets.service.ts:100-107 | with a positive member count, votes·100 ≥ threshold·members exactly when votes/members·100 ≥ threshold over exact rationals |
| Sets.QuorumMonotone | src/modules/sets/sets.service.ts:104-107 | a vote count meeting a threshold meets every lower one |
| Sets.VoteCountAfterInsert | src/modules/sets/sets.service.ts:98-100 | recording a new vote raises the set's vote count by one |
| Sets.MemberCountPositive | src/modules/sets/sets.service.ts:89-103 | a voter who passed the membership check makes the member count at least one |
| Sets.NextSet | src/modules/sets/sets.service.ts:112-118 | the next set is ACTIVE, in the same station, numbered one higher |
| Sets.VoteToEnd | src/modules/sets/sets.service.ts:80-133 | FINISHED is Conflict, non-members Forbidden, a repeated vote Conflict; otherwise it succeeds, exactly one vote is added, and the set is finished and the next opened iff the quorum (default threshold 100) is met, else no set changes |
| Sets.ReopenedSetAdvanceRepeatsNumber | src/modules/sets/sets.service.ts:87-118 | a quorum vote on a FINISHED_AND_OPEN set whose successor already exists succeeds, advances, and leaves two sets of that station with the same number, the new one ACTIVE |
| Sets.ReopenSet | src/modules/sets/sets.service.ts:135-160 | staff check before status; it succeeds exactly for staff on a FINISHED set, which becomes FINISHED_AND_OPEN; any other status is BadRequest; no other row changes |
| Sets.ReopenThenClose | src/modules/sets/sets.service.ts:135-189 | a staff reopen of a FINISHED set followed by a close both succeed and leave the set table exactly as it was |
| Sets.CloseSet | src/modules/sets/sets.service.ts:162-189 | staff check before status; it succeeds exactly for staff on a FINISHED_AND_OPEN set, which becomes FINISHED; any other status is BadRequest; no other row changes |
| Stations.ModeError | src/modules/stations/stations.service.ts:22-38 | FREEFLOW without both cap and threshold, or BACKSTAGE without reviews needed, is BadRequest with its message; TOUR passes |
| Stations.ModeErrorMeansMissing | src/modules/stations/stations.service.ts:22-38 | within the validator's bounds the mode check fails exactly when a required parameter is absent |
| Stations.NewStation | src/modules/stations/stations.service.ts:40-53 | name, description and creator from the request; a password digest iff a non-empty password was given; mode columns at their defaults |
| Stations.Create | src/modules/stations/stations.service.ts:22-69 | a mode error changes nothing; otherwise exactly the station and one ADMIN membership of the creator are added |
| Stations.FindAll | src/modules/stations/stations.service.ts:71-76 | exactly the stations without a password hash, each once, newest first |
| Stations.PublicCount | src/modules/stations/stations.service.ts:71-76 | distinct keys hold distinct rows, so there is one public row per public station key |
| Stations.Applied | src/modules/stations/stations.service.ts:117-120 | the given columns are replaced and id, creator, password hash, review flags and creation time are kept |
| Stations.EmptyPatchIsIdentity | src/modules/stations/stations.service.ts:117-120 | an update with no fields leaves the row as it was |
| Stations.Update | src/modules/stations/stations.service.ts:99-121 | a non-member is the not-found error, a MEMBER is Forbidden; it succeeds exactly for an ADMIN or MODERATOR on an existing station, patching exactly that row |
| Stations.Remove | src/modules/stations/stations.service.ts:123-135 | a missing station is not-found; anyone but the creator is Forbidden; the creator removes exactly that row |
| Stations.Join | src/modules/stations/stations.service.ts:137-182 | in order: not-found, Conflict for members, BadRequest for a private station without password, Unauthorized for a wrong one; success adds exactly one MEMBER row |
| Stations.AdminCountAfterInsert | src/modules/stations/stations.service.ts:55-61 | adding a membership raises a station's ADMIN count by one exactly when it is an ADMIN of that station |
| Stations.AdminCountAfterRemove | src/modules/stations/stations.service.ts:193-215 | removing a membership lowers a station's ADMIN count by one exactly when it was an ADMIN of that station |
| Stations.Leave | src/modules/stations/stations.service.ts:184-220 | a non-member is NotFound; the last ADMIN is Forbidden; it succeeds exactly for a non-ADMIN or an ADMIN while another ADMIN remains, removing only their row, and a station with an ADMIN keeps one |
| Reviews.ReplyViewsExact | src/modules/reviews/reviews.service.ts:14-24 | one view per direct reply, with its author's card and its own reply count |
| Reviews.FindReplies | src/modules/reviews/reviews.service.ts:14-24 | exactly the direct replies of the review, oldest first |
| Reviews.StationRuleError | src/modules/reviews/reviews.service.ts:96-121 | the first failing check, in the order rating required, comment required, rating forbidden, comment forbidden; none iff all four rules hold |
| Reviews.CommentOnlyStation | src/modules/reviews/reviews.service.ts:100-120 | a station that requires comments and forbids ratings accepts exactly a non-empty comment without rating |
| Reviews.EmptyCommentIsAbsent | src/modules/reviews/reviews.service.ts:105-120 | an empty comment is judged like no comment |
| Reviews.StationOf | src/modules/reviews/reviews.service.ts:32-43 | the station of a submission, reached through its set |
| Reviews.CreateRootReview | src/modules/reviews/reviews.service.ts:27-57 | not-found, then Forbidden for self-review, then Forbidden for non-members, then the station rules; success inserts exactly one root review with the request's rating and comment |
| Reviews.CreateReply | src/modules/reviews/reviews.service.ts:59-82 | not-found, then Forbidden for non-members; success inserts one reply to the parent's submission with no rating, without self-review or station-rule checks |
| Submissions.Replies | src/modules/submissions/submissions.service.ts:16-23 | exactly the direct replies of a review, each once |
| Submissions.ThreadsExact | src/modules/submissions/submissions.service.ts:8-26 | one thread per root review of the submission and nothing else |
| Submissions.FindReviews | src/modules/submissions/submissions.service.ts:8-27 | only root reviews of the submission, oldest first, each with exactly its direct replies |
| Tasks.Unverified | src/core/tasks/tasks.service.ts:15-30 | exactly the users not verified and created strictly before now − 86,400,000 ms |
| Tasks.Expired | src/core/tasks/tasks.service.ts:45-51 | exactly the sessions whose expiry is strictly before now |
| Tasks.CleanupUnverifiedUsers | src/core/tasks/tasks.service.ts:11-39 | deletes exactly the stale unverified users; verified or recent ones survive unchanged; the count equals the rows removed |
| Tasks.CleanupExpiredSessions | src/core/tasks/tasks.service.ts:41-60 | deletes exactly the expired sessions; the others survive unchanged; the count equals the rows removed |
| Tasks.UnverifiedSweepIdempotent | src/core/tasks/tasks.service.ts:17-30 | a second user sweep at the same instant finds nothing |
| Tasks.ExpiredSweepIdempotent | src/core/tasks/tasks.service.ts:45-51 | a second session sweep at the same instant finds nothing |
| Tasks.UnverifiedGrowsWithTime | src/core/tasks/tasks.service.ts:15-30 | a later user sweep removes a superset of what an earlier one would |
| Tasks.ExpiredGrowsWithTime | src/core/tasks/tasks.service.ts:45-51 | a later session sweep removes a superset of what an earlier one would |
| Tasks.VerifiedNeverSwept | src/core/tasks/tasks.service.ts:17-30 | a verified user is never removed |
| PrismaErrors.MapPrismaError | src/shared/prisma/prisma-error.mapper.ts:6-38 | P2002 is 409 DUPLICATE_RESOURCE, P2025 404 RESOURCE_NOT_FOUND, P2003 400 INVALID_RELATION, any other code 500 UNEXPECTED, each with its message |
| PrismaErrors.MapPrismaErrorTotal | src/shared/prisma/prisma-error.mapper.ts:9-37 | the status is always one of 409, 404, 400, 500; 500 exactly for UNEXPECTED and exactly for unknown codes |
| PrismaErrors.MapPrismaErrorDistinguishes | src/shared/prisma/prisma-error.mapper.ts:9-37 | two different codes resolve alike only when neither is one of the three known codes |
| ExceptionFilter.BodyMessage | src/shared/filters/http-exception.filter.ts:41-53 | an object body with a message yields that message; an object without one yields the body; a string body yields the string |
| ExceptionFilter.Resolve | src/shared/filters/http-exception.filter.ts:27-58 | DomainException copied verbatim; HttpException with its status, code VALIDATION and its body's message; store errors as the mapper says; anything else 500 UNEXPECTED with the default message |
| ExceptionFilter.StatusName | src/shared/filters/http-exception.filter.ts:75 | a status name exactly for the six statuses the services produce |
| ExceptionFilter.Outgoing | src/shared/filters/http-exception.filter.ts:77-79 | a list message is reduced to its first line (absent when empty); other messages pass through; no list is ever sent |
| ExceptionFilter.ToResponse | src/shared/filters/http-exception.filter.ts:73-84 | statusCode and code are the resolved ones, path is the request URL, the message is reduced as above |
| ExceptionFilter.RaisedReachesClient | src/shared/filters/http-exception.filter.ts:37-84 | an exception raised by a service with status s and text m reaches the client as s, its name, VALIDATION and exactly m |
| ExceptionFilter.ValidationListShowsFirst | src/shared/filters/http-exception.filter.ts:43-79 | a validation list reaches the client as its first line |
| ExceptionFilter.ServerErrorExactly | src/shared/filters/http-exception.filter.ts:27-58 | the response is 500 exactly for unrecognised exceptions, unknown store codes, and exceptions raised with 500 |
| ExceptionFilter.NoListReachesClient | src/shared/filters/http-exception.filter.ts:77-79 | the response message is never a list |

## Left out

- HTTP plumbing is not part of this model: controllers, modules, bootstrapping, Swagger annotations and cookies. The refresh controller re-sets only the access-token cookie, so the rotated refresh token never reaches the browser; that lives in a controller.
- The station controller calls `findAllSets` and `updateMemberRole`. Neither exists in the station service, so neither is modelled. The station service's `findOne` is also not modelled.
- Request validators are not modelled. Their bounds appear only as preconditions: a cap of at least 1, a threshold in 1..100, at least one review, a rating in 1..5. The create DTO's `visibility` field plays no part in the service.
- Crypto.Hash: bcrypt's truncation of secrets to 72 bytes is not modelled. Real JWTs are longer than 72 bytes, and two refresh tokens of one user share a long prefix. In the deployed system an older refresh token may therefore still match after rotation. The model's rotation property relies on full comparison.
- Crypto.Sign: tokens carry no expiry and no signature bytes. Two tokens with the same claims, kind and second are equal, which matches jsonwebtoken's one-second `iat` granularity.
- Auth.UpdateUserSession: the `setDate(+7)` expiry is modelled as exactly 7 × 24 h. Daylight-saving shifts are ignored.
- Other store failures (connection loss, timeouts and the like) are not modelled anywhere. The model's store fails only with the unique-constraint violation (P2002) and the row-not-found error (P2025), where each operation's contract says so. So Auth.Register never propagates another store error, and Auth.Logout never meets the errors it would rethrow.
- Text.Lower: only ASCII letters are lower-cased. `toLowerCase` and `toLocaleLowerCase` also fold other alphabets.
- Text.StrLe: names are ordered by code point, not by the database collation. This affects the username order of Sets.FindOne and the station-name order of Users.FindUserStations.
- Users.FindUserStations, Stations.FindAll, Auth.GetActiveSessions, Reviews.FindReplies and Submissions.FindReviews: rows with equal sort keys may come back in any order; the model picks one.
- Reviews.StationRuleError: a rating is either present or absent. The request validator keeps a JSON `"rating": null` (the validation pipe does not transform it), and the service compares with `undefined`. Such a request therefore passes "rating required" and fails "rating forbidden". The model cannot express an explicit null.
- Sets.ReopenedSetAdvanceRepeatsNumber: the database schema is not part of this model. If it declares (station, set number) unique, the second create fails with P2002 and the whole vote transaction is rolled back instead.
- Sets.VoteToEnd: the vote percentage is compared as exact integers. The source uses floating point, for example 29/50·100 = 57.99999999999999 < 58. The success message, which embeds the new set's number, is not modelled.
- Reviews.CreateRootReview: ratings are modelled as exact reals within 1..5, not as floating-point numbers.
- Stations.Update: the update DTO is not part of this model. The patch covers the name, the description and the three mode columns. Hashing a new password in the update is left out.
- Foreign-key integrity is assumed through preconditions: a set's station exists, a submission's set and station exist, authors and submitters exist. Deleting a station or a user does not cascade to dependent rows in the model.
- Concurrency: each transaction is treated as one atomic step. Races on the cap or on the vote count are not modelled.
- E-mail delivery is the `delivered` parameter. The e-mail templates and the provider call are left out.
- The clock is a parameter, and so are random bytes, UUIDs and bcrypt salts. Cron scheduling and all logging are left out, including the filter's logging of server errors.
- ExceptionFilter.StatusName: only the six statuses the services and the store mapping produce are named. Other statuses of the framework's enumeration get no name in the model.
- ExceptionFilter.Resolve: the response's `timestamp` is an opaque string parameter. The framework's own exception classes are represented only by the body they carry.
- Configuration validation and the password stripping in the users controller are left out.
