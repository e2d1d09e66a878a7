/** The user service: lookups on the user table by its unique columns, the
    stations a user belongs to, and the row updates the auth service builds
    on (verification, token replacement, session deletion). */
module Users {

  import opened Common
  import opened Crypto
  import opened Store
  import opened Text
  import opened Ordering

  /** `findByEmail`: an exact match on the stored e-mail; the argument is not
      canonicalised here. */
  function FindByEmail(users: map<UserId, User>, email: string): (r: Option<User>)
    requires UsersValid(users)
    ensures r.Some? ==> r.value.id in users && users[r.value.id] == r.value && r.value.email == email
    ensures r.None? ==> forall k | k in users :: users[k].email != email
  {
    if exists k | k in users :: users[k].email == email then
      var k :| k in users && users[k].email == email;
      Some(users[k])
    else None
  }

  /** `findByVerificationToken`: the one user whose pending token is `token`. */
  function FindByVerificationToken(users: map<UserId, User>, token: string): (r: Option<User>)
    requires UsersValid(users)
    ensures r.Some? ==> r.value.id in users && users[r.value.id] == r.value
                        && r.value.emailVerificationToken == Some(token)
    ensures r.None? ==> forall k | k in users :: users[k].emailVerificationToken != Some(token)
  {
    if exists k | k in users :: users[k].emailVerificationToken == Some(token) then
      var k :| k in users && users[k].emailVerificationToken == Some(token);
      Some(users[k])
    else None
  }

  /** The author columns the other services include with a row: id,
      username and picture. */
  datatype UserCard = UserCard(id: UserId, username: string, imageUrl: Option<string>)

  function CardOf(u: User): UserCard
  {
    UserCard(u.id, u.username, u.imageUrl)
  }

  /** The public profile `findByUsername` selects. */
  datatype Profile = Profile(id: UserId, name: string, username: string,
                             bio: Option<string>, imageUrl: Option<string>, createdAt: int)

  function ProfileOf(u: User): Profile
  {
    Profile(u.id, u.name, u.username, u.bio, u.imageUrl, u.createdAt)
  }

  /** `findByUsername`: lower-cases its argument, then matches exactly. */
  function FindByUsername(users: map<UserId, User>, username: string): (r: Option<Profile>)
    requires UsersValid(users)
    ensures r.Some? ==> r.value.id in users && r.value == ProfileOf(users[r.value.id])
                        && r.value.username == Lower(username)
    ensures r.None? ==> forall k | k in users :: users[k].username != Lower(username)
  {
    var canonical := Lower(username);
    if exists k | k in users :: users[k].username == canonical then
      var k :| k in users && users[k].username == canonical;
      Some(ProfileOf(users[k]))
    else None
  }

  /** A user whose stored username has a capital letter is never found by
      username, whatever is asked. */
  lemma CapitalisedUsernameNeverFound(users: map<UserId, User>, u: User, query: string)
    requires UsersValid(users) && u in users.Values && HasUpper(u.username)
    ensures FindByUsername(users, query) != Some(ProfileOf(u))
  {
    LowerHasNoUpper(query);
  }

  /** A station as `findUserStations` returns it, with its member count. */
  datatype StationSummary = StationSummary(station: Station, memberCount: nat)

  function MemberCount(members: map<(UserId, StationId), Membership>, stationId: StationId): nat
  {
    |set k | k in members && k.1 == stationId|
  }

  function ByName(a: StationSummary, b: StationSummary): bool
  {
    StrLe(a.station.name, b.station.name)
  }

  lemma ByNameIsTotalPreorder()
    ensures TotalPreorder(ByName)
  {
    forall a, b ensures ByName(a, b) || ByName(b, a) {
      StrLeTotal(a.station.name, b.station.name);
    }
    forall a, b, c | ByName(a, b) && ByName(b, c) ensures ByName(a, c) {
      StrLeTransitive(a.station.name, b.station.name, c.station.name);
    }
  }

  ghost predicate IsUserStation(stations: map<StationId, Station>,
                                members: map<(UserId, StationId), Membership>,
                                userId: UserId, x: StationSummary)
  {
    && x.station.id in stations
    && stations[x.station.id] == x.station
    && (userId, x.station.id) in members
    && x.memberCount == MemberCount(members, x.station.id)
  }

  /** `findUserStations`: the stations the user has a membership row in, each
      with its member count, by name ascending. */
  ghost function FindUserStations(stations: map<StationId, Station>,
                                  members: map<(UserId, StationId), Membership>,
                                  userId: UserId): (r: seq<StationSummary>)
    requires StationsValid(stations)
    ensures Sorted(r, ByName)
    ensures forall x :: x in r <==> IsUserStation(stations, members, userId, x)
    ensures |r| == |set k | k in stations && (userId, k) in members|
  {
    var keys := set k | k in stations && (userId, k) in members;
    var rows := set k | k in keys :: StationSummary(stations[k], MemberCount(members, k));
    ByNameIsTotalPreorder();
    assert |rows| == |keys| by {
      SummaryCount(stations, members, keys);
    }
    Listing(rows, ByName)
  }

  /** Summaries of distinct stations are distinct. */
  lemma SummaryCount(stations: map<StationId, Station>,
                     members: map<(UserId, StationId), Membership>, keys: set<StationId>)
    requires StationsValid(stations) && keys <= stations.Keys
    ensures |set k | k in keys :: StationSummary(stations[k], MemberCount(members, k))| == |keys|
  {
    var f := k requires k in stations => StationSummary(stations[k], MemberCount(members, k));
    assert forall a, b | a in keys && b in keys && f(a) == f(b) :: a == b by {
      forall a, b | a in keys && b in keys && f(a) == f(b) ensures a == b {
        assert stations[a].id == a && stations[b].id == b;
      }
    }
    var summaries := set k | k in keys :: StationSummary(stations[k], MemberCount(members, k));
    ImageCount(keys, summaries, f);
  }

  /** Any of the table's unique columns already holds the new row's value. */
  predicate ClashesWith(users: map<UserId, User>, u: User)
  {
    exists k | k in users ::
      || users[k].email == u.email
      || users[k].username == u.username
      || (u.emailVerificationToken.Some? && users[k].emailVerificationToken == u.emailVerificationToken)
  }

  /** `createUser`: inserts the row, or fails with the store's unique-constraint
      error when the e-mail, username or verification token is taken. */
  method CreateUser(db: Db, data: User) returns (r: Result<User>)
    requires db.Valid() && data.id !in db.users
    modifies db`users
    ensures db.Valid()
    ensures ClashesWith(old(db.users), data) ==> r == Err(UniqueViolation) && db.users == old(db.users)
    ensures !ClashesWith(old(db.users), data) ==> r == Ok(data) && db.users == old(db.users)[data.id := data]
  {
    if ClashesWith(db.users, data) {
      return Err(UniqueViolation);
    }
    db.users := db.users[data.id := data];
    r := Ok(data);
  }

  /** The row `verifyUser` writes: verified, ACTIVE, no pending token. */
  function Verified(u: User): (v: User)
    ensures v.emailVerified && v.status == UserStatus.Active
    ensures v.emailVerificationToken.None? && v.emailTokenExpiresAt.None?
    ensures v.(emailVerified := u.emailVerified, status := u.status,
               emailVerificationToken := u.emailVerificationToken,
               emailTokenExpiresAt := u.emailTokenExpiresAt) == u
  {
    u.(emailVerified := true, status := UserStatus.Active, emailVerificationToken := None, emailTokenExpiresAt := None)
  }

  /** `verifyUser`: marks the user verified and clears the token; a missing
      user is the store's not-found error. */
  method VerifyUser(db: Db, userId: UserId) returns (r: Result<User>)
    requires db.Valid()
    modifies db`users
    ensures db.Valid()
    ensures userId !in old(db.users) ==> r == Err(RowNotFound) && db.users == old(db.users)
    ensures userId in old(db.users) ==>
              && r == Ok(Verified(old(db.users)[userId]))
              && db.users == old(db.users)[userId := r.value]
  {
    if userId !in db.users {
      return Err(RowNotFound);
    }
    var v := Verified(db.users[userId]);
    db.users := db.users[userId := v];
    r := Ok(v);
  }

  /** `updateVerificationToken`: replaces the token and its expiry and nothing
      else; the token column is unique. */
  method UpdateVerificationToken(db: Db, userId: UserId, token: string, expiresAt: int)
    returns (r: Result<User>)
    requires db.Valid()
    modifies db`users
    ensures db.Valid()
    ensures userId !in old(db.users) ==> r == Err(RowNotFound) && db.users == old(db.users)
    ensures userId in old(db.users) && TokenHeldByOther(old(db.users), userId, token) ==>
              r == Err(UniqueViolation) && db.users == old(db.users)
    ensures userId in old(db.users) && !TokenHeldByOther(old(db.users), userId, token) ==>
              && r == Ok(old(db.users)[userId].(emailVerificationToken := Some(token),
                                                emailTokenExpiresAt := Some(expiresAt)))
              && db.users == old(db.users)[userId := r.value]
  {
    if userId !in db.users {
      return Err(RowNotFound);
    }
    if TokenHeldByOther(db.users, userId, token) {
      return Err(UniqueViolation);
    }
    var u := db.users[userId].(emailVerificationToken := Some(token), emailTokenExpiresAt := Some(expiresAt));
    db.users := db.users[userId := u];
    r := Ok(u);
  }

  predicate TokenHeldByOther(users: map<UserId, User>, userId: UserId, token: string)
  {
    exists k | k in users :: k != userId && users[k].emailVerificationToken == Some(token)
  }

  /** `deleteSession`: removes exactly the row with that id; a missing row is
      the store's not-found error. */
  method DeleteSession(db: Db, sessionId: SessionId) returns (r: Result<Session>)
    requires db.Valid()
    modifies db`sessions
    ensures db.Valid()
    ensures sessionId !in old(db.sessions) ==> r == Err(RowNotFound) && db.sessions == old(db.sessions)
    ensures sessionId in old(db.sessions) ==>
              r == Ok(old(db.sessions)[sessionId]) && db.sessions == old(db.sessions) - {sessionId}
  {
    if sessionId !in db.sessions {
      return Err(RowNotFound);
    }
    r := Ok(db.sessions[sessionId]);
    db.sessions := db.sessions - {sessionId};
  }

  /** The ids of the sessions a user owns. */
  function SessionsOf(sessions: map<SessionId, Session>, userId: UserId): set<SessionId>
  {
    set k | k in sessions && sessions[k].userId == userId
  }

  /** `deleteAllUserSessions`: removes all and only the user's sessions and
      reports how many went. */
  method DeleteAllUserSessions(db: Db, userId: UserId) returns (count: nat)
    requires db.Valid()
    modifies db`sessions
    ensures db.Valid()
    ensures db.sessions == old(db.sessions) - SessionsOf(old(db.sessions), userId)
    ensures forall k | k in db.sessions :: db.sessions[k].userId != userId
    ensures count == |SessionsOf(old(db.sessions), userId)| == |old(db.sessions)| - |db.sessions|
  {
    var doomed := SessionsOf(db.sessions, userId);
    DeleteManyCount(db.sessions, doomed);
    db.sessions := db.sessions - doomed;
    count := |doomed|;
  }
}
