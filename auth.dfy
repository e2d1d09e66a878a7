/** The auth service: registration with an e-mailed verification token,
    login that opens a session, refresh-token rotation, logout of one or all
    sessions, e-mail verification and the listing of a user's sessions.
    Randomness (salts, the 32 token bytes, session UUIDs), the clock and the
    outcome of sending an e-mail are parameters. */
module Auth {

  import opened Common
  import opened Crypto
  import opened Store
  import opened Text
  import opened Ordering
  import Users
  import AccessToken

  const VERIFICATION_TOKEN_BYTES := 32
  /** A verification token is good for one hour. */
  const VERIFICATION_TTL_MS := 3600000
  /** A session's refresh token is good for seven days. */
  const SESSION_TTL_MS := 7 * 24 * 60 * 60 * 1000

  const Registered := "Registro realizado com sucesso! Verifique seu e-mail para ativar sua conta."
  const DuplicateAccount := "Email ou nome de usuário já existe."
  const InvalidCredentials := "Credenciais inválidas."
  const EmailNotVerified := "Seu e-mail ainda não foi verificado. Por favor, verifique sua caixa de entrada."
  const InvalidRefreshToken := "Refresh token inválido."
  const LoggedOut := "Deslogado com sucesso."
  const AllLoggedOut := "Todas as suas sessões foram encerradas."
  const InvalidVerificationToken := "Token de verificação inválido."
  const ExpiredVerificationToken := "Token de verificação expirou."
  const EmailVerified := "E-mail verificado com sucesso! Você já pode fazer o login."
  const ResendNotice := "Se um usuário com este e-mail existir, um novo link de verificação foi enviado."
  const AlreadyVerified := "Este e-mail já foi verificado."
  /** What the e-mail service raises when the provider call fails. */
  const EmailNotSent := "Não foi possível enviar o e-mail de verificação."

  /** The outcome of one call to the e-mail service. */
  function Mailed(delivered: bool, message: string): (r: Result<string>)
    ensures delivered <==> r == Ok(message)
    ensures !delivered ==> r == Err(InternalServerError(EmailNotSent))
  {
    if delivered then Ok(message) else Err(InternalServerError(EmailNotSent))
  }

  // ---------------------------------------------------------------- register

  /** The row `register` asks the store to create; the schema supplies
      `emailVerified = false`, `status = PENDING` and `createdAt = now`. */
  function Registration(id: UserId, name: string, email: string, username: string, password: string,
                        tokenBytes: seq<bv8>, salt: nat, nowMs: int): (u: User)
    requires |tokenBytes| == VERIFICATION_TOKEN_BYTES
    ensures u.id == id && u.name == name && u.username == username
    ensures u.email == Lower(email) && !HasUpper(u.email)
    ensures forall p :: Compare(p, u.passwordHash) <==> p == password
    ensures !u.emailVerified && u.status == Pending
    ensures u.emailVerificationToken.Some?
    ensures var token := u.emailVerificationToken.value;
            |token| == 64 && IsHexString(token) && Unhex(token) == tokenBytes
    ensures u.emailTokenExpiresAt == Some(nowMs + VERIFICATION_TTL_MS)
    ensures u.bio.None? && u.imageUrl.None? && u.createdAt == nowMs
  {
    LowerHasNoUpper(email);
    UnhexHex(tokenBytes);
    User(id, name, Lower(email), username, Hash(password, salt), false, Pending,
         Some(Hex(tokenBytes)), Some(nowMs + VERIFICATION_TTL_MS), None, None, nowMs)
  }

  /** `register`: a clash on a unique column is reported as a conflict and
      stores nothing; otherwise the user is stored, and stays stored even
      when the verification e-mail then fails to go out. */
  method Register(db: Db, name: string, email: string, username: string, password: string,
                  tokenBytes: seq<bv8>, salt: nat, newUserId: UserId, nowMs: int, delivered: bool)
    returns (r: Result<string>)
    requires db.Valid() && newUserId !in db.users && |tokenBytes| == VERIFICATION_TOKEN_BYTES
    modifies db`users
    ensures db.Valid()
    ensures var u := Registration(newUserId, name, email, username, password, tokenBytes, salt, nowMs);
            && (Users.ClashesWith(old(db.users), u) ==>
                  r == Err(Conflict(DuplicateAccount)) && db.users == old(db.users))
            && (!Users.ClashesWith(old(db.users), u) ==>
                  db.users == old(db.users)[newUserId := u] && r == Mailed(delivered, Registered))
  {
    var data := Registration(newUserId, name, email, username, password, tokenBytes, salt, nowMs);
    var created := Users.CreateUser(db, data);
    if created.Err? {
      // The only store failure `createUser` can meet is the unique-constraint one.
      assert created.error == PrismaKnown(P2002);
      return Err(Conflict(DuplicateAccount));
    }
    r := Mailed(delivered, Registered);
  }

  // ------------------------------------------------------------------ tokens

  datatype TokenPair = TokenPair(accessToken: Jwt, refreshToken: Jwt, sessionId: SessionId)

  /** `generateTokens`: both tokens carry `{sub: userId, sessionId}`; the
      session id is the one given unless it is absent or empty, when the
      freshly drawn `minted` is used. */
  function GenerateTokens(userId: UserId, sessionId: Option<SessionId>, minted: SessionId, nowMs: int)
    : (r: TokenPair)
    ensures r.sessionId == (if sessionId.Some? && sessionId.value != "" then sessionId.value else minted)
    ensures Verify(r.accessToken, Access) == Some(Claims(userId, r.sessionId))
    ensures Verify(r.refreshToken, TokenKind.Refresh) == Some(Claims(userId, r.sessionId))
    ensures Verify(r.accessToken, TokenKind.Refresh).None? && Verify(r.refreshToken, Access).None?
    ensures r.refreshToken.issuedAt == nowMs / 1000
  {
    var sid := if sessionId.Some? && sessionId.value != "" then sessionId.value else minted;
    var claims := Claims(userId, sid);
    TokenPair(Sign(claims, Access, nowMs), Sign(claims, TokenKind.Refresh, nowMs), sid)
  }

  /** What the controller knows of the client. */
  datatype ConnectionInfo = ConnectionInfo(ipAddress: Option<string>, userAgent: Option<string>)

  function IpOf(conn: Option<ConnectionInfo>): Option<string>
  {
    if conn.Some? then conn.value.ipAddress else None
  }

  function AgentOf(conn: Option<ConnectionInfo>): Option<string>
  {
    if conn.Some? then conn.value.userAgent else None
  }

  /** An undefined field is no update of a nullable column; a present one
      writes its value. */
  function AsUpdate<T>(field: Option<T>): (u: Option<Option<T>>)
    ensures field.None? <==> u.None?
    ensures field.Some? ==> u == Some(field)
  {
    if field.Some? then Some(field) else None
  }

  /** `updateUserSession`: an upsert on the session id. Either way the row ends
      up holding the hash of exactly this refresh token and a fresh seven-day
      expiry; an existing row keeps its owner and creation time. */
  method UpdateUserSession(db: Db, userId: UserId, refreshToken: Jwt, sessionId: SessionId,
                           conn: Option<ConnectionInfo>, salt: nat, nowMs: int)
    requires db.Valid() && sessionId != ""
    modifies db`sessions
    ensures db.Valid()
    ensures sessionId in db.sessions
    ensures db.sessions == old(db.sessions)[sessionId := db.sessions[sessionId]]
    ensures forall t :: Compare(t, db.sessions[sessionId].refreshTokenHash) <==> t == refreshToken
    ensures db.sessions[sessionId].expiresAt == nowMs + SESSION_TTL_MS
    ensures sessionId in old(db.sessions) ==>
              var s := old(db.sessions)[sessionId];
              db.sessions[sessionId]
                == s.(refreshTokenHash := Hash(refreshToken, salt), expiresAt := nowMs + SESSION_TTL_MS,
                      ipAddress := Patched(s.ipAddress, AsUpdate(IpOf(conn))),
                      userAgent := Patched(s.userAgent, AsUpdate(AgentOf(conn))))
    ensures sessionId !in old(db.sessions) ==>
              db.sessions[sessionId]
                == Session(sessionId, userId, Hash(refreshToken, salt), nowMs + SESSION_TTL_MS,
                           IpOf(conn), AgentOf(conn), nowMs)
  {
    var hash := Hash(refreshToken, salt);
    var expiresAt := nowMs + SESSION_TTL_MS;
    var row;
    if sessionId in db.sessions {
      var s := db.sessions[sessionId];
      row := s.(refreshTokenHash := hash, expiresAt := expiresAt,
                ipAddress := Patched(s.ipAddress, AsUpdate(IpOf(conn))),
                userAgent := Patched(s.userAgent, AsUpdate(AgentOf(conn))));
    } else {
      row := Session(sessionId, userId, hash, expiresAt, IpOf(conn), AgentOf(conn), nowMs);
    }
    db.sessions := db.sessions[sessionId := row];
  }

  // ------------------------------------------------------------------- login

  /** The user as `login` returns it: every column but the password hash. */
  datatype PublicUser = PublicUser(
    id: UserId, name: string, email: string, username: string,
    emailVerified: bool, status: UserStatus,
    emailVerificationToken: Option<string>, emailTokenExpiresAt: Option<int>,
    bio: Option<string>, imageUrl: Option<string>, createdAt: int)

  function WithoutPassword(u: User): PublicUser
  {
    PublicUser(u.id, u.name, u.email, u.username, u.emailVerified, u.status,
               u.emailVerificationToken, u.emailTokenExpiresAt, u.bio, u.imageUrl, u.createdAt)
  }

  datatype LoginResult = LoginResult(accessToken: Jwt, refreshToken: Jwt, user: PublicUser)

  /** `login`: looks the user up by the lower-cased e-mail; an unknown e-mail
      and a wrong password give the same answer, an unverified account is
      refused before the password is looked at. On success a new session
      holds the hash of the refresh token. The account's status is not
      looked at: a banned user gets tokens that access validation refuses. */
  method Login(db: Db, email: string, password: string, conn: ConnectionInfo,
               minted: SessionId, salt: nat, nowMs: int)
    returns (r: Result<LoginResult>)
    requires db.Valid() && minted != "" && minted !in db.sessions
    modifies db`sessions
    ensures db.Valid()
    ensures var found := Users.FindByEmail(db.users, Lower(email));
            && (found.None? ==>
                  r == Err(Unauthorized(InvalidCredentials)) && db.sessions == old(db.sessions))
            && (found.Some? && !found.value.emailVerified ==>
                  r == Err(Unauthorized(EmailNotVerified)) && db.sessions == old(db.sessions))
            && (found.Some? && found.value.emailVerified && !Compare(password, found.value.passwordHash) ==>
                  r == Err(Unauthorized(InvalidCredentials)) && db.sessions == old(db.sessions))
    ensures r.Ok? ==>
              var u := Users.FindByEmail(db.users, Lower(email)).value;
              && u.emailVerified && Compare(password, u.passwordHash)
              && r.value.user == WithoutPassword(u)
              && r.value.accessToken == Sign(Claims(u.id, minted), Access, nowMs)
              && r.value.refreshToken == Sign(Claims(u.id, minted), TokenKind.Refresh, nowMs)
              && db.sessions == old(db.sessions)[minted :=
                   Session(minted, u.id, Hash(r.value.refreshToken, salt), nowMs + SESSION_TTL_MS,
                           conn.ipAddress, conn.userAgent, nowMs)]
              && (AccessToken.Validate(db.sessions, db.users, Claims(u.id, minted)).Ok? <==> u.status != Banned)
    ensures r.Err? <==> Users.FindByEmail(db.users, Lower(email)).None?
                        || !Users.FindByEmail(db.users, Lower(email)).value.emailVerified
                        || !Compare(password, Users.FindByEmail(db.users, Lower(email)).value.passwordHash)
  {
    var found := Users.FindByEmail(db.users, Lower(email));
    if found.None? {
      return Err(Unauthorized(InvalidCredentials));
    }
    var user := found.value;
    if !user.emailVerified {
      return Err(Unauthorized(EmailNotVerified));
    }
    if !Compare(password, user.passwordHash) {
      return Err(Unauthorized(InvalidCredentials));
    }
    var tokens := GenerateTokens(user.id, None, minted, nowMs);
    UpdateUserSession(db, user.id, tokens.refreshToken, tokens.sessionId, Some(conn), salt, nowMs);
    r := Ok(LoginResult(tokens.accessToken, tokens.refreshToken, WithoutPassword(user)));
  }

  // ----------------------------------------------------------------- refresh

  /** `refresh`, called with the claims of a refresh token whose signature
      has been checked and the token itself. The session must exist and belong
      to the user (else the store's not-found error), and must hold the hash of
      this very token. The session keeps its id and gets the new token's hash:
      afterwards only the new token matches, so an older one, issued in an
      earlier second, is refused. `minted` is never used, because a stored
      session id is never empty. */
  method Refresh(db: Db, userId: UserId, sessionId: SessionId, presented: Jwt,
                 minted: SessionId, salt: nat, nowMs: int)
    returns (r: Result<TokenPair>)
    requires db.Valid()
    modifies db`sessions
    ensures db.Valid()
    ensures !(sessionId in old(db.sessions) && old(db.sessions)[sessionId].userId == userId) ==>
              r == Err(RowNotFound) && db.sessions == old(db.sessions)
    ensures sessionId in old(db.sessions) && old(db.sessions)[sessionId].userId == userId
            && !Compare(presented, old(db.sessions)[sessionId].refreshTokenHash) ==>
              r == Err(Unauthorized(InvalidRefreshToken)) && db.sessions == old(db.sessions)
    ensures r.Ok? <==>
              && sessionId in old(db.sessions) && old(db.sessions)[sessionId].userId == userId
              && Compare(presented, old(db.sessions)[sessionId].refreshTokenHash)
    ensures r.Ok? ==>
              && r.value.sessionId == sessionId
              && Verify(r.value.refreshToken, TokenKind.Refresh) == Some(Claims(userId, sessionId))
              && Verify(r.value.accessToken, Access) == Some(Claims(userId, sessionId))
              && db.sessions == old(db.sessions)[sessionId := old(db.sessions)[sessionId].(
                   refreshTokenHash := Hash(r.value.refreshToken, salt),
                   expiresAt := nowMs + SESSION_TTL_MS)]
              && (forall t :: Compare(t, db.sessions[sessionId].refreshTokenHash) <==> t == r.value.refreshToken)
              && (presented.issuedAt != nowMs / 1000 ==>
                    !Compare(presented, db.sessions[sessionId].refreshTokenHash))
    ensures r.Err? ==> db.sessions == old(db.sessions)
  {
    if !(sessionId in db.sessions && db.sessions[sessionId].userId == userId) {
      return Err(RowNotFound);
    }
    var session := db.sessions[sessionId];
    if !Compare(presented, session.refreshTokenHash) {
      return Err(Unauthorized(InvalidRefreshToken));
    }
    var tokens := GenerateTokens(userId, Some(sessionId), minted, nowMs);
    UpdateUserSession(db, userId, tokens.refreshToken, sessionId, None, salt, nowMs);
    r := Ok(tokens);
  }

  // ------------------------------------------------------------------ logout

  /** `logout`: deletes the session; one that is already gone is not an
      error. Afterwards no access token naming that session validates. */
  method Logout(db: Db, sessionId: SessionId) returns (r: Result<string>)
    requires db.Valid()
    modifies db`sessions
    ensures db.Valid()
    ensures r == Ok(LoggedOut)
    ensures db.sessions == old(db.sessions) - {sessionId}
    ensures forall c: Claims | c.sessionId == sessionId ::
              AccessToken.Validate(db.sessions, db.users, c) == Err(Unauthorized(AccessToken.SessionGone))
  {
    var deleted := Users.DeleteSession(db, sessionId);
    // The only failure `deleteSession` can meet is a missing row, which is ignored.
    assert deleted.Err? ==> deleted.error == PrismaKnown(P2025);
    r := Ok(LoggedOut);
  }

  /** `logoutAll`: deletes every session of the user, so none of the user's
      access or refresh tokens is honoured afterwards. */
  method LogoutAll(db: Db, userId: UserId) returns (r: Result<string>)
    requires db.Valid()
    modifies db`sessions
    ensures db.Valid()
    ensures r == Ok(AllLoggedOut)
    ensures db.sessions == old(db.sessions) - Users.SessionsOf(old(db.sessions), userId)
    ensures Users.SessionsOf(db.sessions, userId) == {}
    ensures forall c: Claims | c.sessionId in Users.SessionsOf(old(db.sessions), userId) ::
              AccessToken.Validate(db.sessions, db.users, c) == Err(Unauthorized(AccessToken.SessionGone))
  {
    var count := Users.DeleteAllUserSessions(db, userId);
    r := Ok(AllLoggedOut);
  }

  // ------------------------------------------------------ e-mail verification

  /** `verifyEmail`: a token that no user holds, or that has no expiry, is
      invalid; one past its expiry is refused and left in place; otherwise the
      user is verified and the token cleared, so it cannot be used twice. */
  method VerifyEmail(db: Db, token: string, nowMs: int) returns (r: Result<string>)
    requires db.Valid()
    modifies db`users
    ensures db.Valid()
    ensures var found := Users.FindByVerificationToken(old(db.users), token);
            && (found.None? || found.value.emailTokenExpiresAt.None? ==>
                  r == Err(BadRequest(InvalidVerificationToken)) && db.users == old(db.users))
            && (found.Some? && found.value.emailTokenExpiresAt.Some?
                && found.value.emailTokenExpiresAt.value < nowMs ==>
                  r == Err(BadRequest(ExpiredVerificationToken)) && db.users == old(db.users))
            && (found.Some? && found.value.emailTokenExpiresAt.Some?
                && found.value.emailTokenExpiresAt.value >= nowMs ==>
                  r == Ok(EmailVerified)
                  && db.users == old(db.users)[found.value.id := Users.Verified(found.value)])
    ensures r.Ok? ==> Users.FindByVerificationToken(db.users, token).None?
  {
    var found := Users.FindByVerificationToken(db.users, token);
    if found.None? || found.value.emailTokenExpiresAt.None? {
      return Err(BadRequest(InvalidVerificationToken));
    }
    var user := found.value;
    if user.emailTokenExpiresAt.value < nowMs {
      return Err(BadRequest(ExpiredVerificationToken));
    }
    var verified := Users.VerifyUser(db, user.id);
    r := Ok(EmailVerified);
  }

  /** `resendVerificationEmail`: an unknown e-mail gets the same notice as a
      successful resend; a verified account is refused; otherwise a new token
      with a new one-hour expiry replaces the old one, and stays even when the
      e-mail then fails to go out. */
  method ResendVerificationEmail(db: Db, email: string, tokenBytes: seq<bv8>, nowMs: int, delivered: bool)
    returns (r: Result<string>)
    requires db.Valid() && |tokenBytes| == VERIFICATION_TOKEN_BYTES
    modifies db`users
    ensures db.Valid()
    ensures var found := Users.FindByEmail(old(db.users), Lower(email));
            var token := Hex(tokenBytes);
            && (found.None? ==> r == Ok(ResendNotice) && db.users == old(db.users))
            && (found.Some? && found.value.emailVerified ==>
                  r == Err(BadRequest(AlreadyVerified)) && db.users == old(db.users))
            && (found.Some? && !found.value.emailVerified
                && Users.TokenHeldByOther(old(db.users), found.value.id, token) ==>
                  r == Err(UniqueViolation) && db.users == old(db.users))
            && (found.Some? && !found.value.emailVerified
                && !Users.TokenHeldByOther(old(db.users), found.value.id, token) ==>
                  && db.users == old(db.users)[found.value.id := found.value.(
                       emailVerificationToken := Some(token),
                       emailTokenExpiresAt := Some(nowMs + VERIFICATION_TTL_MS))]
                  && r == Mailed(delivered, ResendNotice))
  {
    var found := Users.FindByEmail(db.users, Lower(email));
    if found.None? {
      return Ok(ResendNotice);
    }
    var user := found.value;
    if user.emailVerified {
      return Err(BadRequest(AlreadyVerified));
    }
    var updated := Users.UpdateVerificationToken(db, user.id, Hex(tokenBytes), nowMs + VERIFICATION_TTL_MS);
    if updated.Err? {
      return Err(updated.error);
    }
    r := Mailed(delivered, ResendNotice);
  }

  // ---------------------------------------------------------------- sessions

  /** The columns `getActiveSessions` selects. */
  datatype SessionView = SessionView(id: SessionId, ipAddress: Option<string>,
                                     userAgent: Option<string>, createdAt: int)

  function ViewOf(s: Session): SessionView
  {
    SessionView(s.id, s.ipAddress, s.userAgent, s.createdAt)
  }

  function NewestFirst(a: SessionView, b: SessionView): bool
  {
    a.createdAt >= b.createdAt
  }

  /** `getActiveSessions`: every session row of the user, newest first. Expired
      rows are listed too: nothing filters on `expiresAt`. */
  ghost function GetActiveSessions(sessions: map<SessionId, Session>, userId: UserId)
    : (r: seq<SessionView>)
    requires SessionsValid(sessions)
    ensures Sorted(r, NewestFirst)
    ensures forall v :: v in r <==>
              v.id in sessions && sessions[v.id].userId == userId && v == ViewOf(sessions[v.id])
    ensures |r| == |Users.SessionsOf(sessions, userId)|
  {
    var views := set k | k in Users.SessionsOf(sessions, userId) :: ViewOf(sessions[k]);
    SessionViews(sessions, userId);
    Listing(views, NewestFirst)
  }

  /** The views of a user's sessions: one per session, recognisable by id. */
  lemma SessionViews(sessions: map<SessionId, Session>, userId: UserId)
    requires SessionsValid(sessions)
    ensures var views := set k | k in Users.SessionsOf(sessions, userId) :: ViewOf(sessions[k]);
            && |views| == |Users.SessionsOf(sessions, userId)|
            && forall v :: v in views <==>
                 v.id in sessions && sessions[v.id].userId == userId && v == ViewOf(sessions[v.id])
  {
    var keys := Users.SessionsOf(sessions, userId);
    var views := set k | k in keys :: ViewOf(sessions[k]);
    var f := k requires k in sessions => ViewOf(sessions[k]);
    forall a, b | a in keys && b in keys && f(a) == f(b) ensures a == b {
      assert sessions[a].id == a && sessions[b].id == b;
    }
    ImageCount(keys, views, f);
    forall v | v in views ensures v.id in sessions && sessions[v.id].userId == userId && v == ViewOf(sessions[v.id]) {
      var k :| k in keys && v == ViewOf(sessions[k]);
      assert sessions[k].id == k;
    }
  }
}
