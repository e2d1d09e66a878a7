/** The access-token strategy's `validate`: once the token's signature has
    been checked, its payload is accepted only while the session it names
    still exists and that session's user is not banned. */
module AccessToken {

  import opened Common
  import opened Crypto
  import opened Store

  /** What `validate` attaches to the request as the current user. */
  datatype AuthUser = AuthUser(
    id: UserId,
    email: string,
    username: string,
    status: UserStatus,
    emailVerified: bool,
    sessionId: SessionId)

  const SessionGone := "Sessão expirada ou usuário inexistente."
  const AccountDisabled := "Sua conta foi desativada."

  /** The user the session row points to, if both exist. */
  predicate SessionResolves(sessions: map<SessionId, Session>, users: map<UserId, User>, sid: SessionId)
  {
    sid in sessions && sessions[sid].userId in users
  }

  function Validate(sessions: map<SessionId, Session>, users: map<UserId, User>, payload: Claims)
    : (r: Result<AuthUser>)
    requires SessionsValid(sessions)
    ensures !SessionResolves(sessions, users, payload.sessionId) ==> r == Err(Unauthorized(SessionGone))
    ensures SessionResolves(sessions, users, payload.sessionId)
            && users[sessions[payload.sessionId].userId].status == Banned ==>
              r == Err(Unauthorized(AccountDisabled))
    ensures r.Ok? <==> SessionResolves(sessions, users, payload.sessionId)
                       && users[sessions[payload.sessionId].userId].status != Banned
    ensures r.Ok? ==>
              var u := users[sessions[payload.sessionId].userId];
              r.value == AuthUser(u.id, u.email, u.username, u.status, u.emailVerified, payload.sessionId)
  {
    if payload.sessionId !in sessions || sessions[payload.sessionId].userId !in users then
      Err(Unauthorized(SessionGone))
    else
      var session := sessions[payload.sessionId];
      var u := users[session.userId];
      if u.status == Banned then Err(Unauthorized(AccountDisabled))
      else Ok(AuthUser(u.id, u.email, u.username, u.status, u.emailVerified, session.id))
  }

  /** The identity comes from the session row: the token's `sub` claim plays
      no part. */
  lemma SubjectIgnored(sessions: map<SessionId, Session>, users: map<UserId, User>, p: Claims, q: Claims)
    requires SessionsValid(sessions) && p.sessionId == q.sessionId
    ensures Validate(sessions, users, p) == Validate(sessions, users, q)
  {
  }

  /** Neither the session's expiry nor the user's verification flag is looked
      at: a session past its `expiresAt` still validates. */
  lemma ExpiryIgnored(sessions: map<SessionId, Session>, users: map<UserId, User>, p: Claims, expiresAt: int)
    requires SessionsValid(sessions) && p.sessionId in sessions
    ensures Validate(sessions[p.sessionId := sessions[p.sessionId].(expiresAt := expiresAt)], users, p)
            == Validate(sessions, users, p)
  {
  }

  /** A deleted session rejects every access token that names it. */
  lemma DeletedSessionRejected(sessions: map<SessionId, Session>, users: map<UserId, User>, p: Claims)
    requires SessionsValid(sessions) && p.sessionId !in sessions
    ensures Validate(sessions, users, p) == Err(Unauthorized(SessionGone))
  {
  }
}
