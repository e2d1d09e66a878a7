/** The daily maintenance sweeps: removing accounts whose e-mail was never
    confirmed and sessions past their expiry. The clock is a parameter. */
module Tasks {

  import opened Store

  /** Accounts older than this without a confirmed e-mail are removed. */
  const UNVERIFIED_GRACE_MS := 24 * 60 * 60 * 1000

  /** The users the 3 AM sweep removes: unverified and created strictly
      before one day ago. */
  function Unverified(users: map<UserId, User>, nowMs: int): (r: set<UserId>)
    ensures r <= users.Keys
    ensures forall k :: k in r <==>
              k in users && !users[k].emailVerified && users[k].createdAt < nowMs - UNVERIFIED_GRACE_MS
  {
    set k | k in users && !users[k].emailVerified && users[k].createdAt < nowMs - UNVERIFIED_GRACE_MS
  }

  /** The sessions the 4 AM sweep removes: those whose expiry is strictly
      before now. */
  function Expired(sessions: map<SessionId, Session>, nowMs: int): (r: set<SessionId>)
    ensures r <= sessions.Keys
    ensures forall k :: k in r <==> k in sessions && sessions[k].expiresAt < nowMs
  {
    set k | k in sessions && sessions[k].expiresAt < nowMs
  }

  /** `handleCleanupUnverifiedUsers`: deletes exactly the stale unverified
      accounts, leaves every other user row as it was, and reports how many
      rows went. */
  method CleanupUnverifiedUsers(db: Db, nowMs: int) returns (count: nat)
    requires db.Valid()
    modifies db`users
    ensures db.Valid()
    ensures db.users == old(db.users) - Unverified(old(db.users), nowMs)
    ensures forall k | k in old(db.users) ::
              k in db.users <==> (old(db.users)[k].emailVerified
                                  || old(db.users)[k].createdAt >= nowMs - UNVERIFIED_GRACE_MS)
    ensures forall k | k in db.users :: db.users[k] == old(db.users)[k]
    ensures count == |Unverified(old(db.users), nowMs)| == |old(db.users)| - |db.users|
  {
    var doomed := Unverified(db.users, nowMs);
    DeleteManyCount(db.users, doomed);
    db.users := db.users - doomed;
    count := |doomed|;
  }

  /** `handleCleanupExpiredSessions`: deletes exactly the expired sessions,
      leaves the others as they were, and reports how many rows went. */
  method CleanupExpiredSessions(db: Db, nowMs: int) returns (count: nat)
    requires db.Valid()
    modifies db`sessions
    ensures db.Valid()
    ensures db.sessions == old(db.sessions) - Expired(old(db.sessions), nowMs)
    ensures forall k | k in old(db.sessions) :: k in db.sessions <==> old(db.sessions)[k].expiresAt >= nowMs
    ensures forall k | k in db.sessions :: db.sessions[k] == old(db.sessions)[k]
    ensures count == |Expired(old(db.sessions), nowMs)| == |old(db.sessions)| - |db.sessions|
  {
    var doomed := Expired(db.sessions, nowMs);
    DeleteManyCount(db.sessions, doomed);
    db.sessions := db.sessions - doomed;
    count := |doomed|;
  }

  /** A second user sweep at the same instant finds nothing left to delete. */
  lemma UnverifiedSweepIdempotent(users: map<UserId, User>, nowMs: int)
    ensures Unverified(users - Unverified(users, nowMs), nowMs) == {}
  {
  }

  /** Likewise for sessions. */
  lemma ExpiredSweepIdempotent(sessions: map<SessionId, Session>, nowMs: int)
    ensures Expired(sessions - Expired(sessions, nowMs), nowMs) == {}
  {
  }

  /** A later sweep removes at least what an earlier one would have: the
      stale set only grows with time. */
  lemma UnverifiedGrowsWithTime(users: map<UserId, User>, earlier: int, later: int)
    requires earlier <= later
    ensures Unverified(users, earlier) <= Unverified(users, later)
    ensures |Unverified(users, earlier)| <= |Unverified(users, later)|
  {
    SubsetCard(Unverified(users, earlier), Unverified(users, later));
  }

  lemma ExpiredGrowsWithTime(sessions: map<SessionId, Session>, earlier: int, later: int)
    requires earlier <= later
    ensures Expired(sessions, earlier) <= Expired(sessions, later)
    ensures |Expired(sessions, earlier)| <= |Expired(sessions, later)|
  {
    SubsetCard(Expired(sessions, earlier), Expired(sessions, later));
  }

  lemma SubsetCard<K>(a: set<K>, b: set<K>)
    requires a <= b
    ensures |a| <= |b|
  {
    assert b == a + (b - a);
  }

  /** A verified account is never swept, however old. */
  lemma VerifiedNeverSwept(users: map<UserId, User>, k: UserId, nowMs: int)
    requires k in users && users[k].emailVerified
    ensures k !in Unverified(users, nowMs)
  {
  }
}
