/** The relational store as in-memory tables. Every table is a map from its
    primary key to its row; memberships are keyed by (userId, stationId) and
    set-ready votes are a set of (userId, setId) pairs. Times are integer
    milliseconds. */
module Store {

  import opened Common
  import opened Crypto

  type UserId = string
  type SessionId = string
  type StationId = string
  type SetId = string
  type SubmissionId = string
  type ReviewId = string

  datatype UserStatus = Pending | Active | Banned

  datatype User = User(
    id: UserId,
    name: string,
    email: string,
    username: string,
    passwordHash: Digest<string>,
    emailVerified: bool,
    status: UserStatus,
    emailVerificationToken: Option<string>,
    emailTokenExpiresAt: Option<int>,
    bio: Option<string>,
    imageUrl: Option<string>,
    createdAt: int)

  datatype Session = Session(
    id: SessionId,
    userId: UserId,
    refreshTokenHash: Digest<Jwt>,
    expiresAt: int,
    ipAddress: Option<string>,
    userAgent: Option<string>,
    createdAt: int)

  datatype Station = Station(
    id: StationId,
    name: string,
    description: Option<string>,
    passwordHash: Option<Digest<string>>,
    creatorId: UserId,
    maxSongsPerUserPerSet: Option<int>,
    votingThresholdPercent: Option<int>,
    reviewsNeededToPost: Option<int>,
    ratingSystem: string,
    reviewSystem: string,
    createdAt: int)

  datatype Role = Admin | Moderator | Member

  datatype Membership = Membership(userId: UserId, stationId: StationId, role: Role, joinedAt: int)

  datatype SetStatus = Active | Finished | FinishedAndOpen

  datatype SetRow = SetRow(id: SetId, stationId: StationId, setNumber: int, status: SetStatus, createdAt: int)

  datatype Submission = Submission(
    id: SubmissionId,
    setId: SetId,
    submitterId: UserId,
    songTitle: string,
    artistName: string,
    youtubeUrl: Option<string>,
    spotifyUrl: Option<string>,
    notes: Option<string>,
    createdAt: int)

  /** A review; `parentId` is None for a root review and the parent review's
      id for a reply. Ratings are kept only as present or absent values. */
  datatype Review = Review(
    id: ReviewId,
    submissionId: SubmissionId,
    authorId: UserId,
    rating: Option<real>,
    comment: Option<string>,
    parentId: Option<ReviewId>,
    createdAt: int)

  /** The user table's key and unique columns: id, email, username and
      emailVerificationToken. */
  ghost predicate UsersValid(users: map<UserId, User>)
  {
    && (forall k | k in users :: users[k].id == k)
    && (forall a, b | a in users && b in users && users[a].email == users[b].email :: a == b)
    && (forall a, b | a in users && b in users && users[a].username == users[b].username :: a == b)
    && (forall a, b | a in users && b in users && users[a].emailVerificationToken.Some?
          && users[a].emailVerificationToken == users[b].emailVerificationToken :: a == b)
  }

  /** Session ids are the random UUIDs the login mints, never empty. */
  ghost predicate SessionsValid(sessions: map<SessionId, Session>)
  {
    forall k | k in sessions :: sessions[k].id == k && k != ""
  }

  ghost predicate StationsValid(stations: map<StationId, Station>)
  {
    forall k | k in stations :: stations[k].id == k
  }

  ghost predicate MembersValid(members: map<(UserId, StationId), Membership>)
  {
    forall k | k in members :: (members[k].userId, members[k].stationId) == k
  }

  ghost predicate SetsValid(sets: map<SetId, SetRow>)
  {
    forall k | k in sets :: sets[k].id == k
  }

  ghost predicate SubmissionsValid(submissions: map<SubmissionId, Submission>)
  {
    forall k | k in submissions :: submissions[k].id == k
  }

  ghost predicate ReviewsValid(reviews: map<ReviewId, Review>)
  {
    forall k | k in reviews :: reviews[k].id == k
  }

  class Db {
    var users: map<UserId, User>
    var sessions: map<SessionId, Session>
    var stations: map<StationId, Station>
    var members: map<(UserId, StationId), Membership>
    var sets: map<SetId, SetRow>
    var submissions: map<SubmissionId, Submission>
    var votes: set<(UserId, SetId)>
    var reviews: map<ReviewId, Review>

    /** The primary-key and unique constraints of every table. */
    ghost predicate Valid()
      reads this
    {
      && UsersValid(users)
      && SessionsValid(sessions)
      && StationsValid(stations)
      && MembersValid(members)
      && SetsValid(sets)
      && SubmissionsValid(submissions)
      && ReviewsValid(reviews)
    }

    constructor ()
      ensures Valid()
      ensures users == map[] && sessions == map[] && stations == map[] && members == map[]
      ensures sets == map[] && submissions == map[] && votes == {} && reviews == map[]
    {
      users, sessions, stations, members := map[], map[], map[], map[];
      sets, submissions, votes, reviews := map[], map[], {}, map[];
    }
  }

  /** Deleting the rows whose keys form `doomed` removes exactly |doomed| rows:
      the count a `deleteMany` reports. */
  lemma DeleteManyCount<K, V>(m: map<K, V>, doomed: set<K>)
    requires doomed <= m.Keys
    ensures (m - doomed).Keys == m.Keys - doomed
    ensures |m - doomed| == |m| - |doomed|
  {
    var rest := m.Keys - doomed;
    assert (m - doomed).Keys == rest;
    assert m.Keys == rest + doomed;
    assert rest * doomed == {};
    assert |rest + doomed| == |rest| + |doomed|;
  }
}
