/** The sets service: one round of submissions inside a station. A set is
    ACTIVE, FINISHED or FINISHED_AND_OPEN; submissions are admitted while it
    is ACTIVE or FINISHED_AND_OPEN, up to a per-user cap; members vote to end
    it, and a quorum finishes it and opens the next one; admins and
    moderators may reopen a finished set and close it again. */
module Sets {

  import opened Common
  import opened Store
  import opened Text
  import opened Ordering
  import Users

  const NotAMember := "Você não pertence a esta estação."
  const NotAllowed := "Você não tem permissão para esta ação."
  const SetClosed := "Este set não aceita mais músicas."
  const CapReached := "Limite de músicas atingido para este set."
  const AlreadyFinished := "Set já finalizado."
  const AlreadyVoted := "Você já votou para finalizar este set."
  const VoteRecorded := "Seu voto para finalizar o set foi registrado."
  const OnlyFinishedReopen := "Apenas sets finalizados podem ser reabertos."
  const OnlyOpenClose := "Apenas sets com status \"FINISHED_AND_OPEN\" podem ser fechados."

  /** The roles allowed to reopen and close a set. */
  const StaffRoles: set<Role> := {Admin, Moderator}

  /** The quorum used when the station sets no voting threshold. */
  const DEFAULT_THRESHOLD := 100

  // ---------------------------------------------------------- membership gate

  /** `validateMembership`: the caller's membership row in the station, when
      there is one and its role is among `roles` (every role when `roles` is
      absent). */
  function ValidateMembership(members: map<(UserId, StationId), Membership>,
                              userId: UserId, stationId: StationId, roles: Option<set<Role>>)
    : (r: Result<Membership>)
    requires MembersValid(members)
    ensures (userId, stationId) !in members ==> r == Err(Forbidden(NotAMember))
    ensures (userId, stationId) in members && roles.Some? && members[(userId, stationId)].role !in roles.value ==>
              r == Err(Forbidden(NotAllowed))
    ensures r.Ok? <==> (userId, stationId) in members
                       && (roles.None? || members[(userId, stationId)].role in roles.value)
    ensures r.Ok? ==> r.value.userId == userId && r.value.stationId == stationId
                      && members[(userId, stationId)] == r.value
  {
    if (userId, stationId) !in members then Err(Forbidden(NotAMember))
    else
      var member := members[(userId, stationId)];
      if roles.Some? && member.role !in roles.value then Err(Forbidden(NotAllowed))
      else Ok(member)
  }

  /** The set's station row exists: the foreign key the store enforces. */
  ghost predicate StationOfSetExists(db: Db, setId: SetId)
    reads db
  {
    setId in db.sets ==> db.sets[setId].stationId in db.stations
  }

  // ------------------------------------------------------------------ findOne

  /** A submission with its submitter's card, as `findOne` includes it. */
  datatype SubmissionView = SubmissionView(submission: Submission, submitter: Users.UserCard)

  datatype SetView = SetView(row: SetRow, submissions: seq<SubmissionView>)

  /** Submitter username ascending, then creation time ascending. */
  function BySubmitterThenTime(a: SubmissionView, b: SubmissionView): bool
  {
    if a.submitter.username == b.submitter.username then a.submission.createdAt <= b.submission.createdAt
    else StrLe(a.submitter.username, b.submitter.username)
  }

  lemma BySubmitterThenTimeIsTotalPreorder()
    ensures TotalPreorder(BySubmitterThenTime)
  {
    forall a, b ensures BySubmitterThenTime(a, b) || BySubmitterThenTime(b, a) {
      StrLeTotal(a.submitter.username, b.submitter.username);
    }
    forall a, b, c | BySubmitterThenTime(a, b) && BySubmitterThenTime(b, c)
      ensures BySubmitterThenTime(a, c)
    {
      var x, y, z := a.submitter.username, b.submitter.username, c.submitter.username;
      if x != y && y != z {
        StrLeTransitive(x, y, z);
        if x == z {
          StrLeAntisymmetric(x, y);
        }
      } else if x != y && y == z {
      } else if x == y && y != z {
      }
    }
  }

  /** Every submission's submitter row exists: a foreign key of the store. */
  ghost predicate SubmittersExist(submissions: map<SubmissionId, Submission>, users: map<UserId, User>)
  {
    forall k | k in submissions :: submissions[k].submitterId in users
  }

  ghost predicate InSet(submissions: map<SubmissionId, Submission>, users: map<UserId, User>,
                        setId: SetId, v: SubmissionView)
    requires SubmittersExist(submissions, users)
  {
    && v.submission.id in submissions
    && submissions[v.submission.id] == v.submission
    && v.submission.setId == setId
    && v.submitter == Users.CardOf(users[v.submission.submitterId])
  }

  /** `findOne`: the set with its submissions, each with its submitter, by
      submitter username then creation time. The set is loaded first (a
      missing one is the store's not-found error); then the caller must be a
      member of its station. */
  ghost function FindOne(sets: map<SetId, SetRow>, submissions: map<SubmissionId, Submission>,
                         users: map<UserId, User>, members: map<(UserId, StationId), Membership>,
                         setId: SetId, userId: UserId)
    : (r: Result<SetView>)
    requires SubmissionsValid(submissions) && SubmittersExist(submissions, users) && MembersValid(members)
    ensures setId !in sets ==> r == Err(RowNotFound)
    ensures setId in sets && (userId, sets[setId].stationId) !in members ==> r == Err(Forbidden(NotAMember))
    ensures r.Ok? <==> setId in sets && (userId, sets[setId].stationId) in members
    ensures r.Ok? ==>
              && r.value.row == sets[setId]
              && Sorted(r.value.submissions, BySubmitterThenTime)
              && (forall v :: v in r.value.submissions <==> InSet(submissions, users, setId, v))
              && |r.value.submissions| == |SubmissionsIn(submissions, setId)|
  {
    if setId !in sets then Err(RowNotFound)
    else
      var member := ValidateMembership(members, userId, sets[setId].stationId, None);
      if member.Err? then Err(member.error)
      else
        SetViews(submissions, users, setId);
        BySubmitterThenTimeIsTotalPreorder();
        Ok(SetView(sets[setId], Listing(ViewsOf(submissions, users, setId), BySubmitterThenTime)))
  }

  /** The ids of a set's submissions. */
  function SubmissionsIn(submissions: map<SubmissionId, Submission>, setId: SetId): set<SubmissionId>
  {
    set k | k in submissions && submissions[k].setId == setId
  }

  ghost function ViewsOf(submissions: map<SubmissionId, Submission>, users: map<UserId, User>, setId: SetId)
    : set<SubmissionView>
    requires SubmittersExist(submissions, users)
  {
    set k | k in SubmissionsIn(submissions, setId) ::
      SubmissionView(submissions[k], Users.CardOf(users[submissions[k].submitterId]))
  }

  /** The views of a set's submissions: one per submission. */
  lemma SetViews(submissions: map<SubmissionId, Submission>, users: map<UserId, User>, setId: SetId)
    requires SubmissionsValid(submissions) && SubmittersExist(submissions, users)
    ensures |ViewsOf(submissions, users, setId)| == |SubmissionsIn(submissions, setId)|
    ensures forall v :: v in ViewsOf(submissions, users, setId) <==> InSet(submissions, users, setId, v)
  {
    var keys := SubmissionsIn(submissions, setId);
    var f := k requires k in submissions && submissions[k].submitterId in users =>
               SubmissionView(submissions[k], Users.CardOf(users[submissions[k].submitterId]));
    var views := ViewsOf(submissions, users, setId);
    forall a, b | a in keys && b in keys && f(a) == f(b) ensures a == b {
      assert submissions[a].id == a && submissions[b].id == b;
    }
    ImageCount(keys, views, f);
    forall v | InSet(submissions, users, setId, v) ensures v in views {
      assert v == f(v.submission.id);
    }
  }

  // ------------------------------------------------------------ addSubmission

  /** The fields a caller submits. */
  datatype SubmissionData = SubmissionData(songTitle: string, artistName: string,
                                           youtubeUrl: Option<string>, spotifyUrl: Option<string>,
                                           notes: Option<string>)

  predicate AcceptsSubmissions(status: SetStatus)
  {
    status == SetStatus.Active || status == FinishedAndOpen
  }

  /** How many submissions `userId` has in `setId`. */
  function SubmissionCount(submissions: map<SubmissionId, Submission>, setId: SetId, userId: UserId): nat
  {
    |set k | k in submissions && submissions[k].setId == setId && submissions[k].submitterId == userId|
  }

  /** The station's cap, when it has one: a missing or zero
      `maxSongsPerUserPerSet` imposes none. */
  predicate HasCap(station: Station)
  {
    station.maxSongsPerUserPerSet.Some? && station.maxSongsPerUserPerSet.value != 0
  }

  /** Inserting one submission raises its own (set, submitter) count by one
      and leaves every other count alone. */
  lemma {:induction false} CountAfterInsert(submissions: map<SubmissionId, Submission>,
                                            sub: Submission, setId: SetId, userId: UserId)
    requires sub.id !in submissions
    ensures SubmissionCount(submissions[sub.id := sub], setId, userId)
            == SubmissionCount(submissions, setId, userId)
               + (if sub.setId == setId && sub.submitterId == userId then 1 else 0)
  {
    var after := submissions[sub.id := sub];
    var before := set k | k in submissions && submissions[k].setId == setId && submissions[k].submitterId == userId;
    var now := set k | k in after && after[k].setId == setId && after[k].submitterId == userId;
    if sub.setId == setId && sub.submitterId == userId {
      assert now == before + {sub.id};
    } else {
      assert now == before;
    }
  }

  /** `addSubmission`, one transaction: the set must exist and accept
      submissions, the caller must be a member of its station, and must be
      under the station's cap; then exactly one submission is stored, so the
      caller's count never passes the cap. */
  method AddSubmission(db: Db, setId: SetId, userId: UserId, data: SubmissionData,
                       newId: SubmissionId, nowMs: int)
    returns (r: Result<Submission>)
    requires db.Valid() && StationOfSetExists(db, setId) && newId !in db.submissions
    modifies db`submissions
    ensures db.Valid()
    ensures setId !in db.sets ==> r == Err(RowNotFound) && db.submissions == old(db.submissions)
    ensures setId in db.sets && !AcceptsSubmissions(db.sets[setId].status) ==>
              r == Err(Forbidden(SetClosed)) && db.submissions == old(db.submissions)
    ensures setId in db.sets && AcceptsSubmissions(db.sets[setId].status)
            && (userId, db.sets[setId].stationId) !in db.members ==>
              r == Err(Forbidden(NotAMember)) && db.submissions == old(db.submissions)
    ensures setId in db.sets && AcceptsSubmissions(db.sets[setId].status)
            && (userId, db.sets[setId].stationId) in db.members
            && HasCap(db.stations[db.sets[setId].stationId])
            && SubmissionCount(old(db.submissions), setId, userId)
               >= db.stations[db.sets[setId].stationId].maxSongsPerUserPerSet.value ==>
              r == Err(Forbidden(CapReached)) && db.submissions == old(db.submissions)
    ensures r.Ok? <==>
              && setId in db.sets && AcceptsSubmissions(db.sets[setId].status)
              && (userId, db.sets[setId].stationId) in db.members
              && !(HasCap(db.stations[db.sets[setId].stationId])
                   && SubmissionCount(old(db.submissions), setId, userId)
                      >= db.stations[db.sets[setId].stationId].maxSongsPerUserPerSet.value)
    ensures r.Ok? ==>
              && setId in db.sets
              && r.value == Submission(newId, setId, userId, data.songTitle, data.artistName,
                                       data.youtubeUrl, data.spotifyUrl, data.notes, nowMs)
              && db.submissions == old(db.submissions)[newId := r.value]
              && SubmissionCount(db.submissions, setId, userId) == SubmissionCount(old(db.submissions), setId, userId) + 1
              && (HasCap(db.stations[db.sets[setId].stationId]) ==>
                    SubmissionCount(db.submissions, setId, userId)
                    <= db.stations[db.sets[setId].stationId].maxSongsPerUserPerSet.value)
    ensures r.Err? ==> db.submissions == old(db.submissions)
  {
    if setId !in db.sets {
      return Err(RowNotFound);
    }
    var current := db.sets[setId];
    var station := db.stations[current.stationId];
    if !AcceptsSubmissions(current.status) {
      return Err(Forbidden(SetClosed));
    }
    var member := ValidateMembership(db.members, userId, current.stationId, None);
    if member.Err? {
      return Err(member.error);
    }
    if HasCap(station) {
      var count := SubmissionCount(db.submissions, setId, userId);
      if count >= station.maxSongsPerUserPerSet.value {
        return Err(Forbidden(CapReached));
      }
    }
    var submission := Submission(newId, setId, userId, data.songTitle, data.artistName,
                                 data.youtubeUrl, data.spotifyUrl, data.notes, nowMs);
    CountAfterInsert(db.submissions, submission, setId, userId);
    db.submissions := db.submissions[newId := submission];
    r := Ok(submission);
  }

  // ---------------------------------------------------------------- voteToEnd

  /** How many members have voted to end `setId`. */
  function VoteCount(votes: set<(UserId, SetId)>, setId: SetId): nat
  {
    |set v | v in votes && v.1 == setId|
  }

  /** The station's voting threshold, 100 when it has none. */
  function ThresholdOf(station: Station): int
  {
    if station.votingThresholdPercent.Some? then station.votingThresholdPercent.value else DEFAULT_THRESHOLD
  }

  /** `voteCount / memberCount * 100 >= threshold`, compared without division. */
  predicate Quorum(voteCount: nat, memberCount: nat, threshold: int)
  {
    voteCount * 100 >= threshold * memberCount
  }

  /** With at least one member the integer comparison is the percentage
      comparison over exact rationals. */
  lemma QuorumIsPercentage(voteCount: nat, memberCount: nat, threshold: int)
    requires memberCount > 0
    ensures Quorum(voteCount, memberCount, threshold)
            <==> (voteCount as real / memberCount as real) * 100.0 >= threshold as real
  {
    var v, m, t := voteCount as real, memberCount as real, threshold as real;
    var p := (v / m) * 100.0;
    assert p * m == v * 100.0;
    assert (voteCount * 100) as real == v * 100.0;
    assert (threshold * memberCount) as real == t * m;
    if p >= t {
      assert p * m >= t * m;
    } else {
      assert p * m < t * m;
    }
  }

  /** A vote that keeps the count at or above the quorum for a larger
      threshold also meets every smaller one. */
  lemma QuorumMonotone(voteCount: nat, memberCount: nat, lower: int, higher: int)
    requires lower <= higher && Quorum(voteCount, memberCount, higher)
    ensures Quorum(voteCount, memberCount, lower)
  {
    assert lower * memberCount <= higher * memberCount;
  }

  /** Recording a vote that was not there adds one to the set's count. */
  lemma {:induction false} VoteCountAfterInsert(votes: set<(UserId, SetId)>, userId: UserId, setId: SetId)
    requires (userId, setId) !in votes
    ensures VoteCount(votes + {(userId, setId)}, setId) == VoteCount(votes, setId) + 1
  {
    var before := set v | v in votes && v.1 == setId;
    var after := set v | v in votes + {(userId, setId)} && v.1 == setId;
    assert after == before + {(userId, setId)};
  }

  /** The voter's own membership row is counted. */
  lemma MemberCountPositive(members: map<(UserId, StationId), Membership>, userId: UserId, stationId: StationId)
    requires (userId, stationId) in members
    ensures Users.MemberCount(members, stationId) >= 1
  {
    var keys := set k | k in members && k.1 == stationId;
    assert (userId, stationId) in keys;
    assert keys == (keys - {(userId, stationId)}) + {(userId, stationId)};
  }

  datatype VoteOutcome = Recorded | Advanced(nextSet: SetRow)

  /** The set `voteToEnd` opens when the quorum is met. */
  function NextSet(current: SetRow, newSetId: SetId, nowMs: int): (next: SetRow)
    ensures next.stationId == current.stationId && next.setNumber == current.setNumber + 1
    ensures next.status == SetStatus.Active && next.id == newSetId && next.createdAt == nowMs
  {
    SetRow(newSetId, current.stationId, current.setNumber + 1, SetStatus.Active, nowMs)
  }

  /** `voteToEnd`, one transaction. A FINISHED set is refused, a
      FINISHED_AND_OPEN one is not; the caller must be a member and must not
      have voted on this set. The vote is recorded, and when the votes reach
      the quorum of the station's current members the set is FINISHED and the
      next one opens as ACTIVE; otherwise no set changes. */
  method VoteToEnd(db: Db, setId: SetId, userId: UserId, newSetId: SetId, nowMs: int)
    returns (r: Result<VoteOutcome>)
    requires db.Valid() && StationOfSetExists(db, setId) && newSetId !in db.sets
    modifies db`votes, db`sets
    ensures db.Valid()
    ensures setId !in old(db.sets) ==>
              r == Err(RowNotFound) && db.votes == old(db.votes) && db.sets == old(db.sets)
    ensures setId in old(db.sets) && old(db.sets)[setId].status == Finished ==>
              r == Err(Conflict(AlreadyFinished)) && db.votes == old(db.votes) && db.sets == old(db.sets)
    ensures setId in old(db.sets) && old(db.sets)[setId].status != Finished
            && (userId, old(db.sets)[setId].stationId) !in db.members ==>
              r == Err(Forbidden(NotAMember)) && db.votes == old(db.votes) && db.sets == old(db.sets)
    ensures setId in old(db.sets) && old(db.sets)[setId].status != Finished
            && (userId, old(db.sets)[setId].stationId) in db.members
            && (userId, setId) in old(db.votes) ==>
              r == Err(Conflict(AlreadyVoted)) && db.votes == old(db.votes) && db.sets == old(db.sets)
    ensures r.Err? ==> db.votes == old(db.votes) && db.sets == old(db.sets)
    ensures r.Ok? <==>
              && setId in old(db.sets) && old(db.sets)[setId].status != Finished
              && (userId, old(db.sets)[setId].stationId) in db.members
              && (userId, setId) !in old(db.votes)
    ensures r.Ok? ==>
              var current := old(db.sets)[setId];
              var memberCount := Users.MemberCount(db.members, current.stationId);
              && setId in old(db.sets) && current.status != Finished
              && (userId, current.stationId) in db.members
              && (userId, setId) !in old(db.votes)
              && db.votes == old(db.votes) + {(userId, setId)}
              && VoteCount(db.votes, setId) == VoteCount(old(db.votes), setId) + 1
              && memberCount >= 1
              && (r.value.Advanced? <==>
                    Quorum(VoteCount(db.votes, setId), memberCount, ThresholdOf(db.stations[current.stationId])))
              && (r.value.Advanced? ==>
                    && r.value.nextSet == NextSet(current, newSetId, nowMs)
                    && db.sets == old(db.sets)[setId := current.(status := Finished)][newSetId := r.value.nextSet])
              && (r.value.Recorded? ==> db.sets == old(db.sets))
  {
    if setId !in db.sets {
      return Err(RowNotFound);
    }
    var current := db.sets[setId];
    if current.status == Finished {
      return Err(Conflict(AlreadyFinished));
    }
    var member := ValidateMembership(db.members, userId, current.stationId, None);
    if member.Err? {
      return Err(member.error);
    }
    if (userId, setId) in db.votes {
      return Err(Conflict(AlreadyVoted));
    }
    VoteCountAfterInsert(db.votes, userId, setId);
    MemberCountPositive(db.members, userId, current.stationId);
    db.votes := db.votes + {(userId, setId)};
    var voteCount := VoteCount(db.votes, setId);
    var memberCount := Users.MemberCount(db.members, current.stationId);
    var threshold := ThresholdOf(db.stations[current.stationId]);
    if Quorum(voteCount, memberCount, threshold) {
      var next := NextSet(current, newSetId, nowMs);
      db.sets := db.sets[setId := current.(status := Finished)][newSetId := next];
      return Ok(Advanced(next));
    }
    r := Ok(Recorded);
  }

  /** As written, a vote that reaches the quorum on a reopened set, in a
      station whose next-numbered set was already opened when the set first
      ended, opens a second set under that same number in that station. */
  method ReopenedSetAdvanceRepeatsNumber(db: Db, setId: SetId, userId: UserId, earlierId: SetId,
                                         newSetId: SetId, nowMs: int)
    returns (r: Result<VoteOutcome>)
    requires db.Valid() && StationOfSetExists(db, setId) && newSetId !in db.sets
    requires setId in db.sets && db.sets[setId].status == FinishedAndOpen
    requires earlierId in db.sets && db.sets[earlierId].stationId == db.sets[setId].stationId
             && db.sets[earlierId].setNumber == db.sets[setId].setNumber + 1
    requires (userId, db.sets[setId].stationId) in db.members && (userId, setId) !in db.votes
    requires Quorum(VoteCount(db.votes, setId) + 1, Users.MemberCount(db.members, db.sets[setId].stationId),
                    ThresholdOf(db.stations[db.sets[setId].stationId]))
    modifies db`votes, db`sets
    ensures r.Ok? && r.value.Advanced?
    ensures earlierId in db.sets && newSetId in db.sets && earlierId != newSetId
    ensures db.sets[newSetId].stationId == db.sets[earlierId].stationId
    ensures db.sets[newSetId].setNumber == db.sets[earlierId].setNumber
    ensures db.sets[newSetId].status == SetStatus.Active
  {
    r := VoteToEnd(db, setId, userId, newSetId, nowMs);
  }

  // -------------------------------------------------------- reopen and close

  /** `reopenSet`: staff only, checked before the status; only a FINISHED set
      reopens, as FINISHED_AND_OPEN. */
  method ReopenSet(db: Db, setId: SetId, userId: UserId) returns (r: Result<SetRow>)
    requires db.Valid()
    modifies db`sets
    ensures db.Valid()
    ensures setId !in old(db.sets) ==> r == Err(RowNotFound) && db.sets == old(db.sets)
    ensures setId in old(db.sets)
            && ValidateMembership(db.members, userId, old(db.sets)[setId].stationId, Some(StaffRoles)).Err? ==>
              r == Err(ValidateMembership(db.members, userId, old(db.sets)[setId].stationId, Some(StaffRoles)).error)
              && db.sets == old(db.sets)
    ensures setId in old(db.sets)
            && ValidateMembership(db.members, userId, old(db.sets)[setId].stationId, Some(StaffRoles)).Ok?
            && old(db.sets)[setId].status != Finished ==>
              r == Err(BadRequest(OnlyFinishedReopen)) && db.sets == old(db.sets)
    ensures r.Ok? <==>
              && setId in old(db.sets)
              && ValidateMembership(db.members, userId, old(db.sets)[setId].stationId, Some(StaffRoles)).Ok?
              && old(db.sets)[setId].status == Finished
    ensures r.Ok? ==>
              && setId in old(db.sets)
              && r.value == old(db.sets)[setId].(status := FinishedAndOpen)
              && db.sets == old(db.sets)[setId := r.value]
  {
    if setId !in db.sets {
      return Err(RowNotFound);
    }
    var current := db.sets[setId];
    var member := ValidateMembership(db.members, userId, current.stationId, Some(StaffRoles));
    if member.Err? {
      return Err(member.error);
    }
    if current.status != Finished {
      return Err(BadRequest(OnlyFinishedReopen));
    }
    var updated := current.(status := FinishedAndOpen);
    db.sets := db.sets[setId := updated];
    r := Ok(updated);
  }

  /** `closeSet`: staff only, checked before the status; only a
      FINISHED_AND_OPEN set closes, back to FINISHED. */
  method CloseSet(db: Db, setId: SetId, userId: UserId) returns (r: Result<SetRow>)
    requires db.Valid()
    modifies db`sets
    ensures db.Valid()
    ensures setId !in old(db.sets) ==> r == Err(RowNotFound) && db.sets == old(db.sets)
    ensures setId in old(db.sets)
            && ValidateMembership(db.members, userId, old(db.sets)[setId].stationId, Some(StaffRoles)).Err? ==>
              r == Err(ValidateMembership(db.members, userId, old(db.sets)[setId].stationId, Some(StaffRoles)).error)
              && db.sets == old(db.sets)
    ensures setId in old(db.sets)
            && ValidateMembership(db.members, userId, old(db.sets)[setId].stationId, Some(StaffRoles)).Ok?
            && old(db.sets)[setId].status != FinishedAndOpen ==>
              r == Err(BadRequest(OnlyOpenClose)) && db.sets == old(db.sets)
    ensures r.Ok? <==>
              && setId in old(db.sets)
              && ValidateMembership(db.members, userId, old(db.sets)[setId].stationId, Some(StaffRoles)).Ok?
              && old(db.sets)[setId].status == FinishedAndOpen
    ensures r.Ok? ==>
              && setId in old(db.sets)
              && r.value == old(db.sets)[setId].(status := Finished)
              && db.sets == old(db.sets)[setId := r.value]
  {
    if setId !in db.sets {
      return Err(RowNotFound);
    }
    var current := db.sets[setId];
    var member := ValidateMembership(db.members, userId, current.stationId, Some(StaffRoles));
    if member.Err? {
      return Err(member.error);
    }
    if current.status != FinishedAndOpen {
      return Err(BadRequest(OnlyOpenClose));
    }
    var updated := current.(status := Finished);
    db.sets := db.sets[setId := updated];
    r := Ok(updated);
  }

  /** A staff member who reopens a FINISHED set and then closes it leaves the
      set table exactly as it was. */
  method ReopenThenClose(db: Db, setId: SetId, userId: UserId) returns (reopened: Result<SetRow>, closed: Result<SetRow>)
    requires db.Valid() && setId in db.sets && db.sets[setId].status == Finished
    requires ValidateMembership(db.members, userId, db.sets[setId].stationId, Some(StaffRoles)).Ok?
    modifies db`sets
    ensures reopened.Ok? && reopened.value.status == FinishedAndOpen
    ensures closed.Ok? && closed.value == old(db.sets)[setId]
    ensures db.sets == old(db.sets)
  {
    reopened := ReopenSet(db, setId, userId);
    closed := CloseSet(db, setId, userId);
  }
}
