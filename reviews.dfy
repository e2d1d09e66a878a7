/** The reviews service: a member reviews someone else's submission under
    the station's rating and comment rules, anyone in the station may reply
    to a review, and the replies to a review are listed oldest first. */
module Reviews {

  import opened Common
  import opened Store
  import opened Ordering
  import Users

  const SelfReview := "Você não pode avaliar sua própria submissão de música."
  const MembersOnly := "Apenas membros da estação podem interagir aqui."
  const RatingRequired := "A nota é obrigatória nesta estação."
  const CommentRequired := "O comentário é obrigatório nesta estação."
  const RatingForbidden := "Esta estação não permite notas, apenas comentários."
  const CommentForbidden := "Esta estação não permite comentários, apenas notas."

  /** The flag value that turns a station rule on, and the one that forbids. */
  const ON := "TRUE"
  const OFF := "FALSE"

  // -------------------------------------------------------------- findReplies

  /** Every review's author row exists: a foreign key of the store. */
  ghost predicate AuthorsExist(reviews: map<ReviewId, Review>, users: map<UserId, User>)
  {
    forall k | k in reviews :: reviews[k].authorId in users
  }

  /** The ids of the direct replies to `reviewId`. */
  function RepliesOf(reviews: map<ReviewId, Review>, reviewId: ReviewId): set<ReviewId>
  {
    set k | k in reviews && reviews[k].parentId == Some(reviewId)
  }

  /** A reply with its author's card and its own number of direct replies. */
  datatype ReplyView = ReplyView(review: Review, author: Users.UserCard, replyCount: nat)

  function ReplyViewOf(reviews: map<ReviewId, Review>, users: map<UserId, User>, k: ReviewId): ReplyView
    requires k in reviews && reviews[k].authorId in users
  {
    ReplyView(reviews[k], Users.CardOf(users[reviews[k].authorId]), |RepliesOf(reviews, k)|)
  }

  /** `v` shows a stored direct reply to `parentId`, as it is stored. */
  ghost predicate IsReplyView(reviews: map<ReviewId, Review>, users: map<UserId, User>,
                              parentId: ReviewId, v: ReplyView)
    requires AuthorsExist(reviews, users)
  {
    && v.review.id in reviews
    && reviews[v.review.id] == v.review
    && v.review.parentId == Some(parentId)
    && v == ReplyViewOf(reviews, users, v.review.id)
  }

  ghost function ReplyViews(reviews: map<ReviewId, Review>, users: map<UserId, User>, parentId: ReviewId)
    : set<ReplyView>
    requires AuthorsExist(reviews, users)
  {
    set k | k in RepliesOf(reviews, parentId) :: ReplyViewOf(reviews, users, k)
  }

  /** One view per direct reply, and nothing else. */
  lemma ReplyViewsExact(reviews: map<ReviewId, Review>, users: map<UserId, User>, parentId: ReviewId)
    requires ReviewsValid(reviews) && AuthorsExist(reviews, users)
    ensures |ReplyViews(reviews, users, parentId)| == |RepliesOf(reviews, parentId)|
    ensures forall v :: v in ReplyViews(reviews, users, parentId) <==> IsReplyView(reviews, users, parentId, v)
  {
    var keys := RepliesOf(reviews, parentId);
    var views := ReplyViews(reviews, users, parentId);
    var f := k requires k in reviews && reviews[k].authorId in users => ReplyViewOf(reviews, users, k);
    forall a, b | a in keys && b in keys && f(a) == f(b) ensures a == b {
      assert reviews[a].id == a && reviews[b].id == b;
    }
    ImageCount(keys, views, f);
    forall v | v in views ensures IsReplyView(reviews, users, parentId, v) {
      var k :| k in keys && v == ReplyViewOf(reviews, users, k);
      assert reviews[k].id == k;
    }
  }

  function OldestFirst(a: ReplyView, b: ReplyView): bool
  {
    a.review.createdAt <= b.review.createdAt
  }

  /** `findReplies`: exactly the direct replies to the review, oldest first,
      each with its author and its number of replies. */
  ghost function FindReplies(reviews: map<ReviewId, Review>, users: map<UserId, User>, reviewId: ReviewId)
    : (r: seq<ReplyView>)
    requires ReviewsValid(reviews) && AuthorsExist(reviews, users)
    ensures Sorted(r, OldestFirst)
    ensures forall v :: v in r <==> IsReplyView(reviews, users, reviewId, v)
    ensures |r| == |RepliesOf(reviews, reviewId)|
  {
    ReplyViewsExact(reviews, users, reviewId);
    Listing(ReplyViews(reviews, users, reviewId), OldestFirst)
  }

  // ------------------------------------------------------------ station rules

  /** The fields of a root review. A rating, when given, is between 1 and 5. */
  datatype ReviewData = ReviewData(rating: Option<real>, comment: Option<string>)

  predicate RatingInRange(dto: ReviewData)
  {
    dto.rating.Some? ==> 1.0 <= dto.rating.value <= 5.0
  }

  /** A comment the service treats as given: present and not empty. */
  predicate HasComment(dto: ReviewData)
  {
    dto.comment.Some? && dto.comment.value != ""
  }

  /** `validateStationRules`: the first of the four checks that fails, in
      the order rating required, comment required, rating forbidden, comment
      forbidden; a flag that is neither "TRUE" nor "FALSE" imposes nothing. */
  function StationRuleError(ratingSystem: string, reviewSystem: string, dto: ReviewData): (r: Option<Exception>)
    ensures r.None? <==>
              && (ratingSystem == ON ==> dto.rating.Some?)
              && (reviewSystem == ON ==> HasComment(dto))
              && (ratingSystem == OFF ==> dto.rating.None?)
              && (reviewSystem == OFF ==> !HasComment(dto))
    ensures ratingSystem == ON && dto.rating.None? ==> r == Some(BadRequest(RatingRequired))
    ensures !(ratingSystem == ON && dto.rating.None?) && reviewSystem == ON && !HasComment(dto) ==>
              r == Some(BadRequest(CommentRequired))
    ensures !(ratingSystem == ON && dto.rating.None?) && !(reviewSystem == ON && !HasComment(dto))
            && ratingSystem == OFF && dto.rating.Some? ==>
              r == Some(BadRequest(RatingForbidden))
    ensures !(ratingSystem == ON && dto.rating.None?) && !(reviewSystem == ON && !HasComment(dto))
            && !(ratingSystem == OFF && dto.rating.Some?) && reviewSystem == OFF && HasComment(dto) ==>
              r == Some(BadRequest(CommentForbidden))
  {
    if ratingSystem == ON && dto.rating.None? then Some(BadRequest(RatingRequired))
    else if reviewSystem == ON && !HasComment(dto) then Some(BadRequest(CommentRequired))
    else if ratingSystem == OFF && dto.rating.Some? then Some(BadRequest(RatingForbidden))
    else if reviewSystem == OFF && HasComment(dto) then Some(BadRequest(CommentForbidden))
    else None
  }

  /** A station that requires a comment and forbids ratings accepts exactly
      the reviews with a non-empty comment and no rating. */
  lemma CommentOnlyStation(dto: ReviewData)
    ensures StationRuleError(OFF, ON, dto).None? <==> HasComment(dto) && dto.rating.None?
  {
  }

  /** An empty comment counts as no comment: it fails a station that
      requires one and passes a station that forbids them. */
  lemma EmptyCommentIsAbsent(rating: Option<real>, ratingSystem: string, reviewSystem: string)
    ensures StationRuleError(ratingSystem, reviewSystem, ReviewData(rating, Some("")))
            == StationRuleError(ratingSystem, reviewSystem, ReviewData(rating, None))
  {
  }

  // ----------------------------------------------------------------- creation

  /** The submission's set and station rows exist: foreign keys of the store. */
  ghost predicate SubmissionChainExists(db: Db, submissionId: SubmissionId)
    reads db
  {
    submissionId in db.submissions ==>
      && db.submissions[submissionId].setId in db.sets
      && db.sets[db.submissions[submissionId].setId].stationId in db.stations
  }

  /** The station a stored submission belongs to. */
  function StationOf(db: Db, submissionId: SubmissionId): (s: Station)
    reads db
    requires submissionId in db.submissions && SubmissionChainExists(db, submissionId)
    ensures s == db.stations[db.sets[db.submissions[submissionId].setId].stationId]
  {
    db.stations[db.sets[db.submissions[submissionId].setId].stationId]
  }

  /** `createRootReview`: the submission must exist; its submitter may not
      review it; then the author must be a member of its station, then the
      station's rules apply. One root review is stored. */
  method CreateRootReview(db: Db, submissionId: SubmissionId, authorId: UserId, dto: ReviewData,
                          newId: ReviewId, nowMs: int)
    returns (r: Result<Review>)
    requires db.Valid() && SubmissionChainExists(db, submissionId) && RatingInRange(dto) && newId !in db.reviews
    modifies db`reviews
    ensures db.Valid()
    ensures r.Err? ==> db.reviews == old(db.reviews)
    ensures submissionId !in db.submissions ==> r == Err(RowNotFound)
    ensures submissionId in db.submissions && db.submissions[submissionId].submitterId == authorId ==>
              r == Err(Forbidden(SelfReview))
    ensures submissionId in db.submissions && db.submissions[submissionId].submitterId != authorId
            && (authorId, StationOf(db, submissionId).id) !in db.members ==>
              r == Err(Forbidden(MembersOnly))
    ensures submissionId in db.submissions && db.submissions[submissionId].submitterId != authorId
            && (authorId, StationOf(db, submissionId).id) in db.members
            && StationRuleError(StationOf(db, submissionId).ratingSystem, StationOf(db, submissionId).reviewSystem, dto).Some? ==>
              r == Err(StationRuleError(StationOf(db, submissionId).ratingSystem,
                                        StationOf(db, submissionId).reviewSystem, dto).value)
    ensures r.Ok? <==>
              && submissionId in db.submissions && db.submissions[submissionId].submitterId != authorId
              && (authorId, StationOf(db, submissionId).id) in db.members
              && StationRuleError(StationOf(db, submissionId).ratingSystem,
                                  StationOf(db, submissionId).reviewSystem, dto).None?
    ensures r.Ok? ==>
              && r.value == Review(newId, submissionId, authorId, dto.rating, dto.comment, None, nowMs)
              && db.reviews == old(db.reviews)[newId := r.value]
  {
    if submissionId !in db.submissions {
      return Err(RowNotFound);
    }
    var submission := db.submissions[submissionId];
    if submission.submitterId == authorId {
      return Err(Forbidden(SelfReview));
    }
    var station := StationOf(db, submissionId);
    assert station.id == db.sets[submission.setId].stationId;
    if (authorId, station.id) !in db.members {
      return Err(Forbidden(MembersOnly));
    }
    var ruleError := StationRuleError(station.ratingSystem, station.reviewSystem, dto);
    if ruleError.Some? {
      return Err(ruleError.value);
    }
    var review := Review(newId, submissionId, authorId, dto.rating, dto.comment, None, nowMs);
    db.reviews := db.reviews[newId := review];
    r := Ok(review);
  }

  /** The parent review's submission, set and station rows exist. */
  ghost predicate ReviewChainExists(db: Db, parentId: ReviewId)
    reads db
  {
    parentId in db.reviews ==>
      && db.reviews[parentId].submissionId in db.submissions
      && db.submissions[db.reviews[parentId].submissionId].setId in db.sets
  }

  /** `createReply`: the parent must exist and the author must be a member of
      its station. The reply goes to the parent's submission, has no rating,
      and is exempt from the self-review ban and the station's rules. */
  method CreateReply(db: Db, parentId: ReviewId, authorId: UserId, comment: Option<string>,
                     newId: ReviewId, nowMs: int)
    returns (r: Result<Review>)
    requires db.Valid() && ReviewChainExists(db, parentId) && newId !in db.reviews
    modifies db`reviews
    ensures db.Valid()
    ensures r.Err? ==> db.reviews == old(db.reviews)
    ensures parentId !in old(db.reviews) ==> r == Err(RowNotFound)
    ensures r.Ok? <==>
              && parentId in old(db.reviews)
              && (authorId, db.sets[db.submissions[old(db.reviews)[parentId].submissionId].setId].stationId)
                   in db.members
    ensures parentId in old(db.reviews) && !r.Ok? ==> r == Err(Forbidden(MembersOnly))
    ensures r.Ok? ==>
              && r.value == Review(newId, old(db.reviews)[parentId].submissionId, authorId, None, comment,
                                   Some(parentId), nowMs)
              && db.reviews == old(db.reviews)[newId := r.value]
              && newId in RepliesOf(db.reviews, parentId)
  {
    if parentId !in db.reviews {
      return Err(RowNotFound);
    }
    var parent := db.reviews[parentId];
    var stationId := db.sets[db.submissions[parent.submissionId].setId].stationId;
    if (authorId, stationId) !in db.members {
      return Err(Forbidden(MembersOnly));
    }
    var reply := Review(newId, parent.submissionId, authorId, None, comment, Some(parentId), nowMs);
    db.reviews := db.reviews[newId := reply];
    r := Ok(reply);
  }
}
