/** The submissions service: the review threads of a submission. */
module Submissions {

  import opened Store
  import opened Ordering
  import Users
  import Reviews

  /** A root review with its author and its direct replies, in the order the
      store returns them (the nested include asks for none). */
  datatype Thread = Thread(review: Review, author: Users.UserCard, replies: seq<Reviews.ReplyView>)

  /** The ids of the root reviews of a submission. */
  function RootsOf(reviews: map<ReviewId, Review>, submissionId: SubmissionId): set<ReviewId>
  {
    set k | k in reviews && reviews[k].submissionId == submissionId && reviews[k].parentId.None?
  }

  /** The direct replies of a review, each once, in some order. */
  ghost function Replies(reviews: map<ReviewId, Review>, users: map<UserId, User>, parentId: ReviewId)
    : (r: seq<Reviews.ReplyView>)
    requires ReviewsValid(reviews) && Reviews.AuthorsExist(reviews, users)
    ensures forall v :: v in r <==> Reviews.IsReplyView(reviews, users, parentId, v)
    ensures |r| == |Reviews.RepliesOf(reviews, parentId)|
  {
    Reviews.ReplyViewsExact(reviews, users, parentId);
    SeqOf(Reviews.ReplyViews(reviews, users, parentId))
  }

  ghost function ThreadOf(reviews: map<ReviewId, Review>, users: map<UserId, User>, k: ReviewId): Thread
    requires ReviewsValid(reviews) && Reviews.AuthorsExist(reviews, users) && k in reviews
  {
    Thread(reviews[k], Users.CardOf(users[reviews[k].authorId]), Replies(reviews, users, k))
  }

  /** `t` shows a stored root review of the submission with exactly its
      direct replies. */
  ghost predicate IsThread(reviews: map<ReviewId, Review>, users: map<UserId, User>,
                           submissionId: SubmissionId, t: Thread)
    requires ReviewsValid(reviews) && Reviews.AuthorsExist(reviews, users)
  {
    && t.review.id in RootsOf(reviews, submissionId)
    && t == ThreadOf(reviews, users, t.review.id)
  }

  ghost function Threads(reviews: map<ReviewId, Review>, users: map<UserId, User>, submissionId: SubmissionId)
    : set<Thread>
    requires ReviewsValid(reviews) && Reviews.AuthorsExist(reviews, users)
  {
    set k | k in RootsOf(reviews, submissionId) :: ThreadOf(reviews, users, k)
  }

  /** One thread per root review, and nothing else. */
  lemma ThreadsExact(reviews: map<ReviewId, Review>, users: map<UserId, User>, submissionId: SubmissionId)
    requires ReviewsValid(reviews) && Reviews.AuthorsExist(reviews, users)
    ensures |Threads(reviews, users, submissionId)| == |RootsOf(reviews, submissionId)|
    ensures forall t :: t in Threads(reviews, users, submissionId) <==> IsThread(reviews, users, submissionId, t)
  {
    var keys := RootsOf(reviews, submissionId);
    var threads := Threads(reviews, users, submissionId);
    var f := k requires k in reviews => ThreadOf(reviews, users, k);
    forall a, b | a in keys && b in keys && f(a) == f(b) ensures a == b {
      assert reviews[a].id == a && reviews[b].id == b;
    }
    ImageCount(keys, threads, f);
    forall t | t in threads ensures IsThread(reviews, users, submissionId, t) {
      var k :| k in keys && t == ThreadOf(reviews, users, k);
      assert reviews[k].id == k;
    }
  }

  function OldestFirst(a: Thread, b: Thread): bool
  {
    a.review.createdAt <= b.review.createdAt
  }

  /** `findReviews`: the root reviews of the submission, oldest first, each
      with exactly its direct replies; a reply never appears at the top
      level, and replies to replies only as their parent's count. */
  ghost function FindReviews(reviews: map<ReviewId, Review>, users: map<UserId, User>, submissionId: SubmissionId)
    : (r: seq<Thread>)
    requires ReviewsValid(reviews) && Reviews.AuthorsExist(reviews, users)
    ensures Sorted(r, OldestFirst)
    ensures |r| == |RootsOf(reviews, submissionId)|
    ensures forall t :: t in r <==> IsThread(reviews, users, submissionId, t)
    ensures forall t | t in r ::
              && t.review.submissionId == submissionId && t.review.parentId.None?
              && t.review.id in reviews && reviews[t.review.id] == t.review
              && (forall v :: v in t.replies <==> Reviews.IsReplyView(reviews, users, t.review.id, v))
  {
    ThreadsExact(reviews, users, submissionId);
    Listing(Threads(reviews, users, submissionId), OldestFirst)
  }
}
