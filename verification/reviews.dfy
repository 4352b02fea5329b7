/** The review pages: who may write a review, the rating parse, the
    one-review-per-resource rule, edit and delete permissions, and the list
    of resources a user may still review.
 */
module Reviews {
  import opened Base
  import opened PyText
  import opened PyJson
  import opened Models
  import opened Sorting
  import BookingDal
  import opened ReviewDal

  /** `int(rating)` from the form, kept only when in 1..5; a missing field or
      text `int()` rejects is refused like an out-of-range number. */
  function ParseRating(text: Option<string>): (r: Option<int>)
    ensures r.Some? ==> ValidRating(r.value)
    ensures r.Some? ==> text.Some? && ParseInt(text.value) == r
    ensures text.Some? && ParseInt(text.value).Some? && ValidRating(ParseInt(text.value).value) ==>
      r == ParseInt(text.value)
  {
    if text.None? then None
    else
      match ParseInt(text.value)
      case None => None
      case Some(n) => if n < 1 || n > 5 then None else Some(n)
  }

  /** The rating form's options parse back to themselves. */
  lemma RatingRoundTrip(n: int)
    requires ValidRating(n)
    ensures ParseRating(Some(Decimal(n))) == Some(n)
  {
    ParseIntDecimal(n);
  }

  /** The stripped comment, or `None` when it is blank. */
  function CommentText(text: string): (r: Option<string>)
    ensures r.None? <==> |Strip(text)| == 0
    ensures r.Some? ==> r.value == Strip(text)
  {
    var t := Strip(text);
    if |t| == 0 then None else Some(t)
  }

  /** A booking that lets its requester review: approved or completed, and already over. */
  predicate EndedUse(b: Booking, now: int)
  {
    (b.status == Approved || b.status == Completed) && b.end < now
  }

  /** The eligibility loop over `get_all(requester_id, resource_id)`. */
  function MayReview(bookings: seq<Booking>, rid: int, uid: int, now: int): bool
  {
    |Filter(BookingDal.GetAll(bookings, rid, uid, "", 0), (b: Booking) => EndedUse(b, now))| > 0
  }

  /** Eligibility means some booking of this user for this resource has ended
      while approved or completed. */
  lemma MayReviewIff(bookings: seq<Booking>, rid: int, uid: int, now: int)
    requires rid != 0 && uid != 0
    ensures MayReview(bookings, rid, uid, now) <==>
      exists i :: 0 <= i < |bookings| && bookings[i].resourceId == rid && bookings[i].requesterId == uid
        && EndedUse(bookings[i], now)
  {
    if MayReview(bookings, rid, uid, now) {
      EligibleHasBooking(bookings, rid, uid, now);
    }
    if exists i :: 0 <= i < |bookings| && bookings[i].resourceId == rid && bookings[i].requesterId == uid
        && EndedUse(bookings[i], now) {
      var i :| 0 <= i < |bookings| && bookings[i].resourceId == rid && bookings[i].requesterId == uid
        && EndedUse(bookings[i], now);
      BookingMakesEligible(bookings, rid, uid, now, i);
    }
  }

  lemma EligibleHasBooking(bookings: seq<Booking>, rid: int, uid: int, now: int)
    requires rid != 0 && uid != 0 && MayReview(bookings, rid, uid, now)
    ensures exists i :: (0 <= i < |bookings| && bookings[i].resourceId == rid && bookings[i].requesterId == uid
      && EndedUse(bookings[i], now))
  {
    var rows := BookingDal.GetAll(bookings, rid, uid, "", 0);
    var p := (b: Booking) => EndedUse(b, now);
    FilterMembers(rows, p);
    var b := Filter(rows, p)[0];
    var j :| 0 <= j < |rows| && rows[j] == b;
    var i :| 0 <= i < |bookings| && bookings[i] == b;
    assert BookingDal.Matches(rows[j], rid, uid, "");
  }

  lemma BookingMakesEligible(bookings: seq<Booking>, rid: int, uid: int, now: int, i: int)
    requires rid != 0 && uid != 0
    requires 0 <= i < |bookings| && bookings[i].resourceId == rid && bookings[i].requesterId == uid
    requires EndedUse(bookings[i], now)
    ensures MayReview(bookings, rid, uid, now)
  {
    var rows := BookingDal.GetAll(bookings, rid, uid, "", 0);
    var p := (b: Booking) => EndedUse(b, now);
    assert BookingDal.Matches(bookings[i], rid, uid, "");
    FilterMembers(rows, p);
    assert bookings[i] in Filter(rows, p);
  }

  /** The user already has a review of the resource that the listing shows (hidden ones are not shown). */
  predicate ReviewedVisibly(reviews: seq<Review>, rid: int, uid: int)
  {
    |Filter(GetByResource(reviews, rid, 0, false), (x: Review) => x.reviewerId == uid)| > 0
  }

  /** At most one review per user and resource. */
  predicate OneReviewEach(reviews: seq<Review>)
  {
    forall i, j :: 0 <= i < j < |reviews| ==>
      !(reviews[i].resourceId == reviews[j].resourceId && reviews[i].reviewerId == reviews[j].reviewerId)
  }

  /** The shared tail of both create variants: parse the rating and insert. */
  function Submit(reviews: seq<Review>, rid: int, actor: int, ratingText: Option<string>, commentText: string, now: int)
    : (r: Verdict<(seq<Review>, Review)>)
    ensures r.Refused? <==> ParseRating(ratingText).None?
    ensures r.Refused? ==> r.reason == Invalid
    ensures r.Done? ==> r.value.0 == reviews + [r.value.1]
    ensures r.Done? ==> r.value.1.resourceId == rid && r.value.1.reviewerId == actor && !r.value.1.hidden
    ensures r.Done? ==> Some(r.value.1.rating) == ParseRating(ratingText) && r.value.1.comment == CommentText(commentText)
  {
    match ParseRating(ratingText)
    case None => Refused(Invalid)
    case Some(rating) =>
      match Create(reviews, rid, actor, rating, CommentText(commentText), now)
      case Raised(_) => Refused(Invalid)
      case Ok(created) => Done(created)
  }

  /** The create page as written: the duplicate check reads the resource's
      visible reviews only. */
  function CreateReviewAsWritten(resources: seq<Resource>, bookings: seq<Booking>, reviews: seq<Review>,
                                 actor: int, rid: int, ratingText: Option<string>, commentText: string, now: int)
    : (r: Verdict<(seq<Review>, Review)>)
    ensures r.Done? ==> FindResource(resources, rid).Some? && MayReview(bookings, rid, actor, now)
    ensures r.Done? ==> !ReviewedVisibly(reviews, rid, actor)
    ensures r.Done? ==> r.value.0 == reviews + [r.value.1]
    ensures r.Done? ==> r.value.1.resourceId == rid && r.value.1.reviewerId == actor
    ensures FindResource(resources, rid).None? ==> r == Refused(NotFound)
    ensures FindResource(resources, rid).Some? && !MayReview(bookings, rid, actor, now) ==> r == Refused(Forbidden)
    ensures FindResource(resources, rid).Some? && MayReview(bookings, rid, actor, now) && !ReviewedVisibly(reviews, rid, actor) ==>
      (r.Done? <==> ParseRating(ratingText).Some?)
  {
    if FindResource(resources, rid).None? then Refused(NotFound)
    else if !MayReview(bookings, rid, actor, now) then Refused(Forbidden)
    else if ReviewedVisibly(reviews, rid, actor) then Refused(Duplicate)
    else Submit(reviews, rid, actor, ratingText, commentText, now)
  }

  /** The create page with the duplicate check reading every review, hidden
      or not, as the one-review rule intends. */
  function CreateReview(resources: seq<Resource>, bookings: seq<Booking>, reviews: seq<Review>,
                        actor: int, rid: int, ratingText: Option<string>, commentText: string, now: int)
    : (r: Verdict<(seq<Review>, Review)>)
    ensures r.Done? ==> FindResource(resources, rid).Some? && MayReview(bookings, rid, actor, now)
    ensures r.Done? ==> forall i :: 0 <= i < |reviews| ==>
      !(reviews[i].resourceId == rid && reviews[i].reviewerId == actor)
    ensures r.Done? ==> r.value.0 == reviews + [r.value.1] && ValidRating(r.value.1.rating)
    ensures r.Done? ==> r.value.1.resourceId == rid && r.value.1.reviewerId == actor
    ensures (GetByResourceAndUser(reviews, rid, actor).Some? && FindResource(resources, rid).Some?
      && MayReview(bookings, rid, actor, now)) ==> r == Refused(Duplicate)
    ensures FindResource(resources, rid).None? ==> r == Refused(NotFound)
    ensures FindResource(resources, rid).Some? && !MayReview(bookings, rid, actor, now) ==> r == Refused(Forbidden)
    ensures (FindResource(resources, rid).Some? && MayReview(bookings, rid, actor, now)
      && GetByResourceAndUser(reviews, rid, actor).None?) ==> (r.Done? <==> ParseRating(ratingText).Some?)
  {
    if FindResource(resources, rid).None? then Refused(NotFound)
    else if !MayReview(bookings, rid, actor, now) then Refused(Forbidden)
    else if GetByResourceAndUser(reviews, rid, actor).Some? then Refused(Duplicate)
    else Submit(reviews, rid, actor, ratingText, commentText, now)
  }

  /** The corrected page keeps the one-review rule. */
  lemma CreateReviewKeepsOneEach(resources: seq<Resource>, bookings: seq<Booking>, reviews: seq<Review>,
                                 actor: int, rid: int, ratingText: Option<string>, commentText: string, now: int)
    requires OneReviewEach(reviews)
    ensures var r := CreateReview(resources, bookings, reviews, actor, rid, ratingText, commentText, now);
      r.Done? ==> OneReviewEach(r.value.0)
  {
    var r := CreateReview(resources, bookings, reviews, actor, rid, ratingText, commentText, now);
    if r.Done? {
      AppendFreshKeepsOneEach(reviews, r.value.1);
    }
  }

  /** Appending a review of a resource the user has not reviewed keeps the one-review rule. */
  lemma AppendFreshKeepsOneEach(reviews: seq<Review>, x: Review)
    requires OneReviewEach(reviews)
    requires forall i :: 0 <= i < |reviews| ==> !(reviews[i].resourceId == x.resourceId && reviews[i].reviewerId == x.reviewerId)
    ensures OneReviewEach(reviews + [x])
  {
    var t := reviews + [x];
    forall i, j | 0 <= i < j < |t|
      ensures !(t[i].resourceId == t[j].resourceId && t[i].reviewerId == t[j].reviewerId)
    {
      assert t[i] == reviews[i];
      if j < |reviews| {
        assert t[j] == reviews[j];
      }
    }
  }

  /** The scenario of the hidden-review counterexample. */
  function ScenarioResources(): seq<Resource>
  {
    [Resource(1, 9, "Room", None, None, None, Empty, Empty, Published, 0)]
  }

  function ScenarioBookings(): seq<Booking>
  {
    [Booking(1, 1, 2, 0, 60, Completed, 0)]
  }

  /** User 2's review of resource 1, hidden by a moderator. */
  function ScenarioReviews(): seq<Review>
  {
    [Review(1, 1, 2, 4, None, 10, true)]
  }

  lemma ScenarioMayReview()
    ensures MayReview(ScenarioBookings(), 1, 2, 100)
  {
    var bookings := ScenarioBookings();
    var rows := BookingDal.GetAll(bookings, 1, 2, "", 0);
    assert BookingDal.Matches(bookings[0], 1, 2, "");
    assert bookings[0] in rows;
    assert EndedUse(bookings[0], 100);
    assert rows[0] in Filter(rows, (b: Booking) => EndedUse(b, 100));
  }

  /** The scenario's only review is hidden, so the listing shows nothing. */
  lemma ScenarioNothingVisible()
    ensures GetByResource(ScenarioReviews(), 1, 0, false) == []
  {
    var reviews := ScenarioReviews();
    assert reviews[0].hidden;
  }

  lemma ScenarioEligible()
    ensures MayReview(ScenarioBookings(), 1, 2, 100)
    ensures !ReviewedVisibly(ScenarioReviews(), 1, 2)
    ensures GetByResourceAndUser(ScenarioReviews(), 1, 2).Some?
    ensures ParseRating(Some("5")) == Some(5)
  {
    ScenarioMayReview();
    ScenarioNotReviewedVisibly();
    ScenarioHasReview();
    ScenarioRatingFive();
  }

  lemma ScenarioNotReviewedVisibly()
    ensures !ReviewedVisibly(ScenarioReviews(), 1, 2)
  {
    ScenarioNothingVisible();
  }

  lemma ScenarioHasReview()
    ensures GetByResourceAndUser(ScenarioReviews(), 1, 2).Some?
  {
    var reviews := ScenarioReviews();
    assert reviews[0].resourceId == 1 && reviews[0].reviewerId == 2;
  }

  lemma ScenarioRatingFive()
    ensures ParseRating(Some("5")) == Some(5)
  {
    assert Decimal(5) == "5";
    RatingRoundTrip(5);
  }

  /** The corrected page refuses the same request. */
  lemma HiddenReviewStillCounts()
    ensures CreateReview(ScenarioResources(), ScenarioBookings(), ScenarioReviews(), 2, 1, Some("5"), "", 100)
      == Refused(Duplicate)
  {
    ScenarioEligible();
    ScenarioResourceFound();
  }

  lemma ScenarioOnlyReviewHidden()
    ensures forall i :: (0 <= i < |ScenarioReviews()| && ScenarioReviews()[i].resourceId == 1
      && ScenarioReviews()[i].reviewerId == 2) ==> ScenarioReviews()[i].hidden
  {
  }

  lemma ScenarioResourceFound()
    ensures FindResource(ScenarioResources(), 1).Some?
  {
    assert ScenarioResources()[0].id == 1;
  }

  /** As written, a user whose only reviews of a resource are hidden passes
      the duplicate check, and the second review breaks the one-review rule. */
  lemma HiddenReviewAllowsSecond(resources: seq<Resource>, bookings: seq<Booking>, reviews: seq<Review>,
                                 actor: int, rid: int, ratingText: Option<string>, commentText: string, now: int)
    requires FindResource(resources, rid).Some? && MayReview(bookings, rid, actor, now)
    requires ParseRating(ratingText).Some?
    requires GetByResourceAndUser(reviews, rid, actor).Some?
    requires forall i :: 0 <= i < |reviews| && reviews[i].resourceId == rid && reviews[i].reviewerId == actor ==>
      reviews[i].hidden
    ensures var r := CreateReviewAsWritten(resources, bookings, reviews, actor, rid, ratingText, commentText, now);
      r.Done? && !OneReviewEach(r.value.0)
  {
    HiddenOnlyNotVisible(reviews, rid, actor);
    var r := CreateReviewAsWritten(resources, bookings, reviews, actor, rid, ratingText, commentText, now);
    AppendDuplicateBreaks(reviews, r.value.1);
  }

  /** Appending a second review of the same resource by the same user breaks the one-review rule. */
  lemma AppendDuplicateBreaks(reviews: seq<Review>, x: Review)
    requires GetByResourceAndUser(reviews, x.resourceId, x.reviewerId).Some?
    ensures !OneReviewEach(reviews + [x])
  {
    var earlier := GetByResourceAndUser(reviews, x.resourceId, x.reviewerId).value;
    var k :| 0 <= k < |reviews| && reviews[k] == earlier;
    var t := reviews + [x];
    assert t[k] == earlier && t[|reviews|] == x;
  }

  /** Reviews that are all hidden do not count as reviewed on the listing. */
  lemma HiddenOnlyNotVisible(reviews: seq<Review>, rid: int, actor: int)
    requires forall i :: 0 <= i < |reviews| && reviews[i].resourceId == rid && reviews[i].reviewerId == actor ==>
      reviews[i].hidden
    ensures !ReviewedVisibly(reviews, rid, actor)
  {
    var visible := GetByResource(reviews, rid, 0, false);
    forall i | 0 <= i < |visible|
      ensures visible[i].reviewerId != actor
    {
      var k :| 0 <= k < |reviews| && reviews[k] == visible[i];
    }
    FilterNone(visible, (x: Review) => x.reviewerId == actor);
  }

  /** The scenario meets the conditions: user 2 may review resource 1 and
      their only review of it is hidden. */
  lemma ScenarioHidden()
    ensures FindResource(ScenarioResources(), 1).Some? && MayReview(ScenarioBookings(), 1, 2, 100)
    ensures ParseRating(Some("5")).Some?
    ensures GetByResourceAndUser(ScenarioReviews(), 1, 2).Some?
    ensures forall i :: (0 <= i < |ScenarioReviews()| && ScenarioReviews()[i].resourceId == 1
      && ScenarioReviews()[i].reviewerId == 2) ==> ScenarioReviews()[i].hidden
  {
    ScenarioEligible();
    ScenarioOnlyReviewHidden();
    ScenarioResourceFound();
  }

  /** In the scenario the page as written stores a second review by user 2. */
  lemma ScenarioBreaksOneEach()
    ensures var r := CreateReviewAsWritten(ScenarioResources(), ScenarioBookings(), ScenarioReviews(), 2, 1, Some("5"), "", 100);
      r.Done? && !OneReviewEach(r.value.0)
  {
    ScenarioHidden();
    HiddenReviewAllowsSecond(ScenarioResources(), ScenarioBookings(), ScenarioReviews(), 2, 1, Some("5"), "", 100);
  }

  // ---- edit and delete ----

  /** The edit page: only the reviewer; a blank comment leaves the old comment in place. */
  function EditReview(reviews: seq<Review>, actor: int, id: int, ratingText: Option<string>, commentText: string)
    : (r: Verdict<seq<Review>>)
    ensures FindReview(reviews, id).None? ==> r == Refused(NotFound)
    ensures FindReview(reviews, id).Some? && FindReview(reviews, id).value.reviewerId != actor ==> r == Refused(Forbidden)
    ensures r.Done? ==> FindReview(reviews, id).Some? && FindReview(reviews, id).value.reviewerId == actor
    ensures r.Done? ==> ParseRating(ratingText).Some? && |r.value| == |reviews|
    ensures r.Done? <==> (FindReview(reviews, id).Some? && FindReview(reviews, id).value.reviewerId == actor
      && ParseRating(ratingText).Some?)
    ensures (FindReview(reviews, id).Some? && FindReview(reviews, id).value.reviewerId == actor
      && ParseRating(ratingText).None?) ==> r == Refused(Invalid)
    ensures r.Done? ==> forall i :: 0 <= i < |reviews| && reviews[i].id != id ==> r.value[i] == reviews[i]
    ensures r.Done? ==> forall i :: 0 <= i < |reviews| && reviews[i].id == id ==>
      && r.value[i].rating == ParseRating(ratingText).value
      && r.value[i].comment == (if CommentText(commentText).Some? then CommentText(commentText) else reviews[i].comment)
  {
    match FindReview(reviews, id)
    case None => Refused(NotFound)
    case Some(review) =>
      if review.reviewerId != actor then Refused(Forbidden)
      else
        match ParseRating(ratingText)
        case None => Refused(Invalid)
        case Some(rating) =>
          match Update(reviews, id, Some(rating), CommentText(commentText))
          case Ok(Some(updated)) => Done(updated)
          case _ => Refused(NotFound)
  }

  /** A valid edit by the reviewer goes through, and a blank comment cannot clear the old one. */
  lemma EditBlankCommentKeepsComment(reviews: seq<Review>, actor: int, id: int, n: int, commentText: string)
    requires FindReview(reviews, id).Some? && FindReview(reviews, id).value.reviewerId == actor
    requires ValidRating(n) && |Strip(commentText)| == 0
    ensures var r := EditReview(reviews, actor, id, Some(Decimal(n)), commentText);
      r.Done? && forall i :: 0 <= i < |reviews| ==> r.value[i].comment == reviews[i].comment
  {
    RatingRoundTrip(n);
  }

  /** The delete action: the reviewer or an admin. */
  function DeleteReview(reviews: seq<Review>, actor: User, id: int): (r: Verdict<seq<Review>>)
    ensures r.Done? <==> (FindReview(reviews, id).Some? &&
      (FindReview(reviews, id).value.reviewerId == actor.id || actor.role == Admin))
    ensures r.Done? ==> r.value == Delete(reviews, id).1
    ensures r.Refused? ==> (FindReview(reviews, id).None? <==> r.reason == NotFound)
  {
    match FindReview(reviews, id)
    case None => Refused(NotFound)
    case Some(review) =>
      if review.reviewerId != actor.id && actor.role != Admin then Refused(Forbidden)
      else Done(Delete(reviews, id).1)
  }

  // ---- resources still to review ----

  /** A booking that makes its resource a candidate: it ended while approved
      or completed, and the resource still exists. */
  predicate Reviewable(b: Booking, resources: seq<Resource>, now: int)
  {
    EndedUse(b, now) && FindResource(resources, b.resourceId).Some?
  }

  /** Walks the user's bookings (newest start first) and collects each
      resource the user may review and has not reviewed, once. */
  function Collect(rows: seq<Booking>, resources: seq<Resource>, reviewed: set<int>, now: int, acc: seq<int>)
    : (r: seq<int>)
    requires forall i, j :: 0 <= i < j < |acc| ==> acc[i] != acc[j]
    requires forall i :: 0 <= i < |acc| ==> acc[i] !in reviewed
    ensures forall i, j :: 0 <= i < j < |r| ==> r[i] != r[j]
    ensures forall i :: 0 <= i < |r| ==> r[i] !in reviewed
    ensures |acc| <= |r| && r[..|acc|] == acc
    ensures forall i :: |acc| <= i < |r| ==> r[i] in Candidates(rows, resources, now)
    ensures forall k :: (0 <= k < |rows| && Reviewable(rows[k], resources, now)
      && rows[k].resourceId !in reviewed) ==> rows[k].resourceId in r
    decreases |rows|
  {
    if |rows| == 0 then acc
    else
      var b := rows[0];
      var acc' := if Reviewable(b, resources, now) && b.resourceId !in reviewed && b.resourceId !in acc
                  then acc + [b.resourceId] else acc;
      var r := Collect(rows[1..], resources, reviewed, now, acc');
      PrefixOfPrefix(r, acc', acc);
      CandidatesStep(rows, resources, now, acc, acc', r);
      CollectCovers(rows, resources, reviewed, now, acc', r);
      r
  }

  /** Every reviewable, unreviewed row's resource is collected: the first row's
      is in the accumulator already or was just added, the others' come from
      the rest of the walk. */
  lemma CollectCovers(rows: seq<Booking>, resources: seq<Resource>, reviewed: set<int>, now: int, acc': seq<int>,
                      r: seq<int>)
    requires |rows| > 0
    requires Reviewable(rows[0], resources, now) && rows[0].resourceId !in reviewed ==> rows[0].resourceId in acc'
    requires |acc'| <= |r| && r[..|acc'|] == acc'
    requires forall k :: (0 <= k < |rows[1..]| && Reviewable(rows[1..][k], resources, now)
      && rows[1..][k].resourceId !in reviewed) ==> rows[1..][k].resourceId in r
    ensures forall k :: (0 <= k < |rows| && Reviewable(rows[k], resources, now)
      && rows[k].resourceId !in reviewed) ==> rows[k].resourceId in r
  {
    var b := rows[0];
    if Reviewable(b, resources, now) && b.resourceId !in reviewed {
      var j :| 0 <= j < |acc'| && acc'[j] == b.resourceId;
      assert r[..|acc'|][j] == r[j];
    }
    assert forall k :: 1 <= k < |rows| ==> rows[k] == rows[1..][k - 1];
  }

  /** What one turn of `Collect` adds, and what the rest of the walk adds, are candidates of all the rows. */
  lemma CandidatesStep(rows: seq<Booking>, resources: seq<Resource>, now: int, acc: seq<int>, acc': seq<int>, r: seq<int>)
    requires |rows| > 0
    requires acc' == acc || (acc' == acc + [rows[0].resourceId] && Reviewable(rows[0], resources, now))
    requires |acc'| <= |r| && r[..|acc'|] == acc'
    requires forall i :: |acc'| <= i < |r| ==> r[i] in Candidates(rows[1..], resources, now)
    ensures forall i :: |acc| <= i < |r| ==> r[i] in Candidates(rows, resources, now)
  {
    CandidatesTail(rows, resources, now);
    forall i | |acc| <= i < |r|
      ensures r[i] in Candidates(rows, resources, now)
    {
      if i < |acc'| {
        assert r[i] == r[..|acc'|][i] == acc'[i] == rows[0].resourceId;
      }
    }
  }

  /** The resources of the rows that make them candidates. */
  function Candidates(rows: seq<Booking>, resources: seq<Resource>, now: int): set<int>
  {
    set k | 0 <= k < |rows| && Reviewable(rows[k], resources, now) :: rows[k].resourceId
  }

  /** Dropping the first row loses no other candidate. */
  lemma CandidatesTail(rows: seq<Booking>, resources: seq<Resource>, now: int)
    requires |rows| > 0
    ensures Candidates(rows[1..], resources, now) <= Candidates(rows, resources, now)
    ensures Reviewable(rows[0], resources, now) ==> rows[0].resourceId in Candidates(rows, resources, now)
  {
    forall x | x in Candidates(rows[1..], resources, now)
      ensures x in Candidates(rows, resources, now)
    {
      var k :| 0 <= k < |rows[1..]| && Reviewable(rows[1..][k], resources, now) && rows[1..][k].resourceId == x;
      assert rows[k + 1] == rows[1..][k];
    }
  }

  lemma PrefixOfPrefix(r: seq<int>, acc': seq<int>, acc: seq<int>)
    requires |acc'| <= |r| && r[..|acc'|] == acc'
    requires |acc| <= |acc'| && acc'[..|acc|] == acc
    ensures r[..|acc|] == acc
  {
    assert r[..|acc|] == acc'[..|acc|];
  }

  /** The user's bookings, newest start first. */
  function BookingsOf(bookings: seq<Booking>, uid: int): seq<Booking>
  {
    OrderLimit(Filter(bookings, (b: Booking) => b.requesterId == uid), (b: Booking) => -b.start, 0)
  }

  /** The resources the user has reviewed, hidden reviews included. */
  function ReviewedBy(reviews: seq<Review>, uid: int): (r: set<int>)
    ensures forall k :: 0 <= k < |reviews| && reviews[k].reviewerId == uid ==> reviews[k].resourceId in r
  {
    var mine := GetByReviewer(reviews, uid);
    assert forall k :: 0 <= k < |reviews| && reviews[k].reviewerId == uid ==> reviews[k] in mine;
    set k | 0 <= k < |mine| :: mine[k].resourceId
  }

  /** `resources_to_review` on the my-reviews page, as resource ids. */
  function ResourcesToReview(bookings: seq<Booking>, resources: seq<Resource>, reviews: seq<Review>, uid: int, now: int)
    : (r: seq<int>)
    ensures forall i, j :: 0 <= i < j < |r| ==> r[i] != r[j]
    ensures forall i :: 0 <= i < |r| ==> forall k :: 0 <= k < |reviews| && reviews[k].reviewerId == uid ==>
      reviews[k].resourceId != r[i]
  {
    Collect(BookingsOf(bookings, uid), resources, ReviewedBy(reviews, uid), now, [])
  }

  /** Every listed resource comes from an ended approved or completed booking of the user. */
  lemma ToReviewFromEndedBooking(bookings: seq<Booking>, resources: seq<Resource>, reviews: seq<Review>,
                                 uid: int, now: int, i: int)
    requires 0 <= i < |ResourcesToReview(bookings, resources, reviews, uid, now)|
    ensures exists k :: (0 <= k < |bookings| && bookings[k].requesterId == uid
      && bookings[k].resourceId == ResourcesToReview(bookings, resources, reviews, uid, now)[i]
      && EndedUse(bookings[k], now))
  {
    var rows := BookingsOf(bookings, uid);
    var r := ResourcesToReview(bookings, resources, reviews, uid, now);
    assert r[i] in Candidates(rows, resources, now);
    var k :| 0 <= k < |rows| && Reviewable(rows[k], resources, now) && rows[k].resourceId == r[i];
    var j := FromBookingsOf(bookings, uid, rows[k]);
    assert EndedUse(bookings[j], now);
  }

  /** A row of the user's bookings sits at some index of the table and is theirs. */
  lemma FromBookingsOf(bookings: seq<Booking>, uid: int, x: Booking) returns (j: int)
    requires x in BookingsOf(bookings, uid)
    ensures 0 <= j < |bookings| && bookings[j] == x && x.requesterId == uid
  {
    var mine := Filter(bookings, (b: Booking) => b.requesterId == uid);
    assert x in mine;
    InFilter(bookings, (b: Booking) => b.requesterId == uid, x);
    j :| 0 <= j < |bookings| && bookings[j] == x;
  }

  /** Every resource of an ended approved or completed booking that still
      exists and is not yet reviewed is listed. */
  lemma ToReviewComplete(bookings: seq<Booking>, resources: seq<Resource>, reviews: seq<Review>,
                         uid: int, now: int, k: int)
    requires 0 <= k < |bookings| && bookings[k].requesterId == uid && EndedUse(bookings[k], now)
    requires FindResource(resources, bookings[k].resourceId).Some?
    requires forall j :: 0 <= j < |reviews| && reviews[j].reviewerId == uid ==> reviews[j].resourceId != bookings[k].resourceId
    ensures bookings[k].resourceId in ResourcesToReview(bookings, resources, reviews, uid, now)
  {
    var rows := BookingsOf(bookings, uid);
    InBookingsOf(bookings, uid, k);
    var j :| 0 <= j < |rows| && rows[j] == bookings[k];
    NotReviewedBy(reviews, uid, bookings[k].resourceId);
    assert Reviewable(rows[j], resources, now);
  }

  lemma InBookingsOf(bookings: seq<Booking>, uid: int, k: int)
    requires 0 <= k < |bookings| && bookings[k].requesterId == uid
    ensures bookings[k] in BookingsOf(bookings, uid)
  {
    assert bookings[k] in Filter(bookings, (b: Booking) => b.requesterId == uid);
  }

  lemma NotReviewedBy(reviews: seq<Review>, uid: int, rid: int)
    requires forall j :: 0 <= j < |reviews| && reviews[j].reviewerId == uid ==> reviews[j].resourceId != rid
    ensures rid !in ReviewedBy(reviews, uid)
  {
    var mine := GetByReviewer(reviews, uid);
    forall i | 0 <= i < |mine|
      ensures mine[i].resourceId != rid
    {
      var j :| 0 <= j < |reviews| && reviews[j] == mine[i];
    }
  }
}
