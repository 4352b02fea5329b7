/** The review table: creation and update with the 1..5 rating bound, the
    per-resource listing that can hide moderated reviews, the per-user
    lookup, rating counts, and deletion.
 */
module ReviewDal {
  import opened Base
  import opened Sorting

  datatype Review = Review(
    id: int,
    resourceId: int,
    reviewerId: int,
    rating: int,
    comment: Option<string>,
    timestamp: int,
    hidden: bool)

  predicate ValidRating(n: int)
  {
    1 <= n <= 5
  }

  /** A key one above every review key in use. */
  function FreshReviewId(reviews: seq<Review>): (id: int)
    ensures forall i :: 0 <= i < |reviews| ==> reviews[i].id < id
  {
    if |reviews| == 0 then 1
    else
      var rest := FreshReviewId(reviews[..|reviews| - 1]);
      if reviews[|reviews| - 1].id < rest then rest else reviews[|reviews| - 1].id + 1
  }

  /** `ReviewDAL.create`: a visible review stamped `now`, or `ValueError` for a rating outside 1..5. */
  function Create(reviews: seq<Review>, rid: int, uid: int, rating: int, comment: Option<string>, now: int)
    : (r: Outcome<(seq<Review>, Review)>)
    ensures r.Ok? <==> ValidRating(rating)
    ensures r.Raised? ==> r.error == ValueError
    ensures r.Ok? ==> r.value.0 == reviews + [r.value.1]
    ensures r.Ok? ==> r.value.1 == Review(r.value.1.id, rid, uid, rating, comment, now, false)
    ensures r.Ok? ==> forall i :: 0 <= i < |reviews| ==> reviews[i].id != r.value.1.id
  {
    if rating < 1 || rating > 5 then Raised(ValueError)
    else
      var review := Review(FreshReviewId(reviews), rid, uid, rating, comment, now, false);
      Ok((reviews + [review], review))
  }

  /** `ReviewDAL.get_by_id`. */
  function FindReview(reviews: seq<Review>, id: int): (r: Option<Review>)
    ensures r.Some? ==> r.value in reviews && r.value.id == id
    ensures r.None? ==> forall i :: 0 <= i < |reviews| ==> reviews[i].id != id
  {
    if |reviews| == 0 then None
    else if reviews[0].id == id then Some(reviews[0])
    else FindReview(reviews[1..], id)
  }

  /** The rows `get_by_resource` reads: the resource's reviews, hidden ones only on request. */
  predicate Shown(x: Review, rid: int, includeHidden: bool)
  {
    x.resourceId == rid && (includeHidden || !x.hidden)
  }

  /** `Shown` as a filter argument. */
  function KeepShown(rid: int, includeHidden: bool): Review -> bool
  {
    (x: Review) => Shown(x, rid, includeHidden)
  }

  /** The rows `get_by_resource` selects, in table order. */
  function ShownReviews(reviews: seq<Review>, rid: int, includeHidden: bool): seq<Review>
  {
    Filter(reviews, KeepShown(rid, includeHidden))
  }

  lemma ShownReviewsMembers(reviews: seq<Review>, rid: int, includeHidden: bool)
    ensures forall x :: x in ShownReviews(reviews, rid, includeHidden) <==> x in reviews && Shown(x, rid, includeHidden)
  {
    FilterMembers(reviews, KeepShown(rid, includeHidden));
  }

  /** The order of the review listings: newest first. */
  function NewestKey(x: Review): int
  {
    -x.timestamp
  }

  /** `ReviewDAL.get_by_resource`: the resource's reviews, newest first, only
      the newest `limit` of them (0 means no limit); hidden ones only on request. */
  function GetByResource(reviews: seq<Review>, rid: int, limit: nat, includeHidden: bool): (r: seq<Review>)
    ensures var m := ShownReviews(reviews, rid, includeHidden);
      |r| == if 0 < limit < |m| then limit else |m|
    ensures multiset(r) <= multiset(ShownReviews(reviews, rid, includeHidden))
    ensures limit == 0 ==> multiset(r) == multiset(ShownReviews(reviews, rid, includeHidden))
    ensures forall i :: 0 <= i < |r| ==> r[i] in reviews && Shown(r[i], rid, includeHidden)
    ensures forall i, j :: 0 <= i < j < |r| ==> r[i].timestamp >= r[j].timestamp
    ensures (limit == 0 || |r| < limit) ==>
      forall i :: 0 <= i < |reviews| && Shown(reviews[i], rid, includeHidden) ==> reviews[i] in r
    ensures forall i :: 0 <= i < |reviews| && Shown(reviews[i], rid, includeHidden) && reviews[i] !in r ==>
      forall j :: 0 <= j < |r| ==> reviews[i].timestamp <= r[j].timestamp
  {
    var r := OrderLimit(ShownReviews(reviews, rid, includeHidden), NewestKey, limit);
    GetByResourceMembers(reviews, rid, limit, includeHidden, r);
    GetByResourceOrder(reviews, rid, limit, includeHidden, r);
    r
  }

  /** What `get_by_resource` returns is shown, and below the limit every shown review is returned. */
  lemma GetByResourceMembers(reviews: seq<Review>, rid: int, limit: nat, includeHidden: bool, r: seq<Review>)
    requires r == OrderLimit(ShownReviews(reviews, rid, includeHidden), NewestKey, limit)
    ensures forall i :: 0 <= i < |r| ==> r[i] in reviews && Shown(r[i], rid, includeHidden)
    ensures (limit == 0 || |r| < limit) ==>
      forall i :: 0 <= i < |reviews| && Shown(reviews[i], rid, includeHidden) ==> reviews[i] in r
  {
    var m := ShownReviews(reviews, rid, includeHidden);
    ShownReviewsMembers(reviews, rid, includeHidden);
    forall i | 0 <= i < |r|
      ensures r[i] in reviews && Shown(r[i], rid, includeHidden)
    {
      assert r[i] in m;
    }
    if limit == 0 || |r| < limit {
      forall i | 0 <= i < |reviews| && Shown(reviews[i], rid, includeHidden)
        ensures reviews[i] in r
      {
        assert reviews[i] in m;
      }
    }
  }

  /** `get_by_resource` is newest first, and a shown review it leaves out is no newer than any it returns. */
  lemma GetByResourceOrder(reviews: seq<Review>, rid: int, limit: nat, includeHidden: bool, r: seq<Review>)
    requires r == OrderLimit(ShownReviews(reviews, rid, includeHidden), NewestKey, limit)
    ensures forall i, j :: 0 <= i < j < |r| ==> r[i].timestamp >= r[j].timestamp
    ensures forall i :: 0 <= i < |reviews| && Shown(reviews[i], rid, includeHidden) && reviews[i] !in r ==>
      forall j :: 0 <= j < |r| ==> reviews[i].timestamp <= r[j].timestamp
  {
    ShownReviewsMembers(reviews, rid, includeHidden);
  }

  /** `ReviewDAL.get_by_reviewer`: every review the user wrote, hidden or not, newest first. */
  function GetByReviewer(reviews: seq<Review>, uid: int): (r: seq<Review>)
    ensures multiset(r) == multiset(Filter(reviews, (x: Review) => x.reviewerId == uid))
    ensures forall i :: 0 <= i < |r| ==> r[i] in reviews && r[i].reviewerId == uid
    ensures forall i :: 0 <= i < |reviews| && reviews[i].reviewerId == uid ==> reviews[i] in r
    ensures forall i, j :: 0 <= i < j < |r| ==> r[i].timestamp >= r[j].timestamp
  {
    OrderLimit(Filter(reviews, (x: Review) => x.reviewerId == uid), NewestKey, 0)
  }

  /** `ReviewDAL.get_by_resource_and_user`: the first matching row, hidden or not. */
  function GetByResourceAndUser(reviews: seq<Review>, rid: int, uid: int): (r: Option<Review>)
    ensures r.Some? ==> r.value in reviews && r.value.resourceId == rid && r.value.reviewerId == uid
    ensures r.None? <==> forall i :: 0 <= i < |reviews| ==>
      !(reviews[i].resourceId == rid && reviews[i].reviewerId == uid)
  {
    if |reviews| == 0 then None
    else if reviews[0].resourceId == rid && reviews[0].reviewerId == uid then Some(reviews[0])
    else GetByResourceAndUser(reviews[1..], rid, uid)
  }

  // ---- rating statistics ----

  /** The number of the resource's reviews, hidden ones included. */
  function CountReviews(reviews: seq<Review>, rid: int): (n: nat)
    ensures n <= |reviews|
    ensures n == |Filter(reviews, (x: Review) => x.resourceId == rid)|
  {
    if |reviews| == 0 then 0
    else
      var init := reviews[..|reviews| - 1];
      var last := reviews[|reviews| - 1];
      assert reviews == init + [last];
      FilterSnoc(init, last, (x: Review) => x.resourceId == rid);
      CountReviews(init, rid) + (if last.resourceId == rid then 1 else 0)
  }

  /** The number of the resource's reviews with exactly `stars`. */
  function CountStars(reviews: seq<Review>, rid: int, stars: int): (n: nat)
    ensures n <= CountReviews(reviews, rid)
    ensures n == |Filter(reviews, (x: Review) => x.resourceId == rid && x.rating == stars)|
  {
    if |reviews| == 0 then 0
    else
      var init := reviews[..|reviews| - 1];
      var last := reviews[|reviews| - 1];
      assert reviews == init + [last];
      FilterSnoc(init, last, (x: Review) => x.resourceId == rid && x.rating == stars);
      CountStars(init, rid, stars) + (if last.resourceId == rid && last.rating == stars then 1 else 0)
  }

  /** The counts of `get_resource_rating_stats` (the float average is not modelled). */
  datatype RatingStats = RatingStats(total: nat, five: nat, four: nat, three: nat, two: nat, one: nat)

  function Stats(reviews: seq<Review>, rid: int): (r: RatingStats)
    ensures r.total == CountReviews(reviews, rid)
    ensures r.total == 0 ==> r == RatingStats(0, 0, 0, 0, 0, 0)
    ensures r.five <= r.total && r.one <= r.total
  {
    var total := CountReviews(reviews, rid);
    if total == 0 then RatingStats(0, 0, 0, 0, 0, 0)
    else RatingStats(total, CountStars(reviews, rid, 5), CountStars(reviews, rid, 4), CountStars(reviews, rid, 3),
                     CountStars(reviews, rid, 2), CountStars(reviews, rid, 1))
  }

  /** When every rating of the resource is in 1..5, the five star counts add up to the total. */
  lemma {:induction false} StarCountsAddUp(reviews: seq<Review>, rid: int)
    requires forall i :: 0 <= i < |reviews| && reviews[i].resourceId == rid ==> ValidRating(reviews[i].rating)
    ensures CountStars(reviews, rid, 5) + CountStars(reviews, rid, 4) + CountStars(reviews, rid, 3)
          + CountStars(reviews, rid, 2) + CountStars(reviews, rid, 1) == CountReviews(reviews, rid)
  {
    if |reviews| > 0 {
      var init := reviews[..|reviews| - 1];
      StarCountsAddUp(init, rid);
      var last := reviews[|reviews| - 1];
      assert last.resourceId == rid ==> ValidRating(last.rating);
    }
  }

  lemma StatsAddUp(reviews: seq<Review>, rid: int)
    requires forall i :: 0 <= i < |reviews| && reviews[i].resourceId == rid ==> ValidRating(reviews[i].rating)
    ensures var s := Stats(reviews, rid); s.five + s.four + s.three + s.two + s.one == s.total
  {
    StarCountsAddUp(reviews, rid);
  }

  // ---- update and delete ----

  /** `ReviewDAL.update`: `None` for an unknown id; a rating outside 1..5
      raises before anything changes; a `None` argument leaves its field as it was. */
  function Update(reviews: seq<Review>, id: int, rating: Option<int>, comment: Option<string>)
    : (r: Outcome<Option<seq<Review>>>)
    ensures FindReview(reviews, id).None? ==> r == Ok(None)
    ensures FindReview(reviews, id).Some? && rating.Some? && !ValidRating(rating.value) ==> r == Raised(ValueError)
    ensures FindReview(reviews, id).Some? && (rating.None? || ValidRating(rating.value)) ==> r.Ok? && r.value.Some?
    ensures r.Ok? && r.value.Some? ==> |r.value.value| == |reviews|
    ensures r.Ok? && r.value.Some? ==> forall i :: 0 <= i < |reviews| && reviews[i].id != id ==>
      r.value.value[i] == reviews[i]
    ensures r.Ok? && r.value.Some? ==> forall i :: 0 <= i < |reviews| && reviews[i].id == id ==>
      && r.value.value[i].rating == (if rating.Some? then rating.value else reviews[i].rating)
      && r.value.value[i].comment == (if comment.Some? then comment else reviews[i].comment)
      && r.value.value[i].(rating := reviews[i].rating, comment := reviews[i].comment) == reviews[i]
  {
    if FindReview(reviews, id).None? then Ok(None)
    else if rating.Some? && (rating.value < 1 || rating.value > 5) then Raised(ValueError)
    else
      Ok(Some(seq(|reviews|, i requires 0 <= i < |reviews| =>
        if reviews[i].id != id then reviews[i]
        else reviews[i].(rating := if rating.Some? then rating.value else reviews[i].rating,
                         comment := if comment.Some? then comment else reviews[i].comment))))
  }

  /** `ReviewDAL.delete`: `False` and no change for an unknown id; otherwise the row is gone. */
  function Delete(reviews: seq<Review>, id: int): (r: (bool, seq<Review>))
    ensures !r.0 <==> FindReview(reviews, id).None?
    ensures !r.0 ==> r.1 == reviews
    ensures forall i :: 0 <= i < |r.1| ==> r.1[i] in reviews && r.1[i].id != id
    ensures forall i :: 0 <= i < |reviews| && reviews[i].id != id ==> reviews[i] in r.1
  {
    if FindReview(reviews, id).None? then (false, reviews)
    else (true, Filter(reviews, (x: Review) => x.id != id))
  }
}
