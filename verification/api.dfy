/** The JSON API's rules: self-registration, resource listing and detail
    visibility, booking creation, booking approval and review creation.

    The API applies different gates from the web pages. It checks only the
    inclusive conflict list before booking, any staff member may approve, and
    a completed booking makes its user eligible to review at once.
 */
module Api {
  import opened Base
  import opened PyText
  import opened PyJson
  import opened Models
  import opened Sorting
  import opened BookingDal
  import Bookings
  import opened UserDal
  import RD = ReviewDal
  import Reviews
  import Auth

  // ---- registration ----

  /** The register body's fields, each `''` when absent; `role` is `'student'` when absent. */
  datatype RegisterBody = RegisterBody(name: string, email: string, password: string, role: string, department: string)

  /** `POST /auth/register`. `None` is an empty body. Name, email and password
      are stripped and required, and the email is also lower-cased. Any of the
      three roles may be chosen. A duplicate email is refused. There is no
      `'@'` test and no minimum password length. */
  function ApiRegister(users: seq<User>, body: Option<RegisterBody>): (r: Verdict<(seq<User>, User)>)
    ensures body.None? ==> r == Refused(MissingField)
    ensures (body.Some?
      && (|Strip(body.value.name)| == 0 || |Auth.FormEmail(body.value.email)| == 0
          || |Strip(body.value.password)| == 0)) ==> r == Refused(MissingField)
    ensures r.Done? <==>
      (&& body.Some?
       && |Strip(body.value.name)| > 0 && |Auth.FormEmail(body.value.email)| > 0 && |Strip(body.value.password)| > 0
       && ParseRole(Strip(body.value.role)).Some?
       && GetByEmail(users, Auth.FormEmail(body.value.email)).None?)
    ensures r.Done? ==>
      && r.value.0 == users + [r.value.1]
      && r.value.1.role == ParseRole(Strip(body.value.role)).value
      && r.value.1.email == Auth.FormEmail(body.value.email)
      && r.value.1.name == Strip(body.value.name)
      && !r.value.1.suspended
  {
    match body
    case None => Refused(MissingField)
    case Some(form) =>
      var name := Strip(form.name);
      var email := Auth.FormEmail(form.email);
      if |name| == 0 || |email| == 0 || |Strip(form.password)| == 0 then Refused(MissingField)
      else
        match ParseRole(Strip(form.role))
        case None => Refused(Invalid)
        case Some(role) =>
          if GetByEmail(users, email).Some? then Refused(Duplicate)
          else
            var department := if |Strip(form.department)| == 0 then None else Some(Strip(form.department));
            Auth.FormEmailNormal(form.email);
            Done(CreateUser(users, name, email, role, department))
  }

  /** Cleaning the email adds no `'@'`. */
  lemma FormEmailNoAt(text: string)
    requires '@' !in text
    ensures '@' !in Auth.FormEmail(text)
  {
    var stripped := Strip(text);
    StripFrom(text);
    forall i | 0 <= i < |stripped|
      ensures Auth.FormEmail(text)[i] != '@'
    {
      assert stripped[i] in text;
    }
  }

  /** Unlike the register page, the API lets anyone create an admin account,
      with an email lacking `'@'` and a password of any non-blank length. */
  lemma ApiRegisterAdmitsAdmin(users: seq<User>, body: RegisterBody)
    requires |Strip(body.name)| > 0 && |Auth.FormEmail(body.email)| > 0 && |Strip(body.password)| > 0
    requires Strip(body.role) == "admin" && '@' !in body.email
    requires GetByEmail(users, Auth.FormEmail(body.email)).None?
    ensures var r := ApiRegister(users, Some(body));
      r.Done? && r.value.1.role == Admin && '@' !in r.value.1.email
  {
    FormEmailNoAt(body.email);
    AdminRoleParses();
  }

  // ---- listing and detail visibility ----

  /** The status filter of `GET /resources`: what the caller asked for
      (`'published'` when absent), forced to `'published'` when not signed in. */
  function ListStatus(authenticated: bool, requested: string): (status: string)
    ensures !authenticated ==> status == "published"
    ensures authenticated ==> status == requested
  {
    if authenticated then requested else "published"
  }

  /** The order of `ResourceDAL.get_all`: newest first. */
  function CreatedKey(x: Resource): int
  {
    -x.createdAt
  }

  /** The `status` filter of `ResourceDAL.get_all`: a falsy status keeps every row. */
  predicate HasStatus(x: Resource, status: string)
  {
    status == "" || ResourceStatusName(x.status) == status
  }

  /** `HasStatus` as a filter argument. */
  function KeepStatus(status: string): Resource -> bool
  {
    (x: Resource) => HasStatus(x, status)
  }

  /** The rows the `status` filter selects, in table order. */
  function WithStatus(resources: seq<Resource>, status: string): seq<Resource>
  {
    Filter(resources, KeepStatus(status))
  }

  lemma WithStatusMembers(resources: seq<Resource>, status: string)
    ensures forall x :: x in WithStatus(resources, status) <==> x in resources && HasStatus(x, status)
  {
    FilterMembers(resources, KeepStatus(status));
  }

  /** `ResourceDAL.get_all(status=..., limit=...)`: a truthy status filters,
      rows come newest first, and a truthy limit keeps only the newest `limit`. */
  function ListResources(resources: seq<Resource>, status: string, limit: nat): (r: seq<Resource>)
    ensures var m := WithStatus(resources, status);
      |r| == if 0 < limit < |m| then limit else |m|
    ensures multiset(r) <= multiset(WithStatus(resources, status))
    ensures limit == 0 ==> multiset(r) == multiset(WithStatus(resources, status))
    ensures SortedBy(r, CreatedKey)
    ensures forall i :: 0 <= i < |r| ==> r[i] in resources && HasStatus(r[i], status)
    ensures (limit == 0 || |r| < limit) ==>
      forall i :: 0 <= i < |resources| && HasStatus(resources[i], status) ==> resources[i] in r
    ensures forall i :: 0 <= i < |resources| && HasStatus(resources[i], status) && resources[i] !in r ==>
      forall j :: 0 <= j < |r| ==> resources[i].createdAt <= r[j].createdAt
  {
    var r := OrderLimit(WithStatus(resources, status), CreatedKey, limit);
    ListResourcesMembers(resources, status, limit, r);
    ListResourcesOrder(resources, status, limit, r);
    r
  }

  /** What the listing returns has the status, and below the limit every such row is returned. */
  lemma ListResourcesMembers(resources: seq<Resource>, status: string, limit: nat, r: seq<Resource>)
    requires r == OrderLimit(WithStatus(resources, status), CreatedKey, limit)
    ensures forall i :: 0 <= i < |r| ==> r[i] in resources && HasStatus(r[i], status)
    ensures (limit == 0 || |r| < limit) ==>
      forall i :: 0 <= i < |resources| && HasStatus(resources[i], status) ==> resources[i] in r
  {
    var m := WithStatus(resources, status);
    WithStatusMembers(resources, status);
    forall i | 0 <= i < |r|
      ensures r[i] in resources && HasStatus(r[i], status)
    {
      assert r[i] in m;
    }
    if limit == 0 || |r| < limit {
      forall i | 0 <= i < |resources| && HasStatus(resources[i], status)
        ensures resources[i] in r
      {
        assert resources[i] in m;
      }
    }
  }

  /** A row with the status that the listing leaves out is no newer than any it returns. */
  lemma ListResourcesOrder(resources: seq<Resource>, status: string, limit: nat, r: seq<Resource>)
    requires r == OrderLimit(WithStatus(resources, status), CreatedKey, limit)
    ensures forall i :: 0 <= i < |resources| && HasStatus(resources[i], status) && resources[i] !in r ==>
      forall j :: 0 <= j < |r| ==> resources[i].createdAt <= r[j].createdAt
  {
    WithStatusMembers(resources, status);
  }

  /** An anonymous listing shows only published resources, whatever status was asked for. */
  lemma AnonymousListingPublishedOnly(resources: seq<Resource>, requested: string, limit: nat)
    ensures forall x :: x in ListResources(resources, ListStatus(false, requested), limit) ==> x.status == Published
  {
    var r := ListResources(resources, "published", limit);
    forall x | x in r
      ensures x.status == Published
    {
      var i :| 0 <= i < |r| && r[i] == x;
    }
  }

  /** A signed-in user who asks for `status=draft` with no limit lists every
      draft, other owners' too. */
  lemma SignedInListsOthersDrafts(resources: seq<Resource>, i: int)
    requires 0 <= i < |resources| && resources[i].status == Draft
    ensures resources[i] in ListResources(resources, ListStatus(true, "draft"), 0)
  {
  }

  /** The visibility test of `GET /resources/<id>`: a published resource, or
      one whose owner is the signed-in caller. `viewer` is `None` when nobody
      is signed in. */
  predicate Visible(res: Resource, viewer: Option<User>)
  {
    res.status == Published || (viewer.Some? && res.ownerId == viewer.value.id)
  }

  /** `GET /resources/<id>`: `None` (a 404) for an unknown or invisible resource. */
  function ApiGetResource(resources: seq<Resource>, rid: int, viewer: Option<User>): (r: Option<Resource>)
    ensures r.Some? <==> FindResource(resources, rid).Some? && Visible(FindResource(resources, rid).value, viewer)
    ensures r.Some? ==> r.value in resources && r.value.id == rid
    ensures r.Some? && r.value.status != Published ==> viewer.Some? && viewer.value.id == r.value.ownerId
  {
    match FindResource(resources, rid)
    case None => None
    case Some(res) => if Visible(res, viewer) then Some(res) else None
  }

  /** Admins are not exempt: another owner's draft is a 404 for them too. */
  lemma AdminNotExempt(resources: seq<Resource>, rid: int, admin: User)
    requires admin.role == Admin
    requires FindResource(resources, rid).Some?
    requires FindResource(resources, rid).value.status != Published
    requires FindResource(resources, rid).value.ownerId != admin.id
    ensures ApiGetResource(resources, rid, Some(admin)).None?
  {
  }

  // ---- booking creation ----

  /** A datetime field of the request body: absent or empty, not ISO 8601, or a time. */
  datatype Stamp = Missing | Malformed | At(t: int)

  /** `POST /bookings`. The body must name a resource (`0` is falsy) and both
      datetimes. The only availability gate is `check_conflicts`, which
      counts touching bookings. The resource is looked up only after that,
      and its status is never checked. The initial status follows the web
      rule: owner approved, otherwise `requires_approval` decides. Reading
      the flag can raise, and nothing catches it. */
  function ApiCreateBooking(resources: seq<Resource>, bookings: seq<Booking>, actor: User,
                            rid: int, start: Stamp, end: Stamp, now: int)
    : (r: Outcome<Verdict<(seq<Booking>, Booking)>>)
    ensures rid == 0 || start.Missing? || end.Missing? ==> r == Ok(Refused(MissingField))
    ensures rid != 0 && !start.Missing? && !end.Missing? && (start.Malformed? || end.Malformed?) ==>
      r == Ok(Refused(Invalid))
    ensures r == Ok(Refused(Conflict)) <==>
      rid != 0 && start.At? && end.At? && |CheckConflicts(bookings, rid, start.t, end.t)| > 0
    ensures rid != 0 && start.At? && end.At? && |CheckConflicts(bookings, rid, start.t, end.t)| == 0 ==>
      && (FindResource(resources, rid).None? ==> r == Ok(Refused(NotFound)))
      && (FindResource(resources, rid).Some? && Bookings.InitialStatus(FindResource(resources, rid).value, actor.id).Ok? ==>
            r.Ok? && r.value.Done?)
    ensures r.Ok? && r.value.Done? ==>
      && start.At? && end.At? && |CheckConflicts(bookings, rid, start.t, end.t)| == 0
      && FindResource(resources, rid).Some?
      && var (table, b) := r.value.value;
         && table == bookings + [b]
         && b.resourceId == rid && b.requesterId == actor.id && b.start == start.t && b.end == end.t
         && Bookings.InitialStatus(FindResource(resources, rid).value, actor.id) == Ok(b.status)
    ensures r.Raised? ==>
      FindResource(resources, rid).Some? && Bookings.InitialStatus(FindResource(resources, rid).value, actor.id).Raised?
  {
    if rid == 0 || start.Missing? || end.Missing? then Ok(Refused(MissingField))
    else if start.Malformed? || end.Malformed? then Ok(Refused(Invalid))
    else if |CheckConflicts(bookings, rid, start.t, end.t)| > 0 then Ok(Refused(Conflict))
    else
      match FindResource(resources, rid)
      case None => Ok(Refused(NotFound))
      case Some(res) =>
        match Bookings.InitialStatus(res, actor.id)
        case Raised(err) => Raised(err)
        case Ok(status) => Ok(Done(BookingDal.Create(bookings, rid, actor.id, start.t, end.t, status, now)))
  }

  /** Bookings the API accepts for a proper interval never double-book. An
      inclusive conflict list that comes back empty rules out any half-open
      overlap with a held booking. */
  lemma ApiCreateKeepsNoDoubleBooking(resources: seq<Resource>, bookings: seq<Booking>, actor: User,
                                      rid: int, s: int, e: int, now: int)
    requires NoDoubleBooking(bookings) && ProperIntervals(bookings) && s < e
    requires ApiCreateBooking(resources, bookings, actor, rid, At(s), At(e), now).Ok?
    requires ApiCreateBooking(resources, bookings, actor, rid, At(s), At(e), now).value.Done?
    ensures var table := ApiCreateBooking(resources, bookings, actor, rid, At(s), At(e), now).value.value.0;
      NoDoubleBooking(table) && ProperIntervals(table)
  {
    var b := ApiCreateBooking(resources, bookings, actor, rid, At(s), At(e), now).value.value.1;
    var t := bookings + [b];
    forall i, j | 0 <= i < j < |t| && t[i].resourceId == t[j].resourceId && Holds(t[i]) && Holds(t[j])
      ensures !HalfOpenOverlap(t[i].start, t[i].end, t[j].start, t[j].end)
    {
      if j == |bookings| {
        assert bookings[i] !in CheckConflicts(bookings, rid, s, e);
        assert !ClosedOverlap(bookings[i].start, bookings[i].end, s, e);
      }
    }
  }

  /** A held booking that ends exactly where the request starts is refused
      by the API, though `check_availability`, and so the web page, lets the
      request through. */
  lemma ApiRefusesTouching(resources: seq<Resource>, actor: User, b: Booking, e: int, now: int)
    requires Holds(b) && b.start < b.end && b.end < e && b.resourceId != 0
    ensures ApiCreateBooking(resources, [b], actor, b.resourceId, At(b.end), At(e), now) == Ok(Refused(Conflict))
    ensures NoBlocking([b], b.resourceId, b.end, e)
  {
    TouchingConflictDoesNotBlock(b, b.end, e);
  }

  /** With no conflicts the API books a draft resource and a reversed interval. */
  lemma ApiAcceptsReversedDraft(res: Resource, actor: User, s: int, e: int, now: int)
    requires res.id != 0 && res.status == Draft && res.ownerId == actor.id && e < s
    ensures var r := ApiCreateBooking([res], [], actor, res.id, At(s), At(e), now);
      r.Ok? && r.value.Done? && r.value.value.1.end < r.value.value.1.start
  {
  }

  // ---- approval ----

  /** The approval permission of the API: the resource owner, or any staff member or admin. */
  predicate MayApprove(res: Resource, actor: User)
  {
    res.ownerId == actor.id || actor.role == Staff || actor.role == Admin
  }

  /** `PUT /bookings/<id>/approve` as written: an unknown booking or resource
      is a 404, a caller without permission a 403, and otherwise the booking
      becomes approved, whatever its status was. */
  function ApiApproveAsWritten(resources: seq<Resource>, bookings: seq<Booking>, actor: User, bid: int)
    : (r: Verdict<seq<Booking>>)
    ensures r.Done? <==>
      && FindBooking(bookings, bid).Some?
      && FindResource(resources, FindBooking(bookings, bid).value.resourceId).Some?
      && MayApprove(FindResource(resources, FindBooking(bookings, bid).value.resourceId).value, actor)
    ensures r.Done? ==> r.value == SetBookingStatus(bookings, bid, Approved)
    ensures r.Refused? ==> r.reason == NotFound || r.reason == Forbidden
  {
    match FindBooking(bookings, bid)
    case None => Refused(NotFound)
    case Some(b) =>
      match FindResource(resources, b.resourceId)
      case None => Refused(NotFound)
      case Some(res) =>
        if !MayApprove(res, actor) then Refused(Forbidden)
        else Done(SetBookingStatus(bookings, bid, Approved))
  }

  /** The table of the approval counterexample: an approved booking, and a
      cancelled one for the same hour. */
  function ApproveScenario(): seq<Booking>
  {
    [Booking(1, 1, 2, 0, 60, Approved, 0), Booking(2, 1, 3, 0, 60, Cancelled, 0)]
  }

  /** As written, the owner re-approving the cancelled booking makes two
      approved bookings share the hour. */
  lemma ApproveCancelledDoubleBooks()
    ensures NoDoubleBooking(ApproveScenario()) && UniqueBookingIds(ApproveScenario())
    ensures var r := ApiApproveAsWritten([Resource(1, 9, "Room", None, None, None, Empty, Empty, Published, 0)],
                                         ApproveScenario(), User(9, "Owner", "o@x", Student, false, None), 2);
      r.Done? && !NoDoubleBooking(r.value)
  {
    var res := Resource(1, 9, "Room", None, None, None, Empty, Empty, Published, 0);
    var owner := User(9, "Owner", "o@x", Student, false, None);
    var after := SetBookingStatus(ApproveScenario(), 2, Approved);
    assert FindBooking(ApproveScenario(), 2) == Some(ApproveScenario()[1]);
    assert FindResource([res], 1) == Some(res);
    assert after[0] == ApproveScenario()[0] && after[1].status == Approved;
    assert Holds(after[0]) && Holds(after[1]) && HalfOpenOverlap(after[0].start, after[0].end, after[1].start, after[1].end);
  }

  /** The approval with the pending-only guard the web page applies. */
  function ApiApprove(resources: seq<Resource>, bookings: seq<Booking>, actor: User, bid: int)
    : (r: Verdict<seq<Booking>>)
    ensures r.Done? <==>
      && FindBooking(bookings, bid).Some?
      && FindBooking(bookings, bid).value.status == Pending
      && FindResource(resources, FindBooking(bookings, bid).value.resourceId).Some?
      && MayApprove(FindResource(resources, FindBooking(bookings, bid).value.resourceId).value, actor)
    ensures r.Done? ==> r.value == SetBookingStatus(bookings, bid, Approved)
    ensures r.Done? ==> ApiApproveAsWritten(resources, bookings, actor, bid) == r
  {
    match ApiApproveAsWritten(resources, bookings, actor, bid)
    case Refused(reason) => Refused(reason)
    case Done(table) =>
      if FindBooking(bookings, bid).value.status != Pending then Refused(WrongStatus) else Done(table)
  }

  /** With the guard, approving keeps the table free of double bookings. */
  lemma ApiApproveKeepsNoDoubleBooking(resources: seq<Resource>, bookings: seq<Booking>, actor: User, bid: int)
    requires UniqueBookingIds(bookings) && NoDoubleBooking(bookings)
    requires ApiApprove(resources, bookings, actor, bid).Done?
    ensures NoDoubleBooking(ApiApprove(resources, bookings, actor, bid).value)
  {
    var after := ApiApprove(resources, bookings, actor, bid).value;
    var b := FindBooking(bookings, bid).value;
    forall i | 0 <= i < |bookings| && bookings[i].id == bid
      ensures bookings[i] == b
    {
      var k :| 0 <= k < |bookings| && bookings[k] == b;
      assert bookings[k].id == bookings[i].id;
    }
    HoldsShrinkKeepsNoDoubleBooking(bookings, after);
  }

  /** Staff who do not own the resource may approve through the API, though
      the web page refuses them. */
  lemma StaffMayApproveViaApi(resources: seq<Resource>, bookings: seq<Booking>, actor: User, bid: int)
    requires actor.role == Staff
    requires FindBooking(bookings, bid).Some? && FindBooking(bookings, bid).value.status == Pending
    requires FindResource(resources, FindBooking(bookings, bid).value.resourceId).Some?
    requires FindResource(resources, FindBooking(bookings, bid).value.resourceId).value.ownerId != actor.id
    ensures ApiApprove(resources, bookings, actor, bid).Done?
    ensures Bookings.Decide(resources, bookings, actor, bid, Approved) == Ok(Refused(Forbidden))
  {
    Bookings.StaffCannotDecide(resources, bookings, actor, bid, Approved);
  }

  // ---- review creation ----

  /** The rating compared with `rating < 1 or rating > 5`: an integer as
      itself, `True` as 1; comparing any other JSON value with an int raises
      `TypeError`. */
  function RatingNumber(v: Json): (r: Outcome<int>)
    ensures v.JNum? ==> r == Ok(v.n)
    ensures r.Raised? <==> !(v.JNum? || v.JBool?)
  {
    match v
    case JNum(n) => Ok(n)
    case JBool(b) => Ok(if b then 1 else 0)
    case _ => Raised(TypeError)
  }

  /** The API's eligibility test: a completed booking of the resource, or an
      approved one that has ended. */
  predicate ApiUsed(b: Booking, now: int)
  {
    b.status == Completed || (b.status == Approved && b.end < now)
  }

  /** `BookingDAL.get_by_resource_and_user` without a status: the user's bookings of the resource. */
  function UserBookings(bookings: seq<Booking>, rid: int, uid: int): (r: seq<Booking>)
    ensures forall i :: 0 <= i < |r| ==> r[i] in bookings && r[i].resourceId == rid && r[i].requesterId == uid
    ensures forall i :: 0 <= i < |bookings| && bookings[i].resourceId == rid && bookings[i].requesterId == uid ==>
      bookings[i] in r
  {
    Filter(bookings, (b: Booking) => b.resourceId == rid && b.requesterId == uid)
  }

  /** The completed list is tried first, then the approved list for one that ended. */
  function ApiEligible(bookings: seq<Booking>, rid: int, uid: int, now: int): bool
  {
    var mine := UserBookings(bookings, rid, uid);
    if |Filter(mine, (b: Booking) => b.status == Completed)| > 0 then true
    else |Filter(Filter(mine, (b: Booking) => b.status == Approved), (b: Booking) => b.end < now)| > 0
  }

  /** The two-step test amounts to: some booking of the user for the resource satisfies `ApiUsed`. */
  lemma ApiEligibleIff(bookings: seq<Booking>, rid: int, uid: int, now: int)
    ensures ApiEligible(bookings, rid, uid, now) <==>
      exists i :: 0 <= i < |bookings| && bookings[i].resourceId == rid && bookings[i].requesterId == uid
        && ApiUsed(bookings[i], now)
  {
    var mine := UserBookings(bookings, rid, uid);
    var completed := Filter(mine, (b: Booking) => b.status == Completed);
    var approved := Filter(mine, (b: Booking) => b.status == Approved);
    var ended := Filter(approved, (b: Booking) => b.end < now);
    if ApiEligible(bookings, rid, uid, now) {
      var x := if |completed| > 0 then completed[0] else ended[0];
      if |completed| > 0 {
        InFilter(mine, (b: Booking) => b.status == Completed, x);
      } else {
        InFilter(approved, (b: Booking) => b.end < now, x);
        InFilter(mine, (b: Booking) => b.status == Approved, x);
      }
      var i :| 0 <= i < |bookings| && bookings[i] == x;
      assert ApiUsed(bookings[i], now);
    } else {
      forall i | 0 <= i < |bookings| && bookings[i].resourceId == rid && bookings[i].requesterId == uid
        ensures !ApiUsed(bookings[i], now)
      {
        var x := bookings[i];
        assert x in mine;
        FilterKeeps(mine, (b: Booking) => b.status == Completed, x);
        FilterKeeps(mine, (b: Booking) => b.status == Approved, x);
        FilterKeeps(approved, (b: Booking) => b.end < now, x);
      }
    }
  }

  /** `POST /reviews`. A falsy resource id or rating is refused, and so is a
      rating outside 1..5. A string rating raises `TypeError` in the
      comparison. The user must be eligible and must not have reviewed the
      resource before; the duplicate lookup counts hidden reviews too. */
  function ApiCreateReview(bookings: seq<Booking>, reviews: seq<RD.Review>, actor: User,
                           rid: int, rating: Json, commentText: string, now: int)
    : (r: Outcome<Verdict<(seq<RD.Review>, RD.Review)>>)
    ensures rid == 0 || !Truthy(rating) ==> r == Ok(Refused(MissingField))
    ensures r.Raised? <==> rid != 0 && Truthy(rating) && RatingNumber(rating).Raised?
    ensures r.Ok? && r.value.Done? <==>
      && rid != 0 && Truthy(rating) && RatingNumber(rating).Ok? && RD.ValidRating(RatingNumber(rating).value)
      && ApiEligible(bookings, rid, actor.id, now)
      && RD.GetByResourceAndUser(reviews, rid, actor.id).None?
    ensures r.Ok? && r.value.Done? ==>
      && r.value.value.0 == reviews + [r.value.value.1]
      && r.value.value.1.resourceId == rid && r.value.value.1.reviewerId == actor.id
      && r.value.value.1.rating == RatingNumber(rating).value && !r.value.value.1.hidden
  {
    if rid == 0 || !Truthy(rating) then Ok(Refused(MissingField))
    else
      match RatingNumber(rating)
      case Raised(err) => Raised(err)
      case Ok(n) =>
        if n < 1 || n > 5 then Ok(Refused(Invalid))
        else if !ApiEligible(bookings, rid, actor.id, now) then Ok(Refused(Forbidden))
        else if RD.GetByResourceAndUser(reviews, rid, actor.id).Some? then Ok(Refused(Duplicate))
        else Ok(Done(RD.Create(reviews, rid, actor.id, n, Reviews.CommentText(commentText), now).value))
  }

  /** The API keeps at most one review per user and resource. */
  lemma ApiCreateReviewKeepsOneEach(bookings: seq<Booking>, reviews: seq<RD.Review>, actor: User,
                                    rid: int, rating: Json, commentText: string, now: int)
    requires Reviews.OneReviewEach(reviews)
    ensures var r := ApiCreateReview(bookings, reviews, actor, rid, rating, commentText, now);
      r.Ok? && r.value.Done? ==> Reviews.OneReviewEach(r.value.value.0)
  {
  }

  /** A completed booking that has not yet ended makes the user eligible
      through the API but not on the review page. */
  lemma CompletedEarlyEligibleOnlyViaApi(b: Booking, now: int)
    requires b.status == Completed && b.end >= now && b.resourceId != 0 && b.requesterId != 0
    ensures ApiEligible([b], b.resourceId, b.requesterId, now)
    ensures !Reviews.MayReview([b], b.resourceId, b.requesterId, now)
  {
    ApiEligibleIff([b], b.resourceId, b.requesterId, now);
    Reviews.MayReviewIff([b], b.resourceId, b.requesterId, now);
  }
}
