/** The booking pages: creating a booking, the owner's approve and reject
    actions, the requester's cancel (which promotes the waitlist), and
    joining the waitlist.

    Each action either refuses with a reason (and changes nothing), completes
    with the new tables, or raises an error the page does not catch.
 */
module Bookings {
  import opened Base
  import opened PyJson
  import opened Models
  import opened BookingDal
  import W = WaitlistDal

  /** Minutes of grace before a start counts as in the past. */
  const PastGrace: int := 15
  /** Length of the slot a waitlist request probes. */
  const WaitlistProbe: int := 30

  /** The resource exists and is open for booking. */
  predicate Bookable(resources: seq<Resource>, rid: int)
  {
    FindResource(resources, rid).Some? && FindResource(resources, rid).value.status == Published
  }

  /** The initial status of a new booking: the owner's own bookings are
      approved, otherwise `requires_approval` decides between pending and
      approved. Reading the flag raises when `_metadata` is not an object. */
  function InitialStatus(res: Resource, actorId: int): (r: Outcome<BookingStatus>)
    ensures res.ownerId == actorId ==> r == Ok(Approved)
    ensures res.ownerId != actorId && RequiresApproval(res.rules).Ok? ==>
      r == Ok(if Truthy(RequiresApproval(res.rules).value) then Pending else Approved)
    ensures r.Raised? <==> res.ownerId != actorId && RequiresApproval(res.rules).Raised?
    ensures r.Ok? ==> Holds(Booking(0, 0, 0, 0, 0, r.value, 0))
  {
    if res.ownerId == actorId then Ok(Approved)
    else
      match RequiresApproval(res.rules)
      case Raised(err) => Raised(err)
      case Ok(flag) => Ok(if Truthy(flag) then Pending else Approved)
  }

  /** After the owner sets the flag to `v`, other users' bookings start
      pending exactly when `v` is truthy. */
  lemma InitialStatusFollowsFlag(res: Resource, value: Json, actorId: int)
    requires SetRequiresApproval(res.rules, value).Ok? && res.ownerId != actorId
    ensures InitialStatus(res.(rules := SetRequiresApproval(res.rules, value).value), actorId) ==
      Ok(if Truthy(value) then Pending else Approved)
  {
    RequiresApprovalRoundTrip(res.rules, value);
  }

  /** The `create` page's POST: refuse an unpublished resource, an empty or
      reversed interval, a start more than 15 minutes in the past and an
      unavailable slot; otherwise store the booking with its initial status. */
  function WebCreate(resources: seq<Resource>, bookings: seq<Booking>, actor: User, rid: int, s: int, e: int, now: int)
    : (r: Outcome<Verdict<(seq<Booking>, Booking)>>)
    ensures !Bookable(resources, rid) ==> r == Ok(Refused(NotBookable))
    ensures Bookable(resources, rid) && e <= s ==> r == Ok(Refused(EndNotAfterStart))
    ensures Bookable(resources, rid) && s < e && s <= now - PastGrace ==> r == Ok(Refused(InPast))
    ensures r == Ok(Refused(Unavailable)) <==>
      Bookable(resources, rid) && s < e && s > now - PastGrace
      && CheckAvailability(resources, bookings, rid, s, e) == Ok(false)
    ensures r.Ok? && r.value.Done? ==>
      && Bookable(resources, rid) && s < e && s > now - PastGrace
      && CheckAvailability(resources, bookings, rid, s, e) == Ok(true)
      && var (table, b) := r.value.value;
         && table == bookings + [b]
         && b.resourceId == rid && b.requesterId == actor.id && b.start == s && b.end == e
         && InitialStatus(FindResource(resources, rid).value, actor.id) == Ok(b.status)
    ensures (Bookable(resources, rid) && s < e && s > now - PastGrace
      && CheckAvailability(resources, bookings, rid, s, e) == Ok(true)
      && InitialStatus(FindResource(resources, rid).value, actor.id).Ok?) ==> r.Ok? && r.value.Done?
    ensures r.Raised? <==>
      && Bookable(resources, rid) && s < e && s > now - PastGrace
      && (|| CheckAvailability(resources, bookings, rid, s, e).Raised?
          || (CheckAvailability(resources, bookings, rid, s, e) == Ok(true)
              && InitialStatus(FindResource(resources, rid).value, actor.id).Raised?))
  {
    if !Bookable(resources, rid) then Ok(Refused(NotBookable))
    else if e <= s then Ok(Refused(EndNotAfterStart))
    else if s <= now - PastGrace then Ok(Refused(InPast))
    else
      match CheckAvailability(resources, bookings, rid, s, e)
      case Raised(err) => Raised(err)
      case Ok(false) => Ok(Refused(Unavailable))
      case Ok(true) =>
        match InitialStatus(FindResource(resources, rid).value, actor.id)
        case Raised(err) => Raised(err)
        case Ok(status) => Ok(Done(BookingDal.Create(bookings, rid, actor.id, s, e, status, now)))
  }

  /** A booking the web page creates never overlaps a pending or approved
      booking of the same resource. */
  lemma WebCreateKeepsNoDoubleBooking(
    resources: seq<Resource>, bookings: seq<Booking>, actor: User, rid: int, s: int, e: int, now: int)
    requires NoDoubleBooking(bookings) && ProperIntervals(bookings)
    requires WebCreate(resources, bookings, actor, rid, s, e, now).Ok?
    requires WebCreate(resources, bookings, actor, rid, s, e, now).value.Done?
    ensures var table := WebCreate(resources, bookings, actor, rid, s, e, now).value.value.0;
      NoDoubleBooking(table) && ProperIntervals(table)
  {
    var b := WebCreate(resources, bookings, actor, rid, s, e, now).value.value.1;
    AvailableKeepsNoDoubleBooking(resources, bookings, b);
  }

  /** Shared body of `approve` and `reject`: only the resource owner or an
      admin, only from `pending`. A booking whose resource row is gone makes
      the permission test raise. */
  function Decide(resources: seq<Resource>, bookings: seq<Booking>, actor: User, bid: int, target: BookingStatus)
    : (r: Outcome<Verdict<seq<Booking>>>)
    ensures FindBooking(bookings, bid).None? ==> r == Ok(Refused(NotFound))
    ensures r.Raised? <==>
      FindBooking(bookings, bid).Some? && FindResource(resources, FindBooking(bookings, bid).value.resourceId).None?
    ensures r.Ok? && r.value.Done? ==>
      && var b := FindBooking(bookings, bid).value;
         && b.status == Pending
         && (FindResource(resources, b.resourceId).value.ownerId == actor.id || actor.role == Admin)
         && r.value.value == SetBookingStatus(bookings, bid, target)
    ensures r.Ok? && r.value.Done? ==> FindBooking(bookings, bid).Some?
    ensures
      (&& FindBooking(bookings, bid).Some?
       && FindResource(resources, FindBooking(bookings, bid).value.resourceId).Some?
       && (FindResource(resources, FindBooking(bookings, bid).value.resourceId).value.ownerId == actor.id
           || actor.role == Admin)
       && FindBooking(bookings, bid).value.status == Pending)
      ==> r.Ok? && r.value.Done?
  {
    match FindBooking(bookings, bid)
    case None => Ok(Refused(NotFound))
    case Some(b) =>
      match FindResource(resources, b.resourceId)
      case None => Raised(AttributeError)
      case Some(res) =>
        if res.ownerId != actor.id && actor.role != Admin then Ok(Refused(Forbidden))
        else if b.status != Pending then Ok(Refused(WrongStatus))
        else Ok(Done(SetBookingStatus(bookings, bid, target)))
  }

  /** `approve`. */
  function WebApprove(resources: seq<Resource>, bookings: seq<Booking>, actor: User, bid: int)
    : (r: Outcome<Verdict<seq<Booking>>>)
    ensures r.Ok? && r.value.Done? ==>
      FindBooking(bookings, bid).Some? && FindBooking(bookings, bid).value.status == Pending
    ensures r.Ok? && r.value.Done? ==> r.value.value == SetBookingStatus(bookings, bid, Approved)
  {
    Decide(resources, bookings, actor, bid, Approved)
  }

  /** `reject`. */
  function WebReject(resources: seq<Resource>, bookings: seq<Booking>, actor: User, bid: int)
    : (r: Outcome<Verdict<seq<Booking>>>)
    ensures r.Ok? && r.value.Done? ==>
      FindBooking(bookings, bid).Some? && FindBooking(bookings, bid).value.status == Pending
    ensures r.Ok? && r.value.Done? ==> r.value.value == SetBookingStatus(bookings, bid, Rejected)
  {
    Decide(resources, bookings, actor, bid, Rejected)
  }

  /** Staff who do not own the resource are refused by the web approve and reject. */
  lemma StaffCannotDecide(resources: seq<Resource>, bookings: seq<Booking>, actor: User, bid: int, target: BookingStatus)
    requires actor.role == Staff
    requires FindBooking(bookings, bid).Some?
    requires FindResource(resources, FindBooking(bookings, bid).value.resourceId).Some?
    requires FindResource(resources, FindBooking(bookings, bid).value.resourceId).value.ownerId != actor.id
    ensures Decide(resources, bookings, actor, bid, target) == Ok(Refused(Forbidden))
  {
  }

  /** With unique ids, approving a pending booking or rejecting one keeps the
      table free of double bookings: a pending row already held its slot. */
  lemma DecideKeepsNoDoubleBooking(
    resources: seq<Resource>, bookings: seq<Booking>, actor: User, bid: int, target: BookingStatus)
    requires UniqueBookingIds(bookings) && NoDoubleBooking(bookings)
    requires target == Approved || target == Rejected
    requires Decide(resources, bookings, actor, bid, target).Ok?
    requires Decide(resources, bookings, actor, bid, target).value.Done?
    ensures NoDoubleBooking(Decide(resources, bookings, actor, bid, target).value.value)
  {
    var after := Decide(resources, bookings, actor, bid, target).value.value;
    var b := FindBooking(bookings, bid).value;
    forall i | 0 <= i < |bookings| && bookings[i].id == bid
      ensures bookings[i] == b
    {
      var k :| 0 <= k < |bookings| && bookings[k] == b;
      assert bookings[k].id == bookings[i].id;
    }
    HoldsShrinkKeepsNoDoubleBooking(bookings, after);
  }

  /** `cancel`: only the requester, refused for cancelled and completed
      bookings. The oldest active waitlist entry for the same resource whose
      requested datetime equals the booking's start is notified. */
  function WebCancel(bookings: seq<Booking>, waitlist: seq<W.Entry>, actor: User, bid: int, now: int)
    : (r: Verdict<(seq<Booking>, seq<W.Entry>)>)
    ensures FindBooking(bookings, bid).None? ==> r == Refused(NotFound)
    ensures r.Done? ==>
      && var b := FindBooking(bookings, bid).value;
         && b.requesterId == actor.id
         && (b.status == Pending || b.status == Approved || b.status == Rejected)
         && r.value.0 == SetBookingStatus(bookings, bid, Cancelled)
    ensures r.Done? ==> FindBooking(bookings, bid).Some?
    ensures
      (&& FindBooking(bookings, bid).Some? && FindBooking(bookings, bid).value.requesterId == actor.id
       && FindBooking(bookings, bid).value.status != Cancelled && FindBooking(bookings, bid).value.status != Completed)
      ==> r.Done?
  {
    match FindBooking(bookings, bid)
    case None => Refused(NotFound)
    case Some(b) =>
      if b.requesterId != actor.id then Refused(Forbidden)
      else if b.status == Cancelled || b.status == Completed then Refused(WrongStatus)
      else
        var table := SetBookingStatus(bookings, bid, Cancelled);
        match W.NextInQueue(waitlist, b.resourceId, Some(b.start))
        case None => Done((table, waitlist))
        case Some(next) => Done((table, W.NotifyUser(waitlist, next.id, now).value.0))
  }

  /** After a cancellation only the next waiting entry for that exact slot
      changes, and it becomes `notified`; with nobody waiting, the waitlist is
      untouched. */
  lemma CancelPromotesNext(bookings: seq<Booking>, waitlist: seq<W.Entry>, actor: User, bid: int, now: int)
    requires WebCancel(bookings, waitlist, actor, bid, now).Done?
    ensures var b := FindBooking(bookings, bid).value;
      var after := WebCancel(bookings, waitlist, actor, bid, now).value.1;
      match W.NextInQueue(waitlist, b.resourceId, Some(b.start))
      case None => after == waitlist
      case Some(next) =>
        && |after| == |waitlist|
        && forall i :: 0 <= i < |waitlist| ==>
             after[i] == if waitlist[i].id == next.id then waitlist[i].(status := W.Notified, notifiedAt := Some(now))
                         else waitlist[i]
  {
  }

  /** Cancelling never creates a double booking. */
  lemma CancelKeepsNoDoubleBooking(bookings: seq<Booking>, waitlist: seq<W.Entry>, actor: User, bid: int, now: int)
    requires NoDoubleBooking(bookings)
    requires WebCancel(bookings, waitlist, actor, bid, now).Done?
    ensures NoDoubleBooking(WebCancel(bookings, waitlist, actor, bid, now).value.0)
  {
    HoldsShrinkKeepsNoDoubleBooking(bookings, WebCancel(bookings, waitlist, actor, bid, now).value.0);
  }

  /** `join_waitlist`: the resource must be published, the user must have no
      active entry for the resource (at any datetime), and the 30-minute slot
      at the requested time must be unavailable. On success the new entry
      and its queue position. */
  function JoinWaitlist(
    resources: seq<Resource>, bookings: seq<Booking>, waitlist: seq<W.Entry>, actor: User, rid: int, t: int, now: int)
    : (r: Outcome<Verdict<(seq<W.Entry>, W.Entry, nat)>>)
    ensures !Bookable(resources, rid) ==> r == Ok(Refused(NotBookable))
    ensures Bookable(resources, rid) && W.GetByResourceAndUser(waitlist, rid, actor.id, Some(W.Active)).Some? ==>
      r == Ok(Refused(AlreadyWaiting))
    ensures r.Raised? <==>
      && Bookable(resources, rid) && W.GetByResourceAndUser(waitlist, rid, actor.id, Some(W.Active)).None?
      && CheckAvailability(resources, bookings, rid, t, t + WaitlistProbe).Raised?
    ensures (Bookable(resources, rid) && W.GetByResourceAndUser(waitlist, rid, actor.id, Some(W.Active)).None?
      && CheckAvailability(resources, bookings, rid, t, t + WaitlistProbe) == Ok(true)) ==> r == Ok(Refused(SlotAvailable))
    ensures (Bookable(resources, rid) && W.GetByResourceAndUser(waitlist, rid, actor.id, Some(W.Active)).None?
      && CheckAvailability(resources, bookings, rid, t, t + WaitlistProbe) == Ok(false)) ==> r.Ok? && r.value.Done?
    ensures r.Ok? && r.value.Done? ==>
      && Bookable(resources, rid)
      && (forall i :: 0 <= i < |waitlist| ==>
            !(waitlist[i].resourceId == rid && waitlist[i].userId == actor.id && waitlist[i].status == W.Active))
      && CheckAvailability(resources, bookings, rid, t, t + WaitlistProbe) == Ok(false)
      && var (table, entry, position) := r.value.value;
         && table == waitlist + [entry]
         && entry.status == W.Active && entry.resourceId == rid && entry.userId == actor.id && entry.requested == t
         && position == W.Position(table, rid, actor.id, Some(t))
  {
    if !Bookable(resources, rid) then Ok(Refused(NotBookable))
    else if W.GetByResourceAndUser(waitlist, rid, actor.id, Some(W.Active)).Some? then Ok(Refused(AlreadyWaiting))
    else
      match CheckAvailability(resources, bookings, rid, t, t + WaitlistProbe)
      case Raised(err) => Raised(err)
      case Ok(true) => Ok(Refused(SlotAvailable))
      case Ok(false) =>
        var (table, entry) := W.Join(waitlist, rid, actor.id, t, now);
        Ok(Done((table, entry, W.Position(table, rid, actor.id, Some(t)))))
  }

  /** A successful join reports the back of the queue: one more than the
      number already waiting for that resource and datetime. */
  lemma JoinReportsBackOfQueue(
    resources: seq<Resource>, bookings: seq<Booking>, waitlist: seq<W.Entry>, actor: User, rid: int, t: int, now: int)
    requires W.Chronological(waitlist)
    requires forall i :: 0 <= i < |waitlist| ==> waitlist[i].createdAt <= now
    requires JoinWaitlist(resources, bookings, waitlist, actor, rid, t, now).Ok?
    requires JoinWaitlist(resources, bookings, waitlist, actor, rid, t, now).value.Done?
    ensures JoinWaitlist(resources, bookings, waitlist, actor, rid, t, now).value.value.2 ==
      |W.Queue(waitlist, rid, Some(t))| + 1
  {
    W.JoinAtBack(waitlist, rid, actor.id, t, now);
  }
}
