/** `BookingDAL`: the booking table queries, the three interval tests the
    application uses, and `check_availability`, which asks the resource's
    weekday rules first and the blocking bookings second.
 */
module BookingDal {
  import opened Base
  import opened PyJson
  import opened Clock
  import opened Models
  import opened Sorting
  import opened Windows

  /** The three-way disjunction of `check_availability`. */
  predicate DalOverlap(bs: int, be: int, s: int, e: int)
  {
    (bs <= s && be > s) || (bs < e && be >= e) || (bs >= s && be <= e)
  }

  /** Intersection of the half-open intervals `[bs, be)` and `[s, e)`. */
  predicate HalfOpenOverlap(bs: int, be: int, s: int, e: int)
  {
    bs < e && s < be
  }

  /** The inclusive three-way disjunction of `check_conflicts` and of the MCP tool. */
  predicate ClosedOverlap(bs: int, be: int, s: int, e: int)
  {
    (bs <= s && be >= s) || (bs <= e && be >= e) || (bs >= s && be <= e)
  }

  /** For non-empty intervals the three-way disjunction is exactly half-open
      intersection: touching intervals do not conflict, partial and contained
      overlaps do. */
  lemma DalOverlapIsHalfOpen(bs: int, be: int, s: int, e: int)
    requires bs < be && s < e
    ensures DalOverlap(bs, be, s, e) <==> HalfOpenOverlap(bs, be, s, e)
  {
  }

  /** The inclusive test catches everything the half-open one does, plus
      intervals that merely touch at an endpoint. */
  lemma ClosedOverlapWeaker(bs: int, be: int, s: int, e: int)
    requires bs < be && s < e
    ensures DalOverlap(bs, be, s, e) ==> ClosedOverlap(bs, be, s, e)
    ensures ClosedOverlap(bs, be, s, e) <==> bs <= e && s <= be
    ensures be == s ==> ClosedOverlap(bs, be, s, e) && !DalOverlap(bs, be, s, e)
    ensures bs == e ==> ClosedOverlap(bs, be, s, e) && !DalOverlap(bs, be, s, e)
  {
  }

  /** A booking that the `check_availability` query finds: same resource,
      pending or approved, overlapping. */
  predicate Blocks(b: Booking, rid: int, s: int, e: int)
  {
    b.resourceId == rid && Holds(b) && DalOverlap(b.start, b.end, s, e)
  }

  /** A booking that the `check_conflicts` query returns. */
  predicate Conflicts(b: Booking, rid: int, s: int, e: int)
  {
    b.resourceId == rid && Holds(b) && ClosedOverlap(b.start, b.end, s, e)
  }

  /** `conflicts is None` in `check_availability`. */
  predicate NoBlocking(bookings: seq<Booking>, rid: int, s: int, e: int)
  {
    forall i :: 0 <= i < |bookings| ==> !Blocks(bookings[i], rid, s, e)
  }

  /** `check_conflicts`: the blocking bookings of the resource under inclusive bounds, in table order. */
  function CheckConflicts(bookings: seq<Booking>, rid: int, s: int, e: int): (r: seq<Booking>)
    ensures forall i :: 0 <= i < |r| ==> r[i] in bookings && Conflicts(r[i], rid, s, e)
    ensures forall i :: 0 <= i < |bookings| && Conflicts(bookings[i], rid, s, e) ==> bookings[i] in r
  {
    Filter(bookings, b => Conflicts(b, rid, s, e))
  }

  /** Every booking that makes `check_availability` fail through a conflict is
      among those `check_conflicts` returns (for proper intervals). */
  lemma BlockingAmongConflicts(bookings: seq<Booking>, rid: int, s: int, e: int, i: int)
    requires 0 <= i < |bookings| && bookings[i].start < bookings[i].end && s < e
    requires Blocks(bookings[i], rid, s, e)
    ensures bookings[i] in CheckConflicts(bookings, rid, s, e)
  {
    ClosedOverlapWeaker(bookings[i].start, bookings[i].end, s, e);
  }

  /** ... but not conversely: a booking ending exactly at `s` is a conflict that does not block. */
  lemma TouchingConflictDoesNotBlock(b: Booking, s: int, e: int)
    requires Holds(b) && b.start < b.end && b.end == s && s < e
    ensures b in CheckConflicts([b], b.resourceId, s, e)
    ensures NoBlocking([b], b.resourceId, s, e)
  {
  }

  /** The weekday map a rules blob yields in `check_availability`: the decoded
      object minus `_metadata`, or `None` for an empty, unreadable or
      non-object blob and for an object holding nothing but `_metadata`. */
  function Schedule(rules: Blob): (r: Option<map<string, Json>>)
    ensures r.Some? ==> |r.value| > 0 && MetadataKey !in r.value
    ensures r.Some? <==> rules.Encoded? && rules.doc.JObj? && |Without(rules.doc.fields, MetadataKey)| > 0
    ensures r.Some? ==> r.value == Without(rules.doc.fields, MetadataKey)
  {
    match rules
    case Encoded(JObj(fields)) =>
      var days := Without(fields, MetadataKey);
      if |days| > 0 then Some(days) else None
    case _ => None
  }

  /** What the weekday rules say about `[s, e)` on the day of `s`, before any
      booking is looked at: `Ok(false)` when the slot is refused, `Ok(true)`
      when the bookings decide, an error when the window cannot be parsed. */
  function RulesAdmit(days: map<string, Json>, s: int, e: int): (r: Outcome<bool>)
    ensures var name := DayName(WeekdayOf(s));
      name !in days || days[name] == JNull ==> r == Ok(false)
    ensures var name := DayName(WeekdayOf(s));
      name in days && !Truthy(days[name]) && days[name] != JNull ==> r == Ok(true)
    ensures r.Raised? ==> ParseWindow(days[DayName(WeekdayOf(s))]).Raised?
    ensures var name := DayName(WeekdayOf(s));
      r.Raised? <==> name in days && Truthy(days[name]) && ParseWindow(days[name]).Raised?
    ensures var name := DayName(WeekdayOf(s));
      name in days && Truthy(days[name]) && ParseWindow(days[name]).Ok? && ParseWindow(days[name]).value.Some? ==>
        var w := ParseWindow(days[name]).value.value;
        r == Ok(w.start <= TimeOfDay(s) && TimeOfDay(e) <= w.end)
    ensures var name := DayName(WeekdayOf(s));
      name in days && Truthy(days[name]) && ParseWindow(days[name]) == Ok(None) ==> r == Ok(true)
  {
    var name := DayName(WeekdayOf(s));
    if name !in days || days[name] == JNull then Ok(false)
    else if !Truthy(days[name]) then Ok(true)
    else
      match ParseWindow(days[name])
      case Raised(err) => Raised(err)
      case Ok(None) => Ok(true)
      case Ok(Some(w)) => Ok(!(TimeOfDay(s) < w.start || TimeOfDay(e) > w.end))
  }

  /** `BookingDAL.check_availability(rid, s, e)`. Errors from the window parse
      are not caught and reach the caller. */
  function CheckAvailability(resources: seq<Resource>, bookings: seq<Booking>, rid: int, s: int, e: int)
    : (r: Outcome<bool>)
    ensures r == Ok(true) ==> NoBlocking(bookings, rid, s, e)
    ensures r.Ok? && NoBlocking(bookings, rid, s, e) ==>
      r.value == (FindResource(resources, rid).None? || Schedule(FindResource(resources, rid).value.rules).None?
        || RulesAdmit(Schedule(FindResource(resources, rid).value.rules).value, s, e) == Ok(true))
    ensures !NoBlocking(bookings, rid, s, e) && r.Ok? ==> r.value == false
    ensures r.Raised? <==>
      && FindResource(resources, rid).Some?
      && Schedule(FindResource(resources, rid).value.rules).Some?
      && RulesAdmit(Schedule(FindResource(resources, rid).value.rules).value, s, e).Raised?
  {
    var rulesVerdict :=
      match FindResource(resources, rid)
      case None => Ok(true)
      case Some(res) =>
        match Schedule(res.rules)
        case None => Ok(true)
        case Some(days) => RulesAdmit(days, s, e);
    match rulesVerdict
    case Raised(err) => Raised(err)
    case Ok(false) => Ok(false)
    case Ok(true) => Ok(NoBlocking(bookings, rid, s, e))
  }

  /** Only pending/approved bookings of the same resource can make the answer
      false through a conflict: removing or adding any other booking changes nothing. */
  lemma OnlyHeldBookingsMatter(resources: seq<Resource>, bookings: seq<Booking>, b: Booking, rid: int, s: int, e: int)
    requires b.resourceId != rid || !Holds(b)
    ensures CheckAvailability(resources, bookings + [b], rid, s, e) == CheckAvailability(resources, bookings, rid, s, e)
  {
    assert NoBlocking(bookings + [b], rid, s, e) == NoBlocking(bookings, rid, s, e) by {
      assert forall i :: 0 <= i < |bookings| ==> (bookings + [b])[i] == bookings[i];
    }
  }

  /** With non-empty rules lacking the start's weekday, the answer is false whatever the bookings. */
  lemma MissingWeekdayRefused(resources: seq<Resource>, bookings: seq<Booking>, rid: int, s: int, e: int)
    requires FindResource(resources, rid).Some?
    requires Schedule(FindResource(resources, rid).value.rules).Some?
    requires DayName(WeekdayOf(s)) !in Schedule(FindResource(resources, rid).value.rules).value
    ensures CheckAvailability(resources, bookings, rid, s, e) == Ok(false)
  {
  }

  /** A window `w` on the start's weekday admits exactly the slots whose
      time of day starts no earlier than `w.start` and ends no later than `w.end`
      (both ends inclusive); only times of day are compared. */
  lemma WindowContainment(resources: seq<Resource>, bookings: seq<Booking>, rid: int, s: int, e: int, w: Window)
    requires FindResource(resources, rid).Some?
    requires var sch := Schedule(FindResource(resources, rid).value.rules);
      sch.Some? && DayName(WeekdayOf(s)) in sch.value
      && ParseWindow(sch.value[DayName(WeekdayOf(s))]) == Ok(Some(w))
    requires NoBlocking(bookings, rid, s, e)
    ensures CheckAvailability(resources, bookings, rid, s, e) ==
      Ok(w.start <= TimeOfDay(s) && TimeOfDay(e) <= w.end)
  {
  }

  /** No readable schedule (no resource, no blob, bad JSON, a non-object, only
      `_metadata`): only the conflicts decide. */
  lemma NoScheduleConflictsOnly(resources: seq<Resource>, bookings: seq<Booking>, rid: int, s: int, e: int)
    requires FindResource(resources, rid).None? || Schedule(FindResource(resources, rid).value.rules).None?
    ensures CheckAvailability(resources, bookings, rid, s, e) == Ok(NoBlocking(bookings, rid, s, e))
  {
  }

  /** A present, truthy weekday value whose window cannot be parsed makes the
      call raise instead of answering. */
  lemma MalformedWindowRaises(resources: seq<Resource>, bookings: seq<Booking>, rid: int, s: int, e: int)
    requires FindResource(resources, rid).Some?
    requires var sch := Schedule(FindResource(resources, rid).value.rules);
      sch.Some? && DayName(WeekdayOf(s)) in sch.value
      && Truthy(sch.value[DayName(WeekdayOf(s))])
      && ParseWindow(sch.value[DayName(WeekdayOf(s))]).Raised?
    ensures CheckAvailability(resources, bookings, rid, s, e).Raised?
  {
  }

  /** A truthy weekday value without `'-'` skips the window check. */
  lemma DashlessWindowSkipped(resources: seq<Resource>, bookings: seq<Booking>, rid: int, s: int, e: int)
    requires FindResource(resources, rid).Some?
    requires var sch := Schedule(FindResource(resources, rid).value.rules);
      sch.Some? && DayName(WeekdayOf(s)) in sch.value
      && sch.value[DayName(WeekdayOf(s))].JStr?
      && |sch.value[DayName(WeekdayOf(s))].s| > 0
      && '-' !in sch.value[DayName(WeekdayOf(s))].s
    ensures CheckAvailability(resources, bookings, rid, s, e) == Ok(NoBlocking(bookings, rid, s, e))
  {
  }

  /** The double-booking invariant: no two pending/approved bookings of one
      resource intersect. */
  predicate NoDoubleBooking(bookings: seq<Booking>)
  {
    forall i, j ::
      (0 <= i < j < |bookings| && bookings[i].resourceId == bookings[j].resourceId
       && Holds(bookings[i]) && Holds(bookings[j])) ==>
        !HalfOpenOverlap(bookings[i].start, bookings[i].end, bookings[j].start, bookings[j].end)
  }

  /** Stored bookings are proper intervals. */
  predicate ProperIntervals(bookings: seq<Booking>)
  {
    forall i :: 0 <= i < |bookings| ==> bookings[i].start < bookings[i].end
  }

  /** Adding a proper interval that `check_availability` accepted keeps the
      table free of double bookings. */
  lemma {:induction false} AvailableKeepsNoDoubleBooking(
    resources: seq<Resource>, bookings: seq<Booking>, b: Booking)
    requires NoDoubleBooking(bookings) && ProperIntervals(bookings)
    requires b.start < b.end
    requires CheckAvailability(resources, bookings, b.resourceId, b.start, b.end) == Ok(true)
    ensures NoDoubleBooking(bookings + [b]) && ProperIntervals(bookings + [b])
  {
    var t := bookings + [b];
    forall i, j | 0 <= i < j < |t| && t[i].resourceId == t[j].resourceId && Holds(t[i]) && Holds(t[j])
      ensures !HalfOpenOverlap(t[i].start, t[i].end, t[j].start, t[j].end)
    {
      if j == |bookings| {
        assert !Blocks(bookings[i], b.resourceId, b.start, b.end);
        DalOverlapIsHalfOpen(bookings[i].start, bookings[i].end, b.start, b.end);
      }
    }
  }

  /** The `filter_by` clauses of `get_all`; a falsy argument adds no clause. */
  predicate Matches(b: Booking, resourceId: int, requesterId: int, status: string)
  {
    && (resourceId == 0 || b.resourceId == resourceId)
    && (requesterId == 0 || b.requesterId == requesterId)
    && (status == "" || BookingStatusName(b.status) == status)
  }

  /** `Matches` as a filter argument. */
  function KeepBooking(resourceId: int, requesterId: int, status: string): Booking -> bool
  {
    (b: Booking) => Matches(b, resourceId, requesterId, status)
  }

  /** The rows the `filter_by` clauses select, in table order. */
  function MatchingBookings(bookings: seq<Booking>, resourceId: int, requesterId: int, status: string): seq<Booking>
  {
    Filter(bookings, KeepBooking(resourceId, requesterId, status))
  }

  lemma MatchingBookingsMembers(bookings: seq<Booking>, resourceId: int, requesterId: int, status: string)
    ensures forall b :: b in MatchingBookings(bookings, resourceId, requesterId, status) <==>
      b in bookings && Matches(b, resourceId, requesterId, status)
  {
    FilterMembers(bookings, KeepBooking(resourceId, requesterId, status));
  }

  /** The order of `get_all`: latest start first. */
  function StartKey(b: Booking): int
  {
    -b.start
  }

  /** `get_all`: truthy filters on resource, requester and status; newest start first; truthy limit. */
  function GetAll(bookings: seq<Booking>, resourceId: int, requesterId: int, status: string, limit: nat)
    : (r: seq<Booking>)
    ensures var m := MatchingBookings(bookings, resourceId, requesterId, status);
      |r| == if 0 < limit < |m| then limit else |m|
    ensures multiset(r) <= multiset(MatchingBookings(bookings, resourceId, requesterId, status))
    ensures limit == 0 ==> multiset(r) == multiset(MatchingBookings(bookings, resourceId, requesterId, status))
    ensures forall i :: 0 <= i < |r| ==> r[i] in bookings && Matches(r[i], resourceId, requesterId, status)
    ensures forall i, j :: 0 <= i < j < |r| ==> r[i].start >= r[j].start
    ensures (limit == 0 || |r| < limit) ==>
      forall i :: 0 <= i < |bookings| && Matches(bookings[i], resourceId, requesterId, status) ==> bookings[i] in r
    ensures forall i :: 0 <= i < |bookings| && Matches(bookings[i], resourceId, requesterId, status) && bookings[i] !in r ==>
      forall j :: 0 <= j < |r| ==> bookings[i].start <= r[j].start
  {
    var r := OrderLimit(MatchingBookings(bookings, resourceId, requesterId, status), StartKey, limit);
    GetAllMembers(bookings, resourceId, requesterId, status, limit, r);
    GetAllOrder(bookings, resourceId, requesterId, status, limit, r);
    r
  }

  /** What `get_all` returns matches the filters, and below the limit every matching row is returned. */
  lemma GetAllMembers(bookings: seq<Booking>, resourceId: int, requesterId: int, status: string, limit: nat, r: seq<Booking>)
    requires r == OrderLimit(MatchingBookings(bookings, resourceId, requesterId, status), StartKey, limit)
    ensures forall i :: 0 <= i < |r| ==> r[i] in bookings && Matches(r[i], resourceId, requesterId, status)
    ensures (limit == 0 || |r| < limit) ==>
      forall i :: 0 <= i < |bookings| && Matches(bookings[i], resourceId, requesterId, status) ==> bookings[i] in r
  {
    var m := MatchingBookings(bookings, resourceId, requesterId, status);
    MatchingBookingsMembers(bookings, resourceId, requesterId, status);
    forall i | 0 <= i < |r|
      ensures r[i] in bookings && Matches(r[i], resourceId, requesterId, status)
    {
      assert r[i] in m;
    }
    if limit == 0 || |r| < limit {
      forall i | 0 <= i < |bookings| && Matches(bookings[i], resourceId, requesterId, status)
        ensures bookings[i] in r
      {
        assert bookings[i] in m;
      }
    }
  }

  /** `get_all` is newest first, and a matching row it leaves out starts no later than any it returns. */
  lemma GetAllOrder(bookings: seq<Booking>, resourceId: int, requesterId: int, status: string, limit: nat, r: seq<Booking>)
    requires r == OrderLimit(MatchingBookings(bookings, resourceId, requesterId, status), StartKey, limit)
    ensures forall i, j :: 0 <= i < j < |r| ==> r[i].start >= r[j].start
    ensures forall i :: 0 <= i < |bookings| && Matches(bookings[i], resourceId, requesterId, status) && bookings[i] !in r ==>
      forall j :: 0 <= j < |r| ==> bookings[i].start <= r[j].start
  {
    MatchingBookingsMembers(bookings, resourceId, requesterId, status);
  }

  /** A key one above every booking key in use. */
  function FreshBookingId(bookings: seq<Booking>): (id: int)
    ensures forall i :: 0 <= i < |bookings| ==> bookings[i].id < id
  {
    if |bookings| == 0 then 1
    else
      var rest := FreshBookingId(bookings[..|bookings| - 1]);
      if bookings[|bookings| - 1].id < rest then rest else bookings[|bookings| - 1].id + 1
  }

  /** `BookingDAL.create`: appends the new row, stamped `now`. */
  function Create(bookings: seq<Booking>, rid: int, requesterId: int, s: int, e: int, status: BookingStatus, now: int)
    : (r: (seq<Booking>, Booking))
    ensures r.0 == bookings + [r.1]
    ensures r.1 == Booking(r.1.id, rid, requesterId, s, e, status, now)
    ensures forall i :: 0 <= i < |bookings| ==> bookings[i].id != r.1.id
  {
    var b := Booking(FreshBookingId(bookings), rid, requesterId, s, e, status, now);
    (bookings + [b], b)
  }

  /** A table change that keeps every row's resource and interval and never
      makes a row hold its slot when it did not before. */
  predicate HoldsShrink(before: seq<Booking>, after: seq<Booking>)
  {
    && |after| == |before|
    && forall i :: 0 <= i < |before| ==>
         && after[i].resourceId == before[i].resourceId
         && after[i].start == before[i].start && after[i].end == before[i].end
         && (Holds(after[i]) ==> Holds(before[i]))
  }

  /** Such a change cannot create a double booking. */
  lemma HoldsShrinkKeepsNoDoubleBooking(before: seq<Booking>, after: seq<Booking>)
    requires NoDoubleBooking(before) && HoldsShrink(before, after)
    ensures NoDoubleBooking(after)
  {
    forall i, j | 0 <= i < j < |after| && after[i].resourceId == after[j].resourceId
      && Holds(after[i]) && Holds(after[j])
      ensures !HalfOpenOverlap(after[i].start, after[i].end, after[j].start, after[j].end)
    {
      assert Holds(before[i]) && Holds(before[j]);
    }
  }

  predicate UniqueBookingIds(bookings: seq<Booking>)
  {
    forall i, j :: 0 <= i < j < |bookings| ==> bookings[i].id != bookings[j].id
  }
}
