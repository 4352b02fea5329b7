/** The home page's "available today" quick filter and the search page's
    location, capacity and date/time filters. The keyword and category query
    itself is the database's and appears here as the input rows.
 */
module Search {
  import opened Base
  import opened PyText
  import opened PyJson
  import opened Clock
  import opened Models
  import opened Sorting
  import opened Windows
  import opened BookingDal
  import Slots
  import ResourcePages

  // ---- the "available today" quick filter ----

  /** How many of a resource's approved bookings the quick filter looks at. */
  const RecentApprovedLimit: nat := 100

  /** A booking starts or ends on `day`. */
  predicate TouchesDay(b: Booking, day: int)
  {
    Day(b.start) == day || Day(b.end) == day
  }

  /** The rows the quick filter asks for: approved bookings of the resource (of any when `rid` is falsy). */
  predicate ApprovedOf(b: Booking, rid: int)
  {
    b.status == Approved && (rid == 0 || b.resourceId == rid)
  }

  lemma ApprovedMatches(b: Booking, rid: int)
    ensures Matches(b, rid, 0, "approved") <==> ApprovedOf(b, rid)
  {
  }

  /** The approved bookings of the resource, in table order. */
  function ApprovedRows(bookings: seq<Booking>, rid: int): seq<Booking>
  {
    Filter(bookings, (b: Booking) => ApprovedOf(b, rid))
  }

  /** The query's filter selects exactly those rows. */
  lemma ApprovedRowsMatching(bookings: seq<Booking>, rid: int)
    ensures MatchingBookings(bookings, rid, 0, "approved") == ApprovedRows(bookings, rid)
  {
    forall i | 0 <= i < |bookings|
      ensures KeepBooking(rid, 0, "approved")(bookings[i]) == ApprovedOf(bookings[i], rid)
    {
      ApprovedMatches(bookings[i], rid);
    }
    FilterSame(bookings, KeepBooking(rid, 0, "approved"), (b: Booking) => ApprovedOf(b, rid));
  }

  /** `BookingDAL.get_all(resource_id=rid, status='approved', limit=100)`: the
      100 latest-starting approved bookings of the resource, or all of them
      when there are fewer. */
  function RecentApproved(bookings: seq<Booking>, rid: int): (r: seq<Booking>)
    ensures |r| <= RecentApprovedLimit
    ensures var m := ApprovedRows(bookings, rid);
      |r| == if RecentApprovedLimit < |m| then RecentApprovedLimit else |m|
    ensures multiset(r) <= multiset(ApprovedRows(bookings, rid))
    ensures forall i :: 0 <= i < |r| ==> r[i] in bookings && ApprovedOf(r[i], rid)
    ensures |r| < RecentApprovedLimit ==> forall i :: 0 <= i < |bookings| && ApprovedOf(bookings[i], rid) ==> bookings[i] in r
    ensures forall i :: 0 <= i < |bookings| && ApprovedOf(bookings[i], rid) && bookings[i] !in r ==>
      forall j :: 0 <= j < |r| ==> bookings[i].start <= r[j].start
  {
    var r := GetAll(bookings, rid, 0, "approved", RecentApprovedLimit);
    ApprovedRowsMatching(bookings, rid);
    RecentApprovedMembers(bookings, rid, r);
    RecentApprovedOrder(bookings, rid, r);
    r
  }

  /** The query returns approved bookings of the resource, and below the limit all of them. */
  lemma RecentApprovedMembers(bookings: seq<Booking>, rid: int, r: seq<Booking>)
    requires r == GetAll(bookings, rid, 0, "approved", RecentApprovedLimit)
    ensures forall i :: 0 <= i < |r| ==> r[i] in bookings && ApprovedOf(r[i], rid)
    ensures |r| < RecentApprovedLimit ==> forall i :: 0 <= i < |bookings| && ApprovedOf(bookings[i], rid) ==> bookings[i] in r
  {
    forall i | 0 <= i < |r|
      ensures r[i] in bookings && ApprovedOf(r[i], rid)
    {
      ApprovedMatches(r[i], rid);
    }
    forall i | 0 <= i < |bookings| && ApprovedOf(bookings[i], rid) && |r| < RecentApprovedLimit
      ensures bookings[i] in r
    {
      ApprovedMatches(bookings[i], rid);
    }
  }

  /** An approved booking the query leaves out starts no later than any it returns. */
  lemma RecentApprovedOrder(bookings: seq<Booking>, rid: int, r: seq<Booking>)
    requires r == GetAll(bookings, rid, 0, "approved", RecentApprovedLimit)
    ensures forall i :: 0 <= i < |bookings| && ApprovedOf(bookings[i], rid) && bookings[i] !in r ==>
      forall j :: 0 <= j < |r| ==> bookings[i].start <= r[j].start
  {
    forall i | 0 <= i < |bookings| && ApprovedOf(bookings[i], rid) && bookings[i] !in r
      ensures forall j :: 0 <= j < |r| ==> bookings[i].start <= r[j].start
    {
      ApprovedMatches(bookings[i], rid);
    }
  }

  /** One of those bookings starts or ends today. */
  predicate BusyToday(bookings: seq<Booking>, rid: int, today: int)
  {
    var recent := RecentApproved(bookings, rid);
    exists i :: 0 <= i < |recent| && TouchesDay(recent[i], today)
  }

  /** The quick filter: resources that are not busy today, or every resource when all are. */
  function AvailableToday(bookings: seq<Booking>, rows: seq<Resource>, today: int): (r: seq<Resource>)
    ensures |rows| > 0 ==> |r| > 0
    ensures forall i :: 0 <= i < |rows| && !BusyToday(bookings, rows[i].id, today) ==> rows[i] in r
    ensures r == rows || forall i :: 0 <= i < |r| ==> r[i] in rows && !BusyToday(bookings, r[i].id, today)
  {
    FilterOrAll(rows, (x: Resource) => !BusyToday(bookings, x.id, today))
  }

  /** A resource with no approved booking at all is always shown. */
  lemma NeverApprovedKept(bookings: seq<Booking>, rows: seq<Resource>, today: int, i: int)
    requires 0 <= i < |rows| && rows[i].id != 0
    requires forall j :: 0 <= j < |bookings| ==> !(bookings[j].resourceId == rows[i].id && bookings[j].status == Approved)
    ensures rows[i] in AvailableToday(bookings, rows, today)
  {
    assert !BusyToday(bookings, rows[i].id, today);
  }

  /** Pending bookings do not count, only approved ones: a resource whose
      bookings today are all pending is shown. */
  lemma PendingDoesNotBusy(bookings: seq<Booking>, rid: int, today: int)
    requires rid != 0
    requires forall j :: 0 <= j < |bookings| && bookings[j].resourceId == rid && TouchesDay(bookings[j], today) ==>
      bookings[j].status != Approved
    ensures !BusyToday(bookings, rid, today)
  {
    var recent := RecentApproved(bookings, rid);
    forall i | 0 <= i < |recent|
      ensures !TouchesDay(recent[i], today)
    {
      assert recent[i] in bookings;
    }
  }

  // ---- the search page ----

  /** The location filter for the stripped `location` argument: a case-blind
      substring of the resource's location; an empty argument filters nothing. */
  predicate LocationMatches(x: Resource, needle: string)
  {
    x.location.Some? && |x.location.value| > 0 && Contains(Lower(x.location.value), Lower(needle))
  }

  function LocationFilter(rows: seq<Resource>, locationText: string): (r: seq<Resource>)
    ensures |Strip(locationText)| == 0 ==> r == rows
    ensures |Strip(locationText)| > 0 ==> forall i :: 0 <= i < |r| ==>
      r[i] in rows && LocationMatches(r[i], Strip(locationText))
    ensures |Strip(locationText)| > 0 ==> forall i :: 0 <= i < |rows| && LocationMatches(rows[i], Strip(locationText)) ==>
      rows[i] in r
  {
    var needle := Strip(locationText);
    if |needle| == 0 then rows else Filter(rows, (x: Resource) => LocationMatches(x, needle))
  }

  /** `min_capacity`: an all-digit argument, else no bound; a bound of 0 is falsy and filters nothing. */
  function CapacityBound(text: string): (n: nat)
    ensures n > 0 ==> |text| > 0 && forall k :: 0 <= k < |text| ==> IsDigit(text[k])
  {
    if |text| > 0 && forall k :: 0 <= k < |text| ==> IsDigit(text[k]) then DigitsValue(text) else 0
  }

  /** A number typed in decimal is the bound. */
  lemma CapacityBoundDecimal(n: nat)
    ensures CapacityBound(Decimal(n)) == n
  {
    DigitsValueDecimal(n);
  }

  /** A signed or spaced number is not all digits, so it sets no bound. */
  lemma CapacityBoundSigned(text: string)
    requires |text| > 0 && (text[0] == '-' || text[0] == '+' || IsSpace(text[0]))
    ensures CapacityBound(text) == 0
  {
  }

  predicate CapacityMeets(x: Resource, bound: nat)
  {
    x.capacity.Some? && x.capacity.value != 0 && x.capacity.value >= bound
  }

  function CapacityFilter(rows: seq<Resource>, bound: nat): (r: seq<Resource>)
    ensures bound == 0 ==> r == rows
    ensures bound > 0 ==> forall i :: 0 <= i < |r| ==> r[i] in rows && r[i].capacity.Some? && r[i].capacity.value >= bound
    ensures bound > 0 ==> forall i :: 0 <= i < |rows| && rows[i].capacity.Some? && rows[i].capacity.value >= bound ==>
      rows[i] in r
  {
    if bound == 0 then rows else Filter(rows, (x: Resource) => CapacityMeets(x, bound))
  }

  /** The date/time arguments once parsed: none (or unparseable), a date and
      a time, or a date alone. */
  datatype Probe = NoProbe | AtTime(t: int) | DateOnly(day: int)

  /** The date-only probe time of a resource: the start of its window for
      that weekday. Anything short of a string rule whose text before the
      first `'-'` is a valid clock gives no time. */
  function EarliestStart(rules: Blob, day: int): (r: Option<int>)
    ensures r.Some? ==> ValidClock(r.value)
    ensures r.Some? ==> rules.Encoded? && rules.doc.JObj? && DayName(WeekdayOfDay(day)) in rules.doc.fields
  {
    match rules
    case Encoded(JObj(fields)) =>
      var days := Without(fields, MetadataKey);
      var name := DayName(WeekdayOfDay(day));
      if name in days then WindowStart(days[name]) else None
    case _ => None
  }

  /** The clock before the first `'-'` of a weekday's rule, when that rule is a string holding one. */
  function WindowStart(v: Json): (r: Option<int>)
    ensures r.Some? ==> ValidClock(r.value) && v.JStr? && '-' in v.s
  {
    if v.JStr? && '-' in v.s then
      match ParseClock(Strip(Split(v.s, '-')[0]))
      case Ok(m) => Some(m)
      case Raised(_) => None
    else None
  }

  /** Where the one-hour probe of a resource starts, if it is probed at all. */
  function ProbeStart(x: Resource, probe: Probe): (r: Option<int>)
    requires !probe.NoProbe?
    ensures probe.AtTime? ==> r == Some(probe.t)
    ensures probe.DateOnly? ==> (r.Some? <==> EarliestStart(x.rules, probe.day).Some?)
    ensures probe.DateOnly? && r.Some? ==> r.value == At(probe.day, EarliestStart(x.rules, probe.day).value)
  {
    if probe.AtTime? then Some(probe.t)
    else
      match EarliestStart(x.rules, probe.day)
      case None => None
      case Some(m) => Some(At(probe.day, m))
  }

  /** Search keeps a resource only on a definite yes: an error excludes it (fail closed). */
  predicate SearchKeeps(resources: seq<Resource>, bookings: seq<Booking>, x: Resource, probe: Probe)
    requires !probe.NoProbe?
  {
    YesAt(resources, bookings, x.id, ProbeStart(x, probe))
  }

  /** The one-hour check from `start` answered a definite yes. */
  predicate YesAt(resources: seq<Resource>, bookings: seq<Booking>, id: int, start: Option<int>)
  {
    start.Some? && CheckAvailability(resources, bookings, id, start.value, Slots.ProbeEnd(start.value)) == Ok(true)
  }

  /** The availability filter; with a probe its result replaces the rows even when empty. */
  function AvailabilityFilter(resources: seq<Resource>, bookings: seq<Booking>, rows: seq<Resource>, probe: Probe)
    : (r: seq<Resource>)
    ensures probe.NoProbe? ==> r == rows
    ensures !probe.NoProbe? ==> forall i :: 0 <= i < |r| ==> r[i] in rows && SearchKeeps(resources, bookings, r[i], probe)
    ensures !probe.NoProbe? ==> forall i :: 0 <= i < |rows| && SearchKeeps(resources, bookings, rows[i], probe) ==>
      rows[i] in r
  {
    if probe.NoProbe? then rows else Filter(rows, (x: Resource) => SearchKeeps(resources, bookings, x, probe))
  }

  /** A resource passes every filter of the search page. */
  predicate Qualifies(resources: seq<Resource>, bookings: seq<Booking>, x: Resource,
                      locationText: string, capacityText: string, probe: Probe)
  {
    && (|Strip(locationText)| == 0 || LocationMatches(x, Strip(locationText)))
    && (CapacityBound(capacityText) == 0 || CapacityMeets(x, CapacityBound(capacityText)))
    && (probe.NoProbe? || SearchKeeps(resources, bookings, x, probe))
  }

  /** The search page's filters, in the page's order. */
  function SearchResults(resources: seq<Resource>, bookings: seq<Booking>, rows: seq<Resource>,
                         locationText: string, capacityText: string, probe: Probe): (r: seq<Resource>)
    ensures forall i :: 0 <= i < |r| ==> r[i] in rows
    ensures !probe.NoProbe? ==> forall i :: 0 <= i < |r| ==> SearchKeeps(resources, bookings, r[i], probe)
    ensures forall i :: 0 <= i < |rows| && Qualifies(resources, bookings, rows[i], locationText, capacityText, probe) ==>
      rows[i] in r
  {
    var located := LocationFilter(rows, locationText);
    var sized := CapacityFilter(located, CapacityBound(capacityText));
    var r := AvailabilityFilter(resources, bookings, sized, probe);
    Within(r, sized, located);
    Within(r, located, rows);
    SearchComplete(resources, bookings, rows, locationText, capacityText, probe);
    r
  }

  /** A resource passing every filter survives each stage. */
  lemma SearchComplete(resources: seq<Resource>, bookings: seq<Booking>, rows: seq<Resource>,
                       locationText: string, capacityText: string, probe: Probe)
    ensures var r := AvailabilityFilter(resources, bookings,
                       CapacityFilter(LocationFilter(rows, locationText), CapacityBound(capacityText)), probe);
      forall i :: 0 <= i < |rows| && Qualifies(resources, bookings, rows[i], locationText, capacityText, probe) ==>
        rows[i] in r
  {
    var located := LocationFilter(rows, locationText);
    var sized := CapacityFilter(located, CapacityBound(capacityText));
    var r := AvailabilityFilter(resources, bookings, sized, probe);
    forall i | 0 <= i < |rows| && Qualifies(resources, bookings, rows[i], locationText, capacityText, probe)
      ensures rows[i] in r
    {
      var x := rows[i];
      LocatedKeeps(rows, locationText, x);
      SizedKeeps(located, CapacityBound(capacityText), x);
      ProbedKeeps(resources, bookings, sized, probe, x);
    }
  }

  /** A row matching the location text survives the location filter. */
  lemma LocatedKeeps(rows: seq<Resource>, locationText: string, x: Resource)
    requires x in rows && (|Strip(locationText)| == 0 || LocationMatches(x, Strip(locationText)))
    ensures x in LocationFilter(rows, locationText)
  {
    var j :| 0 <= j < |rows| && rows[j] == x;
  }

  /** A row meeting the bound survives the capacity filter. */
  lemma SizedKeeps(rows: seq<Resource>, bound: nat, x: Resource)
    requires x in rows && (bound == 0 || CapacityMeets(x, bound))
    ensures x in CapacityFilter(rows, bound)
  {
    var j :| 0 <= j < |rows| && rows[j] == x;
  }

  /** A row the probe keeps survives the availability filter. */
  lemma ProbedKeeps(resources: seq<Resource>, bookings: seq<Booking>, rows: seq<Resource>, probe: Probe, x: Resource)
    requires x in rows && (probe.NoProbe? || SearchKeeps(resources, bookings, x, probe))
    ensures x in AvailabilityFilter(resources, bookings, rows, probe)
  {
    var j :| 0 <= j < |rows| && rows[j] == x;
  }

  /** Every search result matches the location text and meets the capacity bound. */
  lemma SearchResultsMatch(resources: seq<Resource>, bookings: seq<Booking>, rows: seq<Resource>,
                           locationText: string, capacityText: string, probe: Probe)
    ensures var r := SearchResults(resources, bookings, rows, locationText, capacityText, probe);
      |Strip(locationText)| > 0 ==> forall i :: 0 <= i < |r| ==> LocationMatches(r[i], Strip(locationText))
    ensures var r := SearchResults(resources, bookings, rows, locationText, capacityText, probe);
      CapacityBound(capacityText) > 0 ==> forall i :: 0 <= i < |r| ==>
        r[i].capacity.Some? && r[i].capacity.value >= CapacityBound(capacityText)
  {
    var needle := Strip(locationText);
    var bound := CapacityBound(capacityText);
    var located := LocationFilter(rows, locationText);
    var sized := CapacityFilter(located, bound);
    var r := AvailabilityFilter(resources, bookings, sized, probe);
    assert r == SearchResults(resources, bookings, rows, locationText, capacityText, probe);
    if |needle| > 0 {
      Carry(sized, located, (x: Resource) => LocationMatches(x, needle));
      Carry(r, sized, (x: Resource) => LocationMatches(x, needle));
    }
    if bound > 0 {
      Carry(r, sized, (x: Resource) => x.capacity.Some? && x.capacity.value >= bound);
    }
  }

  /** A resource whose check raises is dropped from the search, while the
      resource listing keeps it. */
  lemma SearchFailsClosed(resources: seq<Resource>, bookings: seq<Booking>, rows: seq<Resource>, t: int, i: int)
    requires 0 <= i < |rows|
    requires CheckAvailability(resources, bookings, rows[i].id, t, Slots.ProbeEnd(t)).Raised?
    ensures rows[i] !in AvailabilityFilter(resources, bookings, rows, AtTime(t))
    ensures rows[i] in ResourcePages.IndexFilter(resources, bookings, rows, t)
  {
    assert !SearchKeeps(resources, bookings, rows[i], AtTime(t));
    ResourcePages.FailOpen(resources, bookings, rows, t, i);
  }

  /** A date-only search drops a resource with no rule for that weekday. */
  lemma NoWindowExcluded(resources: seq<Resource>, bookings: seq<Booking>, x: Resource, day: int)
    requires !(x.rules.Encoded? && x.rules.doc.JObj? && DayName(WeekdayOfDay(day)) in x.rules.doc.fields)
    ensures !SearchKeeps(resources, bookings, x, DateOnly(day))
  {
  }

  /** A date-only search probes at the start of the weekday's window. */
  lemma {:induction false} EarliestIsWindowStart(fields: map<string, Json>, day: int, w: Window)
    requires ValidClock(w.start) && ValidClock(w.end)
    requires DayName(WeekdayOfDay(day)) in fields && fields[DayName(WeekdayOfDay(day))] == JStr(WindowText(w))
    ensures EarliestStart(Encoded(JObj(fields)), day) == Some(w.start)
  {
    var name := DayName(WeekdayOfDay(day));
    DayNameRoundTrip(WeekdayOfDay(day), name);
    assert name != MetadataKey;
    var days := Without(fields, MetadataKey);
    assert days[name] == JStr(WindowText(w));
    WindowStartOfText(w);
  }

  /** A date-only search probes a resource at the start of its window for that weekday. */
  lemma DateOnlyProbesWindowStart(x: Resource, day: int, fields: map<string, Json>, w: Window)
    requires x.rules == Encoded(JObj(fields))
    requires ValidClock(w.start) && ValidClock(w.end)
    requires DayName(WeekdayOfDay(day)) in fields && fields[DayName(WeekdayOfDay(day))] == JStr(WindowText(w))
    ensures ProbeStart(x, DateOnly(day)) == Some(At(day, w.start))
  {
    EarliestIsWindowStart(fields, day, w);
  }

  /** A rendered window's rule names its start clock. */
  lemma WindowStartOfText(w: Window)
    requires ValidClock(w.start) && ValidClock(w.end)
    ensures WindowStart(JStr(WindowText(w))) == Some(w.start)
  {
    WindowStartPiece(w);
  }

  /** The text before the first `'-'` of a rendered window is its start clock, which parses back. */
  lemma WindowStartPiece(w: Window)
    requires ValidClock(w.start) && ValidClock(w.end)
    ensures '-' in WindowText(w)
    ensures ParseClock(Strip(Split(WindowText(w), '-')[0])) == Ok(w.start)
  {
    var a := ClockText(w.start);
    SplitPair(a, ClockText(w.end), '-');
    assert WindowText(w) == a + ['-'] + ClockText(w.end);
    ClockTextUnpadded(w.start);
    ClockRoundTrip(w.start);
  }

  /** A date-only search shows a resource whose window for that weekday
      holds a free hour at its start. */
  lemma {:induction false} DateOnlyOpenWindowKept(resources: seq<Resource>, bookings: seq<Booking>, x: Resource, day: int,
                               fields: map<string, Json>, w: Window)
    requires FindResource(resources, x.id) == Some(x) && x.rules == Encoded(JObj(fields))
    requires ValidClock(w.start) && ValidClock(w.end) && w.start + Slots.ProbeMinutes <= w.end
    requires DayName(WeekdayOfDay(day)) in fields && fields[DayName(WeekdayOfDay(day))] == JStr(WindowText(w))
    requires NoBlocking(bookings, x.id, At(day, w.start), Slots.ProbeEnd(At(day, w.start)))
    ensures SearchKeeps(resources, bookings, x, DateOnly(day))
  {
    OpenWindowAnswersYes(resources, bookings, x, day, fields, w);
    DateOnlyProbesWindowStart(x, day, fields, w);
    KeptOnYes(resources, bookings, x, DateOnly(day), At(day, w.start));
  }

  /** The hour at the start of an open window is free when nothing blocks it. */
  lemma {:induction false} OpenWindowAnswersYes(resources: seq<Resource>, bookings: seq<Booking>, x: Resource, day: int,
                             fields: map<string, Json>, w: Window)
    requires FindResource(resources, x.id) == Some(x) && x.rules == Encoded(JObj(fields))
    requires ValidClock(w.start) && ValidClock(w.end) && w.start + Slots.ProbeMinutes <= w.end
    requires DayName(WeekdayOfDay(day)) in fields && fields[DayName(WeekdayOfDay(day))] == JStr(WindowText(w))
    requires NoBlocking(bookings, x.id, At(day, w.start), Slots.ProbeEnd(At(day, w.start)))
    ensures CheckAvailability(resources, bookings, x.id, At(day, w.start), Slots.ProbeEnd(At(day, w.start))) == Ok(true)
  {
    var s := At(day, w.start);
    var e := Slots.ProbeEnd(s);
    AtRoundTrip(s, day, w.start);
    AtRoundTrip(e, day, w.start + Slots.ProbeMinutes);
    assert e == At(day, w.start + Slots.ProbeMinutes);
    var name := DayName(WeekdayOfDay(day));
    DayNameRoundTrip(WeekdayOfDay(day), name);
    assert name != MetadataKey;
    var days := Without(fields, MetadataKey);
    assert name in days && days[name] == JStr(WindowText(w));
    assert Schedule(x.rules) == Some(days);
    assert WeekdayOf(s) == WeekdayOfDay(day);
    assert TimeOfDay(s) == w.start && TimeOfDay(e) == w.start + Slots.ProbeMinutes;
    WindowRoundTrip(w);
    WindowContainment(resources, bookings, x.id, s, e, w);
  }

  lemma {:induction false} KeptOnYes(resources: seq<Resource>, bookings: seq<Booking>, x: Resource, probe: Probe, t: int)
    requires !probe.NoProbe? && ProbeStart(x, probe) == Some(t)
    requires CheckAvailability(resources, bookings, x.id, t, Slots.ProbeEnd(t)) == Ok(true)
    ensures SearchKeeps(resources, bookings, x, probe)
  {
    assert YesAt(resources, bookings, x.id, Some(t));
  }
}
