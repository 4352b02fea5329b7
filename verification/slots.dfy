/** The two JSON endpoints behind the booking calendar: the 30-minute slot
    list for one date, and the per-day summary for the next 21 days.

    Both read the rules blob the same way (an empty or unreadable blob counts
    as `{}`, an object loses `_metadata`, any other decoded value is used as
    is) and neither catches the errors of the window parse.
 */
module Slots {
  import opened Base
  import opened PyJson
  import opened Clock
  import opened Models
  import opened Sorting
  import opened Windows
  import opened BookingDal
  import opened Bookings

  const SlotLength: int := 30

  /** The one-hour slot the listing and search pages probe. */
  const ProbeMinutes: int := 60

  /** The end of the probe that starts at `t`. */
  function ProbeEnd(t: int): int
  {
    t + ProbeMinutes
  }

  /** The window assumed when there are no rules, and by the slot list when a
      weekday's value has no `'-'`: "9:00-17:00". */
  const StandardHours: Window := Window(540, 1020)
  const SummaryDays: nat := 21

  /** The `availability_rules` value both endpoints work with. */
  function RulesValue(rules: Blob): (r: Json)
    ensures r.JObj? ==> MetadataKey !in r.fields
    ensures !rules.Encoded? ==> r == JObj(map[])
    ensures rules.Encoded? && !rules.doc.JObj? ==> r == rules.doc
  {
    match rules
    case Encoded(JObj(fields)) => JObj(Without(fields, MetadataKey))
    case Encoded(doc) => doc
    case _ => JObj(map[])
  }

  /** The weekday's entry: `None` when the rules are non-empty and lack the
      weekday (the day is closed), the standard hours when there are no rules.
      `len()`, `in` and `.get` raise on rules that are not a dict. */
  function DayValue(rules: Json, name: string): (r: Outcome<Option<Json>>)
    ensures !Truthy(rules) ==> r == Ok(Some(JStr("9:00-17:00")))
    ensures rules.JObj? && Truthy(rules) ==>
      r == Ok(if name in rules.fields then Some(rules.fields[name]) else None)
    ensures r.Raised? ==> Truthy(rules) && !rules.JObj?
    ensures rules.JArr? && Truthy(rules) && JStr(name) !in rules.items ==> r == Ok(None)
  {
    if !Truthy(rules) then Ok(Some(JStr("9:00-17:00")))
    else
      match Len(rules)
      case Raised(err) => Raised(err)
      case Ok(_) =>
        match In(name, rules)
        case Raised(err) => Raised(err)
        case Ok(false) => Ok(None)
        case Ok(true) =>
          match Get(rules, name, JNull)
          case Raised(err) => Raised(err)
          case Ok(v) => Ok(Some(v))
  }

  /** The slot list's window: the parsed window, or the standard hours when the value has no `'-'`. */
  function SlotHours(v: Json): (r: Outcome<Window>)
    ensures ParseWindow(v).Ok? ==> r.Ok?
    ensures ParseWindow(v) == Ok(None) ==> r == Ok(StandardHours)
    ensures r.Ok? ==> ValidClock(r.value.start) && ValidClock(r.value.end)
  {
    match ParseWindow(v)
    case Raised(err) => Raised(err)
    case Ok(None) => Ok(StandardHours)
    case Ok(Some(w)) => Ok(w)
  }

  /** How many whole 30-minute slots fit in the window. */
  function SlotCount(w: Window): (n: nat)
    ensures n * SlotLength <= (if w.end >= w.start then w.end - w.start else 0)
    ensures (n + 1) * SlotLength > w.end - w.start
  {
    if w.end >= w.start then (w.end - w.start) / SlotLength else 0
  }

  /** The slot starts on `day`, before any same-day cutoff: the window's
      start, then every 30 minutes while a whole slot still fits. */
  function AllStarts(day: int, w: Window): (r: seq<int>)
    ensures |r| == SlotCount(w)
    ensures forall i :: 0 <= i < |r| ==> r[i] == At(day, w.start) + SlotLength * i
    ensures forall i :: 0 <= i < |r| ==> At(day, w.start) <= r[i] && r[i] + SlotLength <= At(day, w.end)
  {
    seq(SlotCount(w), i requires 0 <= i < SlotCount(w) => At(day, w.start) + SlotLength * i)
  }

  /** The earliest start the slot list offers on the current date. */
  function Cutoff(now: int): int
  {
    now + PastGrace
  }

  /** The slot list's starts: on the current date, starts before `now + 15`
      are left out (not marked unavailable). */
  function Grid(day: int, w: Window, now: int): (r: seq<int>)
    ensures day != Day(now) ==> r == AllStarts(day, w)
    ensures forall i :: 0 <= i < |r| ==> r[i] in AllStarts(day, w)
    ensures day == Day(now) ==> forall i :: 0 <= i < |r| ==> r[i] >= Cutoff(now)
    ensures day == Day(now) ==> forall i :: 0 <= i < SlotCount(w) && AllStarts(day, w)[i] >= Cutoff(now) ==>
      AllStarts(day, w)[i] in r
  {
    if day == Day(now) then Filter(AllStarts(day, w), c => c >= Cutoff(now)) else AllStarts(day, w)
  }

  lemma LoopExit(span: int, i: nat)
    requires span >= 0 || i == 0
    ensures SlotLength * (i + 1) <= span <==> i < (if span >= 0 then span / SlotLength else 0)
  {
  }

  /** The slot loop's test before its first turn. */
  lemma WalkStart(day: int, w: Window)
    ensures (At(day, w.start) + SlotLength <= At(day, w.end)) <==> 0 < SlotCount(w)
  {
    LoopExit(w.end - w.start, 0);
  }

  /** One turn of the slot loop: the next start is one slot later, and the
      loop test holds again exactly when another whole slot fits. */
  lemma WalkStep(day: int, w: Window, i: nat, current: int)
    requires i < SlotCount(w) && current == At(day, w.start) + SlotLength * i
    ensures current + SlotLength == At(day, w.start) + SlotLength * (i + 1)
    ensures ((current + SlotLength) + SlotLength <= At(day, w.end)) <==> i + 1 < SlotCount(w)
  {
    LoopExit(w.end - w.start, i + 1);
  }

  /** The starts the slot loop has produced after its first `i` steps. */
  function GridPrefix(day: int, w: Window, now: int, i: nat): seq<int>
    requires i <= SlotCount(w)
  {
    var all := AllStarts(day, w)[..i];
    if day == Day(now) then Filter(all, c => c >= Cutoff(now)) else all
  }

  lemma GridPrefixStep(day: int, w: Window, now: int, i: nat)
    requires i < SlotCount(w)
    ensures GridPrefix(day, w, now, i + 1) == GridPrefix(day, w, now, i) +
      (if day == Day(now) && AllStarts(day, w)[i] < Cutoff(now) then [] else [AllStarts(day, w)[i]])
  {
    var all := AllStarts(day, w);
    assert all[..i + 1] == all[..i] + [all[i]];
    FilterSnoc(all[..i], all[i], c => c >= Cutoff(now));
  }

  lemma GridPrefixFull(day: int, w: Window, now: int)
    ensures GridPrefix(day, w, now, SlotCount(w)) == Grid(day, w, now)
  {
    assert AllStarts(day, w)[..SlotCount(w)] == AllStarts(day, w);
  }

  /** The `while current_time + slot_duration <= end_time` loop, skipping
      starts before the cutoff on the current date. */
  method BuildGrid(day: int, w: Window, now: int) returns (starts: seq<int>)
    ensures starts == Grid(day, w, now)
  {
    var current := At(day, w.start);
    var i: nat := 0;
    starts := [];
    WalkStart(day, w);
    while current + SlotLength <= At(day, w.end)
      invariant i <= SlotCount(w)
      invariant current == At(day, w.start) + SlotLength * i
      invariant (current + SlotLength <= At(day, w.end)) <==> i < SlotCount(w)
      invariant starts == GridPrefix(day, w, now, i)
      decreases At(day, w.end) - current
    {
      GridPrefixStep(day, w, now, i);
      WalkStep(day, w, i, current);
      if !(day == Day(now) && current < Cutoff(now)) {
        starts := starts + [current];
      }
      current := current + SlotLength;
      i := i + 1;
    }
    GridPrefixFull(day, w, now);
  }

  /** The pending and approved bookings of the resource that start on `day`. */
  function Booked(bookings: seq<Booking>, rid: int, day: int): (r: seq<Booking>)
    ensures forall k :: 0 <= k < |r| ==>
      r[k] in bookings && Matches(r[k], rid, 0, "") && Holds(r[k]) && Day(r[k].start) == day
    ensures forall b :: b in bookings && Matches(b, rid, 0, "") && Holds(b) && Day(b.start) == day ==> b in r
  {
    Filter(BookingDal.GetAll(bookings, rid, 0, "", 0), (b: Booking) => Holds(b) && Day(b.start) == day)
  }

  /** The slot starting at `c` is clear of every booked interval, compared
      as times of day. */
  predicate SlotFree(c: int, booked: seq<Booking>)
  {
    forall k :: 0 <= k < |booked| ==>
      TimeOfDay(c + SlotLength) <= TimeOfDay(booked[k].start) || TimeOfDay(c) >= TimeOfDay(booked[k].end)
  }

  datatype Slot = Slot(start: int, end: int, available: bool)

  /** `booked_slots` holds each booking's start and end as times of day. */
  datatype SlotsReply = SlotsReply(
    allSlots: seq<Slot>,
    availableSlots: seq<Slot>,
    dayAvailable: bool,
    dayHasSlots: bool,
    bookedSlots: seq<(int, int)>)

  /** The reply for a weekday the rules leave out; it has no `booked_slots`. */
  const ClosedReply: SlotsReply := SlotsReply([], [], false, false, [])

  /** The `booked_slots` list: the start and end time of day of each booking, in order. */
  function BookedSlots(booked: seq<Booking>): (r: seq<(int, int)>)
    ensures |r| == |booked|
    ensures forall i :: 0 <= i < |r| ==> r[i] == (TimeOfDay(booked[i].start), TimeOfDay(booked[i].end))
  {
    seq(|booked|, i requires 0 <= i < |booked| => (TimeOfDay(booked[i].start), TimeOfDay(booked[i].end)))
  }

  /** The slots at `starts`, each marked available when clear of `booked`. */
  function MarkSlots(starts: seq<int>, booked: seq<Booking>): (r: seq<Slot>)
    ensures |r| == |starts|
    ensures forall i :: 0 <= i < |r| ==> r[i].start == starts[i] && r[i].end == starts[i] + SlotLength
    ensures forall i :: 0 <= i < |r| ==> (r[i].available <==> SlotFree(starts[i], booked))
  {
    seq(|starts|, i requires 0 <= i < |starts| => Slot(starts[i], starts[i] + SlotLength, SlotFree(starts[i], booked)))
  }

  /** The reply for an open day: every slot, and the available ones in the same order. */
  function OpenReply(all: seq<Slot>, booked: seq<(int, int)>, dayAvailable: bool): (r: SlotsReply)
    ensures r.allSlots == all && r.dayAvailable == dayAvailable && r.bookedSlots == booked
    ensures forall i :: 0 <= i < |r.availableSlots| ==> r.availableSlots[i].available && r.availableSlots[i] in all
    ensures forall i :: 0 <= i < |all| && all[i].available ==> all[i] in r.availableSlots
    ensures r.dayHasSlots <==> |r.availableSlots| > 0
  {
    var available := Filter(all, (s: Slot) => s.available);
    SlotsReply(all, available, dayAvailable, |available| > 0, booked)
  }

  /** `get_time_slots_api(rid, date)`: `None` for an unknown resource; the
      closed reply for a weekday the rules leave out; otherwise the slots of
      that weekday's window, marked against the day's held bookings, with
      `day_available` always true. Errors from reading the rules propagate. */
  function TimeSlots(resources: seq<Resource>, bookings: seq<Booking>, rid: int, day: int, now: int)
    : (r: Outcome<Option<SlotsReply>>)
    ensures FindResource(resources, rid).None? ==> r == Ok(None)
    ensures FindResource(resources, rid).Some? ==>
      var day' := DayValue(RulesValue(FindResource(resources, rid).value.rules), DayName(WeekdayOfDay(day)));
      && (day'.Raised? ==> r == Raised(day'.error))
      && (day' == Ok(None) ==> r == Ok(Some(ClosedReply)))
      && (day'.Ok? && day'.value.Some? ==>
            && (SlotHours(day'.value.value).Raised? ==> r == Raised(SlotHours(day'.value.value).error))
            && (SlotHours(day'.value.value).Ok? ==>
                  r == Ok(Some(OpenReply(MarkSlots(Grid(day, SlotHours(day'.value.value).value, now),
                                                   Booked(bookings, rid, day)),
                                         BookedSlots(Booked(bookings, rid, day)), true)))))
  {
    match FindResource(resources, rid)
    case None => Ok(None)
    case Some(res) =>
      var rules := RulesValue(res.rules);
      var name := DayName(WeekdayOfDay(day));
      match DayValue(rules, name)
      case Raised(err) => Raised(err)
      case Ok(None) => Ok(Some(ClosedReply))
      case Ok(Some(v)) =>
        match SlotHours(v)
        case Raised(err) => Raised(err)
        case Ok(w) =>
          OpenDayHasRules(rules, name);
          var dayHasRules := rules.JObj? && |rules.fields| > 0 && name in rules.fields;
          var booked := Booked(bookings, rid, day);
          Ok(Some(OpenReply(MarkSlots(Grid(day, w, now), booked), BookedSlots(booked), dayHasRules || !Truthy(rules))))
  }

  /** A weekday entry comes either from the default for empty rules or from a dict that names the day. */
  lemma OpenDayHasRules(rules: Json, name: string)
    requires DayValue(rules, name).Ok? && DayValue(rules, name).value.Some?
    ensures !Truthy(rules) || (rules.JObj? && |rules.fields| > 0 && name in rules.fields)
  {
  }

  /** Non-empty rules that lack the weekday give the closed reply: no slots,
      `day_available` false. */
  lemma MissingWeekdayClosed(resources: seq<Resource>, bookings: seq<Booking>, rid: int, day: int, now: int)
    requires FindResource(resources, rid).Some?
    requires var rules := RulesValue(FindResource(resources, rid).value.rules);
      rules.JObj? && |rules.fields| > 0 && DayName(WeekdayOfDay(day)) !in rules.fields
    ensures TimeSlots(resources, bookings, rid, day, now) == Ok(Some(ClosedReply))
  {
    var rules := RulesValue(FindResource(resources, rid).value.rules);
    assert Truthy(rules);
    assert DayValue(rules, DayName(WeekdayOfDay(day))) == Ok(None);
  }

  /** Without rules, a day other than today offers the sixteen slots from 9:00 to 17:00. */
  lemma NoRulesStandardDay(resources: seq<Resource>, bookings: seq<Booking>, rid: int, day: int, now: int)
    requires FindResource(resources, rid).Some? && FindResource(resources, rid).value.rules.Empty?
    requires day != Day(now)
    ensures TimeSlots(resources, bookings, rid, day, now).Ok?
    ensures TimeSlots(resources, bookings, rid, day, now).value.Some?
    ensures |TimeSlots(resources, bookings, rid, day, now).value.value.allSlots| == 16
    ensures TimeSlots(resources, bookings, rid, day, now).value.value.allSlots[0].start == At(day, 540)
  {
    var name := DayName(WeekdayOfDay(day));
    NoRulesStandardHours(name);
    assert RulesValue(FindResource(resources, rid).value.rules) == JObj(map[]);
    var all := MarkSlots(Grid(day, StandardHours, now), Booked(bookings, rid, day));
    var booked := BookedSlots(Booked(bookings, rid, day));
    assert TimeSlots(resources, bookings, rid, day, now) == Ok(Some(OpenReply(all, booked, true)));
  }

  /** Empty rules give every weekday the standard hours. */
  lemma NoRulesStandardHours(name: string)
    ensures DayValue(JObj(map[]), name) == Ok(Some(JStr("9:00-17:00")))
    ensures SlotHours(JStr("9:00-17:00")) == Ok(StandardHours)
    ensures ParseWindow(JStr("9:00-17:00")) == Ok(Some(StandardHours))
    ensures SlotCount(StandardHours) == 16
  {
    EmptyRulesDay(name);
    Windows.DefaultWindow();
    StandardSlotCount();
  }

  lemma EmptyRulesDay(name: string)
    ensures DayValue(JObj(map[]), name) == Ok(Some(JStr("9:00-17:00")))
  {
    assert !Truthy(JObj(map[]));
  }

  lemma StandardSlotCount()
    ensures SlotCount(StandardHours) == 16
  {
  }

  /** A weekday value without `'-'` also gets the standard hours in the slot list. */
  lemma DashlessValueStandardHours(v: Json)
    requires v.JStr? && '-' !in v.s
    ensures SlotHours(v) == Ok(StandardHours)
  {
  }

  /** Consecutive slots touch and do not overlap, and all lie inside the window. */
  lemma GridContiguous(day: int, w: Window, i: int)
    requires 0 <= i && i + 1 < SlotCount(w)
    ensures AllStarts(day, w)[i + 1] == AllStarts(day, w)[i] + SlotLength
    ensures !HalfOpenOverlap(AllStarts(day, w)[i], AllStarts(day, w)[i] + SlotLength,
                             AllStarts(day, w)[i + 1], AllStarts(day, w)[i + 1] + SlotLength)
  {
  }

  /** A slot is unavailable exactly when it overlaps some booked interval, half-open, by time of day. */
  lemma UnavailableIffOverlap(c: int, booked: seq<Booking>)
    ensures !SlotFree(c, booked) <==>
      exists k :: 0 <= k < |booked| && HalfOpenOverlap(
        TimeOfDay(booked[k].start), TimeOfDay(booked[k].end), TimeOfDay(c), TimeOfDay(c + SlotLength))
  {
  }

  // ---- 21-day summary ----

  datatype DaySummary =
    | ClosedDay
    | Counted(total: nat, free: nat)
    | NoWindow

  function SummaryAvailable(d: DaySummary): bool
  {
    !d.ClosedDay?
  }

  function SummaryHasSlots(d: DaySummary): bool
  {
    d.Counted? && d.free > 0
  }

  function SummaryStatus(d: DaySummary): string
  {
    match d
    case Counted(_, free) => if free == 0 then "fully_booked" else "has_slots"
    case _ => "unavailable"
  }

  /** A 30-minute slot at `c` is clear of every held booking, full datetimes, half-open. */
  predicate ClearOf(c: int, held: seq<Booking>)
  {
    forall k :: 0 <= k < |held| ==> !HalfOpenOverlap(held[k].start, held[k].end, c, c + SlotLength)
  }

  /** The number of clear slots among `starts`. */
  function CountClear(starts: seq<int>, held: seq<Booking>): (n: nat)
    ensures n <= |starts|
    ensures n == |Filter(starts, c => ClearOf(c, held))|
  {
    if |starts| == 0 then 0
    else (if ClearOf(starts[0], held) then 1 else 0) + CountClear(starts[1..], held)
  }

  lemma {:induction false} CountClearSnoc(starts: seq<int>, c: int, held: seq<Booking>)
    ensures CountClear(starts + [c], held) == CountClear(starts, held) + (if ClearOf(c, held) then 1 else 0)
  {
    FilterSnoc(starts, c, x => ClearOf(x, held));
  }

  /** Counting one more start of a list. */
  lemma CountClearPrefix(all: seq<int>, n: nat, held: seq<Booking>)
    requires n < |all|
    ensures CountClear(all[..n + 1], held) == CountClear(all[..n], held) + (if ClearOf(all[n], held) then 1 else 0)
  {
    assert all[..n + 1] == all[..n] + [all[n]];
    CountClearSnoc(all[..n], all[n], held);
  }

  /** One day's summary. Unlike the slot list, a value without `'-'` is reported as having no slots. */
  function Summary(rules: Json, held: seq<Booking>, day: int): (r: Outcome<DaySummary>)
    ensures r.Ok? && r.value.Counted? ==> r.value.free <= r.value.total
    ensures rules.JObj? && Truthy(rules) && DayName(WeekdayOfDay(day)) !in rules.fields ==> r == Ok(ClosedDay)
    ensures var v := DayValue(rules, DayName(WeekdayOfDay(day)));
      r.Raised? <==> v.Raised? || (v.Ok? && v.value.Some? && ParseWindow(v.value.value).Raised?)
    ensures DayValue(rules, DayName(WeekdayOfDay(day))) == Ok(None) ==> r == Ok(ClosedDay)
    ensures var v := DayValue(rules, DayName(WeekdayOfDay(day)));
      v.Ok? && v.value.Some? && ParseWindow(v.value.value) == Ok(None) ==> r == Ok(NoWindow)
    ensures var v := DayValue(rules, DayName(WeekdayOfDay(day)));
      v.Ok? && v.value.Some? && ParseWindow(v.value.value).Ok? && ParseWindow(v.value.value).value.Some? ==>
        var w := ParseWindow(v.value.value).value.value;
        r == Ok(Counted(SlotCount(w), CountClear(AllStarts(day, w), held)))
  {
    match DayValue(rules, DayName(WeekdayOfDay(day)))
    case Raised(err) => Raised(err)
    case Ok(None) => Ok(ClosedDay)
    case Ok(Some(v)) =>
      match ParseWindow(v)
      case Raised(err) => Raised(err)
      case Ok(None) => Ok(NoWindow)
      case Ok(Some(w)) => Ok(Counted(SlotCount(w), CountClear(AllStarts(day, w), held)))
  }

  /** The inner loop: whether no held booking overlaps the slot at `c`. */
  method SlotClear(c: int, held: seq<Booking>) returns (clear: bool)
    ensures clear <==> ClearOf(c, held)
  {
    clear := true;
    var k := 0;
    while k < |held|
      invariant 0 <= k <= |held|
      invariant clear <==> forall j :: 0 <= j < k ==> !HalfOpenOverlap(held[j].start, held[j].end, c, c + SlotLength)
    {
      if c < held[k].end && c + SlotLength > held[k].start {
        clear := false;
        break;
      }
      k := k + 1;
    }
  }

  /** The counting loop of one day, as written: count every slot, and the
      ones clear of all held bookings. */
  method SummarizeDay(day: int, w: Window, held: seq<Booking>) returns (total: nat, free: nat)
    ensures total == SlotCount(w) && free == CountClear(AllStarts(day, w), held)
  {
    var all := AllStarts(day, w);
    var current := At(day, w.start);
    total, free := 0, 0;
    WalkStart(day, w);
    while current + SlotLength <= At(day, w.end)
      invariant total <= |all|
      invariant current == At(day, w.start) + SlotLength * total
      invariant (current + SlotLength <= At(day, w.end)) <==> total < |all|
      invariant free == CountClear(all[..total], held)
      decreases At(day, w.end) - current
    {
      var clear := SlotClear(current, held);
      assert current == all[total];
      CountClearPrefix(all, total, held);
      WalkStep(day, w, total, current);
      if clear {
        free := free + 1;
      }
      total := total + 1;
      current := current + SlotLength;
    }
    assert all[..total] == all;
  }

  /** Summaries for `days` in order; the first error ends the loop. */
  function SummariesOf(rules: Json, held: seq<Booking>, days: seq<int>): (r: Outcome<seq<DaySummary>>)
    ensures r.Ok? <==> forall k :: 0 <= k < |days| ==> Summary(rules, held, days[k]).Ok?
    ensures r.Ok? ==> |r.value| == |days|
    ensures r.Ok? ==> forall k :: 0 <= k < |days| ==> Summary(rules, held, days[k]) == Ok(r.value[k])
  {
    SummariesBy((d: int) => Summary(rules, held, d), days)
  }

  /** The loop of `SummariesOf` for any per-day summary `summary`. */
  function SummariesBy(summary: int -> Outcome<DaySummary>, days: seq<int>): (r: Outcome<seq<DaySummary>>)
    ensures r.Ok? <==> forall k :: 0 <= k < |days| ==> summary(days[k]).Ok?
    ensures r.Ok? ==> |r.value| == |days|
    ensures r.Ok? ==> forall k :: 0 <= k < |days| ==> summary(days[k]) == Ok(r.value[k])
  {
    if |days| == 0 then Ok([])
    else
      match summary(days[0])
      case Raised(err) => Raised(err)
      case Ok(d) =>
        assert forall k :: 0 < k < |days| ==> days[k] == days[1..][k - 1];
        match SummariesBy(summary, days[1..])
        case Raised(err) => Raised(err)
        case Ok(rest) => Ok([d] + rest)
  }

  /** The 21 dates from `today` on. */
  function Horizon(today: int): (r: seq<int>)
    ensures |r| == SummaryDays && forall k :: 0 <= k < |r| ==> r[k] == today + k
  {
    seq(SummaryDays, k requires 0 <= k < SummaryDays => today + k)
  }

  /** The bookings the summary counts against: the pending and approved ones
      of the resource (of every resource when `rid` is falsy). */
  function HeldBookings(bookings: seq<Booking>, rid: int): (r: seq<Booking>)
    ensures forall b :: b in r <==> b in bookings && (rid == 0 || b.resourceId == rid) && Holds(b)
  {
    var all := BookingDal.GetAll(bookings, rid, 0, "", 0);
    forall b | b in bookings && (rid == 0 || b.resourceId == rid)
      ensures b in all
    {
      var i :| 0 <= i < |bookings| && bookings[i] == b;
      assert Matches(bookings[i], rid, 0, "");
    }
    FilterMembers(all, (b: Booking) => Holds(b));
    Filter(all, (b: Booking) => Holds(b))
  }

  /** `get_day_availability_api(rid)`: `None` for an unknown resource;
      otherwise each of the 21 days from `today` summarised against the
      resource's held bookings, or the first error. */
  function DayAvailability(resources: seq<Resource>, bookings: seq<Booking>, rid: int, today: int)
    : (r: Outcome<Option<seq<DaySummary>>>)
    ensures FindResource(resources, rid).None? ==> r == Ok(None)
    ensures r.Ok? && r.value.Some? ==> |r.value.value| == SummaryDays
    ensures FindResource(resources, rid).Some? ==>
      var all := SummariesOf(RulesValue(FindResource(resources, rid).value.rules), HeldBookings(bookings, rid), Horizon(today));
      && (r.Ok? <==> all.Ok?)
      && (r.Ok? ==> r.value == Some(all.value))
  {
    match FindResource(resources, rid)
    case None => Ok(None)
    case Some(res) =>
      var held := HeldBookings(bookings, rid);
      match SummariesOf(RulesValue(res.rules), held, Horizon(today))
      case Raised(err) => Raised(err)
      case Ok(days) => Ok(Some(days))
  }

  /** Each summary's flags: a closed weekday is unavailable; otherwise
      `has_slots` holds exactly when some slot is clear, and the status is
      `fully_booked` exactly when none is. */
  lemma SummaryFlags(d: DaySummary)
    ensures d.ClosedDay? ==> !SummaryAvailable(d) && !SummaryHasSlots(d)
    ensures d.Counted? ==> SummaryAvailable(d) && (SummaryHasSlots(d) <==> d.free > 0)
    ensures d.Counted? ==> (SummaryStatus(d) == "fully_booked" <==> d.free == 0)
    ensures d.NoWindow? ==> SummaryAvailable(d) && !SummaryHasSlots(d) && SummaryStatus(d) == "unavailable"
  {
  }

  /** The summary applies no same-day cutoff: today's standard hours count all sixteen slots. */
  lemma SummaryNoCutoff(held: seq<Booking>, day: int)
    ensures Summary(JObj(map[]), held, day) == Ok(Counted(16, CountClear(AllStarts(day, StandardHours), held)))
  {
    NoRulesStandardHours(DayName(WeekdayOfDay(day)));
  }

  /** The two endpoints disagree on a weekday value without `'-'`: the slot
      list offers the standard hours, the summary reports no slots. */
  lemma DashlessValueEndpointsDisagree(day: int, held: seq<Booking>, text: string)
    requires |text| > 0 && '-' !in text
    ensures var rules := JObj(map[DayName(WeekdayOfDay(day)) := JStr(text)]);
      && DayValue(rules, DayName(WeekdayOfDay(day))) == Ok(Some(JStr(text)))
      && SlotHours(JStr(text)) == Ok(StandardHours)
      && Summary(rules, held, day) == Ok(NoWindow)
  {
  }
}
