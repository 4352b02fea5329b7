/** The resource pages: the rules blob the create and edit forms build, the
    status a new or edited resource gets, the date/time filter of the
    listing, and the seven-day availability summary of the detail page.
 */
module ResourcePages {
  import opened Base
  import opened PyText
  import opened PyJson
  import opened Clock
  import opened Models
  import opened Sorting
  import opened Windows
  import opened BookingDal
  import Slots

  // ---- the rules blob of the create and edit forms ----

  /** One weekday row of the form: the checkbox value (`""` when absent) and the two time fields. */
  datatype DayForm = DayForm(enabled: string, start: string, end: string)

  /** A day enters the rules when its box is ticked and both times are
      given. The create form accepts any checkbox value; the edit form
      insists on `'on'`. */
  predicate Qualifies(f: DayForm, edit: bool)
  {
    (if edit then f.enabled == "on" else |f.enabled| > 0) && |Strip(f.start)| > 0 && |Strip(f.end)| > 0
  }

  /** `f"{start_time}-{end_time}"` of the stripped times. */
  function Entry(f: DayForm): string
  {
    Strip(f.start) + "-" + Strip(f.end)
  }

  /** The text a row contributes, if it qualifies. */
  function DayValue(f: DayForm, edit: bool): (r: Option<string>)
    ensures r.Some? <==> Qualifies(f, edit)
    ensures r.Some? ==> r.value == Entry(f)
  {
    if Qualifies(f, edit) then Some(Entry(f)) else None
  }

  function DayValues(forms: seq<DayForm>, edit: bool): (r: seq<Option<string>>)
    ensures |r| == |forms| && forall k :: 0 <= k < |forms| ==> r[k] == DayValue(forms[k], edit)
  {
    seq(|forms|, k requires 0 <= k < |forms| => DayValue(forms[k], edit))
  }

  predicate Distinct(names: seq<string>)
  {
    forall i, j :: 0 <= i < j < |names| ==> names[i] != names[j]
  }

  lemma WeekdayNamesDistinct()
    ensures Distinct(WeekdayNames)
    ensures forall k :: 0 <= k < |WeekdayNames| ==> WeekdayNames[k] != MetadataKey
  {
  }

  /** The dict built by assigning `values[k]` under `names[k]` for every present value. */
  function Entries(names: seq<string>, values: seq<Option<string>>): (m: map<string, Json>)
    requires |names| == |values| && Distinct(names)
    ensures forall k :: 0 <= k < |names| ==> (names[k] in m <==> values[k].Some?)
    ensures forall k :: 0 <= k < |names| && values[k].Some? ==> m[names[k]] == JStr(values[k].value)
    ensures forall key :: key in m ==> key in names
    decreases |names|
  {
    if |names| == 0 then map[]
    else
      var n := |names| - 1;
      var m := Entries(names[..n], values[..n]);
      assert forall k :: 0 <= k < n ==> names[..n][k] == names[k] && values[..n][k] == values[k];
      assert forall k :: 0 <= k < n ==> names[k] != names[n];
      assert forall key :: key in names[..n] ==> key in names;
      if values[n].Some? then m[names[n] := JStr(values[n].value)] else m
  }

  /** The weekday entries of the seven form rows. */
  function DayEntries(forms: seq<DayForm>, edit: bool): (m: map<string, Json>)
    requires |forms| == 7
    ensures forall k :: 0 <= k < 7 ==> (WeekdayNames[k] in m <==> DayValue(forms[k], edit).Some?)
    ensures forall k :: 0 <= k < 7 && DayValue(forms[k], edit).Some? ==>
      m[WeekdayNames[k]] == JStr(DayValue(forms[k], edit).value)
    ensures MetadataKey !in m
    ensures |m| == 0 <==> forall k :: 0 <= k < 7 ==> DayValue(forms[k], edit).None?
  {
    WeekdayNamesDistinct();
    var values := DayValues(forms, edit);
    var m := Entries(WeekdayNames, values);
    assert |m| == 0 <==> forall k :: 0 <= k < 7 ==> DayValue(forms[k], edit).None? by {
      if |m| > 0 {
        var key :| key in m;
        assert key in WeekdayNames;
        var k :| 0 <= k < 7 && WeekdayNames[k] == key;
        assert values[k].Some?;
      } else {
        forall k | 0 <= k < 7
          ensures DayValue(forms[k], edit).None?
        {
          assert WeekdayNames[k] !in m;
        }
      }
    }
    m
  }

  /** The weekday entries plus `_metadata` when the metadata is non-empty. */
  function WithMetadata(days: map<string, Json>, metadata: map<string, Json>): (m: map<string, Json>)
    requires MetadataKey !in days
    ensures forall key :: key != MetadataKey ==> (key in m <==> key in days)
    ensures forall key :: key in days ==> m[key] == days[key]
    ensures MetadataKey in m <==> |metadata| > 0
    ensures MetadataKey in m ==> m[MetadataKey] == JObj(metadata)
    ensures |m| > 0 <==> |days| > 0 || |metadata| > 0
  {
    if |metadata| > 0 then
      var m := days[MetadataKey := JObj(metadata)];
      assert MetadataKey in m;
      m
    else days
  }

  /** The create form's metadata: `{'requires_approval': True}` when the box is ticked. */
  function CreatedMetadata(requiresApproval: bool): (md: map<string, Json>)
    ensures |md| > 0 <==> requiresApproval
    ensures requiresApproval ==> ApprovalKey in md && md[ApprovalKey] == JBool(true)
  {
    if requiresApproval then map[ApprovalKey := JBool(true)] else map[]
  }

  /** The create form's rules: `None` (the form is refused) when no day
      qualifies; the days as `"start-end"`, plus `_metadata` holding
      `requires_approval: true` when that box is ticked. */
  function CreateRules(forms: seq<DayForm>, requiresApproval: bool): (r: Option<Json>)
    requires |forms| == 7
    ensures r.None? <==> forall k :: 0 <= k < 7 ==> DayValue(forms[k], false).None?
    ensures r.Some? ==> r.value.JObj?
    ensures r.Some? ==> forall k :: 0 <= k < 7 ==>
      (WeekdayNames[k] in r.value.fields <==> DayValue(forms[k], false).Some?)
    ensures r.Some? ==> forall k :: 0 <= k < 7 && DayValue(forms[k], false).Some? ==>
      r.value.fields[WeekdayNames[k]] == JStr(DayValue(forms[k], false).value)
    ensures r.Some? ==> (MetadataKey in r.value.fields <==> requiresApproval)
  {
    var days := DayEntries(forms, false);
    WeekdayNamesDistinct();
    if |days| == 0 then None
    else Some(JObj(WithMetadata(days, CreatedMetadata(requiresApproval))))
  }

  /** The flag the create form stores reads back through `requires_approval`. */
  lemma CreatedRulesFlag(forms: seq<DayForm>, requiresApproval: bool)
    requires |forms| == 7 && CreateRules(forms, requiresApproval).Some?
    ensures RequiresApproval(Encoded(CreateRules(forms, requiresApproval).value)) == Ok(JBool(requiresApproval))
  {
  }

  /** Times entered as `H:MM` come back as the same window from the parser
      that the booking layer and the pages share. */
  lemma FormWindowReadsBack(f: DayForm, w: Window)
    requires ValidClock(w.start) && ValidClock(w.end)
    requires f.start == ClockText(w.start) && f.end == ClockText(w.end)
    ensures ParseWindow(JStr(Entry(f))) == Ok(Some(w))
  {
    ClockTextUnpadded(w.start);
    ClockTextUnpadded(w.end);
    assert Entry(f) == WindowText(w);
    WindowRoundTrip(w);
  }

  /** The edit form's metadata: the old `_metadata` (or `{}`), with
      `requires_approval` set to true or removed. Assigning to or popping
      from a `_metadata` that is not a dict raises. */
  function EditedMetadata(stored: Blob, requiresApproval: bool): (r: Outcome<map<string, Json>>)
    ensures r.Raised? <==> !GetMetadata(stored).JObj?
    ensures r.Ok? ==> (ApprovalKey in r.value <==> requiresApproval)
    ensures r.Ok? && requiresApproval ==> r.value[ApprovalKey] == JBool(true)
    ensures r.Ok? ==> forall k :: k != ApprovalKey ==>
      (k in r.value <==> k in GetMetadata(stored).fields)
    ensures r.Ok? ==> forall k :: k in r.value && k != ApprovalKey ==> r.value[k] == GetMetadata(stored).fields[k]
  {
    match GetMetadata(stored)
    case JObj(fields) =>
      Ok(if requiresApproval then fields[ApprovalKey := JBool(true)] else Without(fields, ApprovalKey))
    case JArr(_) => Raised(TypeError)
    case _ => if requiresApproval then Raised(TypeError) else Raised(AttributeError)
  }

  /** The edit form's rules: the ticked days, `_metadata` when the edited
      metadata is non-empty, and `None` (the column is cleared) when
      nothing is left. */
  function EditRules(forms: seq<DayForm>, requiresApproval: bool, stored: Blob): (r: Outcome<Option<Json>>)
    requires |forms| == 7
    ensures r.Raised? <==> EditedMetadata(stored, requiresApproval).Raised?
    ensures r.Ok? ==> (r.value.None? <==>
      (forall k :: 0 <= k < 7 ==> DayValue(forms[k], true).None?) && |EditedMetadata(stored, requiresApproval).value| == 0)
    ensures r.Ok? && r.value.Some? ==> r.value.value.JObj? && forall k :: 0 <= k < 7 ==>
      (WeekdayNames[k] in r.value.value.fields <==> DayValue(forms[k], true).Some?)
    ensures r.Ok? && r.value.Some? ==> forall k :: 0 <= k < 7 && DayValue(forms[k], true).Some? ==>
      r.value.value.fields[WeekdayNames[k]] == JStr(DayValue(forms[k], true).value)
    ensures r.Ok? && r.value.Some? && MetadataKey in r.value.value.fields ==>
      r.value.value.fields[MetadataKey] == JObj(EditedMetadata(stored, requiresApproval).value)
  {
    match EditedMetadata(stored, requiresApproval)
    case Raised(e) => Raised(e)
    case Ok(md) =>
      var days := DayEntries(forms, true);
      WeekdayNamesDistinct();
      var all := WithMetadata(days, md);
      if |all| == 0 then Ok(None) else Ok(Some(JObj(all)))
  }

  /** The stored column: `None` is an empty blob. */
  function Stored(rules: Option<Json>): Blob
  {
    if rules.Some? then Encoded(rules.value) else Empty
  }

  /** Whatever the edit form stores, `requires_approval` reads back as the box's value. */
  lemma EditedRulesFlag(forms: seq<DayForm>, requiresApproval: bool, stored: Blob)
    requires |forms| == 7 && EditRules(forms, requiresApproval, stored).Ok?
    ensures RequiresApproval(Stored(EditRules(forms, requiresApproval, stored).value)) == Ok(JBool(requiresApproval))
  {
    var md := EditedMetadata(stored, requiresApproval).value;
    var r := EditRules(forms, requiresApproval, stored).value;
    if r.Some? && MetadataKey in r.value.fields {
      assert GetMetadata(Stored(r)) == JObj(md);
    } else {
      assert GetMetadata(Stored(r)) == JObj(map[]) || GetMetadata(Stored(r)) == JObj(md);
    }
  }

  /** Unticking a day that was stored removes it. */
  lemma EditDropsUntickedDay(forms: seq<DayForm>, requiresApproval: bool, stored: Blob, k: int)
    requires |forms| == 7 && 0 <= k < 7 && forms[k].enabled != "on"
    requires EditRules(forms, requiresApproval, stored).Ok? && EditRules(forms, requiresApproval, stored).value.Some?
    ensures WeekdayNames[k] !in EditRules(forms, requiresApproval, stored).value.value.fields
  {
  }

  // ---- status of a created or edited resource ----

  /** A student's new resource is a draft; staff and admins get the form's
      status, `'published'` when absent. */
  function CreateStatus(role: Role, requested: Option<string>): (status: string)
    ensures role == Student ==> status == "draft"
    ensures role != Student ==> status == (if requested.Some? then requested.value else "published")
  {
    if role == Student then "draft" else if requested.Some? then requested.value else "published"
  }

  /** A student's edit keeps a published resource published and makes
      anything else a draft; staff and admins get the form's status, the
      current one when absent. */
  function EditStatus(role: Role, current: ResourceStatus, requested: Option<string>): (status: string)
    ensures role == Student ==> status == (if current == Published then "published" else "draft")
    ensures role != Student ==> status == (if requested.Some? then requested.value else ResourceStatusName(current))
  {
    if role == Student then (if current == Published then "published" else "draft")
    else if requested.Some? then requested.value
    else ResourceStatusName(current)
  }

  /** A student can never publish: creating gives a draft, and an edit
      yields published only for a resource that already was. */
  lemma StudentCannotPublish(current: ResourceStatus, requested: Option<string>)
    ensures ParseResourceStatus(CreateStatus(Student, requested)) == Some(Draft)
    ensures ParseResourceStatus(EditStatus(Student, current, requested)) == Some(Published) <==> current == Published
  {
  }

  // ---- the date/time filter of the listing ----

  /** A resource passes the probe when its check is true or raises (fail open). */
  predicate Passes(resources: seq<Resource>, bookings: seq<Booking>, x: Resource, t: int)
  {
    CheckAvailability(resources, bookings, x.id, t, Slots.ProbeEnd(t)) != Ok(false)
  }

  /** The resources passing the probe at `t`; when none pass, the list is left as it was. */
  function IndexFilter(resources: seq<Resource>, bookings: seq<Booking>, rows: seq<Resource>, t: int)
    : (r: seq<Resource>)
    ensures |rows| > 0 ==> |r| > 0
    ensures forall i :: 0 <= i < |rows| && Passes(resources, bookings, rows[i], t) ==> rows[i] in r
    ensures r == rows || forall i :: 0 <= i < |r| ==> r[i] in rows && Passes(resources, bookings, r[i], t)
    ensures (forall i :: 0 <= i < |rows| ==> !Passes(resources, bookings, rows[i], t)) ==> r == rows
  {
    FilterOrAll(rows, (x: Resource) => Passes(resources, bookings, x, t))
  }

  /** A resource whose check raises is always listed. */
  lemma FailOpen(resources: seq<Resource>, bookings: seq<Booking>, rows: seq<Resource>, t: int, i: int)
    requires 0 <= i < |rows| && CheckAvailability(resources, bookings, rows[i].id, t, Slots.ProbeEnd(t)).Raised?
    ensures rows[i] in IndexFilter(resources, bookings, rows, t)
  {
  }

  // ---- the detail page's seven-day summary ----

  const SummaryDays: nat := 7

  /** The detail page's rules: the decoded object minus `_metadata`, and `{}`
      for anything else. */
  function DetailRules(rules: Blob): (m: map<string, Json>)
    ensures MetadataKey !in m
    ensures rules.Encoded? && rules.doc.JObj? ==> forall k :: k != MetadataKey ==>
      (k in m <==> k in rules.doc.fields)
  {
    match rules
    case Encoded(JObj(fields)) => Without(fields, MetadataKey)
    case _ => map[]
  }

  /** One summary row. */
  datatype DayCount = DayCount(day: int, total: nat, available: nat, booked: int)

  /** The truthy rule `availability_rules.get(day_name)` of the detail page, if any. */
  function DayRule(rules: Blob, day: int): (v: Option<Json>)
    ensures v.Some? ==> Truthy(v.value)
    ensures v.Some? <==> (DayName(WeekdayOfDay(day)) in DetailRules(rules)
      && Truthy(DetailRules(rules)[DayName(WeekdayOfDay(day))]))
  {
    var rules := DetailRules(rules);
    var name := DayName(WeekdayOfDay(day));
    if name in rules && Truthy(rules[name]) then Some(rules[name]) else None
  }

  /** `check_availability` for the 30-minute slot starting at `c`. */
  function SlotCheck(resources: seq<Resource>, bookings: seq<Booking>, rid: int, c: int): Outcome<bool>
  {
    CheckAvailability(resources, bookings, rid, c, c + Slots.SlotLength)
  }

  /** The slot loop's count of available slots, for the check `check` run on
      each slot start; the first raising check aborts it. */
  function CountOpen(check: int -> Outcome<bool>, starts: seq<int>): (r: Outcome<nat>)
    ensures r.Ok? <==> forall i :: 0 <= i < |starts| ==> check(starts[i]).Ok?
    ensures r.Ok? ==> r.value <= |starts|
    ensures r.Ok? ==> r.value == |Filter(starts, Opens(check))|
  {
    if |starts| == 0 then Ok(0)
    else
      match check(starts[0])
      case Raised(e) => Raised(e)
      case Ok(b) =>
        ChecksOkTail(check, starts);
        match CountOpen(check, starts[1..])
        case Raised(e) => Raised(e)
        case Ok(n) =>
          FilterCountCons(starts, Opens(check));
          Ok(n + (if b then 1 else 0))
  }

  /** The test "the slot check accepts this start". */
  function Opens(check: int -> Outcome<bool>): int -> bool
  {
    (c: int) => check(c) == Ok(true)
  }

  /** Past a first check that does not raise, all checks pass exactly when the rest do. */
  lemma ChecksOkTail(check: int -> Outcome<bool>, starts: seq<int>)
    requires |starts| > 0 && check(starts[0]).Ok?
    ensures (forall i :: 0 <= i < |starts| ==> check(starts[i]).Ok?)
      <==> (forall i :: 0 <= i < |starts[1..]| ==> check(starts[1..][i]).Ok?)
  {
    assert forall i :: 0 <= i < |starts[1..]| ==> starts[1..][i] == starts[i + 1];
    if forall i :: 0 <= i < |starts[1..]| ==> check(starts[1..][i]).Ok? {
      forall i | 0 <= i < |starts|
        ensures check(starts[i]).Ok?
      {
        if i > 0 {
          assert starts[i] == starts[1..][i - 1];
        }
      }
    }
  }

  /** The slot check of resource `rid`, as a function of the slot start. */
  function SlotChecker(resources: seq<Resource>, bookings: seq<Booking>, rid: int): int -> Outcome<bool>
  {
    (c: int) => SlotCheck(resources, bookings, rid, c)
  }

  /** The counting inside the `try` for a parsed window: `ValueError` and
      `AttributeError` from a slot check skip the day, other errors escape. */
  function CountDay(resources: seq<Resource>, bookings: seq<Booking>, rid: int, day: int, w: Window)
    : (r: Outcome<Option<DayCount>>)
    ensures r.Ok? && r.value.Some? ==>
      && r.value.value.day == day && r.value.value.total == Slots.SlotCount(w)
      && r.value.value.available <= r.value.value.total
      && r.value.value.booked == r.value.value.total - r.value.value.available
    ensures r.Raised? ==> r.error != ValueError && r.error != AttributeError
    ensures var c := CountOpen(SlotChecker(resources, bookings, rid), Slots.AllStarts(day, w));
      && (c.Ok? ==> r == Ok(Some(DayCount(day, Slots.SlotCount(w), c.value, Slots.SlotCount(w) - c.value))))
      && (r.Raised? <==> c.Raised? && c.error != ValueError && c.error != AttributeError)
      && (c.Raised? && (c.error == ValueError || c.error == AttributeError) ==> r == Ok(None))
    ensures r.Ok? && r.value.Some? ==>
      r.value.value.available == |Filter(Slots.AllStarts(day, w), Opens(SlotChecker(resources, bookings, rid)))|
  {
    var starts := Slots.AllStarts(day, w);
    match CountOpen(SlotChecker(resources, bookings, rid), starts)
    case Raised(e) => if e == ValueError || e == AttributeError then Ok(None) else Raised(e)
    case Ok(n) => Ok(Some(DayCount(day, |starts|, n, |starts| - n)))
  }

  /** One day of the summary. A day with no truthy rule is skipped. Splitting
      the rule on `'-'` happens outside the `try`, so its errors escape; a
      rule with no `'-'` and a clock that does not parse skip the day. */
  function DetailDay(resources: seq<Resource>, bookings: seq<Booking>, res: Resource, day: int)
    : (r: Outcome<Option<DayCount>>)
    ensures DayRule(res.rules, day).None? ==> r == Ok(None)
    ensures r.Ok? && r.value.Some? ==>
      && r.value.value.day == day
      && r.value.value.available <= r.value.value.total
      && r.value.value.booked == r.value.value.total - r.value.value.available
    ensures r.Ok? && r.value.Some? ==> ParseWindow(DayRule(res.rules, day).value).Ok?
    ensures DayRule(res.rules, day).Some? ==>
      var v := DayRule(res.rules, day).value;
      && (SplitWindow(v).Raised? ==> r == Raised(SplitWindow(v).error))
      && (SplitWindow(v) == Ok(None) ==> r == Ok(None))
      && (SplitWindow(v).Ok? && SplitWindow(v).value.Some? ==>
            if ParseWindow(v).Ok? then r == CountDay(resources, bookings, res.id, day, ParseWindow(v).value.value)
            else r == Ok(None))
  {
    match DayRule(res.rules, day)
    case None => Ok(None)
    case Some(v) =>
      match SplitWindow(v)
      case Raised(e) => Raised(e)
      case Ok(None) => Ok(None)
      case Ok(Some((a, b))) =>
        if ParseClock(a).Ok? && ParseClock(b).Ok? then
          CountDay(resources, bookings, res.id, day, Window(ParseClock(a).value, ParseClock(b).value))
        else Ok(None)
  }

  /** The page's loop over the days' outcomes, `days[i]` being the day
      `first + i`: the first raising day aborts the page, skipped days add
      nothing. */
  function Collect(days: seq<Outcome<Option<DayCount>>>, first: int): (r: Outcome<seq<DayCount>>)
    requires forall i :: 0 <= i < |days| && days[i].Ok? && days[i].value.Some? ==> days[i].value.value.day == first + i
    ensures r.Ok? <==> forall i :: 0 <= i < |days| ==> days[i].Ok?
    ensures r.Ok? ==> |r.value| <= |days|
    ensures r.Ok? ==> forall j :: 0 <= j < |r.value| ==> Ok(Some(r.value[j])) in days
    ensures r.Ok? ==> forall i :: 0 <= i < |days| && days[i].value.Some? ==> days[i].value.value in r.value
    ensures r.Ok? ==> forall j :: 0 <= j < |r.value| ==> first <= r.value[j].day < first + |days|
    ensures r.Ok? ==> forall i, j :: 0 <= i < j < |r.value| ==> r.value[i].day < r.value[j].day
    decreases |days|
  {
    if |days| == 0 then Ok([])
    else if days[0].Raised? then Raised(days[0].error)
    else
      var rest := Collect(days[1..], first + 1);
      if rest.Raised? then
        assert !(forall i :: 0 <= i < |days[1..]| ==> days[1..][i].Ok?);
        Raised(rest.error)
      else
        assert forall i :: 0 <= i < |days[1..]| ==> days[1..][i] == days[i + 1];
        var out := if days[0].value.None? then rest.value else [days[0].value.value] + rest.value;
        GatherMembers(days, rest.value, out);
        GatherOrder(days, first, rest.value, out);
        Ok(out)
  }

  /** Each listed day is a counted day and each counted day is listed, once
      the first day's count, if any, goes in front of the rest's. */
  lemma GatherMembers(days: seq<Outcome<Option<DayCount>>>, rest: seq<DayCount>, out: seq<DayCount>)
    requires |days| > 0 && forall i :: 0 <= i < |days| ==> days[i].Ok?
    requires out == if days[0].value.None? then rest else [days[0].value.value] + rest
    requires forall j :: 0 <= j < |rest| ==> Ok(Some(rest[j])) in days[1..]
    requires |rest| <= |days| - 1
    requires forall i :: 0 <= i < |days[1..]| && days[1..][i].value.Some? ==> days[1..][i].value.value in rest
    ensures |out| <= |days|
    ensures forall j :: 0 <= j < |out| ==> Ok(Some(out[j])) in days
    ensures forall i :: 0 <= i < |days| && days[i].value.Some? ==> days[i].value.value in out
  {
    TailMembers(days);
    forall i | 0 <= i < |days| && days[i].value.Some?
      ensures days[i].value.value in out
    {
      if i > 0 {
        assert days[1..][i - 1] == days[i];
      }
    }
  }

  /** Putting day `first` in front of later days, all in order, keeps them in order and in range. */
  lemma GatherOrder(days: seq<Outcome<Option<DayCount>>>, first: int, rest: seq<DayCount>, out: seq<DayCount>)
    requires |days| > 0 && days[0].Ok?
    requires days[0].value.Some? ==> days[0].value.value.day == first
    requires out == if days[0].value.None? then rest else [days[0].value.value] + rest
    requires forall j :: 0 <= j < |rest| ==> first + 1 <= rest[j].day < first + 1 + (|days| - 1)
    requires forall i, j :: 0 <= i < j < |rest| ==> rest[i].day < rest[j].day
    ensures forall j :: 0 <= j < |out| ==> first <= out[j].day < first + |days|
    ensures forall i, j :: 0 <= i < j < |out| ==> out[i].day < out[j].day
  {
    if days[0].value.Some? {
      ConsOrdered(days[0].value.value, rest, first);
    }
  }

  lemma TailMembers<T>(s: seq<T>)
    requires |s| > 0
    ensures forall x :: x in s[1..] ==> x in s
  {
  }

  /** A day before every later day keeps the list in order. */
  lemma ConsOrdered(d: DayCount, rest: seq<DayCount>, first: int)
    requires d.day == first
    requires forall j :: 0 <= j < |rest| ==> first + 1 <= rest[j].day
    requires forall i, j :: 0 <= i < j < |rest| ==> rest[i].day < rest[j].day
    ensures forall i, j :: 0 <= i < j < |[d] + rest| ==> ([d] + rest)[i].day < ([d] + rest)[j].day
    ensures forall j :: 0 < j < |[d] + rest| ==> ([d] + rest)[j] == rest[j - 1]
  {
  }

  /** The outcomes of the seven days starting at `today`. */
  function Week(resources: seq<Resource>, bookings: seq<Booking>, res: Resource, today: int)
    : (days: seq<Outcome<Option<DayCount>>>)
    ensures |days| == SummaryDays
    ensures forall i :: 0 <= i < SummaryDays ==> days[i] == DetailDay(resources, bookings, res, today + i)
    ensures forall i :: 0 <= i < SummaryDays && days[i].Ok? && days[i].value.Some? ==>
      DayRule(res.rules, days[i].value.value.day).Some?
    ensures forall i :: 0 <= i < SummaryDays && days[i].Ok? && days[i].value.Some? ==>
      days[i].value.value.day == today + i && Consistent(days[i].value.value)
  {
    seq(SummaryDays, i requires 0 <= i < SummaryDays => DetailDay(resources, bookings, res, today + i))
  }

  /** `detail`'s summary over the next seven days, today first. */
  function DetailSummary(resources: seq<Resource>, bookings: seq<Booking>, res: Resource, today: int)
    : (r: Outcome<seq<DayCount>>)
    ensures r.Ok? ==> |r.value| <= SummaryDays
    ensures r.Ok? ==> forall i :: 0 <= i < |r.value| ==> today <= r.value[i].day < today + SummaryDays
    ensures r.Ok? ==> forall i, j :: 0 <= i < j < |r.value| ==> r.value[i].day < r.value[j].day
    ensures r.Ok? ==> forall i :: 0 <= i < |r.value| ==>
      r.value[i].available <= r.value[i].total && r.value[i].booked == r.value[i].total - r.value[i].available
    ensures r.Ok? <==> forall d :: today <= d < today + SummaryDays ==> DetailDay(resources, bookings, res, d).Ok?
    ensures r.Ok? ==> forall j :: 0 <= j < |r.value| ==>
      DetailDay(resources, bookings, res, r.value[j].day) == Ok(Some(r.value[j]))
    ensures r.Ok? ==> forall d :: (today <= d < today + SummaryDays && DetailDay(resources, bookings, res, d).Ok?
      && DetailDay(resources, bookings, res, d).value.Some?) ==>
      DetailDay(resources, bookings, res, d).value.value in r.value
  {
    var days := Week(resources, bookings, res, today);
    CollectConsistent(days, today);
    var r := Collect(days, today);
    SummaryDaysFacts(resources, bookings, res, today, days, r);
    r
  }

  /** The collected week, read back day by day. */
  lemma SummaryDaysFacts(resources: seq<Resource>, bookings: seq<Booking>, res: Resource, today: int,
                         days: seq<Outcome<Option<DayCount>>>, r: Outcome<seq<DayCount>>)
    requires days == Week(resources, bookings, res, today)
    requires r == Collect(days, today)
    ensures r.Ok? <==> forall d :: today <= d < today + SummaryDays ==> DetailDay(resources, bookings, res, d).Ok?
    ensures r.Ok? ==> forall j :: 0 <= j < |r.value| ==>
      DetailDay(resources, bookings, res, r.value[j].day) == Ok(Some(r.value[j]))
    ensures r.Ok? ==> forall d :: (today <= d < today + SummaryDays && DetailDay(resources, bookings, res, d).Ok?
      && DetailDay(resources, bookings, res, d).value.Some?) ==>
      DetailDay(resources, bookings, res, d).value.value in r.value
  {
    WeekByDay(resources, bookings, res, today, days);
    if forall d :: today <= d < today + SummaryDays ==> DetailDay(resources, bookings, res, d).Ok? {
      forall i | 0 <= i < |days|
        ensures days[i].Ok?
      {
        assert days[i] == DetailDay(resources, bookings, res, today + i);
      }
    }
    if r.Ok? {
      ListedByDay(days, today, r.value);
    }
  }

  /** The week's outcomes, indexed by the day itself. */
  lemma WeekByDay(resources: seq<Resource>, bookings: seq<Booking>, res: Resource, today: int,
                  days: seq<Outcome<Option<DayCount>>>)
    requires days == Week(resources, bookings, res, today)
    ensures forall d :: today <= d < today + SummaryDays ==> DetailDay(resources, bookings, res, d) == days[d - today]
  {
    forall d | today <= d < today + SummaryDays
      ensures DetailDay(resources, bookings, res, d) == days[d - today]
    {
      assert days[d - today] == DetailDay(resources, bookings, res, today + (d - today));
    }
  }

  /** A listed row comes from the outcome of its own day. */
  lemma ListedByDay(days: seq<Outcome<Option<DayCount>>>, first: int, rows: seq<DayCount>)
    requires forall i :: 0 <= i < |days| && days[i].Ok? && days[i].value.Some? ==> days[i].value.value.day == first + i
    requires Collect(days, first) == Ok(rows)
    ensures forall j :: 0 <= j < |rows| ==> first <= rows[j].day < first + |days| && days[rows[j].day - first] == Ok(Some(rows[j]))
  {
    forall j | 0 <= j < |rows|
      ensures first <= rows[j].day < first + |days| && days[rows[j].day - first] == Ok(Some(rows[j]))
    {
      assert Ok(Some(rows[j])) in days;
      var i :| 0 <= i < |days| && days[i] == Ok(Some(rows[j]));
      assert rows[j].day == first + i;
    }
  }

  /** A day's counts agree: no more available slots than slots, and the
      booked ones are the rest. */
  predicate Consistent(c: DayCount)
  {
    c.available <= c.total && c.booked == c.total - c.available
  }

  /** Collecting consistent days gives consistent rows. */
  lemma CollectConsistent(days: seq<Outcome<Option<DayCount>>>, first: int)
    requires forall i :: 0 <= i < |days| && days[i].Ok? && days[i].value.Some? ==>
      days[i].value.value.day == first + i && Consistent(days[i].value.value)
    ensures Collect(days, first).Ok? ==> forall j :: 0 <= j < |Collect(days, first).value| ==>
      Consistent(Collect(days, first).value[j])
  {
    var r := Collect(days, first);
    if r.Ok? {
      forall j | 0 <= j < |r.value|
        ensures Consistent(r.value[j])
      {
        var i :| 0 <= i < |days| && days[i] == Ok(Some(r.value[j]));
      }
    }
  }

  /** A day whose weekday has no truthy rule never appears in the summary. */
  lemma ClosedDayAbsent(resources: seq<Resource>, bookings: seq<Booking>, res: Resource, today: int, d: int)
    requires DayRule(res.rules, d).None?
    requires DetailSummary(resources, bookings, res, today).Ok?
    ensures forall j :: 0 <= j < |DetailSummary(resources, bookings, res, today).value| ==>
      DetailSummary(resources, bookings, res, today).value[j].day != d
  {
    var rows := DetailSummary(resources, bookings, res, today).value;
    forall j | 0 <= j < |rows|
      ensures rows[j].day != d
    {
      ListedDayOpen(resources, bookings, res, today, j);
    }
  }

  /** Every listed day has a truthy rule. */
  lemma ListedDayOpen(resources: seq<Resource>, bookings: seq<Booking>, res: Resource, today: int, j: int)
    requires DetailSummary(resources, bookings, res, today).Ok?
    requires 0 <= j < |DetailSummary(resources, bookings, res, today).value|
    ensures DayRule(res.rules, DetailSummary(resources, bookings, res, today).value[j].day).Some?
  {
    var days := Week(resources, bookings, res, today);
    var rows := DetailSummary(resources, bookings, res, today).value;
    assert rows == Collect(days, today).value;
    var i :| 0 <= i < |days| && days[i] == Ok(Some(rows[j]));
    assert DayRule(res.rules, days[i].value.value.day).Some?;
  }

  /** A rule whose clock text does not parse skips the day instead of failing the page. */
  lemma MalformedClockSkipped(resources: seq<Resource>, bookings: seq<Booking>, res: Resource, day: int,
                              a: string, b: string)
    requires DayRule(res.rules, day).Some?
    requires SplitWindow(DayRule(res.rules, day).value) == Ok(Some((a, b)))
    requires ParseClock(a).Raised? || ParseClock(b).Raised?
    ensures DetailDay(resources, bookings, res, day) == Ok(None)
  {
  }
}
