# Campus Resource Hub — availability and booking engine in Dafny

This project models the booking core of the Campus Resource Hub, a Flask
application in which users list rooms and equipment, other users book time on
them, and staff and admins moderate. The model covers:

- the weekly availability rules a resource stores as a JSON blob, with their
  `_metadata.requires_approval` flag;
- the three overlap tests the code uses, and `check_availability` and
  `check_conflicts` built on them;
- the 30-minute slot grid and the 21-day and 7-day day summaries;
- booking creation, approval, rejection and cancellation on the web and API paths;
- the FIFO waitlist;
- the role-change-request state machine;
- review eligibility, rating bounds and the review tables;
- registration and login checks;
- message threads, unread counts, sending and reporting;
- the MCP read-only query guard and its query builders;
- image-list and file-extension handling.

Each entity is an immutable datatype and each operation a pure function over
in-memory tables (`seq<Booking>`, `seq<WaitlistEntry>`, …). Times are integer
minutes counted from a Monday at midnight: `Day(t) = t / 1440`, the weekday
is `Day(t) % 7`, and "now" is always a parameter. Python exceptions are values
(`Outcome.Raised`), and a controller's refusals (flash and redirect, or an
HTTP error) are `Verdict.Refused(reason)`. Python's string primitives are
modelled on ASCII text: `strip` with Python's whitespace set, `split`,
`lower`/`upper`, substring search, and `int()` with its sign, whitespace and
underscore rules. They are modelled wherever the code's behaviour depends on
them.

Modules, leaves first:

| module | file | models |
|---|---|---|
| Base, PyText, PyJson, Clock, Sorting | base.dfy, pytext.dfy, pyjson.dfy, clock.dfy, sorting.dfy | Python values and primitives; time arithmetic; `ORDER BY` as a stable sort |
| Models | models.dfy | the SQLAlchemy models, status domains, the rules-blob metadata accessors |
| Windows | windows.dfy | the hand-written `"H:MM-H:MM"` window parse, duplicated across the code |
| BookingDal | booking_dal.dfy | `BookingDAL`: overlap tests, `check_availability`, `check_conflicts`, `get_all`, `create` |
| WaitlistDal | waitlist_dal.dfy | `WaitlistDAL` |
| Slots | slots.dfy | the slot endpoints and the 21-day summary of the bookings controller |
| Bookings | bookings.dfy | the bookings controller: create, approve, reject, cancel, join waitlist |
| ResourcePages | resource_pages.dfy | the resources controller: index filter, detail summary, rule-blob forms, status on create/edit |
| Images | images.dfy | `allowed_file`, `parse_resource_images` |
| Search | search.dfy | the main controller: available-today, search filters and probe |
| ReviewDal, Reviews | review_dal.dfy, reviews.dfy | `ReviewDAL` and the reviews controller |
| UserDal, Auth | user_dal.dfy, auth.dfy | e-mail lookup; register, login, role-change request |
| RoleRequestDal | role_request_dal.dfy | `RoleChangeRequestDAL` |
| Api | api.dfy | the JSON API endpoints named below |
| Messages | messages.dfy | the messages controller |
| Mcp | mcp.dfy | the MCP tools' query guard, builders and availability check |

## Model

| member | source | states |
|---|---|---|
| BookingDal.DalOverlapIsHalfOpen | src/data_access/booking_dal.py:149-153 | For non-empty intervals, the three-disjunct test of `check_availability` holds exactly when the intervals overlap half-open (`bs < e && s < be`): adjacent bookings never conflict, partial and contained overlaps always do. |
| BookingDal.ClosedOverlapWeaker | src/data_access/booking_dal.py:175-179 | The inclusive test of `check_conflicts` is `bs <= e && s <= be`. It catches everything the availability test catches, plus bookings that merely touch at either end. |
| BookingDal.CheckConflicts | src/data_access/booking_dal.py:159-182 | The result holds exactly the table's pending/approved bookings of the resource that overlap `[s, e]` inclusively. |
| BookingDal.BlockingAmongConflicts | src/data_access/booking_dal.py:146-156 | Every booking that makes `check_availability` false through a conflict is among those `check_conflicts` returns. |
| BookingDal.TouchingConflictDoesNotBlock | src/data_access/booking_dal.py:172-180 | The converse fails: a held booking ending exactly at `s` is returned by `check_conflicts` but does not block availability. |
| BookingDal.Schedule | src/data_access/booking_dal.py:96-117 | The weekday rules are used only when the blob decodes to an object with a key other than `_metadata`; they are that object minus `_metadata`. |
| BookingDal.RulesAdmit | src/data_access/booking_dal.py:118-142 | The start's weekday decides: absent or null gives false, a falsy value admits, a truthy value without `'-'` admits, a parsed window admits iff `w.start <= time(s)` and `time(e) <= w.end`. It raises exactly when the weekday's value is present, truthy and its window parse raises. |
| BookingDal.CheckAvailability | src/data_access/booking_dal.py:77-156 | A `True` answer means no pending/approved booking of the resource overlaps; with no overlap the answer is the rules' verdict; with one it is false. It raises exactly when the resource exists, has decoded rules and the rules check raises. |
| BookingDal.OnlyHeldBookingsMatter | src/data_access/booking_dal.py:146-156 | Adding a booking of another resource, or one that is cancelled, rejected or completed, never changes the answer. |
| BookingDal.MissingWeekdayRefused | src/data_access/booking_dal.py:116-124 | Non-empty rules without the start's weekday give false whatever the bookings. |
| BookingDal.WindowContainment | src/data_access/booking_dal.py:126-142 | With a parsed window for the start's weekday and no conflict, the answer is `w.start <= time(s) && time(e) <= w.end`; both window ends are allowed. |
| BookingDal.NoScheduleConflictsOnly | src/data_access/booking_dal.py:97-117 | With no resource, empty rules, unreadable JSON, a non-object, or only `_metadata`, only the conflicts decide. |
| BookingDal.MalformedWindowRaises | src/data_access/booking_dal.py:129-138 | A present window that cannot be parsed (bad integer, hour or minute out of range, more than one `'-'`) raises instead of answering, since the parse is outside the `try`. |
| BookingDal.DashlessWindowSkipped | src/data_access/booking_dal.py:127-129 | A non-empty weekday value without `'-'` skips the window check; only the conflicts decide. |
| BookingDal.AvailableKeepsNoDoubleBooking | src/data_access/booking_dal.py:146-156 | Appending a proper interval that `check_availability` accepted keeps the table free of overlapping held bookings of one resource. |
| BookingDal.GetAll | src/data_access/booking_dal.py:46-75 | The result holds only matching rows (a falsy filter adds no clause), newest start first, each at most as often as it occurs among the matching rows. A truthy limit keeps `min(limit, matching)` rows, the latest-starting ones: fewer rows than the limit means every matching row is there, and a matching row left out starts no later than any row returned. A falsy limit returns a permutation of the matching rows. |
| BookingDal.FreshBookingId | src/data_access/booking_dal.py:30-39 | The new key differs from every key in the table (the autoincrement primary key). |
| BookingDal.Create | src/data_access/booking_dal.py:14-39 | Exactly one row is appended, with the given resource, requester, interval and status, stamped `now`, under a fresh key. |
| BookingDal.HoldsShrinkKeepsNoDoubleBooking | src/controllers/bookings.py:300-435 | A status change that never makes a row newly held (reject, cancel, or approving a pending row) keeps the table free of double bookings. |
| Models.StatusDomains | src/models/models.py:20 | Each stored role, resource-status and booking-status name reads back as its value; only `draft`/`published`/`archived` and `pending`/`approved`/`rejected`/`cancelled`/`completed` parse (lines 61 and 162). |
| Models.AdminRoleParses | src/models/models.py:20 | `'admin'` is a stored role name. |
| Models.FindResource | src/data_access/booking_dal.py:95 | Looking a resource up by key gives a row with that key, or nothing when no row has it. |
| Models.FindBooking | src/data_access/booking_dal.py:41-44 | Looking a booking up by key gives a row with that key, or nothing when no row has it. |
| Models.FindUser | src/controllers/messages.py:32 | Looking a user up by key gives a row with that key, or nothing when no row has it. |
| Models.SetBookingStatus | src/controllers/bookings.py:313 | Only the row with that key changes, and only its status. |
| Models.GetMetadata | src/models/models.py:70-78 | The value under `_metadata`, or `{}` when the blob is empty, not JSON or not an object. |
| Models.SetMetadata | src/models/models.py:80-101 | Raises only for a list blob, since `pop` on a list fails; any rewritten blob is an object. |
| Models.DisplayRules | src/models/models.py:127-135 | `to_dict` shows `None` for an empty blob, the raw text for invalid JSON, and an object without `_metadata`. |
| Models.RequiresApprovalDefaults | src/models/models.py:103-107 | The flag reads `False` when the blob is empty, invalid JSON, a non-object, or has no `_metadata.requires_approval`. |
| Models.RequiresApprovalRoundTrip | src/models/models.py:109-114 | After setting the flag to `v`, the getter returns `bool(v)`. The setter fails only on a list blob or a non-object `_metadata`. |
| Models.SetMetadataPreservesDays | src/models/models.py:80-98 | Storing truthy metadata replaces only `_metadata`: every weekday key and value is kept. |
| Models.SetEmptyMetadataKeepsBlob | src/models/models.py:92-101 | Empty metadata on a blob holding only `_metadata` writes nothing, so the old blob stays. |
| Clock.DayNameRoundTrip | src/data_access/booking_dal.py:118 | `strftime('%A').lower()` names each weekday by a distinct key of the rules blob. |
| Clock.AtRoundTrip | src/data_access/booking_dal.py:135-136 | `dt.time()` and `datetime.combine` are inverse: an instant is its day plus its minute of the day. |
| Clock.WeekdayPeriodic | src/controllers/bookings.py:675-677 | Weekday names repeat every seven days, and consecutive days have consecutive weekdays. |
| Windows.ParseClock | src/data_access/booking_dal.py:131-138 | Parsing `"H:MM"` fails only with `ValueError`. A success needs exactly one `':'` and gives a minute of the day, with hour and minute in `time.replace`'s range. |
| Windows.SplitWindow | src/data_access/booking_dal.py:129-130 | `'-' in value` raises `TypeError` on a non-container. A string without `'-'` gives no window, and a split only happens on a string holding `'-'`. |
| Windows.ParseWindow | src/data_access/booking_dal.py:129-138 | A parsed window has valid clocks and comes from a non-empty string with `'-'`. "No window" happens exactly when the value has no `'-'`. |
| Windows.ParseClockPair | src/data_access/booking_dal.py:131-138 | `a:b` parses to `60h + m` when `0 <= h < 24` and `0 <= m < 60`, and raises `ValueError` otherwise. |
| Windows.HourOutOfRange | src/data_access/booking_dal.py:137 | An hour of 24 or more raises `ValueError` even in well-formed text. |
| Windows.ExtraDashRefused | src/data_access/booking_dal.py:130 | A value with two or more `'-'` cannot be unpacked into start and end, and raises `ValueError`. |
| Windows.PiecesNotTwoRefused | src/data_access/booking_dal.py:130 | Any value with a `'-'` that does not split into exactly two pieces raises `ValueError`. |
| Windows.ClockRoundTrip | src/controllers/resources.py:436-439 | Reading back a rendered clock gives the minute it was rendered from. |
| Windows.WindowRoundTrip | src/controllers/resources.py:436-439 | Reading back a rendered `"start-end"` window gives the window it was rendered from. |
| Windows.SeedWindow | database/seed_sample_data.py:144 | The seed data's `"8:00-22:00"` opens at 480 and closes at 1320. |
| Windows.DefaultWindow | src/controllers/bookings.py:537 | The built-in default `"9:00-17:00"` opens at 540 and closes at 1020. |
| WaitlistDal.WaitStatusDomain | src/models/models.py:288 | Each waitlist status name reads back as its status; exactly `active`, `notified`, `converted` and `cancelled` parse. |
| WaitlistDal.FreshId | src/models/models.py:283 | The new key is larger than every key in the table, so it is unused. |
| WaitlistDal.Create | src/data_access/waitlist_dal.py:14-36 | Exactly one row is appended, carrying the given resource, user, requested time and status, with no `notified_at` and stamped `now`; keys stay unique. |
| WaitlistDal.Join | src/data_access/waitlist_dal.py:14-15 | With no status given, the new row is `active`. |
| WaitlistDal.FindEntry | src/data_access/waitlist_dal.py:38-41 | A row with that key, or nothing when no row has it. |
| WaitlistDal.GetByResourceAndUser | src/data_access/waitlist_dal.py:43-65 | A row of that resource and user, in the given status when one is given (a falsy status adds no clause); nothing exactly when no row matches. |
| WaitlistDal.GetAll | src/data_access/waitlist_dal.py:67-97 | Only matching rows, oldest first, each at most as often as it matches. A truthy limit keeps `min(limit, matching)` rows, the oldest: fewer rows than the limit means every matching row is there, and a matching row left out was created no earlier than any row returned. A falsy limit returns a permutation of the matching rows. |
| WaitlistDal.Queue | src/data_access/waitlist_dal.py:111-121 | The queue is a permutation of the table's active rows for the resource (and the requested time, when given), sorted by creation time. |
| WaitlistDal.NextInQueue | src/data_access/waitlist_dal.py:99-121 | An active row for the resource and time, created no later than any other such row; nothing exactly when no row is waiting (proved by `QueueHead`). |
| WaitlistDal.Rank | src/data_access/waitlist_dal.py:148-152 | The 1-based index of the user's first entry, with no earlier entry of theirs; 0 exactly when they are absent. |
| WaitlistDal.Position | src/data_access/waitlist_dal.py:123-152 | At most the queue length, and 0 exactly when the user has no waiting row for the resource and time. |
| WaitlistDal.NextHasPositionOne | src/data_access/waitlist_dal.py:99-152 | The user of the entry `get_next_in_queue` returns is at position 1 of `get_position_in_queue`. |
| WaitlistDal.ApplyAll | src/data_access/waitlist_dal.py:170-172 | Assignments keep the key. A field nobody assigns keeps its value; unknown names change nothing; the last status assignment wins. |
| WaitlistDal.Update | src/data_access/waitlist_dal.py:154-175 | `None` exactly for an unknown key; otherwise the row with that key gets the assignments and every other row is unchanged. |
| WaitlistDal.NotifyUser | src/data_access/waitlist_dal.py:177-188 | The row becomes `notified` with `notified_at = now`; every other row is unchanged; `None` for an unknown key. |
| WaitlistDal.ConvertToBooking | src/data_access/waitlist_dal.py:190-201 | The row becomes `converted` and nothing else changes; `None` for an unknown key. |
| WaitlistDal.Cancel | src/data_access/waitlist_dal.py:203-220 | `True` exactly for a known key, and then that row is `cancelled`; `False` leaves the table unchanged. |
| WaitlistDal.QueueInTableOrder | src/data_access/waitlist_dal.py:91-92 | In a table whose rows were appended in creation order, the `created_at` ordering is the table order of the waiting rows. |
| WaitlistDal.NotifyRemovesHead | src/data_access/waitlist_dal.py:177-188 | Notifying the first waiting row removes exactly it from the waiting rows. |
| WaitlistDal.NotifyShiftsQueue | src/controllers/bookings.py:431-435 | Notifying the head of the queue leaves the queue with its head removed and its order kept. |
| WaitlistDal.NotifyKeepsChronological | src/data_access/waitlist_dal.py:177-188 | Notifying does not touch `created_at`, so a chronological table stays chronological. |
| WaitlistDal.NotifyMovesQueueUp | src/data_access/waitlist_dal.py:123-152 | After the head is notified, every other user's position drops by one; users not in the queue stay at 0. |
| WaitlistDal.RankAppend | src/data_access/waitlist_dal.py:148-152 | A user absent from the queue who is appended lands at its length plus one. |
| WaitlistDal.JoinAtBack | src/controllers/bookings.py:783-790 | A user not yet waiting for the slot who joins is reported at position `|queue| + 1`, the back of the queue. |
| Slots.RulesValue | src/controllers/bookings.py:507-516 | The rules both slot endpoints use: `{}` for an empty or unreadable blob, the decoded value otherwise, and never the `_metadata` key when it is an object. |
| Slots.DayValue | src/controllers/bookings.py:521-537 | Falsy rules give `"9:00-17:00"`; an object gives the weekday's value or nothing; truthy non-object rules raise, except that a list never holding the day name gives nothing. |
| Slots.SlotHours | src/controllers/bookings.py:539-550 | A parsed window is used. A value without `'-'` falls back to 9:00-17:00. Any window used has valid clocks. |
| Slots.SlotCount | src/controllers/bookings.py:558 | The number of whole 30-minute slots that fit between the window's ends, and none when the end is before the start. |
| Slots.AllStarts | src/controllers/bookings.py:552-577 | One start per whole slot, 30 minutes apart from the window's start, each slot lying inside the window. |
| Slots.Grid | src/controllers/bookings.py:561-569 | Away from today every slot is listed. On today's date exactly the slots starting at or after `now + 15` minutes are listed; earlier ones are dropped, not marked. |
| Slots.BuildGrid | src/controllers/bookings.py:552-577 | The `while` loop with its `continue` produces exactly the listed starts. |
| Slots.Booked | src/controllers/bookings.py:579-589 | Exactly the resource's pending and approved bookings that start on the day. |
| Slots.MarkSlots | src/controllers/bookings.py:591-608 | One slot per start, 30 minutes long, available exactly when clear of every booked interval by time of day. |
| Slots.OpenReply | src/controllers/bookings.py:610-643 | `available_slots` is exactly the available slots of `all_slots`; `day_has_slots` holds iff there is one; `booked_slots` is the given list. |
| Slots.TimeSlots | src/controllers/bookings.py:491-643 | An unknown resource gives `None` (the 404). A weekday that non-empty rules leave out gives the closed reply. Otherwise the reply is the grid of that weekday's window (the standard hours for a value without `-`), each slot marked against the day's held bookings, with `day_available` true, and `booked_slots` holding the start and end times of those bookings in `get_all` order. An error from reading the rules or parsing the window propagates. |
| Slots.MissingWeekdayClosed | src/controllers/bookings.py:522-533 | Non-empty rules without the weekday give no slots and `day_available` false. |
| Slots.NoRulesStandardDay | src/controllers/bookings.py:535-537 | A resource without rules offers sixteen slots from 9:00 on any day other than today. |
| Slots.NoRulesStandardHours | src/controllers/bookings.py:536-537 | Empty rules give every weekday `"9:00-17:00"`, which parses to sixteen slots. |
| Slots.DashlessValueStandardHours | src/controllers/bookings.py:547-550 | A weekday value without `'-'` gets the standard hours in the slot list. |
| Slots.GridContiguous | src/controllers/bookings.py:558-577 | Consecutive slots touch and do not overlap. |
| Slots.UnavailableIffOverlap | src/controllers/bookings.py:597-605 | A slot is unavailable exactly when it overlaps some booked interval half-open, with times of day compared. |
| Slots.CountClear | src/controllers/bookings.py:714-722 | The count of clear slots is the length of the clear starts among all starts. |
| Slots.Summary | src/controllers/bookings.py:680-738 | It raises exactly when reading the weekday's value or parsing its window raises, so a `null`, numeric or boolean value raises (TypeError from `'-' in`). Only non-empty rules that lack the weekday give the closed day. A present value without `'-'`, falsy (`""`, `[]`, `{}`) or not, gives the available, no-slots `unavailable` day. A parsed window gives its slot count and the number of its starts that no held booking overlaps, never more than the slot count. |
| Slots.SlotClear | src/controllers/bookings.py:715-719 | The inner loop's flag is true exactly when no held booking overlaps the slot. |
| Slots.SummarizeDay | src/controllers/bookings.py:704-724 | The counting loop counts every slot of the window, and exactly the clear ones as free. |
| Slots.SummariesOf | src/controllers/bookings.py:675-738 | The loop succeeds iff every day's summary does, and then gives one summary per day in order. |
| Slots.Horizon | src/controllers/bookings.py:675-676 | The 21 consecutive dates from today. |
| Slots.DayAvailability | src/controllers/bookings.py:646-743 | An unknown resource gives `None`. Otherwise it raises exactly when the day summaries of the 21-day horizon do, over the resource's pending and approved bookings, and returns exactly those summaries, one per day. |
| Slots.SummaryFlags | src/controllers/bookings.py:684-738 | A closed day is neither available nor has slots. A counted day is available, has slots iff some are free, and is `fully_booked` iff none are. A day without a window is available, has no slots and is `unavailable`. |
| Slots.SummaryNoCutoff | src/controllers/bookings.py:704-724 | The summary applies no same-day cutoff: without rules every day counts sixteen slots. |
| Slots.DashlessValueEndpointsDisagree | src/controllers/bookings.py:547-550 | For a weekday value without `'-'`, the slot list uses the standard hours while the summary reports the day as having no slots (lines 733-738). |
| Bookings.InitialStatus | src/controllers/bookings.py:193-204 | The owner's own booking is approved. Otherwise it is pending exactly when `requires_approval` is truthy, and approved when it is not. Reading the flag raises only on a malformed `_metadata`, and the status always holds its slot. |
| Bookings.InitialStatusFollowsFlag | src/controllers/bookings.py:197-204 | Once the owner has stored the flag `v`, another user's booking starts pending exactly when `v` is truthy. |
| Bookings.WebCreate | src/controllers/bookings.py:100-224 | Refusals, in order: an unpublished or missing resource, `end <= start`, a start at least 15 minutes past, an unavailable slot (iff `check_availability` is false). Past those checks it raises exactly when `check_availability` or the initial-status read raises, and a yes with a readable status always stores the booking. A stored booking is appended with the actor, interval and initial status, and only after `check_availability` said yes. |
| Bookings.WebCreateKeepsNoDoubleBooking | src/controllers/bookings.py:182-213 | A booking the web page creates never overlaps a held booking of the same resource. |
| Bookings.Decide | src/controllers/bookings.py:294-313 | Shared by approve and reject. An unknown booking is refused. The permission test raises exactly when the resource row is missing. The status changes exactly when the actor owns the resource or is an admin and the booking is pending, and then only that booking's status changes. |
| Bookings.WebApprove | src/controllers/bookings.py:288-344 | Approval happens only from `pending`, and it sets only that booking to `approved`. |
| Bookings.WebReject | src/controllers/bookings.py:347-401 | Rejection happens only from `pending`, and it sets only that booking to `rejected`. |
| Bookings.StaffCannotDecide | src/controllers/bookings.py:300-303 | Staff who do not own the resource are refused; being staff grants nothing here. |
| Bookings.DecideKeepsNoDoubleBooking | src/controllers/bookings.py:305-313 | Approving or rejecting a pending booking keeps the table free of double bookings. |
| Bookings.WebCancel | src/controllers/bookings.py:404-435 | Only the requester may cancel, and not a cancelled or completed booking; every other status (including rejected) is cancelled. |
| Bookings.CancelPromotesNext | src/controllers/bookings.py:431-435 | After a cancellation only the oldest active entry for that resource and exact start changes, becoming `notified` at `now`; with nobody waiting the waitlist is unchanged. |
| Bookings.CancelKeepsNoDoubleBooking | src/controllers/bookings.py:427-428 | Cancelling never creates a double booking. |
| Bookings.JoinWaitlist | src/controllers/bookings.py:746-790 | Refusals: an unpublished resource, an existing active entry for the resource at any time, an available 30-minute slot (a yes from the probe is always refused as available). Past the first two checks it raises exactly when the probe raises, and a no always joins. On success an active entry is appended and the reported position is `get_position_in_queue` on the new table. |
| Bookings.JoinReportsBackOfQueue | src/controllers/bookings.py:783-790 | The reported position is one more than the number already waiting for that resource and time. |
| ResourcePages.DayValue | src/controllers/resources.py:436-440 | A form row contributes `"start-end"` exactly when it qualifies: on the create form the box is ticked and both times are non-empty after stripping; on the edit form (line 598) the box value is `'on'`. |
| ResourcePages.DayValues | src/controllers/resources.py:436-441 | One entry per form row, each that row's contribution. |
| ResourcePages.WeekdayNamesDistinct | src/controllers/resources.py:435 | The seven weekday keys are distinct and none is `_metadata`. |
| ResourcePages.Entries | src/controllers/resources.py:436-441 | The dict has a key exactly for each present value, under its weekday name, and no other key. |
| ResourcePages.DayEntries | src/controllers/resources.py:433-441 | A weekday key exists exactly for a qualifying row, holding its text; never `_metadata`; empty exactly when no row qualifies. |
| ResourcePages.WithMetadata | src/controllers/resources.py:620-622 | Weekday entries are kept. `_metadata` is added exactly when the metadata is non-empty. |
| ResourcePages.CreatedMetadata | src/controllers/resources.py:450-460 | The create form's metadata is non-empty exactly when the box is ticked, and then holds `requires_approval: true`. |
| ResourcePages.CreateRules | src/controllers/resources.py:433-460 | No blob exactly when no day qualifies. Otherwise an object with the qualifying days' texts, holding `_metadata` exactly when the box is ticked. No qualifying day means the form is refused (line 444), so lines 458-460 are never reached. |
| ResourcePages.CreatedRulesFlag | src/controllers/resources.py:450-457 | The flag the create form stores reads back through `requires_approval`. |
| ResourcePages.FormWindowReadsBack | src/controllers/resources.py:436-439 | Times entered as `H:MM` read back as the same window through the shared parser. |
| ResourcePages.EditedMetadata | src/controllers/resources.py:601-618 | The stored `_metadata` is kept except `requires_approval`, which is present (as `true`) exactly when the box is ticked; a non-dict `_metadata` raises. |
| ResourcePages.EditRules | src/controllers/resources.py:586-626 | It raises exactly when the metadata does. No blob exactly when no day qualifies and no metadata is left. Otherwise an object with exactly the qualifying days and the kept metadata. |
| ResourcePages.EditedRulesFlag | src/controllers/resources.py:614-626 | Whatever the edit form stores, `requires_approval` reads back as the box's value. |
| ResourcePages.EditDropsUntickedDay | src/controllers/resources.py:624-626 | Unticking a day removes it from the stored rules. |
| ResourcePages.CreateStatus | src/controllers/resources.py:462-469 | A student's new resource is `draft`. Staff and admins get the form's status, `published` when absent. |
| ResourcePages.EditStatus | src/controllers/resources.py:628-637 | A student keeps `published` only if it already was, else `draft`. Staff and admins get the form's status, the current one when absent. |
| ResourcePages.StudentCannotPublish | src/controllers/resources.py:462-469 | A student can never publish: create gives a draft, and an edit yields published exactly for a resource that already was. |
| ResourcePages.IndexFilter | src/controllers/resources.py:135-158 | Every passing resource is kept, and only passing ones when any pass; when none pass, the list is left as it was, so the filter never empties a list. |
| ResourcePages.FailOpen | src/controllers/resources.py:147-153 | A resource whose availability check raises is always listed. |
| ResourcePages.DetailRules | src/controllers/resources.py:250-266 | The detail page's rules: the decoded object minus `_metadata`, and `{}` for anything else. |
| ResourcePages.DayRule | src/controllers/resources.py:268-280 | The day's rule is used exactly when present under its weekday and truthy. |
| ResourcePages.CountOpen | src/controllers/resources.py:298-304 | The loop succeeds iff every slot check does, and then counts exactly the slots the check accepts. |
| ResourcePages.CountDay | src/controllers/resources.py:285-317 | When every slot check returns, the row holds the day, the slot count of the window, the number of slots whose check says yes as `available_slots`, and the rest as `booked_slots`. A `ValueError` or `AttributeError` from a check skips the day; any other error escapes. |
| ResourcePages.DetailDay | src/controllers/resources.py:268-320 | A day without a truthy rule is skipped. A rule whose split raises raises; a rule with no `'-'` is skipped; a split rule whose clocks parse counts that window (CountDay); one whose clock does not parse is skipped. |
| ResourcePages.Collect | src/controllers/resources.py:268-320 | The summary succeeds iff every day does. It keeps exactly the listed days, in date order, within the seven-day range. |
| ResourcePages.Week | src/controllers/resources.py:268-270 | The outcomes of the seven days starting today. |
| ResourcePages.DetailSummary | src/controllers/resources.py:245-320 | It succeeds iff every day of the week does. Every listed row is the outcome of its own day, and every day whose outcome is a row is listed: at most seven entries, in strictly increasing date order within the week, each with `available <= total`. |
| ResourcePages.ClosedDayAbsent | src/controllers/resources.py:278-280 | A day whose weekday has no truthy rule never appears in the summary. |
| ResourcePages.ListedDayOpen | src/controllers/resources.py:276-280 | Every day the summary lists has a truthy rule for its weekday. |
| ResourcePages.MalformedClockSkipped | src/controllers/resources.py:315-317 | A rule whose clock text does not parse skips the day instead of failing the page. |
| Images.AllowedFile | src/controllers/resources.py:22-24 | Accepted names have a `'.'`, and the lower-cased text after the last one is `png`, `jpg`, `jpeg`, `gif` or `webp` (line 16). |
| Images.AllowedFileIff | src/controllers/resources.py:22-24 | For a dotless extension, `stem.ext` is accepted exactly when the lower-cased extension is allowed, whatever the stem holds. |
| Images.DotlessRefused | src/controllers/resources.py:24 | A name without a dot is never accepted. |
| Images.DecodeString | src/controllers/resources.py:40-47 | A string whose stripped text starts with `[` or `{` is decoded; anything else is left alone; a failed decode ends the loop with the value unchanged. |
| Images.DecodeSingleton | src/controllers/resources.py:49-57 | A one-element list holding a JSON-looking string is replaced by its decoding; anything else is left alone. |
| Images.Unnest | src/controllers/resources.py:33-61 | A value that neither step changes comes out unchanged. |
| Images.UnnestStopsOnSelfDecoding | src/controllers/resources.py:34-37 | The loop stops after five rounds even on text that decodes to itself forever. |
| Images.Clean | src/controllers/resources.py:67-76 | At most one entry per item, each starting with `http://`, `https://` or `/`. |
| Images.CommaPieces | src/controllers/resources.py:78-80 | The comma fallback keeps only non-empty pieces without commas, at most one per piece. |
| Images.ParseImages | src/controllers/resources.py:26-82 | No images give `[]`. Decoded JSON yields only URL-like entries. Text that is not JSON yields non-empty comma-free pieces, with no URL test. |
| Images.CleanKeepsCleanUrls | src/controllers/resources.py:67-76 | Cleaning a list of already clean URL strings gives them back unchanged. |
| Images.CleanListSettled | src/controllers/resources.py:40-61 | A list of clean URLs is left alone by the decoding loop. |
| Images.StoredListRoundTrip | src/controllers/resources.py:26-82 | A list stored as `json.dumps(urls)` reads back as the same list. |
| Images.DoubleEncodedRoundTrip | src/controllers/resources.py:33-47 | A list encoded twice, stored as the JSON string of its JSON text, also reads back as the same list. |
| Images.CommaFallbackUnfiltered | src/controllers/resources.py:78-80 | Text that is not JSON and has no comma is one image, URL-like or not. |
| Search.RecentApproved | src/controllers/main.py:43 | Only approved bookings of the resource, `min(100, approved)` of them, the latest-starting, each at most as often as it occurs. Fewer than 100 means all of them are there, and an approved booking left out starts no later than any returned. |
| Search.AvailableToday | src/controllers/main.py:35-50 | Every resource not busy today is kept, and only those when any is; when all are busy the list is left as it was. |
| Search.NeverApprovedKept | src/controllers/main.py:43-49 | A resource with no approved booking at all is always shown. |
| Search.PendingDoesNotBusy | src/controllers/main.py:43-47 | Pending bookings do not count, only approved ones: a resource whose bookings touching today are all non-approved is shown. |
| Search.LocationFilter | src/controllers/main.py:97-129 | Blank text filters nothing. Otherwise exactly the resources with a location holding the stripped text, ignoring case, are kept. |
| Search.CapacityBound | src/controllers/main.py:98-99 | A bound is set only by a non-empty all-digit argument. |
| Search.CapacityBoundDecimal | src/controllers/main.py:98-99 | A number typed in decimal is the bound. |
| Search.CapacityBoundSigned | src/controllers/main.py:98-99 | A signed or spaced number is not all digits, so it sets no bound. |
| Search.CapacityFilter | src/controllers/main.py:131-133 | A zero bound filters nothing. Otherwise exactly the resources with a capacity at or above the bound are kept. |
| Search.EarliestStart | src/controllers/main.py:145-162 | A date-only time comes only from a decoded object with the weekday's key, and is a valid clock. |
| Search.WindowStart | src/controllers/main.py:156-160 | The time before the first `'-'`, and only for a string holding one. |
| Search.ProbeStart | src/controllers/main.py:140-172 | A date-and-time search probes every resource at that time. A date-only search probes at the earliest window time, and skips the resource exactly when there is none. |
| Search.AvailabilityFilter | src/controllers/main.py:135-187 | Without a probe nothing is filtered. With one, exactly the resources the search keeps remain, in order, even when none do. |
| Search.SearchResults | src/controllers/main.py:127-187 | The results come from the rows and, with a probe, pass it. Conversely every row that matches the location text, meets the capacity bound and passes the probe is among the results. |
| Search.SearchResultsMatch | src/controllers/main.py:127-133 | Every result matches the location text and meets the capacity bound. |
| Search.SearchFailsClosed | src/controllers/main.py:179-185 | A resource whose check raises is dropped from the search, while the resource listing keeps it (src/controllers/resources.py:147-153). |
| Search.NoWindowExcluded | src/controllers/main.py:164-166 | A date-only search drops a resource with no rule for that weekday. |
| Search.EarliestIsWindowStart | src/controllers/main.py:155-160 | For a rule written as a window, the date-only time is the window's start. |
| Search.DateOnlyProbesWindowStart | src/controllers/main.py:140-169 | A date-only search probes a resource at the start of its window for that weekday. |
| Search.WindowStartOfText | src/controllers/main.py:156-159 | A rendered window names its start clock before its first `'-'`. |
| Search.WindowStartPiece | src/controllers/main.py:158-159 | The text before the first `'-'` of a rendered window parses back to its start. |
| Search.DateOnlyOpenWindowKept | src/controllers/main.py:140-178 | A date-only search shows a resource whose window holds a free hour at its start. |
| Search.OpenWindowAnswersYes | src/controllers/main.py:174-176 | The hour at the start of an open window is available when nothing blocks it. |
| Search.KeptOnYes | src/controllers/main.py:174-178 | A probed resource whose one-hour check answers yes is kept. |
| ReviewDal.FreshReviewId | src/data_access/review_dal.py:30-38 | The new key is larger than every review key in use. |
| ReviewDal.Create | src/data_access/review_dal.py:12-38 | A rating outside 1..5 raises `ValueError` and stores nothing; otherwise exactly one visible review is appended with the given fields, stamped `now`, under a fresh key. |
| ReviewDal.FindReview | src/data_access/review_dal.py:40-43 | A review with that key, or nothing when none has it. |
| ReviewDal.GetByResource | src/data_access/review_dal.py:45-93 | Only the resource's reviews, hidden ones only when asked for, newest first, each at most as often as it occurs. A truthy limit keeps `min(limit, matching)` reviews, the newest: fewer than the limit means every such review is there, and one left out is no newer than any returned. A falsy limit returns a permutation of them. |
| ReviewDal.GetByReviewer | src/data_access/review_dal.py:117-135 | A permutation of the user's reviews, hidden or not, newest first. |
| ReviewDal.GetByResourceAndUser | src/data_access/review_dal.py:137-152 | A review of that resource by that user, hidden or not; nothing exactly when there is none. |
| ReviewDal.CountReviews | src/data_access/review_dal.py:168 | The number of the resource's reviews, hidden reviews included. |
| ReviewDal.CountStars | src/data_access/review_dal.py:170-174 | The number of the resource's reviews with that rating; never more than the review count. |
| ReviewDal.Stats | src/data_access/review_dal.py:154-195 | The total is the review count; no reviews give all zeros; each star count is at most the total. |
| ReviewDal.StarCountsAddUp | src/data_access/review_dal.py:170-174 | When every rating is in 1..5, the five star counts add up to the total. |
| ReviewDal.StatsAddUp | src/data_access/review_dal.py:177-186 | The same for the reported statistics. |
| ReviewDal.Update | src/data_access/review_dal.py:197-223 | `None` for an unknown key. A rating outside 1..5 raises before anything changes. A known key with a valid or absent rating always succeeds: a `None` argument leaves its field as it was, the other fields keep their values, and only the row with that key changes. |
| ReviewDal.Delete | src/data_access/review_dal.py:225-242 | `False` and no change exactly for an unknown key; otherwise every row with that key is gone and every other row stays. |
| Reviews.ParseRating | src/controllers/reviews.py:98-107 | A rating is accepted exactly when `int()` parses the field to a number in 1..5; a missing field is refused like any other bad value. |
| Reviews.RatingRoundTrip | src/controllers/reviews.py:101-104 | Each rating the form offers, written in decimal, parses back to itself. |
| Reviews.CommentText | src/controllers/reviews.py:99 | The stripped comment, or `None` exactly when it is blank. |
| Reviews.MayReviewIff | src/controllers/reviews.py:75-89 | A user may review a resource iff some booking of theirs for it is approved or completed and ended before `now`. |
| Reviews.EligibleHasBooking | src/controllers/reviews.py:81-85 | Eligibility always comes from such a booking. |
| Reviews.BookingMakesEligible | src/controllers/reviews.py:81-85 | Any such booking makes the user eligible. |
| Reviews.Submit | src/controllers/reviews.py:97-117 | It is refused exactly when the rating is invalid. Otherwise it appends one visible review with the parsed rating and the cleaned comment. |
| Reviews.CreateReviewAsWritten | src/controllers/reviews.py:66-117 | An unknown resource is not-found and an ineligible user is forbidden. For a found resource and an eligible user with no visible review, the review is stored iff the rating parses, under that resource and user. Only visible reviews are checked (line 92 reads non-hidden reviews). |
| Reviews.CreateReview | src/controllers/reviews.py:91-95 | An unknown resource is not-found and an ineligible user is forbidden. An existing review, hidden or not, is refused as a duplicate. Otherwise the review is stored iff the rating parses, under that resource and user. |
| Reviews.CreateReviewKeepsOneEach | src/controllers/reviews.py:91-95 | The corrected page keeps at most one review per user and resource. |
| Reviews.ScenarioNothingVisible | src/data_access/review_dal.py:76-78 | With the only review hidden, the default listing is empty. |
| Reviews.HiddenReviewAllowsSecond | src/controllers/reviews.py:91-95 | As written, a user whose only reviews of a resource are hidden passes the duplicate check, and storing the second review breaks the one-review rule. |
| Reviews.ScenarioBreaksOneEach | src/controllers/reviews.py:91-95 | A concrete table in which the page as written stores a second review by the same user. |
| Reviews.HiddenReviewStillCounts | src/controllers/reviews.py:91-95 | The corrected page refuses the same request as a duplicate. |
| Reviews.EditReview | src/controllers/reviews.py:125-158 | It succeeds iff the review exists, the actor wrote it and the rating parses; an invalid rating from the reviewer is refused as invalid. A valid rating updates only that review. A blank comment keeps the old one. |
| Reviews.EditBlankCommentKeepsComment | src/controllers/reviews.py:140-151 | A valid edit by the reviewer goes through, and a blank comment cannot clear the old one. |
| Reviews.DeleteReview | src/controllers/reviews.py:161-181 | The review is deleted exactly when it exists and the actor wrote it or is an admin; a refusal says not found exactly when it does not exist. |
| Reviews.Collect | src/controllers/reviews.py:38-45 | The walk lists each candidate resource once, never a reviewed one, keeps what was collected before, and misses no candidate. |
| Reviews.ReviewedBy | src/controllers/reviews.py:36 | Every resource the user has reviewed, hidden reviews included. |
| Reviews.ResourcesToReview | src/controllers/reviews.py:14-45 | No resource is listed twice, and none the user has reviewed. |
| Reviews.ToReviewFromEndedBooking | src/controllers/reviews.py:38-42 | Every listed resource comes from an ended approved or completed booking of the user. |
| Reviews.ToReviewComplete | src/controllers/reviews.py:38-45 | Every existing resource of such a booking that is not yet reviewed is listed. |
| UserDal.NormalizeEmail | src/data_access/user_dal.py:31 | `email.lower().strip()` has no upper-case letter and no surrounding whitespace. |
| UserDal.GetByEmail | src/data_access/user_dal.py:49-56 | A user whose lower-cased email equals the normalised argument; nothing exactly when no user's does. |
| UserDal.FreshUserId | src/data_access/user_dal.py:40-41 | The new key is larger than every user key in use. |
| UserDal.CreateUser | src/data_access/user_dal.py:12-42 | Exactly one active user is appended, with the given fields, its email normalised, under a fresh key. |
| UserDal.CreatedUserFound | src/data_access/user_dal.py:49-56 | A new user is found by any spelling of the email that normalises the same way, unless an earlier user already claims it. |
| Auth.Login | src/controllers/auth.py:18-41 | A missing email or password is refused. Sign-in happens exactly when the stripped, lower-cased email finds a user, the password verifies and the user is not suspended. |
| Auth.SuspendedCannotLogin | src/controllers/auth.py:31-34 | A suspended user never gets in, whatever the password. |
| Auth.ErrorIf | src/controllers/auth.py:70-86 | A check contributes its message exactly when it fails. |
| Auth.EmailErrors | src/controllers/auth.py:73-76 | "Email is required" exactly for an empty email; "Invalid email format" exactly for a non-empty one without `'@'`. |
| Auth.PasswordErrors | src/controllers/auth.py:77-80 | "Password is required" exactly for an empty password; "too short" exactly for one of 1 to 7 characters. |
| Auth.FieldErrors | src/controllers/auth.py:70-86 | Each registration message appears exactly when its check fails; the duplicate check runs only for a non-empty email. |
| Auth.RegisterErrors | src/controllers/auth.py:62-86 | The name and email are stripped, and the email lower-cased, before checking; the passwords are not. |
| Auth.Register | src/controllers/auth.py:55-102 | Any error creates nothing and all errors are reported. Otherwise exactly one student account is appended, with the cleaned email, which contains `'@'` and was not registered. |
| Auth.FormEmailNormal | src/controllers/auth.py:63 | The form's email is already normalised: normalising it again changes nothing. |
| Auth.RegisteredCanBeFound | src/controllers/auth.py:19-28 | A new account is found at login by its email typed in any letter case or padding. |
| Auth.RequestRoleChange | src/controllers/auth.py:111-142 | Only students may ask, and only for `staff` or `admin`; a student asking for anything else is refused as invalid. It succeeds iff a student asks for a requestable role with no pending request, and the stored request is pending, appended, for that user and role. A valid request from a student with a pending one already is reported as a duplicate, not raised. |
| RoleRequestDal.RequestableRole | src/data_access/role_change_request_dal.py:26-27 | Exactly the texts `staff` and `admin` name a requestable role, and each names a role above student. |
| RoleRequestDal.FindRequest | src/data_access/role_change_request_dal.py:44-47 | A request with that key, or nothing when none has it. |
| RoleRequestDal.GetPendingByUser | src/data_access/role_change_request_dal.py:49-55 | A pending request of that user; nothing exactly when the user has none. |
| RoleRequestDal.FreshRequestId | src/models/models.py:369 | The new key is larger than every key in use. |
| RoleRequestDal.Create | src/data_access/role_change_request_dal.py:13-42 | It succeeds exactly for `staff` or `admin` from a user with no pending request; otherwise `ValueError`. A success appends one pending request under a fresh key. |
| RoleRequestDal.GetAll | src/data_access/role_change_request_dal.py:57-72 | With a truthy status a permutation of the requests in that status, otherwise of all of them; newest first. |
| RoleRequestDal.Decide | src/data_access/role_change_request_dal.py:94-98 | Only the request with that key changes; it records the decision, the admin, the notes and `processed_at`. |
| RoleRequestDal.SetRole | src/data_access/user_dal.py:58-79 | Only the user with that key changes, and only in role. |
| RoleRequestDal.Approve | src/data_access/role_change_request_dal.py:74-105 | `None` for an unknown key, `ValueError` unless pending, and success exactly when the request exists and is pending: the decision is recorded and the requester gets the requested role. |
| RoleRequestDal.Deny | src/data_access/role_change_request_dal.py:107-133 | The same guards as approve, and success exactly when the request exists and is pending: the decision is recorded and no user changes. |
| RoleRequestDal.CreateKeepsInvariant | src/data_access/role_change_request_dal.py:29-32 | Creating keeps keys unique and at most one pending request per user. |
| RoleRequestDal.DecideKeepsInvariant | src/data_access/role_change_request_dal.py:91-98 | Recording a decision keeps keys unique and at most one pending request per user. |
| RoleRequestDal.DecisionIsFinal | src/data_access/role_change_request_dal.py:91-92 | A decided request is final: a second approve or deny raises (also lines 124-125). |
| RoleRequestDal.ApproveGrantsRole | src/data_access/role_change_request_dal.py:100-102 | Approval changes only the requester's role, to the requested one. |
| Api.ApiRegister | src/controllers/api.py:55-88 | An empty body or a blank name, email or password is refused. An account is created exactly when, in addition, the stripped role is `student`, `staff` or `admin` and the cleaned email is not taken; it is appended with that role and the cleaned email. |
| Api.FormEmailNoAt | src/controllers/api.py:61 | Cleaning an email adds no `'@'`. |
| Api.ApiRegisterAdmitsAdmin | src/controllers/api.py:60-75 | Unlike the register page, the API creates an admin account for anyone who asks, with an email lacking `'@'` and a password of any non-blank length. |
| Api.ListStatus | src/controllers/api.py:199-211 | Anonymous callers always get `published`; signed-in callers get the status they asked for. |
| Api.ListResources | src/data_access/resource_dal.py:64-91 | Rows come newest first, and every row is a resource in the asked-for status when that status is truthy, each at most as often as it matches. A truthy limit keeps `min(limit, matching)` rows, the newest: fewer than the limit means all of them are listed, and one left out was created no later than any listed. A falsy limit returns a permutation of them. |
| Api.AnonymousListingPublishedOnly | src/controllers/api.py:204-217 | An anonymous listing shows only published resources, whatever status was asked for. |
| Api.SignedInListsOthersDrafts | src/controllers/api.py:199-217 | A signed-in user who asks for `status=draft` with a falsy limit lists every draft, other owners' too. |
| Api.ApiGetResource | src/controllers/api.py:271-284 | A resource is shown exactly when it exists and is visible. A non-published one is shown only to its signed-in owner. |
| Api.AdminNotExempt | src/controllers/api.py:283-284 | Another owner's unpublished resource is a 404 for admins too. |
| Api.ApiCreateBooking | src/controllers/api.py:516-566 | A missing resource id or datetime is refused, then an unparseable datetime. The request is refused as a conflict exactly when `check_conflicts` returns something. With no conflict, an unknown resource is not found, and a known one whose initial status can be read is accepted: the booking is appended with the web page's initial status. Reading the approval flag is the only thing that raises. |
| Api.ApiCreateKeepsNoDoubleBooking | src/controllers/api.py:534-541 | A proper interval the API accepts never double-books: an empty inclusive conflict list rules out any half-open overlap. |
| Api.ApiRefusesTouching | src/controllers/api.py:534-541 | A held booking ending exactly where the request starts makes the API refuse, though `check_availability` would let the request through. |
| Api.ApiAcceptsReversedDraft | src/controllers/api.py:521-566 | With no conflicts, the API books a draft resource and an interval whose end precedes its start. |
| Api.ApiApproveAsWritten | src/controllers/api.py:637-651 | An unknown booking or resource is a 404, a caller who is neither owner nor staff nor admin a 403; otherwise the booking becomes approved whatever its status was. |
| Api.ApproveCancelledDoubleBooks | src/controllers/api.py:645-651 | A concrete table in which re-approving a cancelled booking makes two approved bookings share an hour. |
| Api.ApiApprove | src/controllers/api.py:645-651 | The corrected approval goes through exactly for a pending booking with an existing resource and a permitted caller, and then it agrees with the endpoint as written. |
| Api.ApiApproveKeepsNoDoubleBooking | src/controllers/api.py:645-651 | With the pending-only guard, approving keeps the table free of double bookings. |
| Api.StaffMayApproveViaApi | src/controllers/api.py:645-648 | Staff who do not own the resource may approve through the API, though the web page refuses them (src/controllers/bookings.py:300-303). |
| Api.RatingNumber | src/controllers/api.py:774 | An integer rating compares as itself and a boolean as 0 or 1; comparing any other JSON value with an integer raises `TypeError`. |
| Api.UserBookings | src/controllers/api.py:779 | Exactly the user's bookings of the resource, whatever their status. |
| Api.ApiEligibleIff | src/controllers/api.py:777-795 | The two-step test holds exactly when some booking of the user for the resource is completed, or approved and ended. |
| Api.ApiCreateReview | src/controllers/api.py:762-814 | A falsy resource id or rating is refused. A non-numeric rating raises. A review is stored exactly for a rating in 1..5 from an eligible user with no review of the resource, hidden ones included. It is appended visible, with that rating. |
| Api.ApiCreateReviewKeepsOneEach | src/controllers/api.py:803-806 | The API keeps at most one review per user and resource. |
| Api.CompletedEarlyEligibleOnlyViaApi | src/controllers/api.py:788-789 | A completed booking that has not yet ended makes the user eligible through the API, but not on the review page (src/controllers/reviews.py:83). |
| Messages.UnreadCount | src/controllers/messages.py:43-44 | At most the number of messages, and zero exactly when none of them was received by the user and left unread. |
| Messages.FindThread | src/controllers/messages.py:31 | Finds the thread with that correspondent when there is one, and reports none only when no thread has that correspondent. |
| Messages.Group | src/controllers/messages.py:22-44 | The grouping loop's invariant holds for the result. Threads belong to distinct existing users. Each thread holds, in order, exactly the messages exchanged with its user, at least one of them, and counts the unread ones. Every message whose correspondent exists has a thread. The counts add up to the unread messages kept. |
| Messages.StepKeepsGrouped | src/controllers/messages.py:25-44 | One turn of the loop keeps that invariant, whether the message joins a thread, opens one or is dropped. |
| Messages.SumUnreadSort | src/controllers/messages.py:51-56 | Sorting the threads leaves the unread total unchanged. |
| Messages.Ordered | src/controllers/messages.py:47-48 | A thread's messages are reordered newest first; no message is lost or added, and user and count are kept. |
| Messages.InboxOf | src/data_access/message_dal.py:49-65 | The messages page lists threads most recent first, at src/controllers/messages.py:15-58, one per correspondent: no two threads share a user. Every thread belongs to an existing user, holds exactly that user's messages, newest first, and counts the unread ones. Every message whose correspondent exists is listed. The total is the number of unread messages kept, and equals the sum of the threads' counts. |
| Messages.LatestIsNewest | src/controllers/messages.py:51-53 | A thread is ordered by its newest message. |
| Messages.SelfMessageListedTwice | src/controllers/messages.py:18-23 | A message a user sent to themselves is in both the sent and the received list, so the inbox loops over it twice. |
| Messages.SelfMessageCountedTwice | src/controllers/messages.py:40-56 | An unread message to oneself adds 2 to the unread total. |
| Messages.Conversation | src/data_access/message_dal.py:67-73 | Exactly the messages between the two users, either way round, oldest first. |
| Messages.FreshMessageId | src/models/models.py:191 | A new message key differs from every key in use. |
| Messages.Reply | src/controllers/messages.py:65-98 | An unknown correspondent is a not-found, and an empty stripped content is refused; the reply is stored iff the correspondent exists and the stripped content is non-empty. One unread message carrying the stripped content is appended. It joins the thread of the conversation's oldest message when that thread id is truthy; otherwise its thread id is its own id. |
| Messages.FirstReplyStartsThread | src/controllers/messages.py:95-98 | The first message of a conversation is keyed by its own id. |
| Messages.ReplyExtendsConversation | src/controllers/messages.py:80-93 | The reply is in the conversation, which gains exactly that message. |
| Messages.OldestInConversation | src/controllers/messages.py:80-81 | When the conversation is not empty, the message whose thread is reused is one of its own messages. |
| Messages.MarkRead | src/data_access/message_dal.py:85-113 | Each message is marked read exactly when it lies between the two users and the reader received it; nothing else changes. The count returned is the number of such unread messages. |
| Messages.MarkReadClears | src/data_access/message_dal.py:97-108 | Afterwards no message of the conversation is unread by the reader. |
| Messages.MarkReadIdempotent | src/data_access/message_dal.py:97-113 | Marking twice changes nothing the second time and returns 0. |
| Messages.MarkReadLocal | src/data_access/message_dal.py:98-103 | Messages outside the conversation are left alone. |
| Messages.OpenConversation | src/controllers/messages.py:65-114 | An unknown correspondent is a not-found. Otherwise the reader's received messages in the conversation are marked read, and the conversation is shown oldest first. |
| Messages.PostConversation | src/controllers/messages.py:73-114 | A POST gives the reply's verdict. A sent reply leaves the table with the new message. An unknown correspondent changes nothing. An empty message is refused, yet the handler falls through to the view, so the reader's received messages in that conversation end up read. |
| Messages.Send | src/controllers/messages.py:228-238 | Refused exactly when the stripped content is empty. The receiver is not looked up. The message is appended unread, with no thread id. |
| Messages.SendThenReplySplitsThread | src/controllers/messages.py:81-98 | A conversation begun through the quick-send endpoint has no thread id, so the first page reply takes a different one. |
| Messages.FindMessage | src/data_access/message_dal.py:38-40 | Finds a message with that key, and finds none only when no message has it. |
| Messages.ReportMessage | src/controllers/messages.py:187-215 | Not-found exactly when the message is missing. Forbidden exactly when the reporter neither sent nor received it. Refused as a duplicate exactly when they already reported it. It succeeds iff none of these holds, and then one report is appended, with the stripped reason, or none when that is empty. |
| Messages.ReportKeepsOneEach | src/controllers/messages.py:199-206 | Reporting keeps at most one report per user and message. |
| Messages.ReportTwiceRefused | src/controllers/messages.py:199-206 | A second report of the same message by the same user is refused. |
| Mcp.Guard | mcp/mcp_tools.py:49-57 | A query passes exactly when its stripped, upper-cased text starts with `SELECT` and contains none of the seven keywords. It is refused as a non-`SELECT` exactly when that prefix is missing. |
| Mcp.CreatedAtRefused | mcp/mcp_tools.py:54-57 | The keyword test is a substring test: a `SELECT` that mentions `created_at` contains `CREATE` and is refused. |
| Mcp.LowerCaseSelectPasses | mcp/mcp_tools.py:50-52 | A lower-case `select` passes the prefix test. |
| Mcp.NonSelectRefused | mcp/mcp_tools.py:50-52 | Unpadded text that does not begin with an `s` in either case is refused before the keyword test. |
| Mcp.ClausesBalanced | mcp/mcp_tools.py:93-103 | Each filter that is present adds exactly one `?` and one parameter. |
| Mcp.Build | mcp/mcp_tools.py:105-108 | A query is the fixed head, the present clauses and the closing `LIMIT ?`. It has as many placeholders as parameters, and the limit is its last parameter. |
| Mcp.ResourceClauses | mcp/mcp_tools.py:93-103 | One clause each for a non-empty category, location and status, with no stray `?`. |
| Mcp.QueryResources | mcp/mcp_tools.py:90-108 | Placeholders match parameters. There is one parameter per truthy filter, plus the limit, which comes last. |
| Mcp.BookingClauses | mcp/mcp_tools.py:184-202 | One clause each for a truthy resource, requester, status, start date and end date. |
| Mcp.QueryBookings | mcp/mcp_tools.py:181-207 | Placeholders match parameters. There is one parameter per truthy filter, plus the limit, which comes last. |
| Mcp.ReviewClauses | mcp/mcp_tools.py:268-278 | One clause each for a truthy resource, reviewer and minimum rating. |
| Mcp.QueryReviews | mcp/mcp_tools.py:265-283 | Placeholders match parameters. There is one parameter per truthy filter, plus the limit, which comes last. |
| Mcp.UserClauses | mcp/mcp_tools.py:363-369 | One clause each for a non-empty role and department. |
| Mcp.QueryUsers | mcp/mcp_tools.py:355-374 | Placeholders match parameters. There is one parameter per truthy filter, plus the limit, which comes last. |
| Mcp.StripIndent | mcp/mcp_tools.py:50 | Stripping removes a blank indentation in front of unpadded text. |
| Mcp.OrderedSelectRefused | mcp/mcp_tools.py:50-57 | Any indented `SELECT` ending in `ORDER BY created_at DESC LIMIT ?` is refused for mentioning `CREATE`. |
| Mcp.QueryResourcesAlwaysRefused | mcp/mcp_tools.py:90-108 | `query_resources` is refused by the guard whatever its arguments. |
| Mcp.QueryUsersAlwaysRefused | mcp/mcp_tools.py:355-374 | `query_users` is refused by the guard whatever its arguments. |
| Mcp.McpCheckAvailability | mcp/mcp_tools.py:222-244 | The conflicts are exactly the resource's pending and approved bookings that touch or overlap the period, with inclusive bounds. The period is available exactly when there are none. |
| Mcp.TouchingUnavailable | mcp/mcp_tools.py:226-229 | A held booking ending exactly where the period starts makes the tool report it unavailable. The booking page's half-open check is not blocked by it. |
| Mcp.ToolAvailableNoBlocking | mcp/mcp_tools.py:222-244 | When the tool reports a proper period available, nothing blocks it on the booking page either. |
| Mcp.CountBookings | mcp/mcp_tools.py:131-139 | The number of bookings of the resource, in the given status when one is given; never more than the number of bookings. |
| Mcp.StatusCountsWithinTotal | mcp/mcp_tools.py:132-136 | The approved, pending and completed counts together never exceed the total. |
| Mcp.ResourceSummary | mcp/mcp_tools.py:121-156 | A not-found reply exactly when no resource has the key. Otherwise it holds that resource, the number of its bookings, and the numbers of its approved, pending and completed bookings (together within the total). The review count is the number of the resource's reviews. |

## Left out

- JSON text and date text: `json.loads`/`json.dumps`, `strptime`, `strftime` and `fromisoformat` are abstracted. A rules blob is `Empty`, `Unparseable` or an already-decoded document, and a timestamp is integer minutes or a `Missing`/`Malformed` marker. The decoder that `parse_resource_images` applies is a parameter.
- Seconds and microseconds: times are whole minutes, so comparisons below a minute are not modelled.
- Floating point: the rating averages of `get_resource_rating_stats`, of the MCP summary and of the admin statistics, and float ratings sent to the API. JSON numbers are integers here.
- Persistence: SQL execution, sessions, commits and rollbacks. A table is a sequence, a query a filter and a stable sort. Errors raised by the database inside the code's `try` blocks (the "Error sending message" and "Error reporting message" paths) are not modelled.
- Concurrency: the race between checking availability and inserting the booking (src/controllers/bookings.py:183-207) needs two interleaved requests, which a sequential model cannot express.
- Unicode: `strip`, `lower` and `upper` are modelled on ASCII letters and Python's whitespace set; other case mappings are not modelled.
- Flask: routing, templates, `flash`, redirects, the `return_to` parameter and the login session. The signed-in user is a parameter.
- Notifications: `send_booking_notification` (src/controllers/bookings.py:82-86) and the waitlist notice on cancellation (src/controllers/bookings.py:446-450) append a row to the messages table through `MessageDAL.create`, with failures swallowed. Those appended message rows are not modelled: the booking operations here return the booking and waitlist tables only.
- File I/O: upload saving and size checks, image deletion, `get_db_connection`, and the database scripts.
- Password hashing: werkzeug's hash check is the parameter `verify` of `Auth.Login`.
- The LLM summary generator, the admin and dashboard controllers, the admin log, and `mcp/mcp_server.py`: glue or outside calls with no booking logic.
- `leave_waitlist` (src/controllers/bookings.py:798-817): only the waitlist operations it calls (`WaitlistDal.Cancel`) are modelled.
- `RoleChangeRequestDAL.delete`, and the `limit` argument of `ReviewDAL.get_by_reviewer`, which the my-reviews page does not pass (src/controllers/reviews.py:22).
- `ReviewDAL.get_by_resource`: the fallback paths for a database without the `is_hidden` column (src/data_access/review_dal.py:58-115) are not modelled. The model assumes the column exists.
- `MessageDAL.get_thread_messages`, `mark_as_read`, `get_unread_count` and `delete`, and the recipient list of the new-message page: none of the modelled pages' logic depends on them.
- The API's login, resource create/update/delete, `get_booking`, message POST and admin statistics endpoints. They repeat checks modelled on the web pages or only serialise rows.
- Api.ListResources: the free-text search `q`, the category and owner filters, and a non-integer or negative `limit` are not modelled. Only the status filter, the order and a non-negative limit are.
- Time: the source reads the local clock (`datetime.now()`) in most places and `datetime.utcnow()` in the model defaults and the waitlist notification (src/data_access/waitlist_dal.py:188). The model has one clock, the parameter `now`, so a difference between local time and UTC is not modelled.
- WaitlistDal.NotifyShiftsQueue: proved only for a table whose rows are in `created_at` order, ties in row order. Rows appended with a clock that never runs backwards keep that order; a table edited out of order is not covered.
- WaitlistDal.NotifyMovesQueueUp: the same `created_at` order of the table is assumed.
- WaitlistDal.JoinAtBack: the same `created_at` order of the table is assumed, and the new entry's `created_at` is not below any existing one.
- Bookings.JoinReportsBackOfQueue: the same `created_at` order of the waitlist table is assumed.
- Messages.Send: a JSON body that is not an object (`request.json.get` raises) and content that is not a string (`.strip()` raises) are not modelled. The content is text.
- Api.ApiCreateReview: a comment that is not a string (its `.strip()` raises) is not modelled. A comment is text or absent.
- Api.ApiRegister: the body's fields are text. A non-string or `null` `name`, `email`, `password`, `role` or `department`, or a truthy body that is not an object, makes `.strip()` (or `.get`) raise AttributeError outside any `try` (src/controllers/api.py:58-64), an HTTP 500 with nothing stored; that error path is not modelled.
- Slots.TimeSlots: the closed reply's `error` text is not a field, and its missing `booked_slots` key is modelled as an empty list.
- Messages.InboxOf: `DateMin` stands for `datetime.min`. A thread always holds at least one message, so it is never used.
- Mcp.Guard: it is not proved that the fixed queries of `get_resource_summary` and `check_availability` pass the guard. Their rows are computed from the tables directly.
- Mcp.McpCheckAvailability: SQLite compares the datetimes as text, and the model compares integer minutes. The booking columns are `db.DateTime` (src/models/models.py:160-161), which SQLAlchemy's default SQLite storage writes as `YYYY-MM-DD HH:MM:SS.ffffff`, while the tool's arguments are `YYYY-MM-DD HH:MM:SS`. A stored time equal to an argument therefore compares greater as text. The one boundary this changes: a held booking starting exactly at the tool's `end_datetime` is not reported by the query, while the model reports it as a conflict. Arguments in any other text form are not modelled either.
- `get_resource_ratings` and `get_popular_resources` of the MCP tools: they are fixed aggregate queries. The counts of the first are `ReviewDal.Stats`.

## Findings

| source | as written | input that shows it | evidently intended | confidence | as-written member | corrected member |
|---|---|---|---|---|---|---|
| src/controllers/reviews.py:91-95 | The duplicate-review check reads `get_by_resource`, which leaves out hidden reviews | A user whose review of a resource was hidden by a moderator submits another review of it, which is stored | At most one review per user and resource, hidden or not | not executed | Reviews.CreateReviewAsWritten (Reviews.HiddenReviewAllowsSecond, Reviews.ScenarioBreaksOneEach) | Reviews.CreateReview (Reviews.CreateReviewKeepsOneEach, Reviews.HiddenReviewStillCounts) |
| src/controllers/api.py:645-651 | `approve_booking` sets `approved` without checking the current status | A booking cancelled after a second booking took its hour is approved again through the API, and two approved bookings share the hour | Only a pending booking can be approved, as on the web page (src/controllers/bookings.py:305-307) | not executed | Api.ApiApproveAsWritten (Api.ApproveCancelledDoubleBooks) | Api.ApiApprove (Api.ApiApproveKeepsNoDoubleBooking) |

## Where the code's own paths disagree

The model follows each path as written.

- Approval: the web route admits only the resource's owner and admins (src/controllers/bookings.py:300-303), so staff who do not own the resource are refused (Bookings.StaffCannotDecide). The API route's docstring says "staff/admin or owner" (src/controllers/api.py:621), and its check admits staff (src/controllers/api.py:646-647; Api.StaffMayApproveViaApi).
- Cancellation: the web route refuses only cancelled and completed bookings (src/controllers/bookings.py:417-419), so a rejected booking can be cancelled as well (Bookings.WebCancel).
- Conflicts: `check_availability` tests overlap half-open (src/data_access/booking_dal.py:145-151; BookingDal.DalOverlapIsHalfOpen). `check_conflicts` (src/data_access/booking_dal.py:172-182), which the API's create endpoint uses, has inclusive bounds, and so does the MCP availability tool at the period's start (its end bound is discussed under Mcp.McpCheckAvailability in "## Left out"). Touching bookings therefore conflict on those paths (BookingDal.ClosedOverlapWeaker, Api.ApiRefusesTouching, Mcp.TouchingUnavailable).
- Malformed rules: `check_availability` catches decoding errors of the blob (src/data_access/booking_dal.py:100-114) but not the `int()` parsing of a window (lines 130-132), so a malformed window raises out of it (BookingDal.MalformedWindowRaises). The slot endpoint reads an undecodable blob as `{}` (src/controllers/bookings.py:508-516), which gives a standard 9:00-17:00 day (Slots.RulesValue, Slots.NoRulesStandardDay).
- Invalid intervals: the web create route refuses `end <= start` (src/controllers/bookings.py:171-173). The API's create endpoint has no such check (Api.ApiAcceptsReversedDraft).
