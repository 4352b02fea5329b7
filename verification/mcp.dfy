/** The read-only query tools offered to AI agents: the guard every query
    passes through, the parameterised query builders, the availability
    check, and the resource summary. Running SQL is not modelled: a
    builder's result is the query text with its parameters, and the tools
    that read rows work on the tables directly.
 */
module Mcp {
  import opened Base
  import opened PyText
  import opened Models
  import opened Sorting
  import opened BookingDal
  import RD = ReviewDal

  // ---- the guard ----

  /** The two refusals `execute_read_query` raises as `MCPDatabaseError`. */
  datatype GuardError = NotSelect | WriteRefused

  const DangerousKeywords: seq<string> := ["INSERT", "UPDATE", "DELETE", "DROP", "CREATE", "ALTER", "TRUNCATE"]

  /** Some keyword occurs anywhere in the text. */
  predicate MentionsKeyword(text: string)
  {
    exists k :: 0 <= k < |DangerousKeywords| && Contains(text, DangerousKeywords[k])
  }

  /** The checks before a query runs, on the stripped, upper-cased text. */
  function Guard(query: string): (r: Option<GuardError>)
    ensures r.None? <==> (StartsWith(Upper(Strip(query)), "SELECT")
      && forall k :: 0 <= k < |DangerousKeywords| ==> !Contains(Upper(Strip(query)), DangerousKeywords[k]))
    ensures r == Some(NotSelect) <==> !StartsWith(Upper(Strip(query)), "SELECT")
  {
    Screen(Upper(Strip(query)))
  }

  /** The two tests on the prepared text: the `SELECT` prefix, then every keyword. */
  function Screen(text: string): (r: Option<GuardError>)
    ensures r.None? <==> (StartsWith(text, "SELECT")
      && forall k :: 0 <= k < |DangerousKeywords| ==> !Contains(text, DangerousKeywords[k]))
    ensures r == Some(NotSelect) <==> !StartsWith(text, "SELECT")
  {
    if !StartsWith(text, "SELECT") then Some(NotSelect)
    else if MentionsKeyword(text) then Some(WriteRefused)
    else None
  }

  /** A `SELECT` holding `CREATE` is refused. */
  lemma CreateScreened(text: string)
    requires StartsWith(text, "SELECT") && Contains(text, "CREATE")
    ensures Screen(text) == Some(WriteRefused)
  {
    assert DangerousKeywords[4] == "CREATE";
  }

  /** Upper-casing commutes with slicing. */
  lemma UpperSlice(s: string, i: nat, j: nat)
    requires i <= j <= |s|
    ensures Upper(s)[i..j] == Upper(s[i..j])
  {
  }

  /** A text holding `a + b` holds `a`. */
  lemma ContainsPrefixOf(s: string, a: string, b: string)
    requires Contains(s, a + b)
    ensures Contains(s, a)
  {
    var i := ContainsWitness(s, a + b);
    assert s[i..i + |a|] == (a + b)[..|a|];
    ContainsAt(s, a, i);
  }

  /** Upper-casing a text holding `created_at` gives one holding `CREATE`. */
  lemma CreatedMentionsCreate(t: string)
    requires Contains(t, "created_at")
    ensures Contains(Upper(t), "CREATE")
  {
    assert "created_at" == "create" + "d_at";
    ContainsPrefixOf(t, "create", "d_at");
    var i := ContainsWitness(t, "create");
    UpperSlice(t, i, i + 6);
    assert Upper("create") == "CREATE";
    ContainsAt(Upper(t), "CREATE", i);
  }

  /** The keyword test is a substring test: a `SELECT` mentioning a column
      such as `created_at` contains `CREATE` and is refused. */
  lemma CreatedAtRefused(query: string)
    requires StartsWith(Upper(Strip(query)), "SELECT")
    requires Contains(Strip(query), "created_at")
    ensures Guard(query) == Some(WriteRefused)
  {
    CreatedMentionsCreate(Strip(query));
    CreateScreened(Upper(Strip(query)));
  }

  /** Letter case and surrounding whitespace do not matter to the `SELECT` test. */
  lemma LowerCaseSelectPasses(query: string)
    requires |query| >= 6 && query[..6] == "select" && !IsSpace(query[|query| - 1])
    ensures Guard(query) != Some(NotSelect)
  {
    StripUnpadded(query);
    UpperSlice(query, 0, 6);
    assert Upper("select") == "SELECT";
  }

  /** Anything but a `SELECT` is refused before the keyword test. */
  lemma NonSelectRefused(query: string)
    requires |query| > 0 && !IsSpace(query[0]) && !IsSpace(query[|query| - 1])
    requires UpperChar(query[0]) != 'S'
    ensures Guard(query) == Some(NotSelect)
  {
    StripUnpadded(query);
  }

  // ---- the query builders ----

  /** A bound parameter. */
  datatype Param = Text(s: string) | Number(n: int)

  /** A query text and the parameters bound to its `?` placeholders, in order. */
  datatype Query = Query(sql: string, params: seq<Param>)

  /** How many `?` the text holds. */
  function Placeholders(s: string): nat
  {
    if |s| == 0 then 0 else Placeholders(s[..|s| - 1]) + (if s[|s| - 1] == '?' then 1 else 0)
  }

  lemma {:induction false} PlaceholdersAppend(a: string, b: string)
    ensures Placeholders(a + b) == Placeholders(a) + Placeholders(b)
    decreases |b|
  {
    if |b| == 0 {
      assert a + b == a;
    } else {
      assert (a + b)[..|a + b| - 1] == a + b[..|b| - 1];
      PlaceholdersAppend(a, b[..|b| - 1]);
    }
  }

  lemma {:induction false} PlaceholdersNone(s: string)
    requires '?' !in s
    ensures Placeholders(s) == 0
    decreases |s|
  {
    if |s| > 0 {
      assert forall k :: 0 <= k < |s| - 1 ==> s[..|s| - 1][k] == s[k];
      PlaceholdersNone(s[..|s| - 1]);
    }
  }

  /** Every placeholder has its parameter. */
  predicate Balanced(q: Query)
  {
    Placeholders(q.sql) == |q.params|
  }

  /** An optional filter: `if value: query += text + "?"; params.append(value)`. */
  datatype Clause = Clause(present: bool, text: string, param: Param)

  /** The text the present clauses add, in order. */
  function ClauseSql(cs: seq<Clause>): string
  {
    if |cs| == 0 then ""
    else ClauseSql(cs[..|cs| - 1]) + (if cs[|cs| - 1].present then cs[|cs| - 1].text + "?" else "")
  }

  /** The parameters the present clauses bind, in order. */
  function ClauseParams(cs: seq<Clause>): seq<Param>
  {
    if |cs| == 0 then []
    else ClauseParams(cs[..|cs| - 1]) + (if cs[|cs| - 1].present then [cs[|cs| - 1].param] else [])
  }

  /** How many clauses are present. */
  function Present(cs: seq<Clause>): nat
  {
    if |cs| == 0 then 0 else Present(cs[..|cs| - 1]) + (if cs[|cs| - 1].present then 1 else 0)
  }

  predicate Unmarked(cs: seq<Clause>)
  {
    forall k :: 0 <= k < |cs| ==> '?' !in cs[k].text
  }

  /** Each present clause adds one placeholder and one parameter. */
  lemma {:induction false} ClausesBalanced(cs: seq<Clause>)
    requires Unmarked(cs)
    ensures Placeholders(ClauseSql(cs)) == |ClauseParams(cs)| == Present(cs)
    decreases |cs|
  {
    if |cs| > 0 {
      var init := cs[..|cs| - 1];
      var last := cs[|cs| - 1];
      assert Unmarked(init) by {
        assert forall k :: 0 <= k < |init| ==> init[k] == cs[k];
      }
      ClausesBalanced(init);
      if last.present {
        PlaceholdersAppend(ClauseSql(init), last.text + "?");
        PlaceholdersAppend(last.text, "?");
        PlaceholdersNone(last.text);
      } else {
        assert ClauseSql(init) + "" == ClauseSql(init);
        assert ClauseParams(init) + [] == ClauseParams(init);
      }
    }
  }

  /** A whole query: the fixed head, the present clauses, and the closing
      `ORDER BY ... LIMIT ?` with the limit as the last parameter. */
  function Build(head: string, cs: seq<Clause>, order: string, limit: int): (q: Query)
    requires '?' !in head && '?' !in order && Unmarked(cs)
    ensures Balanced(q)
    ensures q.params == ClauseParams(cs) + [Number(limit)]
    ensures |q.params| == Present(cs) + 1
    ensures q.sql == head + ClauseSql(cs) + order + "?"
  {
    var sql := head + ClauseSql(cs) + order + "?";
    ClausesBalanced(cs);
    PlaceholdersAppend(head + ClauseSql(cs) + order, "?");
    PlaceholdersAppend(head + ClauseSql(cs), order);
    PlaceholdersAppend(head, ClauseSql(cs));
    PlaceholdersNone(head);
    PlaceholdersNone(order);
    Query(sql, ClauseParams(cs) + [Number(limit)])
  }

  /** `f"%{value}%"`. */
  function Like(value: string): string
  {
    "%" + value + "%"
  }

  /** Python's truth value of an optional filter: `None`, `0` and `''` are false. */
  function Flag(present: bool): nat
  {
    if present then 1 else 0
  }

  /** The number of present clauses in a three-clause list is the sum of their truth values. */
  lemma PresentThree(a: Clause, b: Clause, c: Clause)
    ensures Present([a, b, c]) == Flag(a.present) + Flag(b.present) + Flag(c.present)
  {
    assert [a, b, c][..2] == [a, b];
    PresentTwo(a, b);
  }

  /** The same for a two-clause list; the builders use these to count their parameters. */
  lemma PresentTwo(a: Clause, b: Clause)
    ensures Present([a, b]) == Flag(a.present) + Flag(b.present)
  {
    assert [a][..0] == [];
    assert Present([a]) == Flag(a.present);
    assert [a, b][..1] == [a];
  }

  /** The same for the five clauses of `query_bookings`. */
  lemma PresentFive(a: Clause, b: Clause, c: Clause, d: Clause, e: Clause)
    ensures Present([a, b, c, d, e]) == Flag(a.present) + Flag(b.present) + Flag(c.present)
      + Flag(d.present) + Flag(e.present)
  {
    assert [a, b, c, d, e][..4] == [a, b, c, d];
    assert [a, b, c, d][..3] == [a, b, c];
    PresentThree(a, b, c);
  }

  const Select: string := "SELECT"
  const CreatedAt: string := "created_at"
  const NewestFirst: string := " ORDER BY " + CreatedAt + " DESC LIMIT "
  const ResourcesFrom: string := " * FROM resources WHERE 1=1"

  /** The fixed text of `query_resources` holds no `?` of its own ... */
  lemma ResourceFixedTextUnmarked()
    ensures '?' !in Select + ResourcesFrom && '?' !in NewestFirst
  {
  }

  /** ... nor do its filter texts. */
  lemma ResourceFiltersUnmarked()
    ensures '?' !in " AND category LIKE " && '?' !in " AND location LIKE " && '?' !in " AND status = "
  {
  }

  /** The optional filters of `query_resources`. */
  function ResourceClauses(category: string, location: string, status: string): (cs: seq<Clause>)
    ensures Unmarked(cs)
    ensures Present(cs) == Flag(|category| > 0) + Flag(|location| > 0) + Flag(|status| > 0)
  {
    var cs := [Clause(|category| > 0, " AND category LIKE ", Text(Like(category))),
               Clause(|location| > 0, " AND location LIKE ", Text(Like(location))),
               Clause(|status| > 0, " AND status = ", Text(status))];
    PresentThree(cs[0], cs[1], cs[2]);
    ResourceFiltersUnmarked();
    cs
  }

  /** `query_resources`: optional category and location `LIKE` filters and
      a status filter, newest first. An empty string stands for `None`. */
  function QueryResources(category: string, location: string, status: string, limit: int): (q: Query)
    ensures Balanced(q)
    ensures |q.params| == Flag(|category| > 0) + Flag(|location| > 0) + Flag(|status| > 0) + 1
    ensures q.params[|q.params| - 1] == Number(limit)
    ensures q.sql == Select + ResourcesFrom + ClauseSql(ResourceClauses(category, location, status)) + NewestFirst + "?"
  {
    ResourceFixedTextUnmarked();
    Build(Select + ResourcesFrom, ResourceClauses(category, location, status), NewestFirst, limit)
  }

  const BookingsHead: string := Select + " * FROM bookings WHERE 1=1"
  const LatestStartFirst: string := " ORDER BY start_datetime DESC LIMIT "

  /** The fixed text of `query_bookings` holds no `?` of its own ... */
  lemma BookingFixedTextUnmarked()
    ensures '?' !in BookingsHead && '?' !in LatestStartFirst
  {
  }

  /** ... nor do its filter texts. */
  lemma BookingFiltersUnmarked()
    ensures '?' !in " AND resource_id = " && '?' !in " AND requester_id = " && '?' !in " AND status = "
    ensures '?' !in " AND start_datetime >= " && '?' !in " AND end_datetime <= "
  {
  }

  /** The optional filters of `query_bookings`. */
  function BookingClauses(resourceId: int, requesterId: int, status: string, startDate: string, endDate: string)
    : (cs: seq<Clause>)
    ensures Unmarked(cs)
    ensures Present(cs) == Flag(resourceId != 0) + Flag(requesterId != 0) + Flag(|status| > 0)
      + Flag(|startDate| > 0) + Flag(|endDate| > 0)
  {
    var cs := [Clause(resourceId != 0, " AND resource_id = ", Number(resourceId)),
               Clause(requesterId != 0, " AND requester_id = ", Number(requesterId)),
               Clause(|status| > 0, " AND status = ", Text(status)),
               Clause(|startDate| > 0, " AND start_datetime >= ", Text(startDate)),
               Clause(|endDate| > 0, " AND end_datetime <= ", Text(endDate))];
    PresentFive(cs[0], cs[1], cs[2], cs[3], cs[4]);
    BookingFiltersUnmarked();
    cs
  }

  /** `query_bookings`: optional resource, requester, status and date-range
      filters, latest start first. Zero and the empty string stand for `None`. */
  function QueryBookings(resourceId: int, requesterId: int, status: string, startDate: string, endDate: string,
                         limit: int): (q: Query)
    ensures Balanced(q)
    ensures |q.params| == Flag(resourceId != 0) + Flag(requesterId != 0) + Flag(|status| > 0)
      + Flag(|startDate| > 0) + Flag(|endDate| > 0) + 1
    ensures q.params[|q.params| - 1] == Number(limit)
  {
    BookingFixedTextUnmarked();
    Build(BookingsHead, BookingClauses(resourceId, requesterId, status, startDate, endDate), LatestStartFirst, limit)
  }

  const ReviewsHead: string := Select + " * FROM reviews WHERE 1=1"
  const LatestReviewFirst: string := " ORDER BY timestamp DESC LIMIT "

  /** The fixed text of `query_reviews` holds no `?` of its own ... */
  lemma ReviewFixedTextUnmarked()
    ensures '?' !in ReviewsHead && '?' !in LatestReviewFirst
  {
  }

  /** ... nor do its filter texts. */
  lemma ReviewFiltersUnmarked()
    ensures '?' !in " AND resource_id = " && '?' !in " AND reviewer_id = " && '?' !in " AND rating >= "
  {
  }

  /** The optional filters of `query_reviews`. */
  function ReviewClauses(resourceId: int, reviewerId: int, minRating: int): (cs: seq<Clause>)
    ensures Unmarked(cs)
    ensures Present(cs) == Flag(resourceId != 0) + Flag(reviewerId != 0) + Flag(minRating != 0)
  {
    var cs := [Clause(resourceId != 0, " AND resource_id = ", Number(resourceId)),
               Clause(reviewerId != 0, " AND reviewer_id = ", Number(reviewerId)),
               Clause(minRating != 0, " AND rating >= ", Number(minRating))];
    PresentThree(cs[0], cs[1], cs[2]);
    ReviewFiltersUnmarked();
    cs
  }

  /** `query_reviews`: optional resource, reviewer and minimum-rating filters, newest first. */
  function QueryReviews(resourceId: int, reviewerId: int, minRating: int, limit: int): (q: Query)
    ensures Balanced(q)
    ensures |q.params| == Flag(resourceId != 0) + Flag(reviewerId != 0) + Flag(minRating != 0) + 1
    ensures q.params[|q.params| - 1] == Number(limit)
  {
    ReviewFixedTextUnmarked();
    Build(ReviewsHead, ReviewClauses(resourceId, reviewerId, minRating), LatestReviewFirst, limit)
  }

  /** `query_users`' text opens with a line break and indentation, and selects
      the columns other than the password hash. */
  const UsersIndent: string := "\n        "
  const UsersColumns: string :=
    " \n            " + "user_id, name, role, department, " + CreatedAt + "\n        FROM users\n        WHERE 1=1\n    "

  /** The fixed text of `query_users` holds no `?` of its own ... */
  lemma UserFixedTextUnmarked()
    ensures '?' !in UsersIndent + Select + UsersColumns && '?' !in NewestFirst
  {
    UsersColumnsUnmarked();
  }

  lemma UsersColumnsUnmarked()
    ensures '?' !in UsersColumns
  {
    var a, b, c := " \n            ", "user_id, name, role, department, ", "\n        FROM users\n        WHERE 1=1\n    ";
    assert '?' !in a && '?' !in b && '?' !in c && '?' !in CreatedAt;
    assert UsersColumns == a + b + CreatedAt + c;
  }

  /** ... nor do its filter texts. */
  lemma UserFiltersUnmarked()
    ensures '?' !in " AND role = " && '?' !in " AND department LIKE "
  {
  }

  /** The optional filters of `query_users`. */
  function UserClauses(role: string, department: string): (cs: seq<Clause>)
    ensures Unmarked(cs)
    ensures Present(cs) == Flag(|role| > 0) + Flag(|department| > 0)
  {
    var cs := [Clause(|role| > 0, " AND role = ", Text(role)),
               Clause(|department| > 0, " AND department LIKE ", Text(Like(department)))];
    PresentTwo(cs[0], cs[1]);
    UserFiltersUnmarked();
    cs
  }

  /** `query_users`: optional role and department filters, newest first. */
  function QueryUsers(role: string, department: string, limit: int): (q: Query)
    ensures Balanced(q)
    ensures |q.params| == Flag(|role| > 0) + Flag(|department| > 0) + 1
    ensures q.params[|q.params| - 1] == Number(limit)
    ensures q.sql == UsersIndent + Select + UsersColumns + ClauseSql(UserClauses(role, department)) + NewestFirst + "?"
  {
    UserFixedTextUnmarked();
    Build(UsersIndent + Select + UsersColumns, UserClauses(role, department), NewestFirst, limit)
  }

  /** Leading whitespace is stripped away. */
  lemma {:induction false} StripIndent(indent: string, text: string)
    requires forall k :: 0 <= k < |indent| ==> IsSpace(indent[k])
    requires |text| > 0 && !IsSpace(text[0]) && !IsSpace(text[|text| - 1])
    ensures Strip(indent + text) == text
    decreases |indent|
  {
    if |indent| == 0 {
      assert indent + text == text;
      StripUnpadded(text);
    } else {
      assert (indent + text)[1..] == indent[1..] + text;
      StripIndent(indent[1..], text);
    }
  }

  /** A `SELECT` ending in the newest-first `ORDER BY` and its placeholder:
      unpadded, a `SELECT` to the guard, and mentioning `created_at`. */
  lemma OrderedSelectShape(before: string)
    ensures var t := Select + before + NewestFirst + "?";
      && |t| > 0 && !IsSpace(t[0]) && !IsSpace(t[|t| - 1])
      && StartsWith(Upper(t), "SELECT") && Contains(t, "created_at")
  {
    var t := Select + before + NewestFirst + "?";
    assert t[0] == 'S' && t[|t| - 1] == '?';
    assert t[..6] == Select;
    UpperSlice(t, 0, 6);
    assert Upper("SELECT") == "SELECT";
    var lead := Select + before + " ORDER BY ";
    assert t == lead + CreatedAt + (" DESC LIMIT " + "?");
    assert t[|lead|..|lead| + |CreatedAt|] == CreatedAt;
    ContainsAt(t, CreatedAt, |lead|);
  }

  /** Such a text, after any indentation, is refused for mentioning `CREATE`. */
  lemma OrderedSelectRefused(indent: string, before: string)
    requires forall k :: 0 <= k < |indent| ==> IsSpace(indent[k])
    ensures Guard(indent + Select + before + NewestFirst + "?") == Some(WriteRefused)
  {
    var t := Select + before + NewestFirst + "?";
    assert indent + Select + before + NewestFirst + "?" == indent + t;
    assert Strip(indent + t) == t && StartsWith(Upper(t), "SELECT") && Contains(t, "created_at") by {
      OrderedSelectShape(before);
      StripIndent(indent, t);
    }
    CreatedAtRefused(indent + t);
  }

  /** `created_at` in the `ORDER BY` makes `query_resources` fail whatever its arguments. */
  lemma QueryResourcesAlwaysRefused(category: string, location: string, status: string, limit: int)
    ensures Guard(QueryResources(category, location, status, limit).sql) == Some(WriteRefused)
  {
    var clauses := ClauseSql(ResourceClauses(category, location, status));
    Regroup("", Select, ResourcesFrom, clauses, NewestFirst, "?");
    assert "" + Select == Select;
    OrderedSelectRefused("", ResourcesFrom + clauses);
  }

  lemma UsersIndentBlank()
    ensures forall k :: 0 <= k < |UsersIndent| ==> IsSpace(UsersIndent[k])
  {
  }

  /** ... and so does `query_users`, which also selects the column. */
  lemma QueryUsersAlwaysRefused(role: string, department: string, limit: int)
    ensures Guard(QueryUsers(role, department, limit).sql) == Some(WriteRefused)
  {
    var clauses := ClauseSql(UserClauses(role, department));
    Regroup(UsersIndent, Select, UsersColumns, clauses, NewestFirst, "?");
    UsersIndentBlank();
    OrderedSelectRefused(UsersIndent, UsersColumns + clauses);
  }

  lemma Regroup(a: string, b: string, c: string, d: string, e: string, f: string)
    ensures a + b + c + d + e + f == a + b + (c + d) + e + f
  {
  }

  // ---- availability and summary ----

  /** `check_availability` of the tools: the pending and approved bookings of
      the resource that touch or overlap the period, with inclusive bounds. */
  datatype AvailabilityReply = AvailabilityReply(available: bool, conflicts: seq<Booking>)

  function McpCheckAvailability(bookings: seq<Booking>, rid: int, s: int, e: int): (r: AvailabilityReply)
    ensures r.available <==> |r.conflicts| == 0
    ensures forall i :: 0 <= i < |r.conflicts| ==> r.conflicts[i] in bookings && Conflicts(r.conflicts[i], rid, s, e)
    ensures forall i :: 0 <= i < |bookings| && Conflicts(bookings[i], rid, s, e) ==> bookings[i] in r.conflicts
  {
    var conflicts := CheckConflicts(bookings, rid, s, e);
    AvailabilityReply(|conflicts| == 0, conflicts)
  }

  /** A held booking ending exactly at the start makes the period unavailable to
      the tool, though the booking page's check lets it through. */
  lemma TouchingUnavailable(bookings: seq<Booking>, rid: int, s: int, e: int, i: int)
    requires 0 <= i < |bookings| && bookings[i].resourceId == rid && Holds(bookings[i])
    requires bookings[i].start < bookings[i].end == s < e
    ensures !McpCheckAvailability(bookings, rid, s, e).available
    ensures !Blocks(bookings[i], rid, s, e)
  {
    assert bookings[i] in McpCheckAvailability(bookings, rid, s, e).conflicts;
  }

  /** Where the tool says available, nothing blocks the booking page's check either. */
  lemma ToolAvailableNoBlocking(bookings: seq<Booking>, rid: int, s: int, e: int)
    requires s < e && ProperIntervals(bookings)
    requires McpCheckAvailability(bookings, rid, s, e).available
    ensures NoBlocking(bookings, rid, s, e)
  {
    forall i | 0 <= i < |bookings|
      ensures !Blocks(bookings[i], rid, s, e)
    {
      if Blocks(bookings[i], rid, s, e) {
        BlockingAmongConflicts(bookings, rid, s, e, i);
      }
    }
  }

  /** The number of the resource's bookings, all or with one status. */
  function CountBookings(bookings: seq<Booking>, rid: int, status: Option<BookingStatus>): (n: nat)
    ensures n <= |bookings|
    ensures n == |Filter(bookings, (b: Booking) => b.resourceId == rid && (status.None? || b.status == status.value))|
  {
    if |bookings| == 0 then 0
    else
      var init := bookings[..|bookings| - 1];
      var last := bookings[|bookings| - 1];
      assert bookings == init + [last];
      FilterSnoc(init, last, (b: Booking) => b.resourceId == rid && (status.None? || b.status == status.value));
      CountBookings(init, rid, status)
        + (if last.resourceId == rid && (status.None? || last.status == status.value) then 1 else 0)
  }

  lemma {:induction false} StatusCountsWithinTotal(bookings: seq<Booking>, rid: int)
    ensures CountBookings(bookings, rid, Some(Approved)) + CountBookings(bookings, rid, Some(Pending))
      + CountBookings(bookings, rid, Some(Completed)) <= CountBookings(bookings, rid, None)
    decreases |bookings|
  {
    if |bookings| > 0 {
      StatusCountsWithinTotal(bookings[..|bookings| - 1], rid);
    }
  }

  /** `get_resource_summary`: the not-found reply, or the resource with its
      booking counts and review count (the average rating is not modelled). */
  datatype SummaryReply =
    | ResourceNotFound
    | Summary(resource: Resource, total: nat, approved: nat, pending: nat, completed: nat, reviews: nat)

  function ResourceSummary(resources: seq<Resource>, bookings: seq<Booking>, reviews: seq<RD.Review>, rid: int)
    : (r: SummaryReply)
    ensures r.ResourceNotFound? <==> FindResource(resources, rid).None?
    ensures r.Summary? ==> r.resource in resources && r.resource.id == rid
    ensures r.Summary? ==> r.approved + r.pending + r.completed <= r.total
    ensures r.Summary? ==> r.total == CountBookings(bookings, rid, None) && r.reviews == RD.CountReviews(reviews, rid)
    ensures r.Summary? ==> && r.approved == CountBookings(bookings, rid, Some(Approved))
                           && r.pending == CountBookings(bookings, rid, Some(Pending))
                           && r.completed == CountBookings(bookings, rid, Some(Completed))
  {
    match FindResource(resources, rid)
    case None => ResourceNotFound
    case Some(res) =>
      StatusCountsWithinTotal(bookings, rid);
      Summary(res, CountBookings(bookings, rid, None), CountBookings(bookings, rid, Some(Approved)),
              CountBookings(bookings, rid, Some(Pending)), CountBookings(bookings, rid, Some(Completed)),
              RD.CountReviews(reviews, rid))
  }
}
