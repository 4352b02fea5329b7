/** `WaitlistDAL`: a first-in-first-out queue of users waiting for a
    resource at a requested datetime.

    An entry is `active` while it waits; `notified` once a slot frees up for
    it, `converted` once booked, `cancelled` when withdrawn. The queue for a
    resource and datetime is its active entries in `created_at` order.
 */
module WaitlistDal {
  import opened Base
  import opened Sorting

  datatype WaitStatus = Active | Notified | Converted | Cancelled

  function WaitStatusName(s: WaitStatus): string
  {
    match s
    case Active => "active"
    case Notified => "notified"
    case Converted => "converted"
    case Cancelled => "cancelled"
  }

  function ParseWaitStatus(text: string): Option<WaitStatus>
  {
    if text == "active" then Some(Active)
    else if text == "notified" then Some(Notified)
    else if text == "converted" then Some(Converted)
    else if text == "cancelled" then Some(Cancelled)
    else None
  }

  /** The documented waitlist status domain. */
  lemma WaitStatusDomain(s: WaitStatus, text: string)
    ensures ParseWaitStatus(WaitStatusName(s)) == Some(s)
    ensures ParseWaitStatus(text).Some? <==> text in {"active", "notified", "converted", "cancelled"}
  {
  }

  datatype Entry = Entry(
    id: int,
    resourceId: int,
    userId: int,
    requested: int,
    notifiedAt: Option<int>,
    status: WaitStatus,
    createdAt: int)

  /** Primary keys are unique. */
  predicate UniqueIds(t: seq<Entry>)
  {
    forall i, j :: 0 <= i < j < |t| ==> t[i].id != t[j].id
  }

  /** Rows were inserted in `created_at` order, as `create` stamps them. */
  predicate Chronological(t: seq<Entry>)
  {
    SortedBy(t, (e: Entry) => e.createdAt)
  }

  /** A key one above every key in use, as the autoincrement column assigns. */
  function FreshId(t: seq<Entry>): (id: int)
    ensures forall i :: 0 <= i < |t| ==> t[i].id < id
  {
    if |t| == 0 then 1
    else
      var rest := FreshId(t[..|t| - 1]);
      if t[|t| - 1].id < rest then rest else t[|t| - 1].id + 1
  }

  /** `create`: a new row stamped `now`, not yet notified. */
  function Create(t: seq<Entry>, resourceId: int, userId: int, requested: int, status: WaitStatus, now: int)
    : (r: (seq<Entry>, Entry))
    ensures r.0 == t + [r.1]
    ensures r.1.resourceId == resourceId && r.1.userId == userId && r.1.requested == requested
    ensures r.1.status == status && r.1.notifiedAt.None? && r.1.createdAt == now
    ensures UniqueIds(t) ==> UniqueIds(r.0)
  {
    var e := Entry(FreshId(t), resourceId, userId, requested, None, status, now);
    (t + [e], e)
  }

  /** `create` with its default status. */
  function Join(t: seq<Entry>, resourceId: int, userId: int, requested: int, now: int): (r: (seq<Entry>, Entry))
    ensures r.1.status == Active
  {
    Create(t, resourceId, userId, requested, Active, now)
  }

  function FindEntry(t: seq<Entry>, id: int): (r: Option<Entry>)
    ensures r.Some? ==> r.value in t && r.value.id == id
    ensures r.None? ==> forall i :: 0 <= i < |t| ==> t[i].id != id
  {
    if |t| == 0 then None
    else if t[0].id == id then Some(t[0])
    else FindEntry(t[1..], id)
  }

  /** `get_by_resource_and_user`: the first row for that resource and user,
      restricted to one status when one is given. */
  function GetByResourceAndUser(t: seq<Entry>, resourceId: int, userId: int, status: Option<WaitStatus>)
    : (r: Option<Entry>)
    ensures r.Some? ==> r.value in t && r.value.resourceId == resourceId && r.value.userId == userId
    ensures r.Some? && status.Some? ==> r.value.status == status.value
    ensures r.None? <==> forall i :: 0 <= i < |t| ==>
      !(t[i].resourceId == resourceId && t[i].userId == userId && (status.None? || t[i].status == status.value))
  {
    var hits := Filter(t, (e: Entry) =>
      e.resourceId == resourceId && e.userId == userId && (status.None? || e.status == status.value));
    if |hits| == 0 then None else Some(hits[0])
  }

  /** The `filter_by` clauses of `get_all`; a falsy argument adds no clause. */
  predicate Matches(e: Entry, resourceId: int, userId: int, status: Option<WaitStatus>)
  {
    && (resourceId == 0 || e.resourceId == resourceId)
    && (userId == 0 || e.userId == userId)
    && (status.None? || e.status == status.value)
  }

  /** `Matches` as a filter argument. */
  function KeepEntry(resourceId: int, userId: int, status: Option<WaitStatus>): Entry -> bool
  {
    (e: Entry) => Matches(e, resourceId, userId, status)
  }

  /** The rows the `filter_by` clauses select, in table order. */
  function MatchingEntries(t: seq<Entry>, resourceId: int, userId: int, status: Option<WaitStatus>): seq<Entry>
  {
    Filter(t, KeepEntry(resourceId, userId, status))
  }

  lemma MatchingEntriesMembers(t: seq<Entry>, resourceId: int, userId: int, status: Option<WaitStatus>)
    ensures forall e :: e in MatchingEntries(t, resourceId, userId, status) <==> e in t && Matches(e, resourceId, userId, status)
  {
    FilterMembers(t, KeepEntry(resourceId, userId, status));
  }

  /** The order of `get_all`: oldest first. */
  function CreatedKey(e: Entry): int
  {
    e.createdAt
  }

  /** `get_all`: filtered, oldest first, truthy limit. */
  function GetAll(t: seq<Entry>, resourceId: int, userId: int, status: Option<WaitStatus>, limit: nat)
    : (r: seq<Entry>)
    ensures var m := MatchingEntries(t, resourceId, userId, status);
      |r| == if 0 < limit < |m| then limit else |m|
    ensures multiset(r) <= multiset(MatchingEntries(t, resourceId, userId, status))
    ensures limit == 0 ==> multiset(r) == multiset(MatchingEntries(t, resourceId, userId, status))
    ensures forall i :: 0 <= i < |r| ==> r[i] in t && Matches(r[i], resourceId, userId, status)
    ensures forall i, j :: 0 <= i < j < |r| ==> r[i].createdAt <= r[j].createdAt
    ensures (limit == 0 || |r| < limit) ==>
      forall i :: 0 <= i < |t| && Matches(t[i], resourceId, userId, status) ==> t[i] in r
    ensures forall i :: 0 <= i < |t| && Matches(t[i], resourceId, userId, status) && t[i] !in r ==>
      forall j :: 0 <= j < |r| ==> r[j].createdAt <= t[i].createdAt
  {
    var r := OrderLimit(MatchingEntries(t, resourceId, userId, status), CreatedKey, limit);
    GetAllMembers(t, resourceId, userId, status, limit, r);
    GetAllOrder(t, resourceId, userId, status, limit, r);
    r
  }

  /** What `get_all` returns matches the filters, and below the limit every matching row is returned. */
  lemma GetAllMembers(t: seq<Entry>, resourceId: int, userId: int, status: Option<WaitStatus>, limit: nat, r: seq<Entry>)
    requires r == OrderLimit(MatchingEntries(t, resourceId, userId, status), CreatedKey, limit)
    ensures forall i :: 0 <= i < |r| ==> r[i] in t && Matches(r[i], resourceId, userId, status)
    ensures (limit == 0 || |r| < limit) ==>
      forall i :: 0 <= i < |t| && Matches(t[i], resourceId, userId, status) ==> t[i] in r
  {
    var m := MatchingEntries(t, resourceId, userId, status);
    MatchingEntriesMembers(t, resourceId, userId, status);
    forall i | 0 <= i < |r|
      ensures r[i] in t && Matches(r[i], resourceId, userId, status)
    {
      assert r[i] in m;
    }
    if limit == 0 || |r| < limit {
      forall i | 0 <= i < |t| && Matches(t[i], resourceId, userId, status)
        ensures t[i] in r
      {
        assert t[i] in m;
      }
    }
  }

  /** `get_all` is oldest first, and a matching row it leaves out was created no earlier than any it returns. */
  lemma GetAllOrder(t: seq<Entry>, resourceId: int, userId: int, status: Option<WaitStatus>, limit: nat, r: seq<Entry>)
    requires r == OrderLimit(MatchingEntries(t, resourceId, userId, status), CreatedKey, limit)
    ensures forall i, j :: 0 <= i < j < |r| ==> r[i].createdAt <= r[j].createdAt
    ensures forall i :: 0 <= i < |t| && Matches(t[i], resourceId, userId, status) && t[i] !in r ==>
      forall j :: 0 <= j < |r| ==> r[j].createdAt <= t[i].createdAt
  {
    MatchingEntriesMembers(t, resourceId, userId, status);
  }

  /** Membership of the queue for a resource and, when given, one exact datetime. */
  predicate Waiting(e: Entry, resourceId: int, requested: Option<int>)
  {
    e.resourceId == resourceId && e.status == Active && (requested.None? || e.requested == requested.value)
  }

  /** The queue: waiting entries, oldest first. */
  function Queue(t: seq<Entry>, resourceId: int, requested: Option<int>): (q: seq<Entry>)
    ensures forall i :: 0 <= i < |q| ==> q[i] in t && Waiting(q[i], resourceId, requested)
    ensures forall i :: 0 <= i < |t| && Waiting(t[i], resourceId, requested) ==> t[i] in q
    ensures SortedBy(q, (e: Entry) => e.createdAt)
    ensures multiset(q) == multiset(Filter(t, (e: Entry) => Waiting(e, resourceId, requested)))
  {
    var waiting := Filter(t, (e: Entry) => Waiting(e, resourceId, requested));
    var q := SortBy(waiting, (e: Entry) => e.createdAt);
    QueueMembers(t, resourceId, requested, waiting, q);
    q
  }

  /** Any reordering of the waiting rows holds exactly the table's waiting rows. */
  lemma QueueMembers(t: seq<Entry>, resourceId: int, requested: Option<int>, waiting: seq<Entry>, q: seq<Entry>)
    requires waiting == Filter(t, (e: Entry) => Waiting(e, resourceId, requested))
    requires multiset(q) == multiset(waiting)
    ensures forall i :: 0 <= i < |q| ==> q[i] in t && Waiting(q[i], resourceId, requested)
    ensures forall i :: 0 <= i < |t| && Waiting(t[i], resourceId, requested) ==> t[i] in q
  {
    SameMembers(waiting, q);
    FilterMembers(t, (e: Entry) => Waiting(e, resourceId, requested));
    forall i | 0 <= i < |q|
      ensures q[i] in t && Waiting(q[i], resourceId, requested)
    {
      assert q[i] in waiting;
    }
    forall i | 0 <= i < |t| && Waiting(t[i], resourceId, requested)
      ensures t[i] in q
    {
      assert t[i] in waiting;
    }
  }

  /** `get_next_in_queue`: the oldest waiting entry, if any. */
  function NextInQueue(t: seq<Entry>, resourceId: int, requested: Option<int>): (r: Option<Entry>)
    ensures r.Some? ==> r.value in t && Waiting(r.value, resourceId, requested)
    ensures r.Some? ==> forall i :: 0 <= i < |t| && Waiting(t[i], resourceId, requested) ==>
      r.value.createdAt <= t[i].createdAt
    ensures r.None? <==> forall i :: 0 <= i < |t| ==> !Waiting(t[i], resourceId, requested)
  {
    var q := Queue(t, resourceId, requested);
    QueueHead(t, resourceId, requested);
    if |q| == 0 then None else Some(q[0])
  }

  /** The queue is empty exactly when nobody waits, and its head is the oldest waiting row. */
  lemma QueueHead(t: seq<Entry>, resourceId: int, requested: Option<int>)
    ensures var q := Queue(t, resourceId, requested);
      |q| == 0 <==> forall i :: 0 <= i < |t| ==> !Waiting(t[i], resourceId, requested)
    ensures var q := Queue(t, resourceId, requested);
      |q| > 0 ==> forall i :: 0 <= i < |t| && Waiting(t[i], resourceId, requested) ==> q[0].createdAt <= t[i].createdAt
  {
    var q := Queue(t, resourceId, requested);
    forall i | 0 <= i < |t| && Waiting(t[i], resourceId, requested)
      ensures |q| > 0 && q[0].createdAt <= t[i].createdAt
    {
      var j :| 0 <= j < |q| && q[j] == t[i];
      assert j == 0 || (0 < j && q[0].createdAt <= q[j].createdAt);
    }
    if |q| > 0 {
      assert q[0] in t && Waiting(q[0], resourceId, requested);
    }
  }

  /** 1-based place of the first entry of `userId` in `q`, 0 when absent. */
  function Rank(q: seq<Entry>, userId: int): (r: nat)
    ensures r <= |q|
    ensures r > 0 ==> q[r - 1].userId == userId && forall j :: 0 <= j < r - 1 ==> q[j].userId != userId
    ensures r == 0 <==> forall j :: 0 <= j < |q| ==> q[j].userId != userId
  {
    if |q| == 0 then 0
    else if q[0].userId == userId then 1
    else
      var r := Rank(q[1..], userId);
      if r == 0 then 0 else r + 1
  }

  /** `get_position_in_queue`. */
  function Position(t: seq<Entry>, resourceId: int, userId: int, requested: Option<int>): (r: nat)
    ensures r <= |Queue(t, resourceId, requested)|
    ensures r == 0 <==> forall i :: 0 <= i < |t| ==> !(Waiting(t[i], resourceId, requested) && t[i].userId == userId)
  {
    var q := Queue(t, resourceId, requested);
    var r := Rank(q, userId);
    assert r > 0 ==> q[r - 1] in t;
    r
  }

  /** The user of the entry next in the queue is in position 1. */
  lemma NextHasPositionOne(t: seq<Entry>, resourceId: int, requested: Option<int>)
    requires NextInQueue(t, resourceId, requested).Some?
    ensures Position(t, resourceId, NextInQueue(t, resourceId, requested).value.userId, requested) == 1
  {
  }

  /** One attribute assignment of `update(**kwargs)`. `Other` names an
      attribute the row does not have, which `hasattr` skips. */
  datatype Assignment =
    | SetResource(resourceId: int)
    | SetUser(userId: int)
    | SetRequested(requested: int)
    | SetNotifiedAt(notifiedAt: Option<int>)
    | SetStatus(status: WaitStatus)
    | SetCreatedAt(createdAt: int)
    | Other(name: string)

  function Assign(e: Entry, a: Assignment): Entry
  {
    match a
    case SetResource(x) => e.(resourceId := x)
    case SetUser(x) => e.(userId := x)
    case SetRequested(x) => e.(requested := x)
    case SetNotifiedAt(x) => e.(notifiedAt := x)
    case SetStatus(x) => e.(status := x)
    case SetCreatedAt(x) => e.(createdAt := x)
    case Other(_) => e
  }

  /** The assignments applied left to right, as the keyword loop does. */
  function ApplyAll(e: Entry, assignments: seq<Assignment>): (r: Entry)
    ensures r.id == e.id
    ensures (forall k :: 0 <= k < |assignments| ==> !assignments[k].SetStatus?) ==> r.status == e.status
    ensures (forall k :: 0 <= k < |assignments| ==> !assignments[k].SetNotifiedAt?) ==> r.notifiedAt == e.notifiedAt
    ensures (forall k :: 0 <= k < |assignments| ==> !assignments[k].SetCreatedAt?) ==> r.createdAt == e.createdAt
    ensures (forall k :: 0 <= k < |assignments| ==> !assignments[k].SetResource?) ==> r.resourceId == e.resourceId
    ensures (forall k :: 0 <= k < |assignments| ==> !assignments[k].SetUser?) ==> r.userId == e.userId
    ensures (forall k :: 0 <= k < |assignments| ==> !assignments[k].SetRequested?) ==> r.requested == e.requested
    ensures (forall k :: 0 <= k < |assignments| ==> assignments[k].Other?) ==> r == e
    ensures |assignments| > 0 && assignments[|assignments| - 1].SetStatus? ==>
      r.status == assignments[|assignments| - 1].status
  {
    if |assignments| == 0 then e
    else Assign(ApplyAll(e, assignments[..|assignments| - 1]), assignments[|assignments| - 1])
  }

  /** `update(id, **kwargs)`: `None` for an unknown id; otherwise the row with
      that id gets the assignments and every other row is unchanged. */
  function Update(t: seq<Entry>, id: int, assignments: seq<Assignment>): (r: Option<(seq<Entry>, Entry)>)
    ensures r.None? <==> forall i :: 0 <= i < |t| ==> t[i].id != id
    ensures r.Some? ==> |r.value.0| == |t| && r.value.1.id == id
    ensures r.Some? ==> forall i :: 0 <= i < |t| && t[i].id != id ==> r.value.0[i] == t[i]
    ensures r.Some? ==> forall i :: 0 <= i < |t| && t[i].id == id ==> r.value.0[i] == ApplyAll(t[i], assignments)
    ensures r.Some? ==> r.value.1 == ApplyAll(FindEntry(t, id).value, assignments)
  {
    match FindEntry(t, id)
    case None => None
    case Some(found) =>
      var t' := seq(|t|, i requires 0 <= i < |t| => if t[i].id == id then ApplyAll(t[i], assignments) else t[i]);
      Some((t', ApplyAll(found, assignments)))
  }

  /** `notify_user`: status `notified`, `notified_at` stamped `now`. */
  function NotifyUser(t: seq<Entry>, id: int, now: int): (r: Option<(seq<Entry>, Entry)>)
    ensures r.None? <==> forall i :: 0 <= i < |t| ==> t[i].id != id
    ensures r.Some? ==> r.value.1.status == Notified && r.value.1.notifiedAt == Some(now) && |r.value.0| == |t|
    ensures r.Some? ==> forall i :: 0 <= i < |t| ==>
      r.value.0[i] == if t[i].id == id then t[i].(status := Notified, notifiedAt := Some(now)) else t[i]
  {
    Update(t, id, [SetStatus(Notified), SetNotifiedAt(Some(now))])
  }

  /** `convert_to_booking`: status `converted`, nothing else. */
  function ConvertToBooking(t: seq<Entry>, id: int): (r: Option<(seq<Entry>, Entry)>)
    ensures r.None? <==> forall i :: 0 <= i < |t| ==> t[i].id != id
    ensures r.Some? ==> r.value.1.status == Converted && |r.value.0| == |t|
    ensures r.Some? ==> forall i :: 0 <= i < |t| ==>
      r.value.0[i] == if t[i].id == id then t[i].(status := Converted) else t[i]
  {
    Update(t, id, [SetStatus(Converted)])
  }

  /** `cancel`: `True` and status `cancelled` for a known id, `False` and no change otherwise. */
  function Cancel(t: seq<Entry>, id: int): (r: (bool, seq<Entry>))
    ensures r.0 <==> exists i :: 0 <= i < |t| && t[i].id == id
    ensures !r.0 ==> r.1 == t
    ensures |r.1| == |t|
    ensures forall i :: 0 <= i < |t| ==> r.1[i] == if t[i].id == id then t[i].(status := Cancelled) else t[i]
  {
    match FindEntry(t, id)
    case None => (false, t)
    case Some(_) => (true, seq(|t|, i requires 0 <= i < |t| => if t[i].id == id then t[i].(status := Cancelled) else t[i]))
  }

  /** In a chronological table the queue is the waiting rows in table order. */
  lemma {:induction false} QueueInTableOrder(t: seq<Entry>, resourceId: int, requested: Option<int>)
    requires Chronological(t)
    ensures Queue(t, resourceId, requested) == Filter(t, (e: Entry) => Waiting(e, resourceId, requested))
  {
    var p := (e: Entry) => Waiting(e, resourceId, requested);
    var key := (e: Entry) => e.createdAt;
    FilterSorted(t, p, key);
    SortBySorted(Filter(t, p), key);
  }

  /** Notifying the oldest waiting row removes just that row from the waiting rows. */
  lemma NotifyRemovesHead(t: seq<Entry>, resourceId: int, requested: Option<int>, now: int)
    requires UniqueIds(t)
    requires |Filter(t, (e: Entry) => Waiting(e, resourceId, requested))| > 0
    ensures var head := Filter(t, (e: Entry) => Waiting(e, resourceId, requested))[0];
      var t' := NotifyUser(t, head.id, now).value.0;
      Filter(t', (e: Entry) => Waiting(e, resourceId, requested))
        == Filter(t, (e: Entry) => Waiting(e, resourceId, requested))[1..]
  {
    var p := (e: Entry) => Waiting(e, resourceId, requested);
    var head := Filter(t, p)[0];
    var k :| 0 <= k < |t| && t[k] == head;
    var t' := NotifyUser(t, head.id, now).value.0;
    forall j | 0 <= j < |t| && t[j] != head
      ensures t'[j] == t[j]
    {
      assert k != j;
      assert t[j].id != head.id;
    }
    FilterRemoveHead(t, t', p);
  }

  /** Notifying the head of a queue removes it from the queue and changes nothing else in it. */
  lemma {:induction false} NotifyShiftsQueue(t: seq<Entry>, resourceId: int, requested: Option<int>, now: int)
    requires UniqueIds(t) && Chronological(t)
    requires NextInQueue(t, resourceId, requested).Some?
    ensures var head := NextInQueue(t, resourceId, requested).value;
      Queue(NotifyUser(t, head.id, now).value.0, resourceId, requested) == Queue(t, resourceId, requested)[1..]
  {
    var head := NextInQueue(t, resourceId, requested).value;
    var t' := NotifyUser(t, head.id, now).value.0;
    QueueInTableOrder(t, resourceId, requested);
    NotifyKeepsChronological(t, head.id, now);
    QueueInTableOrder(t', resourceId, requested);
    NotifyRemovesHead(t, resourceId, requested, now);
  }

  lemma NotifyKeepsChronological(t: seq<Entry>, id: int, now: int)
    requires Chronological(t) && NotifyUser(t, id, now).Some?
    ensures Chronological(NotifyUser(t, id, now).value.0)
  {
    var t' := NotifyUser(t, id, now).value.0;
    forall i, j | 0 <= i < j < |t'| ensures t'[i].createdAt <= t'[j].createdAt {
      assert t[i].createdAt <= t[j].createdAt;
    }
  }

  /** ... so everyone behind the notified user moves up exactly one place. */
  lemma {:induction false} NotifyMovesQueueUp(t: seq<Entry>, resourceId: int, requested: Option<int>, now: int, userId: int)
    requires UniqueIds(t) && Chronological(t)
    requires NextInQueue(t, resourceId, requested).Some?
    requires userId != NextInQueue(t, resourceId, requested).value.userId
    ensures var t' := NotifyUser(t, NextInQueue(t, resourceId, requested).value.id, now).value.0;
      Position(t', resourceId, userId, requested) ==
        if Position(t, resourceId, userId, requested) == 0 then 0 else Position(t, resourceId, userId, requested) - 1
  {
    var t' := NotifyUser(t, NextInQueue(t, resourceId, requested).value.id, now).value.0;
    var q := Queue(t, resourceId, requested);
    NotifyShiftsQueue(t, resourceId, requested, now);
    assert Queue(t', resourceId, requested) == q[1..];
    NextIsQueueHead(t, resourceId, requested);
    PositionIsRank(t, resourceId, userId, requested);
    PositionIsRank(t', resourceId, userId, requested);
    assert Position(t', resourceId, userId, requested) == Rank(q[1..], userId);
    RankBehindHead(q, userId, Position(t, resourceId, userId, requested), Position(t', resourceId, userId, requested));
  }

  lemma NextIsQueueHead(t: seq<Entry>, resourceId: int, requested: Option<int>)
    requires NextInQueue(t, resourceId, requested).Some?
    ensures |Queue(t, resourceId, requested)| > 0
    ensures NextInQueue(t, resourceId, requested).value == Queue(t, resourceId, requested)[0]
  {
  }

  lemma PositionIsRank(t: seq<Entry>, resourceId: int, userId: int, requested: Option<int>)
    ensures Position(t, resourceId, userId, requested) == Rank(Queue(t, resourceId, requested), userId)
  {
  }

  /** Dropping the head of a queue moves a different user up one place. */
  lemma RankBehindHead(q: seq<Entry>, userId: int, before: nat, after: nat)
    requires |q| > 0 && q[0].userId != userId
    requires before == Rank(q, userId) && after == Rank(q[1..], userId)
    ensures after == if before == 0 then 0 else before - 1
  {
  }

  /** Rank of a user absent from `q` after appending their entry: the back of the queue. */
  lemma {:induction false} RankAppend(q: seq<Entry>, e: Entry)
    requires forall j :: 0 <= j < |q| ==> q[j].userId != e.userId
    ensures Rank(q + [e], e.userId) == |q| + 1
  {
    if |q| > 0 {
      assert (q + [e])[1..] == q[1..] + [e];
      RankAppend(q[1..], e);
    }
  }

  /** A user with no waiting entry for the slot who joins it lands at the
      back of the queue. */
  lemma {:induction false} JoinAtBack(t: seq<Entry>, resourceId: int, userId: int, requested: int, now: int)
    requires Chronological(t)
    requires forall i :: 0 <= i < |t| ==> t[i].createdAt <= now
    requires forall i :: 0 <= i < |t| ==> !(Waiting(t[i], resourceId, Some(requested)) && t[i].userId == userId)
    ensures var t' := Join(t, resourceId, userId, requested, now).0;
      Position(t', resourceId, userId, Some(requested)) == |Queue(t, resourceId, Some(requested))| + 1
  {
    var r := Join(t, resourceId, userId, requested, now);
    var e := r.1;
    var p := (x: Entry) => Waiting(x, resourceId, Some(requested));
    ChronologicalAppend(t, e);
    QueueInTableOrder(t, resourceId, Some(requested));
    QueueInTableOrder(t + [e], resourceId, Some(requested));
    FilterSnoc(t, e, p);
    var q := Filter(t, p);
    assert forall j :: 0 <= j < |q| ==> q[j].userId != userId;
    RankAppend(q, e);
    PositionIsRank(t + [e], resourceId, userId, Some(requested));
  }

  /** A row created no earlier than every other keeps the table chronological. */
  lemma ChronologicalAppend(t: seq<Entry>, e: Entry)
    requires Chronological(t)
    requires forall i :: 0 <= i < |t| ==> t[i].createdAt <= e.createdAt
    ensures Chronological(t + [e])
  {
    var t' := t + [e];
    forall i, j | 0 <= i < j < |t'| ensures t'[i].createdAt <= t'[j].createdAt {
      if j == |t| {
        assert t'[i] == t[i];
      } else {
        assert t'[i] == t[i] && t'[j] == t[j];
      }
    }
  }
}
