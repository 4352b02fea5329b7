/** Role-change requests: a student asks to become staff or admin, and an
    admin approves or denies. A request starts pending; approved and denied
    are terminal; a user has at most one pending request at a time.
 */
module RoleRequestDal {
  import opened Base
  import opened Sorting
  import M = Models

  datatype RequestStatus = Pending | Approved | Denied

  function RequestStatusName(s: RequestStatus): string
  {
    match s
    case Pending => "pending"
    case Approved => "approved"
    case Denied => "denied"
  }

  datatype RoleRequest = RoleRequest(
    id: int,
    userId: int,
    requestedRole: M.Role,
    reason: Option<string>,
    status: RequestStatus,
    adminId: Option<int>,
    adminNotes: Option<string>,
    createdAt: int,
    processedAt: Option<int>)

  /** The roles a request may ask for: the text `staff` or `admin`. */
  function RequestableRole(text: string): (r: Option<M.Role>)
    ensures r.Some? <==> text == "staff" || text == "admin"
    ensures r.Some? ==> r.value != M.Student && M.RoleName(r.value) == text
  {
    if text == "staff" then Some(M.Staff)
    else if text == "admin" then Some(M.Admin)
    else None
  }

  function FindRequest(requests: seq<RoleRequest>, id: int): (r: Option<RoleRequest>)
    ensures r.Some? ==> r.value in requests && r.value.id == id
    ensures r.None? ==> forall i :: 0 <= i < |requests| ==> requests[i].id != id
  {
    if |requests| == 0 then None
    else if requests[0].id == id then Some(requests[0])
    else FindRequest(requests[1..], id)
  }

  /** `get_pending_by_user`: the user's first pending request. */
  function GetPendingByUser(requests: seq<RoleRequest>, uid: int): (r: Option<RoleRequest>)
    ensures r.Some? ==> r.value in requests && r.value.userId == uid && r.value.status == Pending
    ensures r.None? <==> forall i :: 0 <= i < |requests| ==>
      !(requests[i].userId == uid && requests[i].status == Pending)
  {
    if |requests| == 0 then None
    else if requests[0].userId == uid && requests[0].status == Pending then Some(requests[0])
    else GetPendingByUser(requests[1..], uid)
  }

  function FreshRequestId(requests: seq<RoleRequest>): (id: int)
    ensures forall i :: 0 <= i < |requests| ==> requests[i].id < id
  {
    if |requests| == 0 then 1
    else
      var rest := FreshRequestId(requests[..|requests| - 1]);
      if requests[|requests| - 1].id < rest then rest else requests[|requests| - 1].id + 1
  }

  /** `RoleChangeRequestDAL.create`: `ValueError` for a role other than staff
      or admin, or when the user already has a pending request. */
  function Create(requests: seq<RoleRequest>, uid: int, requestedRole: string, reason: Option<string>, now: int)
    : (r: Outcome<(seq<RoleRequest>, RoleRequest)>)
    ensures r.Ok? <==> RequestableRole(requestedRole).Some? && GetPendingByUser(requests, uid).None?
    ensures r.Raised? ==> r.error == ValueError
    ensures r.Ok? ==> r.value.0 == requests + [r.value.1]
    ensures r.Ok? ==> (r.value.1.userId == uid && r.value.1.status == Pending
      && r.value.1.requestedRole == RequestableRole(requestedRole).value
      && r.value.1.adminId.None? && r.value.1.processedAt.None?)
    ensures r.Ok? ==> forall i :: 0 <= i < |requests| ==> requests[i].id != r.value.1.id
  {
    match RequestableRole(requestedRole)
    case None => Raised(ValueError)
    case Some(role) =>
      if GetPendingByUser(requests, uid).Some? then Raised(ValueError)
      else
        var request := RoleRequest(FreshRequestId(requests), uid, role, reason, Pending, None, None, now, None);
        Ok((requests + [request], request))
  }

  /** `get_all(status)`: a truthy status filters; newest first. */
  function GetAll(requests: seq<RoleRequest>, status: string): (r: seq<RoleRequest>)
    ensures multiset(r) == multiset(Filter(requests, (q: RoleRequest) => status == "" || RequestStatusName(q.status) == status))
    ensures forall i :: 0 <= i < |r| ==> r[i] in requests
    ensures status != "" ==> forall i :: 0 <= i < |r| ==> RequestStatusName(r[i].status) == status
    ensures forall i :: 0 <= i < |requests| && (status == "" || RequestStatusName(requests[i].status) == status) ==>
      requests[i] in r
    ensures forall i, j :: 0 <= i < j < |r| ==> r[i].createdAt >= r[j].createdAt
  {
    var rows := Filter(requests, (q: RoleRequest) => status == "" || RequestStatusName(q.status) == status);
    OrderLimit(rows, (q: RoleRequest) => -q.createdAt, 0)
  }

  /** The row `id` with its decision recorded. */
  function Decide(requests: seq<RoleRequest>, id: int, status: RequestStatus, adminId: int, notes: Option<string>, now: int)
    : (r: seq<RoleRequest>)
    ensures |r| == |requests|
    ensures forall i :: 0 <= i < |requests| && requests[i].id != id ==> r[i] == requests[i]
    ensures forall i :: 0 <= i < |requests| && requests[i].id == id ==>
      r[i] == requests[i].(status := status, adminId := Some(adminId), adminNotes := notes, processedAt := Some(now))
  {
    seq(|requests|, i requires 0 <= i < |requests| =>
      if requests[i].id == id
      then requests[i].(status := status, adminId := Some(adminId), adminNotes := notes, processedAt := Some(now))
      else requests[i])
  }

  /** `UserDAL.update(user_id, role=...)`: every row with that id takes the role. */
  function SetRole(users: seq<M.User>, uid: int, role: M.Role): (r: seq<M.User>)
    ensures |r| == |users|
    ensures forall i :: 0 <= i < |users| ==> r[i] == (if users[i].id == uid then users[i].(role := role) else users[i])
  {
    seq(|users|, i requires 0 <= i < |users| => if users[i].id == uid then users[i].(role := role) else users[i])
  }

  /** `approve`: `None` for an unknown id, `ValueError` unless pending;
      records the decision and gives the user the requested role. */
  function Approve(requests: seq<RoleRequest>, users: seq<M.User>, id: int, adminId: int, notes: Option<string>, now: int)
    : (r: Outcome<Option<(seq<RoleRequest>, seq<M.User>)>>)
    ensures FindRequest(requests, id).None? ==> r == Ok(None)
    ensures FindRequest(requests, id).Some? && FindRequest(requests, id).value.status != Pending ==> r == Raised(ValueError)
    ensures r.Ok? && r.value.Some? <==> FindRequest(requests, id).Some? && FindRequest(requests, id).value.status == Pending
    ensures r.Ok? && r.value.Some? ==> var q := FindRequest(requests, id).value;
      r.value.value == (Decide(requests, id, Approved, adminId, notes, now), SetRole(users, q.userId, q.requestedRole))
  {
    match FindRequest(requests, id)
    case None => Ok(None)
    case Some(q) =>
      if q.status != Pending then Raised(ValueError)
      else Ok(Some((Decide(requests, id, Approved, adminId, notes, now), SetRole(users, q.userId, q.requestedRole))))
  }

  /** `deny`: the same guards as `approve`; the user's role is untouched. */
  function Deny(requests: seq<RoleRequest>, id: int, adminId: int, notes: Option<string>, now: int)
    : (r: Outcome<Option<seq<RoleRequest>>>)
    ensures FindRequest(requests, id).None? ==> r == Ok(None)
    ensures FindRequest(requests, id).Some? && FindRequest(requests, id).value.status != Pending ==> r == Raised(ValueError)
    ensures r.Ok? && r.value.Some? <==> FindRequest(requests, id).Some? && FindRequest(requests, id).value.status == Pending
    ensures r.Ok? && r.value.Some? ==> r.value.value == Decide(requests, id, Denied, adminId, notes, now)
  {
    match FindRequest(requests, id)
    case None => Ok(None)
    case Some(q) =>
      if q.status != Pending then Raised(ValueError)
      else Ok(Some(Decide(requests, id, Denied, adminId, notes, now)))
  }

  /** Request ids are unique. */
  predicate UniqueRequestIds(requests: seq<RoleRequest>)
  {
    forall i, j :: 0 <= i < j < |requests| ==> requests[i].id != requests[j].id
  }

  /** No user has two pending requests. */
  predicate OnePendingEach(requests: seq<RoleRequest>)
  {
    forall i, j :: 0 <= i < j < |requests| && requests[i].status == Pending && requests[j].status == Pending ==>
      requests[i].userId != requests[j].userId
  }

  lemma {:induction false} FindRequestAt(requests: seq<RoleRequest>, id: int, k: int)
    requires UniqueRequestIds(requests) && 0 <= k < |requests| && requests[k].id == id
    ensures FindRequest(requests, id) == Some(requests[k])
    decreases k
  {
    if k > 0 {
      FindRequestAt(requests[1..], id, k - 1);
    }
  }

  /** Creating, approving and denying keep ids unique and at most one pending request per user. */
  lemma CreateKeepsInvariant(requests: seq<RoleRequest>, uid: int, requestedRole: string, reason: Option<string>, now: int)
    requires UniqueRequestIds(requests) && OnePendingEach(requests)
    ensures var r := Create(requests, uid, requestedRole, reason, now);
      r.Ok? ==> UniqueRequestIds(r.value.0) && OnePendingEach(r.value.0)
  {
  }

  lemma DecideKeepsInvariant(requests: seq<RoleRequest>, id: int, status: RequestStatus, adminId: int,
                             notes: Option<string>, now: int)
    requires UniqueRequestIds(requests) && OnePendingEach(requests) && status != Pending
    ensures UniqueRequestIds(Decide(requests, id, status, adminId, notes, now))
    ensures OnePendingEach(Decide(requests, id, status, adminId, notes, now))
  {
  }

  /** A decided request is final: a second approve or deny raises. */
  lemma DecisionIsFinal(requests: seq<RoleRequest>, users: seq<M.User>, id: int, adminId: int,
                        notes: Option<string>, now: int, later: int)
    requires UniqueRequestIds(requests)
    requires FindRequest(requests, id).Some?
    ensures var a := Approve(requests, users, id, adminId, notes, now);
      a.Ok? && a.value.Some? ==>
        && Approve(a.value.value.0, a.value.value.1, id, adminId, notes, later) == Raised(ValueError)
        && Deny(a.value.value.0, id, adminId, notes, later) == Raised(ValueError)
    ensures var d := Deny(requests, id, adminId, notes, now);
      d.Ok? && d.value.Some? ==>
        && Approve(d.value.value, users, id, adminId, notes, later) == Raised(ValueError)
        && Deny(d.value.value, id, adminId, notes, later) == Raised(ValueError)
  {
    var k :| 0 <= k < |requests| && requests[k].id == id;
    var approved := Decide(requests, id, Approved, adminId, notes, now);
    var denied := Decide(requests, id, Denied, adminId, notes, now);
    assert UniqueRequestIds(approved) && UniqueRequestIds(denied);
    FindRequestAt(approved, id, k);
    FindRequestAt(denied, id, k);
  }

  /** Approval changes only the requester's role; denial changes no user. */
  lemma ApproveGrantsRole(requests: seq<RoleRequest>, users: seq<M.User>, id: int, adminId: int,
                          notes: Option<string>, now: int)
    ensures var a := Approve(requests, users, id, adminId, notes, now);
      a.Ok? && a.value.Some? ==> var q := FindRequest(requests, id).value;
        forall i :: 0 <= i < |users| ==>
          a.value.value.1[i].role == (if users[i].id == q.userId then q.requestedRole else users[i].role)
  {
  }
}
