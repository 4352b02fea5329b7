/** The records of the application and the `Resource` helpers that read and
    write the `_metadata` entry of the availability-rules blob.

    Status columns are free text in the database; the model gives each the
    domain its column comment documents, with `Name`/`Parse` to move between
    the enumeration and the stored text.
 */
module Models {
  import opened Base
  import opened PyJson

  datatype Role = Student | Staff | Admin
  datatype ResourceStatus = Draft | Published | Archived
  datatype BookingStatus = Pending | Approved | Rejected | Cancelled | Completed

  function RoleName(r: Role): string
  {
    match r
    case Student => "student"
    case Staff => "staff"
    case Admin => "admin"
  }

  function ParseRole(text: string): Option<Role>
  {
    if text == "student" then Some(Student)
    else if text == "staff" then Some(Staff)
    else if text == "admin" then Some(Admin)
    else None
  }

  /** `'admin'` names the admin role. */
  lemma AdminRoleParses()
    ensures ParseRole("admin") == Some(Admin)
  {
    assert "admin"[0] == 'a' && "student"[0] == 's' && "staff"[0] == 's';
  }

  function ResourceStatusName(s: ResourceStatus): string
  {
    match s
    case Draft => "draft"
    case Published => "published"
    case Archived => "archived"
  }

  function ParseResourceStatus(text: string): Option<ResourceStatus>
  {
    if text == "draft" then Some(Draft)
    else if text == "published" then Some(Published)
    else if text == "archived" then Some(Archived)
    else None
  }

  function BookingStatusName(s: BookingStatus): string
  {
    match s
    case Pending => "pending"
    case Approved => "approved"
    case Rejected => "rejected"
    case Cancelled => "cancelled"
    case Completed => "completed"
  }

  function ParseBookingStatus(text: string): Option<BookingStatus>
  {
    if text == "pending" then Some(Pending)
    else if text == "approved" then Some(Approved)
    else if text == "rejected" then Some(Rejected)
    else if text == "cancelled" then Some(Cancelled)
    else if text == "completed" then Some(Completed)
    else None
  }

  /** The documented status domains: each stored name parses back to its
      status, and only the documented names parse. */
  lemma StatusDomains(r: Role, rs: ResourceStatus, bs: BookingStatus, text: string)
    ensures ParseRole(RoleName(r)) == Some(r)
    ensures ParseResourceStatus(ResourceStatusName(rs)) == Some(rs)
    ensures ParseBookingStatus(BookingStatusName(bs)) == Some(bs)
    ensures ParseResourceStatus(text).Some? <==> text in {"draft", "published", "archived"}
    ensures ParseBookingStatus(text).Some? <==>
      text in {"pending", "approved", "rejected", "cancelled", "completed"}
    ensures ParseRole(text).Some? ==> RoleName(ParseRole(text).value) == text
  {
  }

  datatype User = User(
    id: int,
    name: string,
    email: string,
    role: Role,
    suspended: bool,
    department: Option<string>)

  datatype Resource = Resource(
    id: int,
    ownerId: int,
    title: string,
    category: Option<string>,
    location: Option<string>,
    capacity: Option<int>,
    images: Blob,
    rules: Blob,
    status: ResourceStatus,
    createdAt: int)

  datatype Booking = Booking(
    id: int,
    resourceId: int,
    requesterId: int,
    start: int,
    end: int,
    status: BookingStatus,
    createdAt: int)

  /** Pending and approved bookings hold their slot; the other statuses do not. */
  predicate Holds(b: Booking)
  {
    b.status == Pending || b.status == Approved
  }

  /** `ResourceDAL.get_by_id`: the row with that primary key. */
  function FindResource(resources: seq<Resource>, id: int): (r: Option<Resource>)
    ensures r.Some? ==> r.value in resources && r.value.id == id
    ensures r.None? ==> forall i :: 0 <= i < |resources| ==> resources[i].id != id
  {
    if |resources| == 0 then None
    else if resources[0].id == id then Some(resources[0])
    else FindResource(resources[1..], id)
  }

  function FindBooking(bookings: seq<Booking>, id: int): (r: Option<Booking>)
    ensures r.Some? ==> r.value in bookings && r.value.id == id
    ensures r.None? ==> forall i :: 0 <= i < |bookings| ==> bookings[i].id != id
  {
    if |bookings| == 0 then None
    else if bookings[0].id == id then Some(bookings[0])
    else FindBooking(bookings[1..], id)
  }

  function FindUser(users: seq<User>, id: int): (r: Option<User>)
    ensures r.Some? ==> r.value in users && r.value.id == id
    ensures r.None? ==> forall i :: 0 <= i < |users| ==> users[i].id != id
  {
    if |users| == 0 then None
    else if users[0].id == id then Some(users[0])
    else FindUser(users[1..], id)
  }

  /** `BookingDAL.update(id, status=s)`: the row with that id gets status `s`. */
  function SetBookingStatus(bookings: seq<Booking>, id: int, s: BookingStatus): (r: seq<Booking>)
    ensures |r| == |bookings|
    ensures forall i :: 0 <= i < |r| ==>
      r[i] == if bookings[i].id == id then bookings[i].(status := s) else bookings[i]
  {
    seq(|bookings|, i requires 0 <= i < |bookings| =>
      if bookings[i].id == id then bookings[i].(status := s) else bookings[i])
  }

  const MetadataKey: string := "_metadata"
  const ApprovalKey: string := "requires_approval"

  /** `Resource._get_metadata`: the value under `_metadata`, or `{}` when the
      blob is empty, not JSON, or not an object. */
  function GetMetadata(rules: Blob): (md: Json)
    ensures !(rules.Encoded? && rules.doc.JObj?) ==> md == JObj(map[])
    ensures rules.Encoded? && rules.doc.JObj? && MetadataKey in rules.doc.fields ==>
      md == rules.doc.fields[MetadataKey]
  {
    match rules
    case Encoded(JObj(fields)) => if MetadataKey in fields then fields[MetadataKey] else JObj(map[])
    case _ => JObj(map[])
  }

  /** The `requires_approval` getter: whatever `_metadata` stores under the
      flag, `False` when absent, `AttributeError` when `_metadata` is not an object. */
  function RequiresApproval(rules: Blob): (r: Outcome<Json>)
  {
    Get(GetMetadata(rules), ApprovalKey, JBool(false))
  }

  /** `Resource._set_metadata`. The old blob is reloaded with `_metadata`
      removed (an unreadable or non-object blob counts as `{}`, but a list
      makes `pop` raise `TypeError`); a truthy `metadata` is stored under
      `_metadata`; the blob is rewritten only when the result is non-empty. */
  function SetMetadata(rules: Blob, metadata: Json): (r: Outcome<Blob>)
    ensures r.Raised? <==> rules.Encoded? && rules.doc.JArr?
    ensures r.Ok? && r.value != rules ==> r.value.Encoded? && r.value.doc.JObj?
  {
    var kept: Outcome<map<string, Json>> :=
      match rules
      case Encoded(JObj(fields)) => Ok(Without(fields, MetadataKey))
      case Encoded(JArr(_)) => Raised(TypeError)
      case _ => Ok(map[]);
    match kept
    case Raised(e) => Raised(e)
    case Ok(fields) =>
      var withMetadata := if Truthy(metadata) then fields[MetadataKey := metadata] else fields;
      if |withMetadata| > 0 then Ok(Encoded(JObj(withMetadata))) else Ok(rules)
  }

  /** The `requires_approval` setter: `metadata['requires_approval'] = bool(value)`
      on the current metadata, then `_set_metadata`. */
  function SetRequiresApproval(rules: Blob, value: Json): (r: Outcome<Blob>)
  {
    var md := GetMetadata(rules);
    if !md.JObj? then Raised(TypeError)
    else SetMetadata(rules, JObj(md.fields[ApprovalKey := JBool(Truthy(value))]))
  }

  /** The `availability_rules` entry of `Resource.to_dict`: `None` for an
      empty blob, the raw text when it is not JSON, the decoded object without
      `_metadata`, or any other decoded value unchanged. */
  function DisplayRules(rules: Blob): (r: Json)
    ensures r.JObj? && rules.Encoded? && rules.doc.JObj? ==> MetadataKey !in r.fields
    ensures rules.Unparseable? ==> r == JStr(rules.raw)
    ensures rules.Empty? ==> r == JNull
  {
    match rules
    case Empty => JNull
    case Unparseable(raw) => JStr(raw)
    case Encoded(JObj(fields)) => JObj(Without(fields, MetadataKey))
    case Encoded(doc) => doc
  }

  /** `requires_approval` reads false whenever the blob is empty, not JSON,
      not an object, or has no `_metadata.requires_approval`. */
  lemma RequiresApprovalDefaults(rules: Blob)
    ensures !(rules.Encoded? && rules.doc.JObj?) ==> RequiresApproval(rules) == Ok(JBool(false))
    ensures rules.Encoded? && rules.doc.JObj? && MetadataKey !in rules.doc.fields ==>
      RequiresApproval(rules) == Ok(JBool(false))
    ensures GetMetadata(rules).JObj? && ApprovalKey !in GetMetadata(rules).fields ==>
      RequiresApproval(rules) == Ok(JBool(false))
  {
  }

  /** Setting the flag and reading it back gives `bool(value)`; the setter
      fails only on a list blob or a non-object `_metadata`. */
  lemma {:induction false} RequiresApprovalRoundTrip(rules: Blob, value: Json)
    ensures SetRequiresApproval(rules, value).Raised? <==>
      (rules.Encoded? && rules.doc.JArr?) || !GetMetadata(rules).JObj?
    ensures SetRequiresApproval(rules, value).Ok? ==>
      RequiresApproval(SetRequiresApproval(rules, value).value) == Ok(JBool(Truthy(value)))
  {
    var md := GetMetadata(rules);
    if md.JObj? && SetRequiresApproval(rules, value).Ok? {
      var stored := JObj(md.fields[ApprovalKey := JBool(Truthy(value))]);
      assert Truthy(stored);
      var r := SetRequiresApproval(rules, value).value;
      assert r.Encoded? && r.doc.JObj? && r.doc.fields[MetadataKey] == stored;
    }
  }

  /** `_set_metadata` touches only `_metadata`: every weekday entry of an
      object blob survives unchanged. */
  lemma {:induction false} SetMetadataPreservesDays(fields: map<string, Json>, metadata: Json)
    requires Truthy(metadata)
    ensures SetMetadata(Encoded(JObj(fields)), metadata) ==
      Ok(Encoded(JObj(Without(fields, MetadataKey)[MetadataKey := metadata])))
    ensures var r := SetMetadata(Encoded(JObj(fields)), metadata).value.doc.fields;
      && (forall k :: k != MetadataKey ==> (k in r <==> k in fields))
      && (forall k :: k in r && k != MetadataKey ==> r[k] == fields[k])
      && r[MetadataKey] == metadata
  {
  }

  /** With empty metadata and nothing but `_metadata` in the blob, nothing is
      written: the old blob (still holding `_metadata`) is kept. */
  lemma {:induction false} SetEmptyMetadataKeepsBlob(previous: Json, metadata: Json)
    requires !Truthy(metadata)
    ensures SetMetadata(Encoded(JObj(map[MetadataKey := previous])), metadata) ==
      Ok(Encoded(JObj(map[MetadataKey := previous])))
  {
    var fields := map[MetadataKey := previous];
    assert Without(fields, MetadataKey) == map[];
  }
}
