/** The two user-table operations the pages rely on: creating a user with a
    normalised email, and the case-insensitive lookup by email. Password
    hashing is not modelled.
 */
module UserDal {
  import opened Base
  import opened PyText
  import opened Models

  predicate IsUpper(c: char)
  {
    'A' <= c <= 'Z'
  }

  /** `email.lower().strip()`: no upper-case letter and no surrounding whitespace. */
  function NormalizeEmail(email: string): (r: string)
    ensures forall i :: 0 <= i < |r| ==> !IsUpper(r[i])
    ensures |r| > 0 ==> !IsSpace(r[0]) && !IsSpace(r[|r| - 1])
  {
    NormalizedNoUpper(email);
    Strip(Lower(email))
  }

  lemma NormalizedNoUpper(email: string)
    ensures forall i :: 0 <= i < |Strip(Lower(email))| ==> !IsUpper(Strip(Lower(email))[i])
  {
    var l := Lower(email);
    assert forall j :: 0 <= j < |l| ==> !IsUpper(l[j]);
    StripKeepsNoUpper(l);
  }

  /** Stripping only removes characters, so it adds no upper-case letter. */
  lemma StripKeepsNoUpper(s: string)
    requires forall j :: 0 <= j < |s| ==> !IsUpper(s[j])
    ensures forall i :: 0 <= i < |Strip(s)| ==> !IsUpper(Strip(s)[i])
  {
    StripFrom(s);
  }

  /** Lower-casing text without upper-case letters changes nothing. */
  lemma LowerNoUpper(s: string)
    requires forall i :: 0 <= i < |s| ==> !IsUpper(s[i])
    ensures Lower(s) == s
  {
  }

  /** `get_by_email`: the first user whose lower-cased email equals the normalised argument. */
  function GetByEmail(users: seq<User>, email: string): (r: Option<User>)
    ensures r.Some? ==> r.value in users && Lower(r.value.email) == NormalizeEmail(email)
    ensures r.None? <==> forall i :: 0 <= i < |users| ==> Lower(users[i].email) != NormalizeEmail(email)
  {
    FirstWithEmail(users, NormalizeEmail(email))
  }

  /** The scan behind `get_by_email`, for an already normalised key. */
  function FirstWithEmail(users: seq<User>, key: string): (r: Option<User>)
    ensures r.Some? ==> r.value in users && Lower(r.value.email) == key
    ensures r.None? <==> forall i :: 0 <= i < |users| ==> Lower(users[i].email) != key
  {
    if |users| == 0 then None
    else if Lower(users[0].email) == key then Some(users[0])
    else FirstWithEmail(users[1..], key)
  }

  /** A key one above every user key in use. */
  function FreshUserId(users: seq<User>): (id: int)
    ensures forall i :: 0 <= i < |users| ==> users[i].id < id
  {
    if |users| == 0 then 1
    else
      var rest := FreshUserId(users[..|users| - 1]);
      if users[|users| - 1].id < rest then rest else users[|users| - 1].id + 1
  }

  /** `UserDAL.create`: appends an active user whose stored email is normalised. */
  function CreateUser(users: seq<User>, name: string, email: string, role: Role, department: Option<string>)
    : (r: (seq<User>, User))
    ensures r.0 == users + [r.1]
    ensures r.1 == User(r.1.id, name, NormalizeEmail(email), role, false, department)
    ensures forall i :: 0 <= i < |users| ==> users[i].id != r.1.id
  {
    var u := User(FreshUserId(users), name, NormalizeEmail(email), role, false, department);
    (users + [u], u)
  }

  /** A new user is found by any spelling of the email that normalises the
      same way, unless an earlier user already claims it. */
  lemma CreatedUserFound(users: seq<User>, name: string, email: string, role: Role, department: Option<string>,
                         spelling: string)
    requires GetByEmail(users, email).None?
    requires NormalizeEmail(spelling) == NormalizeEmail(email)
    ensures var (table, u) := CreateUser(users, name, email, role, department);
      GetByEmail(table, spelling) == Some(u)
  {
    var (table, u) := CreateUser(users, name, email, role, department);
    LowerNoUpper(NormalizeEmail(email));
    if |users| > 0 {
      GetByEmailAppend(users, u, spelling);
    } else {
      assert table == [u];
    }
  }

  lemma {:induction false} GetByEmailAppend(users: seq<User>, u: User, spelling: string)
    requires GetByEmail(users, spelling).None? && Lower(u.email) == NormalizeEmail(spelling)
    ensures GetByEmail(users + [u], spelling) == Some(u)
    decreases |users|
  {
    if |users| == 0 {
      assert users + [u] == [u];
    } else {
      assert (users + [u])[1..] == users[1..] + [u];
      GetByEmailAppend(users[1..], u, spelling);
    }
  }
}
