/** The sign-in, self-registration and role-change-request pages. */
module Auth {
  import opened Base
  import opened PyText
  import opened Models
  import opened UserDal
  import RR = RoleRequestDal

  /** `form.get('email', '').strip().lower()`. */
  function FormEmail(text: string): string
  {
    Lower(Strip(text))
  }

  /** The login form: both fields required; the password is checked by
      `verify` (hashing is not modelled); a suspended account is refused even
      with the right password. */
  function Login(users: seq<User>, emailText: string, password: string, verify: (User, string) -> bool)
    : (r: Verdict<User>)
    ensures |FormEmail(emailText)| == 0 || |password| == 0 ==> r == Refused(MissingField)
    ensures r.Done? ==> r.value in users && !r.value.suspended && verify(r.value, password)
    ensures r.Done? ==> Lower(r.value.email) == NormalizeEmail(FormEmail(emailText))
    ensures r.Done? <==> (|FormEmail(emailText)| > 0 && |password| > 0
      && GetByEmail(users, FormEmail(emailText)).Some?
      && verify(GetByEmail(users, FormEmail(emailText)).value, password)
      && !GetByEmail(users, FormEmail(emailText)).value.suspended)
  {
    var email := FormEmail(emailText);
    if |email| == 0 || |password| == 0 then Refused(MissingField)
    else
      match GetByEmail(users, email)
      case None => Refused(Invalid)
      case Some(user) =>
        if !verify(user, password) then Refused(Invalid)
        else if user.suspended then Refused(Forbidden)
        else Done(user)
  }

  /** A suspended user never gets in. */
  lemma SuspendedCannotLogin(users: seq<User>, emailText: string, password: string, verify: (User, string) -> bool)
    requires GetByEmail(users, FormEmail(emailText)).Some? && GetByEmail(users, FormEmail(emailText)).value.suspended
    ensures !Login(users, emailText, password, verify).Done?
  {
  }

  /** The registration form's fields. */
  datatype RegisterForm = RegisterForm(
    name: string,
    email: string,
    password: string,
    confirm: string,
    department: string)

  datatype RegisterError =
    | NameRequired
    | EmailRequired
    | EmailFormat
    | PasswordRequired
    | PasswordShort
    | PasswordMismatch
    | EmailTaken

  const MinPasswordLength: nat := 8

  /** `[e]` when the check fails, nothing otherwise. */
  function ErrorIf(failed: bool, e: RegisterError): (r: seq<RegisterError>)
    ensures forall x :: x in r <==> failed && x == e
  {
    if failed then [e] else []
  }

  /** The email checks: required, then the `'@'` test. */
  function EmailErrors(email: string): (r: seq<RegisterError>)
    ensures forall x :: x in r <==> (|email| == 0 && x == EmailRequired) || (|email| > 0 && '@' !in email && x == EmailFormat)
  {
    if |email| == 0 then [EmailRequired] else ErrorIf('@' !in email, EmailFormat)
  }

  /** The password checks: required, then the minimum length. */
  function PasswordErrors(password: string): (r: seq<RegisterError>)
    ensures forall x :: x in r <==>
      (|password| == 0 && x == PasswordRequired) || (0 < |password| < MinPasswordLength && x == PasswordShort)
  {
    if |password| == 0 then [PasswordRequired] else ErrorIf(|password| < MinPasswordLength, PasswordShort)
  }

  lemma InFive<T>(x: T, a: seq<T>, b: seq<T>, c: seq<T>, d: seq<T>, e: seq<T>)
    ensures x in a + b + c + d + e <==> x in a || x in b || x in c || x in d || x in e
  {
  }

  /** The checks on the already-cleaned fields, in the page's order. */
  function FieldErrors(name: string, email: string, password: string, confirm: string, taken: bool)
    : (errors: seq<RegisterError>)
    ensures NameRequired in errors <==> |name| == 0
    ensures EmailRequired in errors <==> |email| == 0
    ensures EmailFormat in errors <==> |email| > 0 && '@' !in email
    ensures PasswordRequired in errors <==> |password| == 0
    ensures PasswordShort in errors <==> 0 < |password| < MinPasswordLength
    ensures PasswordMismatch in errors <==> password != confirm
    ensures EmailTaken in errors <==> |email| > 0 && taken
  {
    var a := ErrorIf(|name| == 0, NameRequired);
    var b := EmailErrors(email);
    var c := PasswordErrors(password);
    var d := ErrorIf(password != confirm, PasswordMismatch);
    var e := ErrorIf(|email| > 0 && taken, EmailTaken);
    InFive(NameRequired, a, b, c, d, e);
    InFive(EmailRequired, a, b, c, d, e);
    InFive(EmailFormat, a, b, c, d, e);
    InFive(PasswordRequired, a, b, c, d, e);
    InFive(PasswordShort, a, b, c, d, e);
    InFive(PasswordMismatch, a, b, c, d, e);
    InFive(EmailTaken, a, b, c, d, e);
    a + b + c + d + e
  }

  /** Every check of the registration form: the name and email are stripped
      (the email also lower-cased) before checking; the passwords are not. */
  function RegisterErrors(users: seq<User>, form: RegisterForm): (errors: seq<RegisterError>)
    ensures NameRequired in errors <==> |Strip(form.name)| == 0
    ensures EmailRequired in errors <==> |FormEmail(form.email)| == 0
    ensures EmailFormat in errors <==> |FormEmail(form.email)| > 0 && '@' !in FormEmail(form.email)
    ensures PasswordRequired in errors <==> |form.password| == 0
    ensures PasswordShort in errors <==> 0 < |form.password| < MinPasswordLength
    ensures PasswordMismatch in errors <==> form.password != form.confirm
    ensures EmailTaken in errors <==> |FormEmail(form.email)| > 0 && GetByEmail(users, FormEmail(form.email)).Some?
  {
    var email := FormEmail(form.email);
    FieldErrors(Strip(form.name), email, form.password, form.confirm, GetByEmail(users, email).Some?)
  }

  datatype Registration = Unregistered(errors: seq<RegisterError>) | Registered(users: seq<User>, user: User)

  /** The register page: any error creates nothing; otherwise a student account. */
  function Register(users: seq<User>, form: RegisterForm): (r: Registration)
    ensures r.Unregistered? <==> |RegisterErrors(users, form)| > 0
    ensures r.Unregistered? ==> r.errors == RegisterErrors(users, form)
    ensures r.Registered? ==> r.user.role == Student && !r.user.suspended
    ensures r.Registered? ==> r.users == users + [r.user] && r.user.email == FormEmail(form.email)
    ensures r.Registered? ==> GetByEmail(users, FormEmail(form.email)).None? && '@' in r.user.email
  {
    var errors := RegisterErrors(users, form);
    if |errors| > 0 then Unregistered(errors)
    else
      var department := if |Strip(form.department)| == 0 then None else Some(Strip(form.department));
      var (table, user) := CreateUser(users, Strip(form.name), FormEmail(form.email), Student, department);
      FormEmailNormal(form.email);
      Registered(table, user)
  }

  /** The form's email is already normalised: lower-case and stripped. */
  lemma FormEmailNormal(text: string)
    ensures NormalizeEmail(FormEmail(text)) == FormEmail(text)
  {
    var x := FormEmail(text);
    FormEmailNoUpper(text);
    LowerNoUpper(x);
    FormEmailUnpadded(text);
    StripUnpadded(x);
  }

  lemma FormEmailNoUpper(text: string)
    ensures forall i :: 0 <= i < |FormEmail(text)| ==> !IsUpper(FormEmail(text)[i])
  {
  }

  lemma FormEmailUnpadded(text: string)
    ensures var x := FormEmail(text); |x| == 0 || (!IsSpace(x[0]) && !IsSpace(x[|x| - 1]))
  {
    LowerUnpadded(Strip(text));
  }

  /** Lower-casing text without whitespace at either end leaves none there. */
  lemma LowerUnpadded(s: string)
    requires |s| > 0 ==> !IsSpace(s[0]) && !IsSpace(s[|s| - 1])
    ensures var x := Lower(s); |x| == 0 || (!IsSpace(x[0]) && !IsSpace(x[|x| - 1]))
  {
    if |s| > 0 {
      assert Lower(s)[0] == LowerChar(s[0]);
      assert Lower(s)[|s| - 1] == LowerChar(s[|s| - 1]);
    }
  }

  /** A new account can sign in with the email typed in any letter case. */
  lemma RegisteredCanBeFound(users: seq<User>, form: RegisterForm, spelling: string)
    requires Register(users, form).Registered?
    requires NormalizeEmail(FormEmail(spelling)) == NormalizeEmail(FormEmail(form.email))
    ensures GetByEmail(Register(users, form).users, FormEmail(spelling)) == Some(Register(users, form).user)
  {
    var department := if |Strip(form.department)| == 0 then None else Some(Strip(form.department));
    CreatedUserFound(users, Strip(form.name), FormEmail(form.email), Student, department, FormEmail(spelling));
  }

  /** The role-change request action: students only, staff or admin only;
      a pending request already on file is reported, not raised. */
  function RequestRoleChange(requests: seq<RR.RoleRequest>, actor: User, roleText: string, reasonText: string, now: int)
    : (r: Verdict<(seq<RR.RoleRequest>, RR.RoleRequest)>)
    ensures actor.role != Student ==> r == Refused(Forbidden)
    ensures r.Done? ==> actor.role == Student && RR.GetPendingByUser(requests, actor.id).None?
    ensures r.Done? ==> r.value.0 == requests + [r.value.1] && r.value.1.status == RR.Pending
    ensures r.Done? ==> r.value.1.requestedRole == Staff || r.value.1.requestedRole == Admin
    ensures (actor.role == Student && RR.RequestableRole(Strip(roleText)).Some?
      && RR.GetPendingByUser(requests, actor.id).Some?) ==> r == Refused(Duplicate)
    ensures actor.role == Student && RR.RequestableRole(Strip(roleText)).None? ==> r == Refused(Invalid)
    ensures r.Done? <==> (actor.role == Student && RR.RequestableRole(Strip(roleText)).Some?
      && RR.GetPendingByUser(requests, actor.id).None?)
    ensures r.Done? ==> r.value.1.userId == actor.id && r.value.1.requestedRole == RR.RequestableRole(Strip(roleText)).value
  {
    if actor.role != Student then Refused(Forbidden)
    else
      var role := Strip(roleText);
      if |role| == 0 || RR.RequestableRole(role).None? then Refused(Invalid)
      else
        var reason := if |Strip(reasonText)| == 0 then None else Some(Strip(reasonText));
        match RR.Create(requests, actor.id, role, reason, now)
        case Raised(_) => Refused(Duplicate)
        case Ok(created) => Done(created)
  }
}
