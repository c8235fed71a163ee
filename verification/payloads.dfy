/** The request payloads of the account endpoints and the validation rules
    their struct tags declare. The validator reports, per field, the first tag
    that fails, naming the field by its struct field name. `required` on a
    string means non-empty; `min`/`max` count characters; `email` is the
    validator's own format check, taken here as the predicate `isEmail`. */
module Payloads {

  datatype RegisterUserPayload = RegisterUserPayload(
    username: string, email: string, password: string, role: string, subscription: string)

  datatype LoginUserPayload = LoginUserPayload(email: string, password: string)

  datatype ResendVerificationEmailPayload = ResendVerificationEmailPayload(email: string)

  /** The struct fields that carry validation tags. */
  datatype Field = Username | Email | Password | Role | Subscription

  /** The name `FieldError.Field()` reports: the Go struct field name. */
  function FieldName(f: Field): (name: string)
    ensures name != ""
  {
    match f
    case Username => "Username"
    case Email => "Email"
    case Password => "Password"
    case Role => "Role"
    case Subscription => "Subscription"
  }

  /** One entry of `validator.ValidationErrors`: the field and the failing tag. */
  datatype FieldError = FieldError(field: Field, tag: string)

  const MinPasswordLength: nat := 3
  const MaxPasswordLength: nat := 20

  /** No field is reported twice. */
  predicate DistinctFields(errs: seq<FieldError>) {
    forall i, j :: 0 <= i < j < |errs| ==> errs[i].field != errs[j].field
  }

  predicate Reports(errs: seq<FieldError>, f: Field) {
    exists i :: 0 <= i < |errs| && errs[i].field == f
  }

  /** At most one error, and only for the given field. */
  predicate AtMostOneFor(errs: seq<FieldError>, f: Field) {
    |errs| <= 1 && forall i :: 0 <= i < |errs| ==> errs[i].field == f
  }

  /** `validate:"required"`. */
  function Required(f: Field, value: string): (errs: seq<FieldError>)
    ensures AtMostOneFor(errs, f)
    ensures errs == [] <==> value != ""
  {
    if value == "" then [FieldError(f, "required")] else []
  }

  predicate ValidEmail(email: string, isEmail: string -> bool) {
    email != "" && isEmail(email)
  }

  /** `validate:"required,email"`. */
  function RequiredEmail(f: Field, value: string, isEmail: string -> bool): (errs: seq<FieldError>)
    ensures AtMostOneFor(errs, f)
    ensures errs == [] <==> ValidEmail(value, isEmail)
  {
    if value == "" then [FieldError(f, "required")]
    else if !isEmail(value) then [FieldError(f, "email")]
    else []
  }

  /** `validate:"required,min=3,max=20"`. */
  function RequiredBounded(f: Field, value: string): (errs: seq<FieldError>)
    ensures AtMostOneFor(errs, f)
    ensures errs == [] <==> MinPasswordLength <= |value| <= MaxPasswordLength
  {
    if value == "" then [FieldError(f, "required")]
    else if |value| < MinPasswordLength then [FieldError(f, "min")]
    else if |value| > MaxPasswordLength then [FieldError(f, "max")]
    else []
  }

  predicate ValidRegister(p: RegisterUserPayload, isEmail: string -> bool) {
    && p.username != ""
    && ValidEmail(p.email, isEmail)
    && MinPasswordLength <= |p.password| <= MaxPasswordLength
    && p.role != ""
    && p.subscription != ""
  }

  /** The field errors of a register payload, in struct field order; none
      exactly when the payload is valid. */
  function RegisterErrors(p: RegisterUserPayload, isEmail: string -> bool): (errs: seq<FieldError>)
    ensures errs == [] <==> ValidRegister(p, isEmail)
  {
    Required(Username, p.username) + RequiredEmail(Email, p.email, isEmail)
    + RequiredBounded(Password, p.password) + Required(Role, p.role) + Required(Subscription, p.subscription)
  }

  lemma ReportsAppend(a: seq<FieldError>, b: seq<FieldError>, f: Field)
    ensures Reports(a + b, f) <==> Reports(a, f) || Reports(b, f)
  {
    if Reports(a + b, f) {
      var i :| 0 <= i < |a + b| && (a + b)[i].field == f;
      if i >= |a| {
        assert b[i - |a|] == (a + b)[i];
      }
    }
    if Reports(a, f) {
      var i :| 0 <= i < |a| && a[i].field == f;
      assert (a + b)[i] == a[i];
    }
    if Reports(b, f) {
      var i :| 0 <= i < |b| && b[i].field == f;
      assert (a + b)[|a| + i] == b[i];
    }
  }

  /** Appending one field's errors to errors that do not mention that field
      keeps the fields distinct. */
  lemma AppendField(errs: seq<FieldError>, more: seq<FieldError>, f: Field)
    requires DistinctFields(errs) && !Reports(errs, f) && AtMostOneFor(more, f)
    ensures DistinctFields(errs + more)
  {
    var all := errs + more;
    forall i, j | 0 <= i < j < |all|
      ensures all[i].field != all[j].field
    {
      if j >= |errs| {
        assert all[j] == more[j - |errs|];
        assert all[i] == errs[i];
      }
    }
  }

  /** The register errors name each field at most once. */
  lemma RegisterErrorsDistinct(p: RegisterUserPayload, isEmail: string -> bool)
    ensures DistinctFields(RegisterErrors(p, isEmail))
  {
    var u := Required(Username, p.username);
    var e := RequiredEmail(Email, p.email, isEmail);
    var w := RequiredBounded(Password, p.password);
    var r := Required(Role, p.role);
    var s := Required(Subscription, p.subscription);
    if u != [] { assert u[0].field == Username; }
    if e != [] { assert e[0].field == Email; }
    if w != [] { assert w[0].field == Password; }
    if r != [] { assert r[0].field == Role; }
    AppendField(u, e, Email);
    ReportsAppend(u, e, Password);
    AppendField(u + e, w, Password);
    ReportsAppend(u + e, w, Role);
    ReportsAppend(u, e, Role);
    AppendField(u + e + w, r, Role);
    ReportsAppend(u + e + w, r, Subscription);
    ReportsAppend(u + e, w, Subscription);
    ReportsAppend(u, e, Subscription);
    AppendField(u + e + w + r, s, Subscription);
  }

  /** Errors that all belong to one field report that field alone. */
  lemma OnlyFor(errs: seq<FieldError>, g: Field, f: Field)
    requires AtMostOneFor(errs, g)
    ensures Reports(errs, f) <==> errs != [] && f == g
  {
    if errs != [] {
      assert errs[0].field == g;
    }
  }

  /** Which fields the register errors report, field by field. */
  lemma RegisterErrorsReport(p: RegisterUserPayload, isEmail: string -> bool, f: Field)
    ensures Reports(RegisterErrors(p, isEmail), f) <==>
              || (f == Username && p.username == "")
              || (f == Email && !ValidEmail(p.email, isEmail))
              || (f == Password && !(MinPasswordLength <= |p.password| <= MaxPasswordLength))
              || (f == Role && p.role == "")
              || (f == Subscription && p.subscription == "")
  {
    var u := Required(Username, p.username);
    var e := RequiredEmail(Email, p.email, isEmail);
    var w := RequiredBounded(Password, p.password);
    var r := Required(Role, p.role);
    var s := Required(Subscription, p.subscription);
    ReportsAppend(u + e + w + r, s, f);
    ReportsAppend(u + e + w, r, f);
    ReportsAppend(u + e, w, f);
    ReportsAppend(u, e, f);
    OnlyFor(u, Username, f);
    OnlyFor(e, Email, f);
    OnlyFor(w, Password, f);
    OnlyFor(r, Role, f);
    OnlyFor(s, Subscription, f);
  }

  /** A register payload gets exactly one error per failing field. */
  lemma RegisterErrorsPerField(p: RegisterUserPayload, isEmail: string -> bool)
    ensures DistinctFields(RegisterErrors(p, isEmail))
    ensures Reports(RegisterErrors(p, isEmail), Username) <==> p.username == ""
    ensures Reports(RegisterErrors(p, isEmail), Email) <==> !ValidEmail(p.email, isEmail)
    ensures Reports(RegisterErrors(p, isEmail), Password) <==> !(MinPasswordLength <= |p.password| <= MaxPasswordLength)
    ensures Reports(RegisterErrors(p, isEmail), Role) <==> p.role == ""
    ensures Reports(RegisterErrors(p, isEmail), Subscription) <==> p.subscription == ""
  {
    RegisterErrorsDistinct(p, isEmail);
    RegisterErrorsReport(p, isEmail, Username);
    RegisterErrorsReport(p, isEmail, Email);
    RegisterErrorsReport(p, isEmail, Password);
    RegisterErrorsReport(p, isEmail, Role);
    RegisterErrorsReport(p, isEmail, Subscription);
  }

  /** The field errors of a login payload: the password must be present but
      has no length bounds. */
  function LoginErrors(p: LoginUserPayload, isEmail: string -> bool): (errs: seq<FieldError>)
    ensures errs == [] <==> ValidEmail(p.email, isEmail) && p.password != ""
    ensures DistinctFields(errs)
    ensures Reports(errs, Email) <==> !ValidEmail(p.email, isEmail)
    ensures Reports(errs, Password) <==> p.password == ""
  {
    var e := RequiredEmail(Email, p.email, isEmail);
    var w := Required(Password, p.password);
    AppendField(e, w, Password);
    ReportsAppend(e, w, Email);
    ReportsAppend(e, w, Password);
    assert e != [] ==> e[0].field == Email;
    assert w != [] ==> w[0].field == Password;
    e + w
  }

  /** The field errors of a resend-verification payload. */
  function ResendErrors(p: ResendVerificationEmailPayload, isEmail: string -> bool): (errs: seq<FieldError>)
    ensures errs == [] <==> ValidEmail(p.email, isEmail)
    ensures AtMostOneFor(errs, Email)
  {
    RequiredEmail(Email, p.email, isEmail)
  }

  /** What `Validate.Struct` returns: nil, `ValidationErrors`, or an error of
      another kind (the validator's InvalidValidationError). */
  datatype ValidatorRun = Passed | Failed(errors: seq<FieldError>) | OtherError

  /** The validator's result for a payload whose field errors are `errs`. */
  function Run(errs: seq<FieldError>): (r: ValidatorRun)
    ensures r.Passed? <==> errs == []
    ensures !r.OtherError?
    ensures r.Failed? ==> r.errors == errs
  {
    if errs == [] then Passed else Failed(errs)
  }
}
