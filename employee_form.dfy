/**
 * The employee form (components/employees/EmployeeForm.jsx).
 *
 * The form's fields are the text of its inputs, keyed by the field name.
 * validateForm fills a fresh error map field by field and reports whether
 * it stayed empty; typing into a field replaces that field and clears that
 * field's error. What `new Date` makes of the joining date, and today, are
 * inputs.
 */
module EmployeeForm {
  import opened Wrappers
  import opened Strings
  import opened Time
  import Validation

  /** The form's fields; Key is the property name each one has in formData and in the error map. */
  datatype Field =
    | EmployeeId | EmployeeName | Department | Designation | DateOfJoining | ContactNumber | EmailAddress
    | EmploymentType | RegistrationStatus

  function Key(f: Field): string {
    match f
    case EmployeeId => "employee_id"
    case EmployeeName => "employee_name"
    case Department => "department"
    case Designation => "designation"
    case DateOfJoining => "date_of_joining"
    case ContactNumber => "contact_number"
    case EmailAddress => "email_address"
    case EmploymentType => "employment_type"
    case RegistrationStatus => "registration_status"
  }

  /** The fields, in the order validateForm checks them. */
  const Fields: seq<Field> := [EmployeeId, EmployeeName, EmailAddress, ContactNumber, Department, Designation,
                               DateOfJoining, EmploymentType, RegistrationStatus]

  /** `formData[field]`; every field starts as a string, so a missing one reads as ''. */
  function Get(form: map<Field, string>, field: Field): string {
    if field in form then form[field] else ""
  }

  /** The initial form: the employee's fields, with '' or the listed default for falsy ones. */
  function InitialForm(employee: Option<map<Field, string>>): (form: map<Field, string>)
    ensures forall f :: f in form
    ensures forall f :: f in Fields && f != EmploymentType && f != RegistrationStatus ==>
              form[f] == (if employee.Some? then Get(employee.value, f) else "")
    ensures form[EmploymentType] == (if employee.Some? && Get(employee.value, EmploymentType) != "" then
                                       employee.value[EmploymentType] else "Full-Time")
    ensures form[RegistrationStatus] == (if employee.Some? && Get(employee.value, RegistrationStatus) != "" then
                                           employee.value[RegistrationStatus] else "Pending")
  {
    AllFieldsListed();
    map f: Field | f in Fields ::
      var v := if employee.Some? then Get(employee.value, f) else "";
      if v != "" then v else if f == EmploymentType then "Full-Time" else if f == RegistrationStatus then "Pending" else ""
  }

  /** The character class `[\d\s\-\+\(\)]`. */
  predicate PhoneChar(c: char) {
    IsDigit(c) || IsWhitespace(c) || c == '-' || c == '+' || c == '(' || c == ')'
  }

  /** /^[\d\s\-\+\(\)]+$/. */
  predicate MatchesPhonePattern(s: string) {
    |s| > 0 && forall k :: 0 <= k < |s| ==> PhoneChar(s[k])
  }

  /**
   * The message validateForm records for one field, if any. `joiningAt` is
   * what `new Date(date_of_joining)` yields and `now` today's instant.
   */
  function FieldError(form: map<Field, string>, field: Field, joiningAt: Instant, now: int): Option<string> {
    var v := Get(form, field);
    var blank := v == "" || Trim(v) == "";
    match field
    case EmployeeId => if blank then Some("Employee ID is required") else None
    case EmployeeName =>
      if blank then Some("Employee name is required")
      else if Utf16Length(v) < 2 then Some("Employee name must be at least 2 characters")
      else None
    case EmailAddress =>
      if blank then Some("Email address is required")
      else if !Validation.MatchesEmailPattern(v) then Some("Please enter a valid email address")
      else None
    case ContactNumber => if v != "" && !MatchesPhonePattern(v) then Some("Please enter a valid contact number") else None
    case Department => if blank then Some("Department is required") else None
    case Designation => if blank then Some("Designation is required") else None
    case DateOfJoining =>
      if v == "" then Some("Date of joining is required")
      else if Later(joiningAt, At(now)) then Some("Date of joining cannot be in the future")
      else None
    case EmploymentType => if v == "" then Some("Employment type is required") else None
    case RegistrationStatus => if v == "" then Some("Registration status is required") else None
  }

  /** What each field's check refuses: blank text, a short name, a malformed address or number, a future date. */
  lemma FieldErrorMeaning(form: map<Field, string>, field: Field, joiningAt: Instant, now: int)
    ensures var v, r := Get(form, field), FieldError(form, field, joiningAt, now);
            match field
            case EmployeeId => r.Some? <==> IsBlank(v)
            case Department => r.Some? <==> IsBlank(v)
            case Designation => r.Some? <==> IsBlank(v)
            case EmployeeName =>
              (IsBlank(v) ==> r == Some("Employee name is required"))
              && (!IsBlank(v) ==> (r.Some? <==> Utf16Length(v) < 2))
            case EmailAddress =>
              (IsBlank(v) ==> r == Some("Email address is required"))
              && (!IsBlank(v) ==> (r.Some? <==> !Validation.MatchesEmailPattern(v)))
            case ContactNumber => r.Some? <==> v != "" && !MatchesPhonePattern(v)
            case DateOfJoining =>
              (v == "" ==> r == Some("Date of joining is required"))
              && (v != "" ==> (r.Some? <==> Later(joiningAt, At(now))))
            case EmploymentType => r.Some? <==> v == ""
            case RegistrationStatus => r.Some? <==> v == ""
  {
    TrimEmptyIffBlank(Get(form, field));
  }

  /** The errors recorded for the fields in `done` are exactly the messages `check` gives them. */
  ghost predicate Recorded(errors: map<Field, string>, check: Field -> Option<string>, done: seq<Field>) {
    (forall g :: g in errors <==> g in done && check(g).Some?)
    && (forall g :: g in errors ==> errors[g] == check(g).value)
  }

  /** One `if (…) newErrors.field = message` block: the k-th field's message, if it has one, is added. */
  method RecordBlock(errors: map<Field, string>, check: Field -> Option<string>, k: nat)
    returns (r: map<Field, string>)
    requires k < |Fields| && Recorded(errors, check, Fields[..k])
    ensures Recorded(r, check, Fields[..k + 1])
  {
    var field := Fields[k];
    var e := check(field);
    r := errors;
    if e.Some? {
      r := r[field := e.value];
    }
    assert Fields[..k + 1] == Fields[..k] + [field];
  }

  /** validateForm: the error map, filled check by check, and whether it is empty. */
  method ValidateForm(form: map<Field, string>, joiningAt: Instant, now: int)
    returns (errors: map<Field, string>, ok: bool)
    ensures forall f :: f in errors <==> FieldError(form, f, joiningAt, now).Some?
    ensures forall f :: f in errors ==> errors[f] == FieldError(form, f, joiningAt, now).value
    ensures ok <==> errors == map[]
  {
    var check := (f: Field) => FieldError(form, f, joiningAt, now);
    errors := map[];
    errors := RecordBlock(errors, check, 0);
    errors := RecordBlock(errors, check, 1);
    errors := RecordBlock(errors, check, 2);
    errors := RecordBlock(errors, check, 3);
    errors := RecordBlock(errors, check, 4);
    errors := RecordBlock(errors, check, 5);
    errors := RecordBlock(errors, check, 6);
    errors := RecordBlock(errors, check, 7);
    errors := RecordBlock(errors, check, 8);
    assert Fields[..9] == Fields;
    AllFieldsListed();
    forall f
      ensures f in errors <==> FieldError(form, f, joiningAt, now).Some?
      ensures f in errors ==> errors[f] == FieldError(form, f, joiningAt, now).value
    {
      assert check(f) == FieldError(form, f, joiningAt, now);
      assert f in Fields[..9];
    }
    ok := |errors.Keys| == 0;
    if !ok {
      assert errors.Keys != {};
    }
  }

  lemma AllFieldsListed()
    ensures forall f: Field :: f in Fields
  {
    forall f: Field
      ensures f in Fields
    {
      match f
      case EmployeeId => assert Fields[0] == f;
      case EmployeeName => assert Fields[1] == f;
      case EmailAddress => assert Fields[2] == f;
      case ContactNumber => assert Fields[3] == f;
      case Department => assert Fields[4] == f;
      case Designation => assert Fields[5] == f;
      case DateOfJoining => assert Fields[6] == f;
      case EmploymentType => assert Fields[7] == f;
      case RegistrationStatus => assert Fields[8] == f;
    }
  }

  /** The length check counts untrimmed characters: " a" is long enough. */
  lemma NameLengthUntrimmed(form: map<Field, string>, joiningAt: Instant, now: int)
    requires Get(form, EmployeeName) == " a"
    ensures FieldError(form, EmployeeName, joiningAt, now).None?
  {
    assert !IsBlank(Get(form, EmployeeName)) by {
      assert !IsWhitespace(Get(form, EmployeeName)[1]);
    }
  }

  /** A contact number is optional, and the pattern allows a formatted one. */
  lemma ContactNumberOptional(form: map<Field, string>, joiningAt: Instant, now: int)
    ensures Get(form, ContactNumber) == "" ==> FieldError(form, ContactNumber, joiningAt, now).None?
    ensures Get(form, ContactNumber) == "+1 (555) 010-2000" ==> FieldError(form, ContactNumber, joiningAt, now).None?
    ensures Get(form, ContactNumber) == "555-CALL" ==> FieldError(form, ContactNumber, joiningAt, now).Some?
  {
    if Get(form, ContactNumber) == "555-CALL" {
      assert !PhoneChar(Get(form, ContactNumber)[4]);
    }
  }

  /** handleInputChange: only the field typed into changes, and only its error is cleared. */
  function InputChange(form: map<Field, string>, errors: map<Field, Option<string>>, field: Field, value: string)
    : (r: (map<Field, string>, map<Field, Option<string>>))
    ensures r.0 == form[field := value]
    ensures forall f :: f != field ==> Get(r.0, f) == Get(form, f)
    ensures r.1.Keys == errors.Keys
    ensures forall f :: f in errors && f != field ==> r.1[f] == errors[f]
    ensures field in errors ==> r.1[field].None? || r.1[field] == Some("")
  {
    var shown := field in errors && errors[field].Some? && errors[field].value != "";
    (form[field := value], if shown then errors[field := None] else errors)
  }
}
