/**
 * The shared validators (lib/validation.js). Each takes the raw request
 * value as a JS value; the numeric validators take what parseFloat makes
 * of their argument (None standing for NaN).
 */
module Validation {
  import opened Wrappers
  import opened Strings
  import opened Js
  import opened Time

  /** `{ valid: true }` or `{ valid: false, error }`. */
  datatype Check = Valid | Invalid(error: string)

  // ---------------------------------------------------------------------
  // Email: /^[^\s@]+@[^\s@]+\.[^\s@]+$/

  /** A character the class `[^\s@]` accepts. */
  predicate PlainChar(c: char) {
    !IsWhitespace(c) && c != '@'
  }

  predicate Plain(t: string) {
    forall k :: 0 <= k < |t| ==> PlainChar(t[k])
  }

  /**
   * The regular expression, read as: the whole string is A '@' B '.' C with
   * A, B and C non-empty runs of `[^\s@]`. `i` is the '@', `j` the '.'.
   */
  predicate MatchesEmailPattern(s: string) {
    exists i, j :: 0 < i && i + 1 < j && j + 1 < |s| && EmailSplit(s, i, j)
  }

  predicate EmailSplit(s: string, i: int, j: int) {
    0 < i && i + 1 < j && j + 1 < |s|
    && s[i] == '@' && s[j] == '.' && Plain(s[..i]) && Plain(s[i + 1..j]) && Plain(s[j + 1..])
  }

  function ValidateEmail(email: Value): (ok: bool)
    ensures ok <==> email.Str? && MatchesEmailPattern(email.s)
  {
    if !Truthy(email) || !email.Str? then false
    else MatchesEmailPattern(email.s)
  }

  /** The string has exactly one '@', and it is at index `p`. */
  predicate OnlyAtSignAt(s: string, p: int) {
    0 <= p < |s| && s[p] == '@' && forall k :: 0 <= k < |s| && k != p ==> s[k] != '@'
  }

  /**
   * What the pattern means: no whitespace, exactly one '@' with something
   * before it, and a '.' in the domain that is neither its first nor its
   * last character.
   */
  lemma {:induction false} EmailPatternMeaning(s: string)
    ensures MatchesEmailPattern(s) <==>
              (forall k :: 0 <= k < |s| ==> !IsWhitespace(s[k]))
              && exists p :: 0 < p < |s| && OnlyAtSignAt(s, p)
                             && exists q :: p + 1 < q < |s| - 1 && s[q] == '.'
  {
    if MatchesEmailPattern(s) {
      var i, j :| 0 < i && i + 1 < j && j + 1 < |s| && EmailSplit(s, i, j);
      forall k | 0 <= k < |s| ensures !IsWhitespace(s[k]) && (k != i ==> s[k] != '@') {
        if k < i {
          assert s[k] == s[..i][k];
        } else if i < k < j {
          assert s[k] == s[i + 1..j][k - i - 1];
        } else if k > j {
          assert s[k] == s[j + 1..][k - j - 1];
        }
      }
      assert OnlyAtSignAt(s, i);
    }
    if (forall k :: 0 <= k < |s| ==> !IsWhitespace(s[k]))
       && exists p :: 0 < p < |s| && OnlyAtSignAt(s, p) && exists q :: p + 1 < q < |s| - 1 && s[q] == '.'
    {
      var p :| 0 < p < |s| && OnlyAtSignAt(s, p) && exists q :: p + 1 < q < |s| - 1 && s[q] == '.';
      var q :| p + 1 < q < |s| - 1 && s[q] == '.';
      assert Plain(s[..p]);
      assert Plain(s[p + 1..q]);
      assert Plain(s[q + 1..]);
      assert EmailSplit(s, p, q);
    }
  }

  lemma EmailExamples()
    ensures ValidateEmail(Str("a@b.co"))
    ensures !ValidateEmail(Str("a@b."))
    ensures !ValidateEmail(Str("a b@c.d"))
    ensures !ValidateEmail(Str(""))
    ensures !ValidateEmail(Num(5))
  {
    assert EmailSplit("a@b.co", 1, 3);
    EmailPatternMeaning("a@b.");
    EmailPatternMeaning("a b@c.d");
    assert IsWhitespace("a b@c.d"[1]);
  }

  // ---------------------------------------------------------------------

  /** At least eight UTF-16 code units, as `password.length >= 8` counts them. */
  function ValidatePassword(password: Value): (ok: bool)
    ensures ok <==> password.Str? && Utf16Length(password.s) >= 8
  {
    if !Truthy(password) || !password.Str? then false else Utf16Length(password.s) >= 8
  }

  /** Four emoji are eight code units: long enough, though only four characters. */
  lemma PasswordCountsCodeUnits()
    ensures ValidatePassword(Str("\U{1F600}\U{1F600}\U{1F600}\U{1F600}"))
    ensures !ValidatePassword(Str("abcdefg"))
  {
    var s := "\U{1F600}\U{1F600}\U{1F600}\U{1F600}";
    assert Utf16Length(s[3..]) == 2;
    assert s[2..][1..] == s[3..];
    assert s[1..][1..] == s[2..];
  }

  /** `validateRequired(value, fieldName = 'Field')`; an undefined field name takes the default. */
  function ValidateRequired(value: Value, fieldName: Value): (r: Check)
    ensures r.Invalid? <==> value == Null || value == Undefined || value == Str("")
    ensures r.Invalid? ==>
              r.error == (if fieldName == Undefined then "Field" else ToText(fieldName)) + " is required"
  {
    if StrictEquals(value, Null) || StrictEquals(value, Undefined) || StrictEquals(value, Str("")) then
      Invalid((if fieldName == Undefined then "Field" else ToText(fieldName)) + " is required")
    else Valid
  }

  /** Whitespace-only text and the number 0 are present as far as validateRequired is concerned. */
  lemma RequiredAcceptsBlankAndZero()
    ensures ValidateRequired(Str(" "), Undefined) == Valid
    ensures ValidateRequired(Num(0), Undefined) == Valid
    ensures ValidateRequired(Str(""), Undefined) == Invalid("Field is required")
  {
  }

  function ValidateEmployeeId(employeeId: Value): (r: Check)
    ensures !employeeId.Str? || employeeId.s == "" <==> r == Invalid("Employee ID is required")
    ensures r == Invalid("Employee ID must be at least 3 characters") <==>
              employeeId.Str? && 0 < Utf16Length(employeeId.s) < 3
    ensures r == Valid <==> employeeId.Str? && Utf16Length(employeeId.s) >= 3
  {
    if !Truthy(employeeId) || !employeeId.Str? then Invalid("Employee ID is required")
    else if Utf16Length(employeeId.s) < 3 then Invalid("Employee ID must be at least 3 characters")
    else Valid
  }

  const EnrollmentTypes: seq<string> := ["Mandatory", "Optional", "Self-Enrolled"]
  const EnrollmentStatuses: seq<string> := ["Pending", "Active", "Completed", "Cancelled", "Expired"]
  const RegistrationStatuses: seq<string> := ["Pending", "Approved", "Rejected"]

  /** `list.includes(v)` on a list of strings: an exact, case-sensitive string match. */
  predicate Includes(list: seq<string>, v: Value) {
    exists k :: 0 <= k < |list| && StrictEquals(Str(list[k]), v)
  }

  lemma IncludesMeaning(list: seq<string>, v: Value)
    ensures Includes(list, v) <==> v.Str? && v.s in list
  {
    if v.Str? && v.s in list {
      var k :| 0 <= k < |list| && list[k] == v.s;
      assert StrictEquals(Str(list[k]), v);
    }
  }

  function ValidateEnrollmentType(t: Value): (r: Check)
    ensures r == Valid <==> t.Str? && t.s in EnrollmentTypes
    ensures r != Valid ==> r == Invalid("Invalid enrollment type")
  {
    IncludesMeaning(EnrollmentTypes, t);
    if !Includes(EnrollmentTypes, t) then Invalid("Invalid enrollment type") else Valid
  }

  function ValidateEnrollmentStatus(status: Value): (r: Check)
    ensures r == Valid <==> status.Str? && status.s in EnrollmentStatuses
    ensures r != Valid ==> r == Invalid("Invalid enrollment status")
  {
    IncludesMeaning(EnrollmentStatuses, status);
    if !Includes(EnrollmentStatuses, status) then Invalid("Invalid enrollment status") else Valid
  }

  function ValidateRegistrationStatus(status: Value): (r: Check)
    ensures r == Valid <==> status.Str? && status.s in RegistrationStatuses
    ensures r != Valid ==> r == Invalid("Invalid registration status")
  {
    IncludesMeaning(RegistrationStatuses, status);
    if !Includes(RegistrationStatuses, status) then Invalid("Invalid registration status") else Valid
  }

  /** Membership is case-sensitive. */
  lemma EnumsAreCaseSensitive()
    ensures ValidateEnrollmentStatus(Str("pending")) != Valid
    ensures ValidateEnrollmentStatus(Str("Pending")) == Valid
  {
  }

  function ValidateDateRange(start: DateArg, end: DateArg): (r: Check)
    ensures !Truthy(start.raw) || !Truthy(end.raw) ==> r == Invalid("Start and end dates are required")
    ensures Truthy(start.raw) && Truthy(end.raw) ==>
              (r == Invalid("End date must be after start date") <==> Later(start.at, end.at))
    ensures r == Valid <==> Truthy(start.raw) && Truthy(end.raw) && !Later(start.at, end.at)
  {
    if !Truthy(start.raw) || !Truthy(end.raw) then Invalid("Start and end dates are required")
    else if Later(start.at, end.at) then Invalid("End date must be after start date")
    else Valid
  }

  /** Equal dates are a valid range, and so is an unparsable date. */
  lemma DateRangeEdges(raw: Value, t: int)
    requires Truthy(raw)
    ensures ValidateDateRange(DateArg(raw, At(t)), DateArg(raw, At(t))) == Valid
    ensures ValidateDateRange(DateArg(raw, InvalidDate), DateArg(raw, At(t))) == Valid
  {
  }

  function ValidatePercentage(num: Option<real>): (r: Check)
    ensures r == Valid <==> num.Some? && 0.0 <= num.value <= 100.0
    ensures r != Valid ==> r == Invalid("Percentage must be between 0 and 100")
  {
    if num.None? || num.value < 0.0 || num.value > 100.0 then Invalid("Percentage must be between 0 and 100")
    else Valid
  }

  /**
   * validateScore: the negativity check comes first; a NaN total lets every
   * non-negative score through, since `scoreNum > NaN` is false.
   */
  function ValidateScore(score: Option<real>, total: Option<real>): (r: Check)
    ensures score.None? || score.value < 0.0 <==> r == Invalid("Score must be a positive number")
    ensures r == Invalid("Score cannot exceed total points") <==>
              score.Some? && score.value >= 0.0 && total.Some? && score.value > total.value
    ensures r == Valid <==> score.Some? && score.value >= 0.0 && (total.None? || score.value <= total.value)
  {
    if score.None? || score.value < 0.0 then Invalid("Score must be a positive number")
    else if total.Some? && score.value > total.value then Invalid("Score cannot exceed total points")
    else Valid
  }

  // ---------------------------------------------------------------------
  // sanitizeInput: trim, then `replace(/[<>]/g, '')`

  /** Deletes every '<' and '>': each other character stays, as often as it occurs. */
  function RemoveAngles(s: string): (r: string)
    ensures |r| <= |s|
    ensures forall k :: 0 <= k < |r| ==> r[k] != '<' && r[k] != '>'
    ensures forall c :: c != '<' && c != '>' ==> multiset(r)[c] == multiset(s)[c]
  {
    if s == [] then []
    else
      assert s == [s[0]] + s[1..];
      (if s[0] == '<' || s[0] == '>' then [] else [s[0]]) + RemoveAngles(s[1..])
  }

  /** The deletion works character by character, so the kept characters keep their order. */
  lemma {:induction false} RemoveAnglesConcat(a: string, b: string)
    ensures RemoveAngles(a + b) == RemoveAngles(a) + RemoveAngles(b)
  {
    if a != [] {
      RemoveAnglesConcat(a[1..], b);
      assert (a + b)[1..] == a[1..] + b;
    } else {
      assert a + b == b;
    }
  }

  /** Trim, then delete the angle brackets: every other character of the trimmed text survives. */
  function SanitizeInput(input: Value): (r: Value)
    ensures !input.Str? ==> r == input
    ensures input.Str? ==> r.Str? && forall k :: 0 <= k < |r.s| ==> r.s[k] != '<' && r.s[k] != '>'
    ensures input.Str? ==> forall c :: c != '<' && c != '>' ==> multiset(r.s)[c] == multiset(Trim(input.s))[c]
  {
    if !input.Str? then input else Str(RemoveAngles(Trim(input.s)))
  }

  lemma {:induction false} RemoveAnglesNone(s: string)
    requires forall k :: 0 <= k < |s| ==> s[k] != '<' && s[k] != '>'
    ensures RemoveAngles(s) == s
  {
    if s != [] {
      RemoveAnglesNone(s[1..]);
      assert [s[0]] + s[1..] == s;
    }
  }

  /** Text without angle brackets is only trimmed. */
  lemma SanitizeWithoutAngles(s: string)
    requires forall k :: 0 <= k < |s| ==> s[k] != '<' && s[k] != '>'
    ensures SanitizeInput(Str(s)) == Str(Trim(s))
  {
    var t := Trim(s);
    forall k | 0 <= k < |t| ensures t[k] != '<' && t[k] != '>' {
      assert t[k] == s[|s| - |TrimStart(s)| + k];
    }
    RemoveAnglesNone(t);
  }

  /** Trimming happens before the deletion, so a second pass can still change the result. */
  lemma SanitizeNotIdempotent()
    ensures SanitizeInput(Str("a <")) == Str("a ")
    ensures SanitizeInput(SanitizeInput(Str("a <"))) == Str("a")
  {
    SanitizeFirstPass();
    SanitizeSecondPass();
  }

  lemma SanitizeFirstPass()
    ensures SanitizeInput(Str("a <")) == Str("a ")
  {
    assert TrimStart("a <") == "a <";
    assert TrimEnd("a <") == "a <";
    assert "a <"[1..] == " <" && " <"[1..] == "<" && "<"[1..] == [];
    assert RemoveAngles("a <") == "a ";
  }

  lemma SanitizeSecondPass()
    ensures SanitizeInput(Str("a ")) == Str("a")
  {
    assert TrimStart("a ") == "a ";
    assert "a "[..1] == "a";
    assert TrimEnd("a ") == "a";
    assert "a"[1..] == [];
    assert RemoveAngles("a") == "a";
  }
}
