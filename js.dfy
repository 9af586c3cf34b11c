/**
 * ECMAScript values as the application's code handles them: truthiness,
 * strict equality, conversion to text and to an integer, and the `||`
 * fallback idiom on typed fields.
 *
 * Numbers are whole numbers here; the places that need a fraction use
 * `real` or an exact rational explicitly.
 */
module Js {
  import opened Wrappers
  import opened Strings

  datatype Value =
    | Undefined
    | Null
    | Bool(b: bool)
    | Num(n: int)
    | NaN
    | Str(s: string)

  /** ToBoolean: undefined, null, false, 0, NaN and '' are falsy. */
  predicate Truthy(v: Value) {
    match v
    case Undefined => false
    case Null => false
    case Bool(b) => b
    case Num(n) => n != 0
    case NaN => false
    case Str(s) => s != ""
  }

  /** `===`: same type and same value; NaN equals nothing, itself included. */
  predicate StrictEquals(a: Value, b: Value) {
    match (a, b)
    case (Undefined, Undefined) => true
    case (Null, Null) => true
    case (Bool(x), Bool(y)) => x == y
    case (Num(x), Num(y)) => x == y
    case (Str(x), Str(y)) => x == y
    case _ => false
  }

  /** ToString, as a template literal `${v}` renders a value. */
  function ToText(v: Value): string {
    match v
    case Undefined => "undefined"
    case Null => "null"
    case Bool(b) => if b then "true" else "false"
    case Num(n) => IntToString(n)
    case NaN => "NaN"
    case Str(s) => s
  }

  /** The global parseInt: the argument is converted to text first. */
  function ParseIntValue(v: Value): Option<int> {
    ParseInt(ToText(v))
  }

  /**
   * Number(text) for text that spells a whole number: blank text is 0, an
   * optional sign and decimal digits give their value; everything else is
   * NaN (None) here, fractions and exponents included.
   */
  function TextToInteger(text: string): (r: Option<int>)
    ensures IsBlank(text) ==> r == Some(0)
  {
    var t := Trim(text);
    TrimEmptyIffBlank(text);
    if t == [] then Some(0)
    else if (t[0] == '-' || t[0] == '+') && |t| > 1 && AllDigits(t[1..]) then
      Some(if t[0] == '-' then -(DigitsValue(t[1..]) as int) else DigitsValue(t[1..]))
    else if AllDigits(t) then Some(DigitsValue(t))
    else None
  }

  predicate AllDigits(s: string) {
    forall i :: 0 <= i < |s| ==> IsDigit(s[i])
  }

  /** Number() of a number's decimal text gives the number back. */
  lemma TextToIntegerOfNat(n: nat)
    ensures TextToInteger(NatToString(n)) == Some(n)
  {
    var s := NatToString(n);
    DigitNotWhitespace(s[0]);
    DigitNotWhitespace(s[|s| - 1]);
    assert TrimStart(s) == s;
    assert TrimEnd(s) == s;
    NatToStringValue(n);
  }

  /** `x || d` on a field holding an optional string ('' is falsy). */
  function OrStr(x: Option<string>, d: string): (r: string)
    ensures x.Some? && x.value != "" ==> r == x.value
    ensures (x.None? || x.value == "") ==> r == d
  {
    if x.Some? && x.value != "" then x.value else d
  }

  /** `x || d` on a field holding an optional number (0 and NaN are falsy, NaN being None). */
  function OrInt(x: Option<int>, d: int): (r: int)
    ensures x.Some? && x.value != 0 ==> r == x.value
    ensures (x.None? || x.value == 0) ==> r == d
  {
    if x.Some? && x.value != 0 then x.value else d
  }

  /** Optional string field read as a JS value (missing is undefined). */
  function OptStr(x: Option<string>): Value {
    if x.Some? then Str(x.value) else Undefined
  }

  /** Strict equality is an equivalence on every value other than NaN. */
  lemma StrictEqualsReflexive(v: Value)
    requires v != NaN
    ensures StrictEquals(v, v)
  {
  }

  lemma StrictEqualsIsEquality(a: Value, b: Value)
    ensures StrictEquals(a, b) <==> a == b && a != NaN
  {
  }

  /** parseInt of a number gives that number back. */
  lemma ParseIntOfNumber(n: int)
    ensures ParseIntValue(Num(n)) == Some(n)
  {
    ParseIntRoundTrip(n);
  }
}
