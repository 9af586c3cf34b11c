/** The formatting helpers of lib/utils.js. */
module Utils {
  import opened Wrappers
  import opened Strings
  import opened Js
  import opened Time

  // ---------------------------------------------------------------------
  // formatDuration

  /** formatDuration(hours): a number of hours as '0h', minutes, hours or days and hours. */
  function FormatDuration(hours: Value): (r: string)
    ensures !Truthy(hours) ==> r == "0h"
    ensures Truthy(hours) && ParseIntValue(hours).None? ==> r == "NaNh"
  {
    if !Truthy(hours) then "0h"
    else
      match ParseIntValue(hours)
      case None => "NaNh"
      case Some(h) => WholeHoursText(h)
  }

  /** The text for a parsed hour count `h`. */
  function WholeHoursText(h: int): string {
    if h < 1 then IntToString(h * 60) + "m"
    else if h >= 24 then
      var days := h / 24;
      var remaining := h % 24;
      if remaining > 0 then IntToString(days) + "d " + IntToString(remaining) + "h"
      else IntToString(days) + "d"
    else IntToString(h) + "h"
  }

  /** Hours denoted by one space-free piece: a number followed by 'm', 'h' or 'd'. */
  function ReadPiece(p: string): Option<int> {
    if p == [] then None
    else
      var unit := p[|p| - 1];
      match ParseSigned(p[..|p| - 1])
      case None => None
      case Some(v) =>
        if unit == 'm' then Some(v / 60)
        else if unit == 'h' then Some(v)
        else if unit == 'd' then Some(v * 24)
        else None
  }

  /** Reads a duration text back into hours: the inverse of FormatDuration. */
  function ReadDuration(text: string): Option<int> {
    ReadPieces(Split(text, ' '))
  }

  function ReadPieces(parts: seq<string>): Option<int> {
    if |parts| == 1 then ReadPiece(parts[0])
    else if |parts| == 2 && parts[0] != [] && parts[0][|parts[0]| - 1] == 'd' then
      match (ReadPiece(parts[0]), ReadPiece(parts[1]))
      case (Some(d), Some(h)) => Some(d + h)
      case _ => None
    else None
  }

  lemma PieceValue(i: int, u: char)
    requires u == 'm' || u == 'h' || u == 'd'
    ensures ReadPiece(IntToString(i) + [u]) == Some(if u == 'm' then i / 60 else if u == 'h' then i else i * 24)
  {
    var t := IntToString(i);
    assert (t + [u])[..|t + [u]| - 1] == t;
    ParseSignedRoundTrip(i);
  }

  lemma ParseSignedRoundTrip(i: int)
    ensures ParseSigned(IntToString(i)) == Some(i)
  {
    var t := IntToString(i);
    ParseIntRoundTrip(i);
    assert !IsWhitespace(t[0]);
    assert TrimStart(t) == t;
  }

  lemma NoSpaceInNumber(i: int)
    ensures ' ' !in IntToString(i)
  {
    var t := IntToString(i);
    if i < 0 {
      assert t == "-" + NatToString(-i);
      assert forall k :: 1 <= k < |t| ==> IsDigit(t[k]);
    }
  }

  /** A single piece reads back. */
  lemma SinglePiece(i: int, u: char)
    requires u == 'm' || u == 'h' || u == 'd'
    ensures ReadDuration(IntToString(i) + [u]) == Some(if u == 'm' then i / 60 else if u == 'h' then i else i * 24)
  {
    var p := IntToString(i) + [u];
    assert Split(p, ' ') == [p] by {
      NoSpaceInNumber(i);
      SplitNoSep(p, ' ');
    }
    PieceValue(i, u);
  }

  lemma DaysAndHours(days: int, remaining: int)
    ensures ReadDuration(IntToString(days) + "d " + IntToString(remaining) + "h") == Some(days * 24 + remaining)
  {
    NoSpaceInNumber(days);
    NoSpaceInNumber(remaining);
    PieceValue(days, 'd');
    PieceValue(remaining, 'h');
    DaysThenHours(IntToString(days), IntToString(remaining), days * 24, remaining);
  }

  lemma DaysThenHours(x: string, y: string, d: int, h: int)
    requires ' ' !in x && ' ' !in y
    requires ReadPiece(x + "d") == Some(d) && ReadPiece(y + "h") == Some(h)
    ensures ReadDuration(x + "d " + y + "h") == Some(d + h)
  {
    TwoPieces(x + "d", y + "h", d, h);
    SpaceJoin(x, y);
  }

  lemma SpaceJoin(x: string, y: string)
    ensures x + "d " + y + "h" == (x + "d") + [' '] + (y + "h")
  {
  }

  lemma CombinePieces(a: string, b: string, d: int, h: int)
    requires ReadPiece(a) == Some(d) && ReadPiece(b) == Some(h)
    requires a != [] && a[|a| - 1] == 'd'
    ensures ReadPieces([a, b]) == Some(d + h)
  {
  }

  lemma TwoPieces(a: string, b: string, d: int, h: int)
    requires ' ' !in a && ' ' !in b
    requires ReadPiece(a) == Some(d) && ReadPiece(b) == Some(h)
    requires a != [] && a[|a| - 1] == 'd'
    ensures ReadDuration(a + [' '] + b) == Some(d + h)
  {
    var x := a + [' '] + b;
    assert Split(x, ' ') == [a, b] by {
      SplitPrefix(a, ' ', b);
      SplitNoSep(b, ' ');
    }
    CombinePieces(a, b, d, h);
    assert ReadDuration(x) == ReadPieces([a, b]);
  }

  /**
   * Round trip: whatever hours value parseInt reads, the formatted text
   * reads back to that many hours (minutes are whole hours times 60).
   */
  lemma DurationRoundTrip(hours: Value, h: int)
    requires Truthy(hours) && ParseIntValue(hours) == Some(h)
    ensures ReadDuration(FormatDuration(hours)) == Some(h)
  {
    WholeHoursRoundTrip(h);
  }

  lemma WholeHoursRoundTrip(h: int)
    ensures ReadDuration(WholeHoursText(h)) == Some(h)
  {
    if h < 1 {
      assert WholeHoursText(h) == IntToString(h * 60) + "m";
      SinglePiece(h * 60, 'm');
      assert h * 60 / 60 == h;
    } else if h >= 24 {
      var days, remaining := h / 24, h % 24;
      assert days * 24 + remaining == h;
      if remaining > 0 {
        assert WholeHoursText(h) == IntToString(days) + "d " + IntToString(remaining) + "h";
        DaysAndHours(days, remaining);
      } else {
        assert WholeHoursText(h) == IntToString(days) + "d";
        SinglePiece(days, 'd');
      }
    } else {
      assert WholeHoursText(h) == IntToString(h) + "h";
      SinglePiece(h, 'h');
    }
  }

  /** Blank or zero hours and unparsable text. */
  lemma DurationEdgeExamples()
    ensures FormatDuration(Num(0)) == "0h"
    ensures FormatDuration(Str("")) == "0h"
    ensures FormatDuration(Str("abc")) == "NaNh"
  {
    ParseIntOfLetter("abc");
    assert ParseIntValue(Str("abc")) == None;
  }

  /** 48 hours are shown as two days. */
  lemma DurationDaysExample()
    ensures FormatDuration(Num(48)) == "2d"
  {
    HoursOfNumber(48);
    TwoDays();
  }

  /** Text with a `0x` prefix is read as hexadecimal hours: 0x30 is 48 hours, two days. */
  lemma DurationHexExample()
    ensures FormatDuration(Str("0x30")) == "2d"
  {
    assert TrimStart("0x30") == "0x30";
    assert ParseSigned("0x30") == Some(48) by {
      assert "0x30"[2..] == "30" && HexPrefix("30") == "30";
      assert HexValue("30") == 48 by { assert "30"[..1] == "3"; assert "3"[..0] == ""; }
    }
    assert ParseIntValue(Str("0x30")) == Some(48);
    TwoDays();
  }

  lemma TwoDays()
    ensures WholeHoursText(48) == "2d"
  {
    assert 48 / 24 == 2 && 48 % 24 == 0;
    assert IntToString(2) == [DigitChar(2)] == "2";
  }

  lemma HoursOfNumber(n: int)
    requires n != 0
    ensures FormatDuration(Num(n)) == WholeHoursText(n)
  {
    ParseIntOfNumber(n);
  }

  // ---------------------------------------------------------------------
  // getStatusColor, getProgressColor

  const Yellow := "bg-yellow-100 text-yellow-800 border-yellow-300"
  const Green := "bg-green-100 text-green-800 border-green-300"
  const Blue := "bg-blue-100 text-blue-800 border-blue-300"
  const Gray := "bg-gray-100 text-gray-800 border-gray-300"
  const Red := "bg-red-100 text-red-800 border-red-300"

  const StatusColors: map<string, string> := map[
    "Pending" := Yellow, "Active" := Green, "Completed" := Blue, "Cancelled" := Gray,
    "Expired" := Red, "Approved" := Green, "Rejected" := Red, "Draft" := Gray,
    "Published" := Green, "Archived" := Gray]

  /** `statusColors[status] || gray`: the key is the status converted to text. */
  function GetStatusColor(status: Value): (r: string)
    ensures ToText(status) in StatusColors ==> r == StatusColors[ToText(status)]
    ensures ToText(status) !in StatusColors ==> r == Gray
    ensures r in {Yellow, Green, Blue, Gray, Red}
  {
    var key := ToText(status);
    if key in StatusColors then StatusColors[key] else Gray
  }

  lemma StatusColorExamples()
    ensures GetStatusColor(Str("Completed")) == Blue
    ensures GetStatusColor(Str("completed")) == Gray
    ensures GetStatusColor(Undefined) == Gray
  {
  }

  datatype ProgressColor = RedBar | YellowBar | BlueBar | GreenBar

  function ProgressClass(c: ProgressColor): string {
    match c
    case GreenBar => "bg-green-500"
    case BlueBar => "bg-blue-500"
    case YellowBar => "bg-yellow-500"
    case RedBar => "bg-red-500"
  }

  /** `parseFloat(percentage) || 0`, the parsed number given (None for NaN). */
  function GetProgressColor(pct: Option<real>): (c: ProgressColor)
    ensures var p := if pct.Some? then pct.value else 0.0;
            (c == GreenBar <==> p >= 80.0) && (c == BlueBar <==> 50.0 <= p < 80.0)
            && (c == YellowBar <==> 25.0 <= p < 50.0) && (c == RedBar <==> p < 25.0)
  {
    var p := if pct.Some? && pct.value != 0.0 then pct.value else 0.0;
    if p >= 80.0 then GreenBar
    else if p >= 50.0 then BlueBar
    else if p >= 25.0 then YellowBar
    else RedBar
  }

  function Rank(c: ProgressColor): nat {
    match c
    case RedBar => 0
    case YellowBar => 1
    case BlueBar => 2
    case GreenBar => 3
  }

  /** A larger percentage never gets a lower colour band. */
  lemma ProgressColorMonotone(p: real, q: real)
    requires p <= q
    ensures Rank(GetProgressColor(Some(p))) <= Rank(GetProgressColor(Some(q)))
  {
  }

  // ---------------------------------------------------------------------
  // calculateDaysRemaining

  /** null without a date, NaN for an unparsable one, else the whole days left, rounded up. */
  function CalculateDaysRemaining(endDate: DateArg, now: int): (r: Value)
    ensures !Truthy(endDate.raw) <==> r == Null
    ensures Truthy(endDate.raw) && endDate.at.InvalidDate? <==> r == NaN
    ensures r.Num? ==> (r.n - 1) * MsPerDay < endDate.at.ms - now <= r.n * MsPerDay
  {
    if !Truthy(endDate.raw) then Null
    else match endDate.at
      case InvalidDate => NaN
      case At(end) => Num(DaysUntil(end, now))
  }

  // ---------------------------------------------------------------------
  // generateId

  predicate IsBase36Digit(c: char) {
    IsDigit(c) || 'a' <= c <= 'z'
  }

  function Base36Digit(d: nat): (c: char)
    requires d < 36
    ensures IsBase36Digit(c)
  {
    if d < 10 then DigitChar(d) else ('a' as int + d - 10) as char
  }

  function Base36Value(c: char): nat
    requires IsBase36Digit(c)
  {
    if IsDigit(c) then c as int - '0' as int else c as int - 'a' as int + 10
  }

  /** Number.prototype.toString(36) of a non-negative integer. */
  function ToBase36(n: nat): (s: string)
    ensures |s| >= 1 && forall k :: 0 <= k < |s| ==> IsBase36Digit(s[k])
  {
    if n < 36 then [Base36Digit(n)] else ToBase36(n / 36) + [Base36Digit(n % 36)]
  }

  function FromBase36(s: string): nat
    requires forall k :: 0 <= k < |s| ==> IsBase36Digit(s[k])
  {
    if s == [] then 0 else FromBase36(s[..|s| - 1]) * 36 + Base36Value(s[|s| - 1])
  }

  lemma {:induction false} Base36RoundTrip(n: nat)
    ensures FromBase36(ToBase36(n)) == n
  {
    if n >= 36 {
      Base36RoundTrip(n / 36);
      var s := ToBase36(n);
      assert s[..|s| - 1] == ToBase36(n / 36);
    }
  }

  /** String.prototype.substring(start, end) with 0 <= start <= end. */
  function Substring(s: string, start: nat, end: nat): (r: string)
    requires start <= end
    ensures |r| <= end - start
    ensures end <= |s| ==> r == s[start..end]
  {
    var a := if start < |s| then start else |s|;
    var b := if end < |s| then end else |s|;
    s[a..b]
  }

  /**
   * generateId(prefix = ''): `nowMs` is Date.now() and `randomText` is
   * Math.random().toString(36).
   */
  function GenerateId(prefix: Value, nowMs: nat, randomText: string): (id: string)
    ensures Truthy(prefix) ==>
              id == ToText(prefix) + "-" + ToBase36(nowMs) + "-" + Substring(randomText, 2, 7)
    ensures !Truthy(prefix) ==> id == ToBase36(nowMs) + "-" + Substring(randomText, 2, 7)
  {
    var timestamp := ToBase36(nowMs);
    var random := Substring(randomText, 2, 7);
    if Truthy(prefix) then ToText(prefix) + "-" + timestamp + "-" + random
    else timestamp + "-" + random
  }

  /**
   * The identifier splits back on '-' into the prefix, the base-36
   * timestamp (which reads back to the clock value) and the random part.
   */
  lemma GenerateIdParts(prefix: string, nowMs: nat, randomText: string)
    requires prefix != "" && '-' !in prefix && '-' !in randomText
    ensures var parts := Split(GenerateId(Str(prefix), nowMs, randomText), '-');
            |parts| == 3 && parts[0] == prefix && parts[1] == ToBase36(nowMs)
            && FromBase36(ToBase36(nowMs)) == nowMs
            && parts[2] == Substring(randomText, 2, 7) && |parts[2]| <= 5
  {
    var ts := ToBase36(nowMs);
    var rnd := Substring(randomText, 2, 7);
    assert '-' !in rnd;
    assert '-' !in ts;
    assert [prefix, ts, rnd][1..] == [ts, rnd] && [ts, rnd][1..] == [rnd];
    assert Join([ts, rnd], '-') == ts + "-" + rnd;
    assert prefix + "-" + ts + "-" + rnd == Join([prefix, ts, rnd], '-');
    SplitJoin([prefix, ts, rnd], '-');
    Base36RoundTrip(nowMs);
  }

  // ---------------------------------------------------------------------
  // truncateText, getInitials

  /** truncateText(text, maxLength = 100); a missing text is None and comes back as is. */
  function TruncateText(text: Option<string>, maxLength: int): (r: Option<string>)
    ensures text.None? || text.value == "" || |text.value| <= maxLength ==> r == text
    ensures text.Some? && text.value != "" && |text.value| > maxLength ==>
              var m := if maxLength < 0 then 0 else maxLength;
              r.Some? && |r.value| == m + 3 && r.value == text.value[..m] + "..."
  {
    if text.None? || text.value == "" || |text.value| <= maxLength then text
    else
      var m := if maxLength < 0 then 0 else maxLength;
      assert Substring(text.value, 0, m) == text.value[..m];
      Some(Substring(text.value, 0, m) + "...")
  }

  /** getInitials(name): 'U' when falsy; a TypeError for a non-string or a blank one. */
  function GetInitials(name: Value): (r: Result<string>)
    ensures !Truthy(name) ==> r == Success("U")
    ensures Truthy(name) && !name.Str? ==> r.Failure?
    ensures Truthy(name) && name.Str? ==> r == Initials(Trim(name.s))
  {
    if !Truthy(name) then Success("U")
    else if !name.Str? then Failure("name.trim is not a function")
    else
      TrimIsTrimmed(name.s);
      Initials(Trim(name.s))
  }

  /** Its ends hold no whitespace, as after String.prototype.trim. */
  predicate Trimmed(t: string) {
    t == [] || (!IsWhitespace(t[0]) && !IsWhitespace(t[|t| - 1]))
  }

  lemma TrimIsTrimmed(s: string)
    ensures Trimmed(Trim(s))
  {
  }

  /** The initials of an already trimmed name: the first characters of its first and last words. */
  function Initials(t: string): Result<string>
    requires Trimmed(t)
  {
    var parts := Split(t, ' ');
    if |parts| == 1 then
      if parts[0] == [] then Failure("Cannot read properties of undefined (reading 'toUpperCase')")
      else Success(ToUpper([parts[0][0]]))
    else
      InitialsManyWords(t);
      Success(ToUpper([parts[0][0], parts[|parts| - 1][0]]))
  }

  /**
   * A non-blank name gets the upper-cased first character of its trimmed
   * text, followed, when it has several words, by the upper-cased first
   * character after its last space; a blank name throws. At most two
   * characters either way.
   */
  lemma InitialsMeaning(s: string)
    requires s != ""
    ensures var r := GetInitials(Str(s));
            (r.Failure? <==> IsBlank(s))
            && (r.Success? ==> InitialsOf(Trim(s), r.value))
  {
    TrimEmptyIffBlank(s);
    InitialsOfTrimmed(Trim(s));
  }

  /** `v` is one or two upper-cased characters: the first of `t` and, if `t` has a space, the one after its last space. */
  predicate InitialsOf(t: string, v: string) {
    t != [] && 1 <= |v| <= 2 && v[0] == ToUpperChar(t[0])
    && (|v| == 2 <==> ' ' in t)
    && (|v| == 2 ==> LastPartStart(t, ' ') < |t| && v[1] == ToUpperChar(t[LastPartStart(t, ' ')]))
  }

  lemma InitialsOfTrimmed(t: string)
    requires Trimmed(t)
    ensures Initials(t).Failure? <==> t == []
    ensures Initials(t).Success? ==> InitialsOf(t, Initials(t).value)
  {
    var parts := Split(t, ' ');
    if |parts| == 1 {
      InitialsOneWord(t);
    } else {
      InitialsManyWords(t);
    }
  }

  lemma InitialsOneWord(t: string)
    requires |Split(t, ' ')| == 1
    ensures Split(t, ' ')[0] == t && ' ' !in t
  {
    JoinSplit(t, ' ');
  }

  lemma InitialsManyWords(t: string)
    requires Trimmed(t)
    requires |Split(t, ' ')| > 1
    ensures var parts := Split(t, ' ');
            t != [] && parts[0] != [] && parts[0][0] == t[0] && ' ' in t
            && LastPartStart(t, ' ') < |t| && parts[|parts| - 1] == t[LastPartStart(t, ' ')..]
  {
    if ' ' !in t {
      SplitNoSep(t, ' ');
    }
    SplitFirstNonEmpty(t, ' ');
    SplitLastPart(t, ' ');
  }

  // ---------------------------------------------------------------------
  // exportToCSV: the text handed to the download

  /** An object's own enumerable properties, in key order. */
  type Row = seq<(string, Value)>

  function Keys(row: Row): seq<string> {
    seq(|row|, k requires 0 <= k < |row| => row[k].0)
  }

  /** `row[header]`: the first property with that key, or undefined. */
  function Lookup(row: Row, key: string): Value {
    if row == [] then Undefined
    else if row[0].0 == key then row[0].1
    else Lookup(row[1..], key)
  }

  /** One cell: empty for null/undefined, quoted if a string holds a comma, else its text. */
  function CsvCell(v: Value): (c: string)
    ensures v == Null || v == Undefined ==> c == ""
    ensures v.Str? && ',' in v.s ==> c == "\"" + v.s + "\""
    ensures v.Str? && ',' !in v.s ==> c == v.s
  {
    if v == Null || v == Undefined then ""
    else if v.Str? && Contains(v.s, ",") then
      ContainsCharIff(v.s, ',');
      "\"" + v.s + "\""
    else
      if v.Str? then ContainsCharIff(v.s, ','); ToText(v) else ToText(v)
  }

  function CsvLine(row: Row, headers: seq<string>): string {
    Join(seq(|headers|, k requires 0 <= k < |headers| => CsvCell(Lookup(row, headers[k]))), ',')
  }

  function CsvLines(data: seq<Row>): (lines: seq<string>)
    requires |data| > 0
    ensures |lines| == |data| + 1
  {
    var headers := Keys(data[0]);
    [Join(headers, ',')] + seq(|data|, k requires 0 <= k < |data| => CsvLine(data[k], headers))
  }

  /** The CSV text exportToCSV builds; None when there is nothing to export. */
  function CsvText(data: seq<Row>): (r: Option<string>)
    ensures r.None? <==> |data| == 0
  {
    if |data| == 0 then None else Some(Join(CsvLines(data), '\n'))
  }

  /**
   * Splitting the text on line breaks gives the header line and one line
   * per row, provided no key or cell text holds a line break.
   */
  lemma CsvTextLines(data: seq<Row>)
    requires |data| > 0
    requires forall k :: 0 <= k < |CsvLines(data)| ==> '\n' !in CsvLines(data)[k]
    ensures Split(CsvText(data).value, '\n') == CsvLines(data)
    ensures |Split(CsvText(data).value, '\n')| == |data| + 1
    ensures Split(CsvText(data).value, '\n')[0] == Join(Keys(data[0]), ',')
  {
    SplitJoin(CsvLines(data), '\n');
  }

  /** Inner quotes are not escaped. */
  lemma CsvQuotesNotEscaped()
    ensures CsvCell(Str("a,\"b")) == "\"a,\"b\""
  {
    assert ',' in "a,\"b" by {
      assert "a,\"b"[1] == ',';
    }
  }

  lemma {:induction false} ContainsCharIff(s: string, c: char)
    ensures Contains(s, [c]) <==> c in s
  {
    if c in s {
      var k :| 0 <= k < |s| && s[k] == c;
      assert OccursAt(s, [c], k);
    }
    if Contains(s, [c]) {
      var k :| 0 <= k <= |s| - 1 && OccursAt(s, [c], k);
      assert s[k] == s[k..k + 1][0];
    }
  }
}
