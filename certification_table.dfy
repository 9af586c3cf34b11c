/**
 * The certifications list (components/certifications/CertificationTable.jsx).
 *
 * Each certificate's status is computed when the list is read: revoked
 * wins, a certificate without an expiry is active, otherwise the whole days
 * to expiry decide between expired, expiring soon (30 days or fewer) and
 * active. The view keeps the certificates that match the search and the
 * status filter; the summary counts the whole list. `new Date()` and what
 * `new Date(expires_at)` yields are inputs.
 */
module CertificationTable {
  import opened Wrappers
  import opened Strings
  import opened Js
  import opened Time
  import opened SortToggle

  datatype Status = Active | ExpiringSoon | Expired | Revoked

  /** The STATUS_CONFIG key of a status. */
  function Key(s: Status): string {
    match s
    case Active => "active"
    case ExpiringSoon => "expiring_soon"
    case Expired => "expired"
    case Revoked => "revoked"
  }

  const ConfigKeys: seq<string> := ["active", "expiring_soon", "expired", "revoked"]

  /** A certificate as listed; `expiry` is what `new Date(expires_at)` yields. */
  datatype Cert = Cert(
    status: Value, expiresAt: Value, expiry: Instant,
    certificateName: Option<string>, employeeName: Option<string>, courseTitle: Option<string>)

  /** getDaysUntilExpiry: null without an expiry, NaN for an unreadable one, else ⌈days⌉. */
  function DaysUntilExpiry(expiresAt: Value, expiry: Instant, now: int): (r: Value)
    ensures !Truthy(expiresAt) ==> r == Null
    ensures Truthy(expiresAt) && expiry == InvalidDate ==> r == NaN
    ensures Truthy(expiresAt) && expiry.At? ==> r.Num? && (r.n - 1) * MsPerDay < expiry.ms - now <= r.n * MsPerDay
  {
    if !Truthy(expiresAt) then Null
    else if expiry.InvalidDate? then NaN
    else Num(DaysUntil(expiry.ms, now))
  }

  /** getStatus; the day count is NaN for an unreadable expiry, and NaN compares false, so that is active. */
  function GetStatus(c: Cert, now: int): (s: Status)
    ensures c.status == Str("revoked") ==> s == Revoked
    ensures c.status != Str("revoked") ==> s != Revoked
    ensures c.status != Str("revoked") && !Truthy(c.expiresAt) ==> s == Active
    ensures c.status != Str("revoked") && Truthy(c.expiresAt) && c.expiry.At? ==>
              var d := DaysUntil(c.expiry.ms, now);
              (s == Expired <==> d < 0) && (s == ExpiringSoon <==> 0 <= d <= 30) && (s == Active <==> d > 30)
  {
    if c.status == Str("revoked") then Revoked
    else if !Truthy(c.expiresAt) then Active
    else
      match DaysUntilExpiry(c.expiresAt, c.expiry, now)
      case Num(d) => if d < 0 then Expired else if d <= 30 then ExpiringSoon else Active
      case _ => Active
  }

  /** The computed status always names a STATUS_CONFIG entry, so the badge lookup finds one. */
  lemma StatusHasConfig(c: Cert, now: int)
    ensures Key(GetStatus(c, now)) in ConfigKeys
  {
  }

  /** Expiry today or within 30 days is "expiring soon"; a day later than that is active; a day past is expired. */
  lemma ExpiryThresholds(c: Cert, now: int)
    requires c.status != Str("revoked") && Truthy(c.expiresAt)
    ensures c.expiry == At(now) ==> GetStatus(c, now) == ExpiringSoon
    ensures c.expiry == At(now + 30 * MsPerDay) ==> GetStatus(c, now) == ExpiringSoon
    ensures c.expiry == At(now + 30 * MsPerDay + 1) ==> GetStatus(c, now) == Active
    ensures c.expiry == At(now - MsPerDay) ==> GetStatus(c, now) == Expired
    ensures c.expiry == InvalidDate ==> GetStatus(c, now) == Active
  {
  }

  // ---------------------------------------------------------------------
  // The listed rows

  datatype Row = Row(cert: Cert, computedStatus: Status)

  predicate MatchesSearch(c: Cert, term: string) {
    term == "" || IncludesIgnoringCase(c.certificateName, term) || IncludesIgnoringCase(c.employeeName, term)
    || IncludesIgnoringCase(c.courseTitle, term)
  }

  predicate MatchesStatus(s: Status, filter: string) {
    filter == "all" || Key(s) == filter
  }

  predicate Shown(c: Cert, now: int, term: string, filter: string) {
    MatchesSearch(c, term) && MatchesStatus(GetStatus(c, now), filter)
  }

  /** The map-then-filter chain, in the list's order. */
  function Listed(certs: seq<Cert>, now: int, term: string, filter: string): (rows: seq<Row>)
    ensures |rows| <= |certs|
  {
    if certs == [] then []
    else
      var rest := Listed(certs[1..], now, term, filter);
      if Shown(certs[0], now, term, filter) then [Row(certs[0], GetStatus(certs[0], now))] + rest else rest
  }

  /** A row is listed exactly when its certificate matches both filters, with the status computed for it. */
  lemma {:induction false} ListedMeaning(certs: seq<Cert>, now: int, term: string, filter: string, r: Row)
    ensures r in Listed(certs, now, term, filter) <==>
              r.cert in certs && Shown(r.cert, now, term, filter) && r.computedStatus == GetStatus(r.cert, now)
  {
    if certs != [] {
      ListedMeaning(certs[1..], now, term, filter, r);
      assert certs == [certs[0]] + certs[1..];
    }
  }

  /** No search and the 'all' filter list every certificate. */
  lemma {:induction false} NoFilterListsAll(certs: seq<Cert>, now: int)
    ensures |Listed(certs, now, "", "all")| == |certs|
  {
    if certs != [] {
      NoFilterListsAll(certs[1..], now);
    }
  }

  // ---------------------------------------------------------------------
  // The summary

  /** `certifications.filter(c => getStatus(c) === s).length`, over the unfiltered list. */
  function Count(certs: seq<Cert>, now: int, s: Status): (n: nat)
    ensures n <= |certs|
  {
    if certs == [] then 0 else (if GetStatus(certs[0], now) == s then 1 else 0) + Count(certs[1..], now, s)
  }

  function RevokedCount(certs: seq<Cert>): nat {
    if certs == [] then 0 else (if certs[0].status == Str("revoked") then 1 else 0) + RevokedCount(certs[1..])
  }

  /** The three counts cover every certificate that is not revoked, each once. */
  lemma {:induction false} SummaryCounts(certs: seq<Cert>, now: int)
    ensures Count(certs, now, Active) + Count(certs, now, ExpiringSoon) + Count(certs, now, Expired)
            == |certs| - RevokedCount(certs)
    ensures Count(certs, now, Revoked) == RevokedCount(certs)
  {
    if certs != [] {
      SummaryCounts(certs[1..], now);
    }
  }

  // ---------------------------------------------------------------------
  // Sorting

  /** The first sort is on the issue date, newest first; another column starts descending. */
  const InitialSort := SortState("issued_date", Desc)

  function HandleSortCertifications(s: SortState<string>, column: string): (r: SortState<string>)
    ensures r.column == column
    ensures r.direction == if s.column == column then Flip(s.direction) else Desc
  {
    HandleSort(s, column, Desc)
  }
}
