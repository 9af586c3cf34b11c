/**
 * What the two report screens (components/reports/CourseAnalytics.jsx and
 * components/reports/EmployeeReport.jsx) compute the same way: the filter
 * choices from the rows, totals and averages over the listed rows, and the
 * exported CSV text.
 */
module Reports {
  import opened Wrappers
  import opened Strings
  import opened Js

  /** `[...new Set(values.filter(Boolean))]`: each non-empty value once, in order of first appearance. */
  function DistinctPresent(values: seq<Option<string>>): (r: seq<string>)
    ensures forall k :: 0 <= k < |r| ==> r[k] != ""
  {
    if values == [] then []
    else
      var prev := DistinctPresent(values[..|values| - 1]);
      var v := values[|values| - 1];
      if v.Some? && v.value != "" && v.value !in prev then prev + [v.value] else prev
  }

  /** The choices are exactly the non-empty values that occur, none twice. */
  lemma {:induction false} DistinctPresentMeaning(values: seq<Option<string>>)
    ensures var r := DistinctPresent(values);
            (forall x :: x in r <==> x != "" && Some(x) in values)
            && (forall i, j :: 0 <= i < j < |r| ==> r[i] != r[j])
  {
    if values != [] {
      var init := values[..|values| - 1];
      DistinctPresentMeaning(init);
      assert values == init + [values[|values| - 1]];
      forall x ensures Some(x) in values <==> Some(x) in init || Some(x) == values[|values| - 1] {
      }
    }
  }

  /** `rows.reduce((sum, r) => sum + f(r), 0)`. */
  function SumBy<T>(rows: seq<T>, f: T -> int): int {
    if rows == [] then 0 else f(rows[0]) + SumBy(rows[1..], f)
  }

  lemma {:induction false} SumByConcat<T>(a: seq<T>, b: seq<T>, f: T -> int)
    ensures SumBy(a + b, f) == SumBy(a, f) + SumBy(b, f)
  {
    if a == [] {
      assert a + b == b;
    } else {
      SumByConcat(a[1..], b, f);
      assert (a + b)[1..] == a[1..] + b;
    }
  }

  /**
   * A total does not depend on the order of the rows; so the totals over
   * the sorted list are those over the filtered list, whatever order the
   * sort leaves.
   */
  lemma {:induction false} SumByPermutation<T>(a: seq<T>, b: seq<T>, f: T -> int)
    requires multiset(a) == multiset(b)
    ensures SumBy(a, f) == SumBy(b, f)
    decreases |a|
  {
    if a == [] {
      assert |b| == |multiset(b)| == 0;
    } else {
      var x := a[0];
      assert x in multiset(b);
      var i :| 0 <= i < |b| && b[i] == x;
      var rest := b[..i] + b[i + 1..];
      RemoveOne(b, i);
      assert a == [x] + a[1..];
      assert multiset(a[1..]) == multiset(a) - multiset{x};
      SumByPermutation(a[1..], rest, f);
      SumByRemove(b, i, f);
    }
  }

  lemma RemoveOne<T>(b: seq<T>, i: int)
    requires 0 <= i < |b|
    ensures multiset(b[..i] + b[i + 1..]) == multiset(b) - multiset{b[i]}
  {
    assert b == b[..i] + [b[i]] + b[i + 1..];
  }

  lemma SumByRemove<T>(b: seq<T>, i: int, f: T -> int)
    requires 0 <= i < |b|
    ensures SumBy(b, f) == f(b[i]) + SumBy(b[..i] + b[i + 1..], f)
  {
    assert b == b[..i] + ([b[i]] + b[i + 1..]);
    SumByConcat(b[..i], [b[i]] + b[i + 1..], f);
    SumByConcat(b[..i], b[i + 1..], f);
    assert ([b[i]] + b[i + 1..])[1..] == b[i + 1..];
  }

  /** `n > 0 ? sum / n : 0`. */
  function Average(sum: int, n: nat): (r: real)
    ensures n > 0 ==> r * (n as real) == sum as real
    ensures n == 0 ==> r == 0.0
  {
    if n > 0 then sum as real / n as real else 0.0
  }

  /** `value || 0` on a numeric column, as rendered in the CSV. */
  function NumberCell(x: Option<int>): string {
    IntToString(OrInt(x, 0))
  }

  /** `rows.map(row => row.join(',')).join('\n')`. */
  function CsvText(rows: seq<seq<string>>): string {
    Join(seq(|rows|, k requires 0 <= k < |rows| => Join(rows[k], ',')), '\n')
  }

  lemma {:induction false} JoinAvoids(parts: seq<string>, sep: char, c: char)
    requires c != sep && forall k :: 0 <= k < |parts| ==> c !in parts[k]
    ensures c !in Join(parts, sep)
  {
    if |parts| > 1 {
      JoinAvoids(parts[1..], sep, c);
    }
  }

  /**
   * When no cell holds a comma or a line break, the CSV splits back into
   * one line per row, and each line into that row's cells.
   */
  lemma CsvReadsBack(rows: seq<seq<string>>)
    requires |rows| >= 1
    requires forall k, j :: 0 <= k < |rows| && 0 <= j < |rows[k]| ==> ',' !in rows[k][j] && '\n' !in rows[k][j]
    ensures var lines := Split(CsvText(rows), '\n');
            |lines| == |rows|
            && forall k :: 0 <= k < |rows| && |rows[k]| >= 1 ==> Split(lines[k], ',') == rows[k]
  {
    var lines := seq(|rows|, k requires 0 <= k < |rows| => Join(rows[k], ','));
    forall k | 0 <= k < |lines| ensures '\n' !in lines[k] {
      JoinAvoids(rows[k], ',', '\n');
    }
    SplitJoin(lines, '\n');
    forall k | 0 <= k < |rows| && |rows[k]| >= 1 ensures Split(lines[k], ',') == rows[k] {
      SplitJoin(rows[k], ',');
    }
  }

  /** A number's text has no separator in it. */
  lemma NumberCellPlain(x: Option<int>)
    ensures ',' !in NumberCell(x) && '\n' !in NumberCell(x)
  {
    var t := NumberCell(x);
    var i := OrInt(x, 0);
    if i < 0 {
      assert t == "-" + NatToString(-i);
      assert forall k :: 1 <= k < |t| ==> IsDigit(t[k]);
    }
  }

  /** A text value free of commas and line breaks. */
  predicate Plain(x: Option<string>) {
    x.Some? ==> ',' !in x.value && '\n' !in x.value
  }

  /** `text || ''` for the CSV. */
  function TextCell(x: Option<string>): string {
    OrStr(x, "")
  }
}
