/**
 * SQL text built by appending to a string while a counter numbers the
 * `$k` placeholders, as the GET handlers of the API routes do.
 *
 * The text is kept as the sequence of pieces that were appended: literal
 * text, and the placeholder `$k`. `Render` spells it out.
 */
module Sql {
  import opened Wrappers
  import opened Strings
  import opened Js

  datatype Piece = Text(text: string) | Param(k: nat)

  function RenderPiece(p: Piece): string {
    match p
    case Text(t) => t
    case Param(k) => "$" + NatToString(k)
  }

  function Render(q: seq<Piece>): string {
    if q == [] then "" else Render(q[..|q| - 1]) + RenderPiece(q[|q| - 1])
  }

  /** The placeholder numbers in the order they occur in the text. */
  function Placeholders(q: seq<Piece>): seq<nat> {
    if q == [] then []
    else Placeholders(q[..|q| - 1]) + (if q[|q| - 1].Param? then [q[|q| - 1].k] else [])
  }

  /** 1, 2, …, n. */
  function Consecutive(n: nat): (r: seq<nat>)
    ensures |r| == n && forall i :: 0 <= i < n ==> r[i] == i + 1
  {
    seq(n, i requires 0 <= i < n => i + 1)
  }

  /** The present filters, in order: clause text, then its placeholder, numbered from start + 1. */
  function FilterPieces(filters: seq<(string, Value)>, start: nat): (q: seq<Piece>)
    ensures |q| == 2 * |filters|
  {
    if filters == [] then []
    else [Text(filters[0].0), Param(start + 1)] + FilterPieces(filters[1..], start + 1)
  }

  /** The filter a search parameter supplies: none when it is absent or empty (falsy). */
  function Supplied(clause: string, v: Option<string>): (fs: seq<(string, Value)>)
    ensures |fs| <= 1
    ensures fs != [] <==> v.Some? && v.value != ""
    ensures fs != [] ==> fs[0] == (clause, Str(v.value))
  {
    if v.Some? && v.value != "" then [(clause, Str(v.value))] else []
  }

  function Values(fs: seq<(string, Value)>): (vs: seq<Value>)
    ensures |vs| == |fs| && forall i :: 0 <= i < |fs| ==> vs[i] == fs[i].1
  {
    seq(|fs|, i requires 0 <= i < |fs| => fs[i].1)
  }

  lemma ValuesConcat(a: seq<(string, Value)>, b: seq<(string, Value)>)
    ensures Values(a + b) == Values(a) + Values(b)
  {
  }

  /** Numbering continues across consecutive groups of filters. */
  lemma {:induction false} FilterPiecesConcat(a: seq<(string, Value)>, b: seq<(string, Value)>, start: nat)
    ensures FilterPieces(a + b, start) == FilterPieces(a, start) + FilterPieces(b, start + |a|)
  {
    if a == [] {
      assert a + b == b;
    } else {
      FilterPiecesConcat(a[1..], b, start + 1);
      assert (a + b)[1..] == a[1..] + b;
    }
  }

  lemma PlaceholdersAppend(q: seq<Piece>, p: Piece)
    ensures Placeholders(q + [p]) == Placeholders(q) + (if p.Param? then [p.k] else [])
  {
    assert (q + [p])[..|q|] == q;
  }

  lemma {:induction false} PlaceholdersConcat(a: seq<Piece>, b: seq<Piece>)
    ensures Placeholders(a + b) == Placeholders(a) + Placeholders(b)
  {
    if b == [] {
      assert a + b == a;
    } else {
      var init, last := b[..|b| - 1], b[|b| - 1];
      var tail := if last.Param? then [last.k] else [];
      assert a + b == (a + init) + [last];
      assert b == init + [last];
      calc {
        Placeholders(a + b);
        == { PlaceholdersAppend(a + init, last); }
        Placeholders(a + init) + tail;
        == { PlaceholdersConcat(a, init); }
        (Placeholders(a) + Placeholders(init)) + tail;
        == { PlaceholdersAppend(init, last); }
        Placeholders(a) + Placeholders(b);
      }
    }
  }

  /** The filters' placeholders are start + 1, …, start + |filters|, in order. */
  lemma {:induction false} FilterPiecesNumbered(filters: seq<(string, Value)>, start: nat)
    ensures Placeholders(FilterPieces(filters, start)) == seq(|filters|, i requires 0 <= i < |filters| => start + 1 + i)
  {
    if filters != [] {
      FilterPiecesNumbered(filters[1..], start + 1);
      var head: seq<Piece> := [Text(filters[0].0), Param(start + 1)];
      PlaceholdersConcat(head, FilterPieces(filters[1..], start + 1));
      assert head == [Text(filters[0].0)] + [Param(start + 1)];
      PlaceholdersAppend([Text(filters[0].0)], Param(start + 1));
      PlaceholdersAppend([], Text(filters[0].0));
      assert [] + [Text(filters[0].0)] == [Text(filters[0].0)];
    }
  }

  /** What the route handlers' numbering guarantees: `$k` names params[k - 1], for k = 1 … |params|. */
  predicate Numbered(q: seq<Piece>, params: seq<Value>) {
    Placeholders(q) == Consecutive(|params|)
  }

  /** A query made of a base, the filters, and closing text with no placeholder is numbered. */
  lemma FiltersNumbered(base: string, filters: seq<(string, Value)>, tail: seq<Piece>)
    requires Placeholders(tail) == []
    ensures Numbered([Text(base)] + FilterPieces(filters, 0) + tail, Values(filters))
  {
    FilterPiecesNumbered(filters, 0);
    PlaceholdersConcat([Text(base)] + FilterPieces(filters, 0), tail);
    PlaceholdersConcat([Text(base)], FilterPieces(filters, 0));
    PlaceholdersAppend([], Text(base));
    assert [] + [Text(base)] == [Text(base)];
  }

  /**
   * The handler's local variables `sql`, `params` and `paramCount`. A GET
   * handler reassigns them clause by clause; each step below is one of its
   * statement groups.
   */
  datatype Query = Query(sql: seq<Piece>, params: seq<Value>, paramCount: nat)

  /** The counter invariant: `paramCount` is the number of parameters, and `$k` names params[k - 1]. */
  predicate Valid(q: Query) {
    q.paramCount == |q.params| && Numbered(q.sql, q.params)
  }

  /** `let sql = base; const params = []; let paramCount = 0`. */
  function Start(base: string): (q: Query)
    ensures Valid(q) && q.sql == [Text(base)] && q.params == [] && q.paramCount == 0
  {
    PlaceholdersAppend([], Text(base));
    assert [] + [Text(base)] == [Text(base)];
    Query([Text(base)], [], 0)
  }

  /** `sql += text` for text with no placeholder. */
  function Append(q: Query, text: string): (r: Query)
    requires Valid(q)
    ensures Valid(r) && r.sql == q.sql + [Text(text)] && r.params == q.params && r.paramCount == q.paramCount
  {
    PlaceholdersAppend(q.sql, Text(text));
    Query(q.sql + [Text(text)], q.params, q.paramCount)
  }

  /** `paramCount++; sql += clause + '$' + paramCount; params.push(v)`. */
  function AddParam(q: Query, clause: string, v: Value): (r: Query)
    requires Valid(q)
    ensures Valid(r)
    ensures r.sql == q.sql + [Text(clause), Param(q.paramCount + 1)]
    ensures r.params == q.params + [v] && r.paramCount == q.paramCount + 1
  {
    var n := q.paramCount + 1;
    PlaceholdersAppend(q.sql, Text(clause));
    PlaceholdersAppend(q.sql + [Text(clause)], Param(n));
    assert q.sql + [Text(clause)] + [Param(n)] == q.sql + [Text(clause), Param(n)];
    assert Consecutive(n - 1) + [n] == Consecutive(n);
    Query(q.sql + [Text(clause), Param(n)], q.params + [v], n)
  }

  /** `if (v) { paramCount++; sql += clause + '$' + paramCount; params.push(v) }`. */
  function AddSupplied(q: Query, clause: string, v: Option<string>): (r: Query)
    requires Valid(q)
    ensures Valid(r)
  {
    if v.Some? && v.value != "" then AddParam(q, clause, Str(v.value)) else q
  }

  /** The text so far is `head` followed by the clauses of `fs`, numbered from $1. */
  predicate Filtered(q: Query, head: seq<Piece>, fs: seq<(string, Value)>) {
    q.sql == head + FilterPieces(fs, 0) && q.params == Values(fs) && q.paramCount == |fs|
  }

  /** A supplied filter joins the ones before it; an absent one leaves the query as it was. */
  lemma AddSuppliedFiltered(q: Query, clause: string, v: Option<string>, head: seq<Piece>, fs: seq<(string, Value)>)
    requires Valid(q) && Filtered(q, head, fs)
    ensures Filtered(AddSupplied(q, clause, v), head, fs + Supplied(clause, v))
  {
    var added := Supplied(clause, v);
    FilterPiecesConcat(fs, added, 0);
    ValuesConcat(fs, added);
    if v.Some? && v.value != "" {
      assert FilterPieces(added, |fs|) == [Text(clause), Param(|fs| + 1)];
    } else {
      assert fs + added == fs;
    }
  }
}
