/**
  The frame `Feed::query` puts around the search-term compiler: when a query
  applies criteria at all, and the order both result lists come back in. The
  query parser and the database are not part of this model: the parser is a
  function parameter, and a table is the sequence of its records.
*/
module FeedQuery {
  import opened Optional
  import opened PhpStrings
  import opened Criteria

  /** PHP's `empty()` on a string: the empty string and `"0"`. */
  predicate PhpEmpty(s: string) {
    s == "" || s == "0"
  }

  /** The note criteria and the actor criteria of a query; `None` is `null`. */
  datatype QueryCriteria = QueryCriteria(note: Option<Pred>, actor: Option<Pred>)

  /** The criteria `query` hands to the builders: none for an empty trimmed
      query, otherwise what the parser makes of the trimmed query. */
  function CriteriaOf(query: string, parse: string -> QueryCriteria): (c: QueryCriteria)
    ensures PhpEmpty(Trim(query)) ==> c == QueryCriteria(None, None)
  {
    var q := Trim(query);
    if PhpEmpty(q) then QueryCriteria(None, None) else parse(q)
  }

  /** An all-blank query applies no criteria. */
  lemma BlankQueryAppliesNone(query: string, parse: string -> QueryCriteria)
    requires forall i :: 0 <= i < |query| ==> query[i] in TrimChars
    ensures CriteriaOf(query, parse) == QueryCriteria(None, None)
  {
    TrimEmptyIffBlank(query);
  }

  /** The parser sees the query without its blank margins, and never sees a
      query that is all blank. */
  lemma ParserSeesTrimmed(pre: string, core: string, post: string, parse: string -> QueryCriteria)
    requires forall i :: 0 <= i < |pre| ==> pre[i] in TrimChars
    requires forall i :: 0 <= i < |post| ==> post[i] in TrimChars
    requires core != [] && core[0] !in TrimChars && core[|core| - 1] !in TrimChars
    requires core != "0"
    ensures CriteriaOf(pre + core + post, parse) == parse(core)
  {
    TrimPadded(pre, core, post);
  }

  /** `empty("0")` holds in PHP: a query that is the digit zero, with or
      without blanks around it, applies no criteria either. */
  lemma ZeroQueryAppliesNone(pre: string, post: string, parse: string -> QueryCriteria)
    requires forall i :: 0 <= i < |pre| ==> pre[i] in TrimChars
    requires forall i :: 0 <= i < |post| ==> post[i] in TrimChars
    ensures CriteriaOf(pre + "0" + post, parse) == QueryCriteria(None, None)
  {
    TrimPadded(pre, "0", post);
  }

  // ---------------------------------------------------------------------
  // Result order
  // ---------------------------------------------------------------------

  /** A note or actor row: its key, its creation time and its columns. */
  datatype Record = Record(id: int, created: int, columns: Row)

  /** `ORDER BY created DESC, id DESC`: `a` comes before `b`. */
  predicate Before(a: Record, b: Record) {
    a.created > b.created || (a.created == b.created && a.id > b.id)
  }

  predicate NewestFirst(rows: seq<Record>) {
    forall i, j :: 0 <= i < j < |rows| ==> Before(rows[i], rows[j])
  }

  /** No two rows share a key: one record per note or per actor. */
  predicate DistinctIds(rows: seq<Record>) {
    forall i, j :: 0 <= i < j < |rows| ==> rows[i].id != rows[j].id
  }

  /** Whether a record meets the criteria; no criteria admits every record. */
  predicate Admits(crit: Option<Pred>, r: Record) {
    crit.None? || Holds(crit.value, r.columns)
  }

  /** The rows of a table that meet the criteria, in table order. */
  function Matching(table: seq<Record>, crit: Option<Pred>): (rows: seq<Record>)
    ensures forall r :: r in rows <==> r in table && Admits(crit, r)
    ensures |rows| <= |table|
    decreases |table|
  {
    if table == [] then []
    else
      var rest := Matching(table[..|table| - 1], crit);
      var r := table[|table| - 1];
      assert forall x :: x in table <==> x in table[..|table| - 1] || x == r;
      if Admits(crit, r) then rest + [r] else rest
  }

  /** Without criteria every row of the table is returned. */
  lemma {:induction false} NoCriteriaKeepsAll(table: seq<Record>)
    ensures Matching(table, None) == table
    decreases |table|
  {
    if table != [] {
      var p, r := table[..|table| - 1], table[|table| - 1];
      NoCriteriaKeepsAll(p);
      assert Admits(None, r);
      assert Matching(table, None) == Matching(p, None) + [r];
      assert p + [r] == table;
    }
  }

  /** A row that shares no key with an ordered list, put in its place. */
  function Insert(r: Record, rows: seq<Record>): (res: seq<Record>)
    requires NewestFirst(rows)
    requires forall i :: 0 <= i < |rows| ==> rows[i].id != r.id
    ensures |res| == |rows| + 1
    ensures forall x :: x in res <==> x == r || x in rows
    ensures NewestFirst(res)
    decreases |rows|
  {
    if rows == [] || Before(r, rows[0]) then
      [r] + rows
    else
      var tail := Insert(r, rows[1..]);
      assert forall x :: x in rows[1..] ==> Before(rows[0], x);
      [rows[0]] + tail
  }

  /** The rows of `table` ordered newest first. */
  function Ordered(table: seq<Record>): (res: seq<Record>)
    requires DistinctIds(table)
    ensures |res| == |table|
    ensures forall x :: x in res <==> x in table
    ensures NewestFirst(res)
    decreases |table|
  {
    if table == [] then []
    else
      var p := table[..|table| - 1];
      var r := table[|table| - 1];
      var rest := Ordered(p);
      assert forall i :: 0 <= i < |rest| ==> rest[i] in p;
      Insert(r, rest)
  }

  lemma {:induction false} MatchingKeepsDistinct(table: seq<Record>, crit: Option<Pred>)
    requires DistinctIds(table)
    ensures DistinctIds(Matching(table, crit))
    decreases |table|
  {
    if table != [] {
      var p := table[..|table| - 1];
      MatchingKeepsDistinct(p, crit);
      var rest := Matching(p, crit);
      assert forall i :: 0 <= i < |rest| ==> rest[i] in p;
    }
  }

  /** What one domain of `query` returns: the rows the criteria admit,
      newest first, ties broken by the larger key. */
  function Results(table: seq<Record>, crit: Option<Pred>): seq<Record>
    requires DistinctIds(table)
  {
    MatchingKeepsDistinct(table, crit);
    Ordered(Matching(table, crit))
  }

  /** A list is a correct answer when it holds exactly the admitted rows and
      is ordered newest first. */
  ghost predicate IsAnswer(rows: seq<Record>, table: seq<Record>, crit: Option<Pred>) {
    && NewestFirst(rows)
    && forall r :: r in rows <==> r in table && Admits(crit, r)
  }

  /** `Results` is a correct answer. */
  lemma ResultsAnswer(table: seq<Record>, crit: Option<Pred>)
    requires DistinctIds(table)
    ensures IsAnswer(Results(table, crit), table, crit)
  {
    MatchingKeepsDistinct(table, crit);
  }

  /** The order by creation time and then key leaves no choice: two correct
      answers are the same list. */
  lemma AnswerUnique(a: seq<Record>, b: seq<Record>, table: seq<Record>, crit: Option<Pred>)
    requires IsAnswer(a, table, crit) && IsAnswer(b, table, crit)
    ensures a == b
  {
    SameOrderedRows(a, b);
  }

  lemma {:induction false} SameOrderedRows(a: seq<Record>, b: seq<Record>)
    requires NewestFirst(a) && NewestFirst(b)
    requires forall r :: r in a <==> r in b
    ensures a == b
    decreases |a|
  {
    assert (a == []) == (b == []) by {
      if a != [] { assert a[0] in a; }
      if b != [] { assert b[0] in b; }
    }
    if a != [] {
      assert a[0] in b;
      assert b[0] in a;
      assert a[0] == b[0];
      forall r ensures r in a[1..] <==> r in b[1..] {
        if r in a[1..] {
          var i :| 0 <= i < |a[1..]| && a[1..][i] == r;
          assert Before(a[0], a[i + 1]) && a[i + 1] == r && r in a && r in b;
          var k :| 0 <= k < |b| && b[k] == r;
          assert k != 0;
          assert b[1..][k - 1] == r;
        }
        if r in b[1..] {
          var i :| 0 <= i < |b[1..]| && b[1..][i] == r;
          assert Before(b[0], b[i + 1]) && b[i + 1] == r && r in b && r in a;
          var k :| 0 <= k < |a| && a[k] == r;
          assert k != 0;
          assert a[1..][k - 1] == r;
        }
      }
      SameOrderedRows(a[1..], b[1..]);
      assert a == [a[0]] + a[1..] && b == [b[0]] + b[1..];
    }
  }

  /** Both lists `query` returns, for a parsed query. */
  function Query(query: string, parse: string -> QueryCriteria, notes: seq<Record>, actors: seq<Record>): (seq<Record>, seq<Record>)
    requires DistinctIds(notes) && DistinctIds(actors)
  {
    var c := CriteriaOf(query, parse);
    (Results(notes, c.note), Results(actors, c.actor))
  }

  /** An all-blank query returns every note and every actor, newest first. */
  lemma BlankQueryReturnsAll(query: string, parse: string -> QueryCriteria, notes: seq<Record>, actors: seq<Record>)
    requires DistinctIds(notes) && DistinctIds(actors)
    requires forall i :: 0 <= i < |query| ==> query[i] in TrimChars
    ensures Query(query, parse, notes, actors) == (Ordered(notes), Ordered(actors))
  {
    BlankQueryAppliesNone(query, parse);
    NoCriteriaKeepsAll(notes);
    NoCriteriaKeepsAll(actors);
  }
}
