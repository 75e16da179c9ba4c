/**
  The feed editor of the left panel: the form it builds from the user's
  feeds, the remove button it looks up, and the "update existing" step that
  chunks the submitted values into one triple per feed, sorts the triples by
  their order, renumbers them 1..n and writes them back to the feeds. The
  digest of a URL (`md5`) is a parameter; the form framework, the database
  and the cache are not part of this model.
*/
module EditFeeds {
  import opened Optional
  import opened PhpStrings

  /** A feed as the editor reads it: `getUrl`, `getOrdering`, `getTitle`. */
  datatype Feed = Feed(url: string, ordering: int, title: string)

  datatype FieldType = TextField | IntegerField | SubmitField

  /** The initial value of a field; PHP's `/` yields a float unless the
      division is exact. */
  datatype Datum = NoDatum | Text(s: string) | Number(n: int) | Float(r: real)

  /** One entry of `$form_definitions`: name, type and initial value. */
  datatype FieldDef = FieldDef(name: string, kind: FieldType, data: Datum)

  /** A digest is safe to build field names from when it has no `-`, as the
      hexadecimal output of `md5` has not. */
  predicate DashFree(md5: string -> string, feeds: seq<Feed>) {
    forall i :: 0 <= i < |feeds| ==> '-' !in md5(feeds[i].url)
  }

  // ---------------------------------------------------------------------
  // The form definitions
  // ---------------------------------------------------------------------

  /** The four fields of one feed, named after the digest of its URL. */
  function FeedFields(f: Feed, md5: string -> string): seq<FieldDef> {
    var d := md5(f.url);
    [ FieldDef(d + "-url", TextField, Text(f.url)),
      FieldDef(d + "-order", IntegerField, Number(f.ordering)),
      FieldDef(d + "-title", TextField, Text(f.title)),
      FieldDef(d + "-remove", SubmitField, NoDatum) ]
  }

  function AllFeedFields(feeds: seq<Feed>, md5: string -> string): (defs: seq<FieldDef>)
    ensures |defs| == 4 * |feeds|
    decreases |feeds|
  {
    if feeds == [] then []
    else AllFeedFields(feeds[..|feeds| - 1], md5) + FeedFields(feeds[|feeds| - 1], md5)
  }

  /** `(count($form_definitions) / 4) + 1`: an integer when the count is a
      multiple of four, a float otherwise. */
  function OrderDefault(count: nat): Datum {
    if count % 4 == 0 then Number(count / 4 + 1) else Float(count as real / 4.0 + 1.0)
  }

  /** The six fields after the feeds', given how many definitions precede the
      `order` field. */
  function NewFeedFields(count: nat): seq<FieldDef> {
    [ FieldDef("url", TextField, NoDatum),
      FieldDef("order", IntegerField, OrderDefault(count)),
      FieldDef("title", TextField, NoDatum),
      FieldDef("add", SubmitField, NoDatum),
      FieldDef("update_exisiting", SubmitField, NoDatum),
      FieldDef("reset", SubmitField, NoDatum) ]
  }

  function FormDefinitions(feeds: seq<Feed>, md5: string -> string): seq<FieldDef> {
    AllFeedFields(feeds, md5) + NewFeedFields(4 * |feeds| + 1)
  }

  /** The loop that builds `$form_definitions`. */
  method BuildForm(feeds: seq<Feed>, md5: string -> string) returns (defs: seq<FieldDef>)
    ensures defs == FormDefinitions(feeds, md5)
  {
    defs := [];
    var i := 0;
    while i < |feeds|
      invariant 0 <= i <= |feeds|
      invariant defs == AllFeedFields(feeds[..i], md5)
    {
      var feed := feeds[i];
      var digest := md5(feed.url);
      defs := defs + [FieldDef(digest + "-url", TextField, Text(feed.url))];
      defs := defs + [FieldDef(digest + "-order", IntegerField, Number(feed.ordering))];
      defs := defs + [FieldDef(digest + "-title", TextField, Text(feed.title))];
      defs := defs + [FieldDef(digest + "-remove", SubmitField, NoDatum)];
      assert defs == AllFeedFields(feeds[..i], md5) + FeedFields(feed, md5);
      assert feeds[..i + 1][..i] == feeds[..i];
      i := i + 1;
    }
    assert feeds[..i] == feeds;
    ghost var front := defs;
    defs := defs + [FieldDef("url", TextField, NoDatum)];
    var count := |defs|;
    defs := defs + [FieldDef("order", IntegerField, OrderDefault(count))];
    defs := defs + [FieldDef("title", TextField, NoDatum)];
    defs := defs + [FieldDef("add", SubmitField, NoDatum)];
    defs := defs + [FieldDef("update_exisiting", SubmitField, NoDatum)];
    defs := defs + [FieldDef("reset", SubmitField, NoDatum)];
    assert defs == front + NewFeedFields(count);
  }

  /** Feed `i` owns definitions `4i` to `4i + 3`, in the order url, order,
      title, remove. */
  lemma {:induction false} FeedFieldsAt(feeds: seq<Feed>, md5: string -> string, i: nat, k: nat)
    requires i < |feeds| && k < 4
    ensures AllFeedFields(feeds, md5)[4 * i + k] == FeedFields(feeds[i], md5)[k]
    decreases |feeds|
  {
    var p := feeds[..|feeds| - 1];
    if i < |feeds| - 1 {
      assert p[i] == feeds[i];
      FeedFieldsAt(p, md5, i, k);
    }
  }

  /** Every feed contributes exactly four fields named after the digest of its
      URL, followed by the six fields of the new-feed row. */
  lemma FormShape(feeds: seq<Feed>, md5: string -> string, i: nat)
    requires i < |feeds|
    ensures var defs := FormDefinitions(feeds, md5);
      var d := md5(feeds[i].url);
      && |defs| == 4 * |feeds| + 6
      && defs[4 * i].name == d + "-url" && defs[4 * i].data == Text(feeds[i].url)
      && defs[4 * i + 1].name == d + "-order" && defs[4 * i + 1].data == Number(feeds[i].ordering)
      && defs[4 * i + 2].name == d + "-title" && defs[4 * i + 2].data == Text(feeds[i].title)
      && defs[4 * i + 3].name == d + "-remove" && defs[4 * i + 3].kind == SubmitField
  {
    FeedFieldsAt(feeds, md5, i, 0);
    FeedFieldsAt(feeds, md5, i, 1);
    FeedFieldsAt(feeds, md5, i, 2);
    FeedFieldsAt(feeds, md5, i, 3);
  }

  /** The default order of a new feed is counted after the `url` field has
      been appended, so it is the float `n + 1.25` for `n` feeds; its integer
      part is `n + 1`. */
  lemma NewOrderDefault(feeds: seq<Feed>, md5: string -> string)
    ensures var defs := FormDefinitions(feeds, md5);
      var n := |feeds|;
      && defs[4 * n].name == "url" && defs[4 * n + 1].name == "order"
      && defs[4 * n + 1].data == Float(n as real + 1.25)
      && defs[4 * n + 1].data.r.Floor == n + 1
  {
    var n := |feeds|;
    assert (4 * n + 1) % 4 == 1;
    assert (4 * n + 1) as real / 4.0 + 1.0 == n as real + 1.25;
  }

  // ---------------------------------------------------------------------
  // Remove a feed
  // ---------------------------------------------------------------------

  /** The definitions left after the five `array_pop`s: the feeds' fields and
      the new feed's `url` field. */
  function Popped(defs: seq<FieldDef>): seq<FieldDef>
    requires |defs| >= 5
  {
    defs[..|defs| - 5]
  }

  /** The URL of the first `-url` field whose remove button was clicked. */
  function FirstRemoval(defs: seq<FieldDef>, clicked: string -> bool): Option<Datum>
    decreases |defs|
  {
    if defs == [] then None
    else if EndsWith(defs[0].name, "-url") && clicked(ReplaceAll(defs[0].name, "-url", "-remove")) then Some(defs[0].data)
    else FirstRemoval(defs[1..], clicked)
  }

  /** The loop over the definitions that looks for a clicked remove button. */
  method FindRemoval(defs: seq<FieldDef>, clicked: string -> bool) returns (r: Option<Datum>)
    ensures r == FirstRemoval(defs, clicked)
  {
    var i := 0;
    while i < |defs|
      invariant 0 <= i <= |defs|
      invariant FirstRemoval(defs, clicked) == FirstRemoval(defs[i..], clicked)
    {
      var field := defs[i].name;
      if EndsWith(field, "-url") {
        var removeId := ReplaceAll(field, "-url", "-remove");
        if clicked(removeId) {
          return Some(defs[i].data);
        }
      }
      assert defs[i..][1..] == defs[i + 1..];
      i := i + 1;
    }
    return None;
  }

  /** The remove button of a URL field is the feed's own: `d-url` becomes
      `d-remove`. */
  lemma RemoveButtonOf(d: string)
    requires '-' !in d
    ensures EndsWith(d + "-url", "-url")
    ensures ReplaceAll(d + "-url", "-url", "-remove") == d + "-remove"
  {
    ReplaceDashSuffix(d, "-url", "-remove");
    assert (d + "-url")[|d|..] == "-url";
  }

  /** Feed fields other than the URL do not end with `-url`. */
  lemma OnlyUrlFieldsEndWithUrl(d: string)
    ensures !EndsWith(d + "-order", "-url")
    ensures !EndsWith(d + "-title", "-url")
    ensures !EndsWith(d + "-remove", "-url")
  {
    var o, t, r := d + "-order", d + "-title", d + "-remove";
    assert o[|o| - 1] == 'r';
    assert t[|t| - 1] == 'e';
    assert r[|r| - 1] == 'e';
  }

  /** Among one feed's four fields only the URL field is looked at, and its
      remove button is the feed's own. */
  lemma FirstRemovalOfFeed(f: Feed, md5: string -> string, clicked: string -> bool, rest: seq<FieldDef>)
    requires '-' !in md5(f.url)
    ensures FirstRemoval(FeedFields(f, md5) + rest, clicked) ==
      if clicked(md5(f.url) + "-remove") then Some(Text(f.url)) else FirstRemoval(rest, clicked)
  {
    var d := md5(f.url);
    var defs := FeedFields(f, md5) + rest;
    RemoveButtonOf(d);
    OnlyUrlFieldsEndWithUrl(d);
    assert defs[0].name == d + "-url";
    if !clicked(d + "-remove") {
      var d1 := defs[1..];
      var d2 := d1[1..];
      var d3 := d2[1..];
      assert d1[0].name == d + "-order" && d2[0].name == d + "-title" && d3[0].name == d + "-remove";
      assert FirstRemoval(d1, clicked) == FirstRemoval(d2, clicked) == FirstRemoval(d3, clicked) == FirstRemoval(d3[1..], clicked);
      assert d3[1..] == rest;
    }
  }

  lemma {:induction false} FirstRemovalOfFeeds(feeds: seq<Feed>, md5: string -> string, clicked: string -> bool, rest: seq<FieldDef>)
    requires DashFree(md5, feeds)
    ensures FirstRemoval(AllFeedFields(feeds, md5) + rest, clicked) ==
      (match FirstClicked(feeds, md5, clicked)
       case Some(i) => Some(Text(feeds[i].url))
       case None => FirstRemoval(rest, clicked))
    decreases |feeds|
  {
    if feeds != [] {
      var tail := feeds[1..];
      var later := AllFeedFields(tail, md5) + rest;
      AllFeedFieldsFront(feeds, md5);
      assert AllFeedFields(feeds, md5) + rest == FeedFields(feeds[0], md5) + later;
      FirstRemovalOfFeed(feeds[0], md5, clicked, later);
      assert DashFree(md5, tail) by {
        forall i | 0 <= i < |tail| ensures '-' !in md5(tail[i].url) {
          assert tail[i] == feeds[i + 1];
        }
      }
      FirstRemovalOfFeeds(tail, md5, clicked, rest);
      var lhs := FirstRemoval(AllFeedFields(feeds, md5) + rest, clicked);
      if clicked(md5(feeds[0].url) + "-remove") {
        assert FirstClicked(feeds, md5, clicked) == Some(0);
        assert lhs == Some(Text(feeds[0].url));
      } else {
        assert lhs == FirstRemoval(later, clicked);
        match FirstClicked(tail, md5, clicked)
        case Some(i) =>
          assert FirstClicked(feeds, md5, clicked) == Some(i + 1);
          assert tail[i] == feeds[i + 1];
        case None =>
          assert FirstClicked(feeds, md5, clicked) == None;
      }
    } else {
      assert AllFeedFields(feeds, md5) + rest == rest;
    }
  }

  /** The index of the first feed whose remove button was clicked. */
  function FirstClicked(feeds: seq<Feed>, md5: string -> string, clicked: string -> bool): (r: Option<nat>)
    ensures r.Some? ==> r.value < |feeds| && clicked(md5(feeds[r.value].url) + "-remove")
    ensures r.Some? ==> forall j :: 0 <= j < r.value ==> !clicked(md5(feeds[j].url) + "-remove")
    ensures r.None? ==> forall j :: 0 <= j < |feeds| ==> !clicked(md5(feeds[j].url) + "-remove")
    decreases |feeds|
  {
    if feeds == [] then None
    else if clicked(md5(feeds[0].url) + "-remove") then Some(0)
    else
      match FirstClicked(feeds[1..], md5, clicked)
      case Some(i) => Some(i + 1)
      case None => None
  }

  lemma {:induction false} AllFeedFieldsFront(feeds: seq<Feed>, md5: string -> string)
    requires feeds != []
    ensures AllFeedFields(feeds, md5) == FeedFields(feeds[0], md5) + AllFeedFields(feeds[1..], md5)
    decreases |feeds|
  {
    var n := |feeds|;
    if n > 1 {
      var p, last := feeds[..n - 1], feeds[n - 1];
      AllFeedFieldsFront(p, md5);
      var tail := feeds[1..];
      assert tail[..|tail| - 1] == p[1..] && tail[|tail| - 1] == last && p[0] == feeds[0];
      calc {
        AllFeedFields(feeds, md5);
        AllFeedFields(p, md5) + FeedFields(last, md5);
        FeedFields(feeds[0], md5) + AllFeedFields(p[1..], md5) + FeedFields(last, md5);
        FeedFields(feeds[0], md5) + (AllFeedFields(p[1..], md5) + FeedFields(last, md5));
        FeedFields(feeds[0], md5) + AllFeedFields(tail, md5);
      }
    } else {
      assert feeds[1..] == [] && feeds[..0] == [];
    }
  }

  /** Clicking the remove button of a feed removes the first feed whose
      button was clicked, by its URL; with none clicked nothing is removed
      (the new feed's `url` field has no `-url` suffix). */
  lemma RemovalTargetsClickedFeed(feeds: seq<Feed>, md5: string -> string, clicked: string -> bool)
    requires DashFree(md5, feeds)
    ensures FirstRemoval(Popped(FormDefinitions(feeds, md5)), clicked) ==
      (match FirstClicked(feeds, md5, clicked)
       case Some(i) => Some(Text(feeds[i].url))
       case None => None)
  {
    var defs := FormDefinitions(feeds, md5);
    var urlField := [FieldDef("url", TextField, NoDatum)];
    assert Popped(defs) == AllFeedFields(feeds, md5) + urlField;
    FirstRemovalOfFeeds(feeds, md5, clicked, urlField);
    assert !EndsWith("url", "-url");
    assert urlField[1..] == [];
  }

  // ---------------------------------------------------------------------
  // Submitted values
  // ---------------------------------------------------------------------

  /** One submitted value: the field name and what the user entered. */
  datatype Entry = Entry(key: string, value: Datum)

  function Flatten(cs: seq<seq<Entry>>): seq<Entry>
    decreases |cs|
  {
    if cs == [] then [] else cs[0] + Flatten(cs[1..])
  }

  /** `array_chunk($data, 3, preserve_keys: true)`: consecutive groups of
      three, the last one possibly shorter. */
  function Chunks(data: seq<Entry>): (cs: seq<seq<Entry>>)
    ensures |cs| == (|data| + 2) / 3
    decreases |data|
  {
    if data == [] then []
    else if |data| <= 3 then [data]
    else [data[..3]] + Chunks(data[3..])
  }

  /** Chunking loses nothing and reorders nothing: every chunk but the last
      holds three values, and the chunks put together are the values. */
  lemma {:induction false} ChunksShape(data: seq<Entry>)
    ensures forall i :: 0 <= i < |Chunks(data)| ==> 0 < |Chunks(data)[i]| <= 3
    ensures forall i :: 0 <= i < |Chunks(data)| - 1 ==> |Chunks(data)[i]| == 3
    ensures Flatten(Chunks(data)) == data
    decreases |data|
  {
    if data != [] {
      var cs := Chunks(data);
      if |data| <= 3 {
        assert Flatten(cs) == data + Flatten([]);
      } else {
        var rest := Chunks(data[3..]);
        ChunksShape(data[3..]);
        assert cs == [data[..3]] + rest;
        assert cs[1..] == rest;
        assert Flatten(cs) == data[..3] + Flatten(rest);
        assert data[..3] + data[3..] == data;
        forall i | 1 <= i < |cs| ensures cs[i] == rest[i - 1] { }
      }
    }
  }

  /** A feed's three submitted values: URL, order and title, with their
      field names. */
  datatype FeedRow = FeedRow(urlKey: string, url: string, orderKey: string, order: int, titleKey: string, title: string)

  function Entries(r: FeedRow): seq<Entry> {
    [Entry(r.urlKey, Text(r.url)), Entry(r.orderKey, Number(r.order)), Entry(r.titleKey, Text(r.title))]
  }

  predicate IsFeedChunk(c: seq<Entry>) {
    |c| == 3 && c[0].value.Text? && c[1].value.Number? && c[2].value.Text?
  }

  /** A chunk read as a feed row; reading is the inverse of laying out. */
  function RowOf(c: seq<Entry>): (r: FeedRow)
    requires IsFeedChunk(c)
    ensures Entries(r) == c
  {
    FeedRow(c[0].key, c[0].value.s, c[1].key, c[1].value.n, c[2].key, c[2].value.s)
  }

  /** The shape of the values the form submits: every chunk but the last is
      a feed's URL, order and title. */
  predicate Submitted(data: seq<Entry>) {
    var cs := Chunks(data);
    |cs| > 0 && forall i :: 0 <= i < |cs| - 1 ==> IsFeedChunk(cs[i])
  }

  /** `$feeds_data` after its `array_pop`: one row per chunk, the last chunk
      (the new-feed row) dropped. */
  function FeedRows(data: seq<Entry>): (rows: seq<FeedRow>)
    requires Submitted(data)
    ensures |rows| == (|data| + 2) / 3 - 1
    ensures forall i :: 0 <= i < |rows| ==> Entries(rows[i]) == Chunks(data)[i]
  {
    var cs := Chunks(data);
    seq(|cs| - 1, i requires 0 <= i < |cs| - 1 => RowOf(cs[i]))
  }

  /** The values the form submits for the rows of the existing feeds. */
  function AllEntries(rows: seq<FeedRow>): seq<Entry>
    decreases |rows|
  {
    if rows == [] then [] else Entries(rows[0]) + AllEntries(rows[1..])
  }

  lemma {:induction false} ChunksOfEntries(rows: seq<FeedRow>, extra: seq<Entry>)
    requires |extra| == 3
    ensures |Chunks(AllEntries(rows) + extra)| == |rows| + 1
    ensures forall i :: 0 <= i < |rows| ==> Chunks(AllEntries(rows) + extra)[i] == Entries(rows[i])
    ensures Chunks(AllEntries(rows) + extra)[|rows|] == extra
    decreases |rows|
  {
    var data := AllEntries(rows) + extra;
    if rows == [] {
      assert data == extra;
      assert Chunks(data) == [extra];
    } else {
      var tail := rows[1..];
      var rest := AllEntries(tail) + extra;
      ChunksOfEntries(tail, extra);
      assert data == Entries(rows[0]) + rest;
      assert data[..3] == Entries(rows[0]) && data[3..] == rest;
      var cs, cr := Chunks(data), Chunks(rest);
      assert cs == [Entries(rows[0])] + cr;
      assert |cr| == |tail| + 1 && cr[|tail|] == extra;
      forall i | 1 <= i < |rows| ensures cs[i] == Entries(rows[i]) {
        assert rows[i] == tail[i - 1];
        assert cs[i] == cr[i - 1];
      }
      assert cs[|rows|] == cr[|tail|];
    }
  }

  /** Chunking undoes the form's layout: whatever the new-feed row holds, the
      rows read back from the submitted values are the feeds' rows. */
  lemma FeedRowsRoundTrip(rows: seq<FeedRow>, extra: seq<Entry>)
    requires |extra| == 3
    ensures Submitted(AllEntries(rows) + extra)
    ensures FeedRows(AllEntries(rows) + extra) == rows
  {
    var data := AllEntries(rows) + extra;
    ChunksOfEntries(rows, extra);
    var got := FeedRows(data);
    forall i | 0 <= i < |rows| ensures got[i] == rows[i] {
      assert Entries(got[i]) == Entries(rows[i]);
    }
  }

  // ---------------------------------------------------------------------
  // Sort by order, then renumber
  // ---------------------------------------------------------------------

  predicate SortedByOrder(rows: seq<FeedRow>) {
    forall i, j :: 0 <= i < j < |rows| ==> rows[i].order <= rows[j].order
  }

  /** The rows whose order is `v`, in their relative order. */
  function WithOrder(rows: seq<FeedRow>, v: int): seq<FeedRow>
    decreases |rows|
  {
    if rows == [] then []
    else WithOrder(rows[..|rows| - 1], v) + (if rows[|rows| - 1].order == v then [rows[|rows| - 1]] else [])
  }

  lemma {:induction false} WithOrderMembers(rows: seq<FeedRow>, v: int)
    ensures forall x :: x in WithOrder(rows, v) <==> x in rows && x.order == v
    decreases |rows|
  {
    if rows != [] {
      var p, last := rows[..|rows| - 1], rows[|rows| - 1];
      WithOrderMembers(p, v);
      assert rows == p + [last];
    }
  }

  lemma {:induction false} WithOrderAppend(a: seq<FeedRow>, b: seq<FeedRow>, v: int)
    ensures WithOrder(a + b, v) == WithOrder(a, v) + WithOrder(b, v)
    decreases |b|
  {
    if b == [] {
      assert a + b == a;
    } else {
      var p, last := b[..|b| - 1], b[|b| - 1];
      WithOrderAppend(a, p, v);
      assert (a + b)[..|a + b| - 1] == a + p;
    }
  }

  lemma WithOrderSingle(x: FeedRow, v: int)
    ensures WithOrder([x], v) == if x.order == v then [x] else []
  {
    assert [x][..0] == [];
  }

  /** One step of the sort: `r` goes after every row whose order is at most
      its own. */
  function InsertByOrder(s: seq<FeedRow>, r: FeedRow): seq<FeedRow>
    decreases |s|
  {
    if s == [] || s[|s| - 1].order <= r.order then s + [r]
    else InsertByOrder(s[..|s| - 1], r) + [s[|s| - 1]]
  }

  /** `usort` by the order value. */
  function SortByOrder(rows: seq<FeedRow>): seq<FeedRow>
    decreases |rows|
  {
    if rows == [] then []
    else InsertByOrder(SortByOrder(rows[..|rows| - 1]), rows[|rows| - 1])
  }

  lemma {:induction false} InsertPermutes(s: seq<FeedRow>, r: FeedRow)
    ensures multiset(InsertByOrder(s, r)) == multiset(s) + multiset{r}
    decreases |s|
  {
    if !(s == [] || s[|s| - 1].order <= r.order) {
      var p, last := s[..|s| - 1], s[|s| - 1];
      InsertPermutes(p, r);
      assert s == p + [last];
    }
  }

  lemma AppendSorted(front: seq<FeedRow>, last: FeedRow)
    requires SortedByOrder(front)
    requires forall x :: x in front ==> x.order <= last.order
    ensures SortedByOrder(front + [last])
  {
    var s := front + [last];
    forall i, j | 0 <= i < j < |s| ensures s[i].order <= s[j].order {
      if j == |front| {
        assert s[i] in front;
      }
    }
  }

  lemma {:induction false} InsertSorted(s: seq<FeedRow>, r: FeedRow)
    requires SortedByOrder(s)
    ensures SortedByOrder(InsertByOrder(s, r))
    decreases |s|
  {
    if s == [] || s[|s| - 1].order <= r.order {
      assert forall x :: x in s ==> x.order <= r.order by {
        forall x | x in s ensures x.order <= r.order {
          var k :| 0 <= k < |s| && s[k] == x;
        }
      }
      AppendSorted(s, r);
    } else {
      var p, last := s[..|s| - 1], s[|s| - 1];
      var front := InsertByOrder(p, r);
      InsertSorted(p, r);
      InsertPermutes(p, r);
      forall x | x in front ensures x.order <= last.order {
        assert x in multiset(front);
        if x != r {
          assert x in multiset(p);
          var k :| 0 <= k < |p| && p[k] == x;
          assert s[k] == x;
        }
      }
      AppendSorted(front, last);
    }
  }

  /** The sort leaves the rows ordered by their order values. */
  lemma {:induction false} SortSorted(rows: seq<FeedRow>)
    ensures SortedByOrder(SortByOrder(rows))
    decreases |rows|
  {
    if rows != [] {
      var p := rows[..|rows| - 1];
      SortSorted(p);
      InsertSorted(SortByOrder(p), rows[|rows| - 1]);
    }
  }

  /** The sort neither loses nor duplicates a row. */
  lemma {:induction false} SortPermutes(rows: seq<FeedRow>)
    ensures multiset(SortByOrder(rows)) == multiset(rows)
    decreases |rows|
  {
    if rows != [] {
      var p, last := rows[..|rows| - 1], rows[|rows| - 1];
      var sp := SortByOrder(p);
      calc {
        multiset(SortByOrder(rows));
        multiset(InsertByOrder(sp, last));
        { InsertPermutes(sp, last); }
        multiset(sp) + multiset{last};
        { SortPermutes(p); }
        multiset(p) + multiset{last};
        { assert rows == p + [last]; }
        multiset(rows);
      }
    }
  }

  lemma {:induction false} InsertKeepsTies(s: seq<FeedRow>, r: FeedRow, v: int)
    ensures WithOrder(InsertByOrder(s, r), v) == WithOrder(s, v) + WithOrder([r], v)
    decreases |s|
  {
    if s == [] || s[|s| - 1].order <= r.order {
      WithOrderAppend(s, [r], v);
    } else {
      var p, last := s[..|s| - 1], s[|s| - 1];
      var front := InsertByOrder(p, r);
      var wr, wl := WithOrder([r], v), WithOrder([last], v);
      assert wr == [] || wl == [] by {
        WithOrderSingle(r, v);
        WithOrderSingle(last, v);
      }
      calc {
        WithOrder(InsertByOrder(s, r), v);
        WithOrder(front + [last], v);
        { WithOrderAppend(front, [last], v); }
        WithOrder(front, v) + wl;
        { InsertKeepsTies(p, r, v); }
        WithOrder(p, v) + wr + wl;
        WithOrder(p, v) + wl + wr;
        { WithOrderAppend(p, [last], v); assert p + [last] == s; }
        WithOrder(s, v) + wr;
      }
    }
  }

  /** PHP's sort is stable: rows with the same order keep their relative
      order. */
  lemma {:induction false} SortKeepsTies(rows: seq<FeedRow>, v: int)
    ensures WithOrder(SortByOrder(rows), v) == WithOrder(rows, v)
    decreases |rows|
  {
    if rows != [] {
      var p, last := rows[..|rows| - 1], rows[|rows| - 1];
      SortKeepsTies(p, v);
      InsertKeepsTies(SortByOrder(p), last, v);
      WithOrderSingle(last, v);
    }
  }

  /** In a sorted non-empty list the last row has the largest order. */
  lemma LastIsLargest(a: seq<FeedRow>, x: FeedRow)
    requires SortedByOrder(a) && x in a
    ensures x.order <= a[|a| - 1].order
  {
    var k :| 0 <= k < |a| && a[k] == x;
  }

  lemma InWithOrder(rows: seq<FeedRow>, x: FeedRow)
    requires x in rows
    ensures x in WithOrder(rows, x.order)
  {
    WithOrderMembers(rows, x.order);
  }

  lemma FromWithOrder(rows: seq<FeedRow>, x: FeedRow, v: int)
    requires x in WithOrder(rows, v)
    ensures x in rows && x.order == v
  {
    WithOrderMembers(rows, v);
  }

  /** A row of `b` with an order at least that of every row of `a`'s ties. */
  lemma LargerInOther(a: seq<FeedRow>, b: seq<FeedRow>)
    requires SortedByOrder(b)
    requires forall v :: WithOrder(a, v) == WithOrder(b, v)
    requires a != []
    ensures b != [] && a[|a| - 1].order <= b[|b| - 1].order
  {
    var ma := a[|a| - 1];
    InWithOrder(a, ma);
    assert WithOrder(a, ma.order) == WithOrder(b, ma.order);
    FromWithOrder(b, ma, ma.order);
    LastIsLargest(b, ma);
  }

  /** Two sorted lists with the same groups of ties end with the same row. */
  lemma SameLast(a: seq<FeedRow>, b: seq<FeedRow>)
    requires SortedByOrder(a) && SortedByOrder(b)
    requires forall v :: WithOrder(a, v) == WithOrder(b, v)
    requires a != []
    ensures b != [] && a[|a| - 1] == b[|b| - 1]
  {
    LargerInOther(a, b);
    LargerInOther(b, a);
    var m := a[|a| - 1].order;
    assert WithOrder(a, m) == WithOrder(b, m);
    SameLastTie(a, b, m);
  }

  /** Lists that end with rows of order `m` and have the same ties at `m`
      end with the same row. */
  lemma SameLastTie(a: seq<FeedRow>, b: seq<FeedRow>, m: int)
    requires a != [] && b != [] && a[|a| - 1].order == m && b[|b| - 1].order == m
    requires WithOrder(a, m) == WithOrder(b, m)
    ensures a[|a| - 1] == b[|b| - 1]
  {
    var ma, mb := a[|a| - 1], b[|b| - 1];
    var wa, wb := WithOrder(a[..|a| - 1], m), WithOrder(b[..|b| - 1], m);
    assert WithOrder(a, m) == wa + [ma];
    assert WithOrder(b, m) == wb + [mb];
    assert |wa| == |wb|;
    assert (wa + [ma])[|wa|] == ma;
    assert (wb + [mb])[|wb|] == mb;
  }

  /** Sorted by order and with every group of ties in its original order,
      a list is fixed: `SortByOrder` is the one stable sort. */
  lemma {:induction false} StableSortUnique(a: seq<FeedRow>, b: seq<FeedRow>)
    requires SortedByOrder(a) && SortedByOrder(b)
    requires forall v :: WithOrder(a, v) == WithOrder(b, v)
    ensures a == b
    decreases |a|
  {
    if a != [] {
      SameLast(a, b);
    } else if b != [] {
      SameLast(b, a);
    }
    if a != [] {
      var x := a[|a| - 1];
      var pa, pb := a[..|a| - 1], b[..|b| - 1];
      forall v ensures WithOrder(pa, v) == WithOrder(pb, v) {
        var t := if x.order == v then [x] else [];
        var wa, wb := WithOrder(pa, v), WithOrder(pb, v);
        assert b[|b| - 1] == x;
        assert WithOrder(a, v) == wa + t;
        assert WithOrder(b, v) == wb + t;
        assert wa == (wa + t)[..|wa|];
        assert wb == (wb + t)[..|wb|];
      }
      StableSortUnique(pa, pb);
      assert a == pa + [x] && b == pb + [x];
    }
  }

  /** The sort yields the stable order of the rows by their order values. */
  lemma SortIsStableSort(rows: seq<FeedRow>, sorted: seq<FeedRow>)
    requires SortedByOrder(sorted)
    requires forall v :: WithOrder(sorted, v) == WithOrder(rows, v)
    ensures SortByOrder(rows) == sorted
  {
    SortSorted(rows);
    forall v ensures WithOrder(SortByOrder(rows), v) == WithOrder(sorted, v) {
      SortKeepsTies(rows, v);
    }
    StableSortUnique(SortByOrder(rows), sorted);
  }

  /** The rows with their orders replaced by their positions, counted from 1. */
  function Renumbered(rows: seq<FeedRow>): (res: seq<FeedRow>)
    ensures |res| == |rows|
    ensures forall i :: 0 <= i < |rows| ==> res[i].order == i + 1 && res[i].(order := rows[i].order) == rows[i]
  {
    seq(|rows|, i requires 0 <= i < |rows| => rows[i].(order := i + 1))
  }

  /** The loop that makes the orders sequential. */
  method Renumber(rows: seq<FeedRow>) returns (res: seq<FeedRow>)
    ensures res == Renumbered(rows)
  {
    res := rows;
    var order := 1;
    var i := 0;
    while i < |res|
      invariant 0 <= i <= |res| == |rows|
      invariant order == i + 1
      invariant forall k :: 0 <= k < i ==> res[k] == rows[k].(order := k + 1)
      invariant forall k :: i <= k < |rows| ==> res[k] == rows[k]
    {
      res := res[i := res[i].(order := order)];
      order := order + 1;
      i := i + 1;
    }
  }

  // ---------------------------------------------------------------------
  // Write the rows back to the feeds
  // ---------------------------------------------------------------------

  /** A feed entity; its setters change it in place. */
  class FeedEntity {
    var url: string
    var ordering: int
    var title: string

    function Value(): Feed
      reads this
    {
      Feed(url, ordering, title)
    }

    method SetUrl(u: string)
      modifies this
      ensures url == u && ordering == old(ordering) && title == old(title)
    {
      url := u;
    }

    method SetOrdering(o: int)
      modifies this
      ensures ordering == o && url == old(url) && title == old(title)
    {
      ordering := o;
    }

    method SetTitle(t: string)
      modifies this
      ensures title == t && url == old(url) && ordering == old(ordering)
    {
      title := t;
    }
  }

  /** The values of the entities, in list order. */
  function Snapshot(feeds: seq<FeedEntity>): (s: seq<Feed>)
    reads feeds
    ensures |s| == |feeds|
    ensures forall i :: 0 <= i < |feeds| ==> s[i] == feeds[i].Value()
  {
    seq(|feeds|, i reads feeds requires 0 <= i < |feeds| => feeds[i].Value())
  }

  /** The digest a row names: its URL field's name without `-url`. */
  function DigestOfKey(key: string): string {
    ReplaceAll(key, "-url", "")
  }

  /** The URL field of a feed names the digest of that feed's URL. */
  lemma DigestOfUrlKey(d: string)
    requires '-' !in d
    ensures DigestOfKey(d + "-url") == d
  {
    ReplaceDashSuffix(d, "-url", "");
    assert d + "" == d;
  }

  /** `F\first($feeds, fn ($f) => md5($f->getUrl()) === $md5)`. */
  function FirstWithDigest(feeds: seq<Feed>, digest: string, md5: string -> string): (r: Option<nat>)
    ensures r.Some? ==> r.value < |feeds| && md5(feeds[r.value].url) == digest
    ensures r.Some? ==> forall j :: 0 <= j < r.value ==> md5(feeds[j].url) != digest
    ensures r.None? ==> forall j :: 0 <= j < |feeds| ==> md5(feeds[j].url) != digest
    decreases |feeds|
  {
    if feeds == [] then None
    else if md5(feeds[0].url) == digest then Some(0)
    else
      match FirstWithDigest(feeds[1..], digest, md5)
      case Some(i) => Some(i + 1)
      case None => None
  }

  /** The feed a row's three setters leave behind. */
  function FeedOf(r: FeedRow): Feed {
    Feed(r.url, r.order, r.title)
  }

  /** The feeds after the update loop, and whether every row found its feed
      (a row that finds none calls a setter on `null`, which throws). */
  datatype Update = Update(feeds: seq<Feed>, complete: bool)

  /** The field names of a row belong to one feed: `d-url`, `d-order` and
      `d-title` for the digest `d` its URL field carries. On such a row the
      setters' reads `$fd[$md5 . '-url']`, `$fd[$md5 . '-order']` and
      `$fd[$md5 . '-title']` are the row's URL, order and title, which is how
      the update below reads them. */
  predicate KeyedByDigest(r: FeedRow) {
    var d := DigestOfKey(r.urlKey);
    r.urlKey == d + "-url" && r.orderKey == d + "-order" && r.titleKey == d + "-title"
  }

  /** The values the form submits for a feed, under the names `FormShape`
      gives its fields, make a row keyed by that feed's digest. */
  lemma FormRowKeyed(f: Feed, md5: string -> string, url: string, order: int, title: string)
    requires '-' !in md5(f.url)
    ensures var d := md5(f.url);
      KeyedByDigest(FeedRow(d + "-url", url, d + "-order", order, d + "-title", title))
  {
    DigestOfUrlKey(md5(f.url));
  }

  /** Sorting and renumbering keep every row's field names. */
  lemma RenumberedSortKeyed(rows: seq<FeedRow>)
    requires forall i :: 0 <= i < |rows| ==> KeyedByDigest(rows[i])
    ensures var out := Renumbered(SortByOrder(rows));
      forall i :: 0 <= i < |out| ==> KeyedByDigest(out[i])
  {
    var sorted := SortByOrder(rows);
    SortPermutes(rows);
    forall i | 0 <= i < |sorted| ensures KeyedByDigest(sorted[i]) {
      assert sorted[i] in multiset(rows);
    }
  }

  /** The update loop as written: each row looks its feed up by the digest
      of the feed's current URL, which an earlier row may have changed. The
      setters take the row's URL, order and title, which are the keyed reads
      of the source on rows that are `KeyedByDigest`. */
  function ApplyAsWritten(feeds: seq<Feed>, rows: seq<FeedRow>, md5: string -> string): (u: Update)
    ensures |u.feeds| == |feeds|
    decreases |rows|
  {
    if rows == [] then Update(feeds, true)
    else
      match FirstWithDigest(feeds, DigestOfKey(rows[0].urlKey), md5)
      case None => Update(feeds, false)
      case Some(j) => ApplyAsWritten(feeds[j := FeedOf(rows[0])], rows[1..], md5)
  }

  /** The loop over `$feeds_data` that writes each row to its feed. */
  method UpdateExisting(feeds: seq<FeedEntity>, rows: seq<FeedRow>, md5: string -> string) returns (complete: bool)
    requires forall i, j :: 0 <= i < j < |feeds| ==> feeds[i] != feeds[j]
    modifies feeds
    ensures Snapshot(feeds) == ApplyAsWritten(old(Snapshot(feeds)), rows, md5).feeds
    ensures complete == ApplyAsWritten(old(Snapshot(feeds)), rows, md5).complete
  {
    var i := 0;
    while i < |rows|
      invariant 0 <= i <= |rows|
      invariant ApplyAsWritten(Snapshot(feeds), rows[i..], md5) == ApplyAsWritten(old(Snapshot(feeds)), rows, md5)
    {
      var fd := rows[i];
      var digest := ReplaceAll(fd.urlKey, "-url", "");
      var found := FirstWithDigest(Snapshot(feeds), digest, md5);
      if found.None? {
        return false;
      }
      ghost var before := Snapshot(feeds);
      var feed := feeds[found.value];
      feed.SetUrl(fd.url);
      feed.SetOrdering(fd.order);
      feed.SetTitle(fd.title);
      assert Snapshot(feeds) == before[found.value := FeedOf(fd)];
      assert rows[i..][1..] == rows[i + 1..];
      i := i + 1;
    }
    return true;
  }

  /** The "update existing" branch: chunk the submitted values, drop the
      new-feed row, sort by order, renumber, write back. */
  method UpdateFeeds(feeds: seq<FeedEntity>, data: seq<Entry>, md5: string -> string) returns (complete: bool)
    requires Submitted(data)
    requires forall i, j :: 0 <= i < j < |feeds| ==> feeds[i] != feeds[j]
    modifies feeds
    ensures var rows := Renumbered(SortByOrder(FeedRows(data)));
      && Snapshot(feeds) == ApplyAsWritten(old(Snapshot(feeds)), rows, md5).feeds
      && complete == ApplyAsWritten(old(Snapshot(feeds)), rows, md5).complete
  {
    var feedsData := FeedRows(data);
    feedsData := SortByOrder(feedsData);
    feedsData := Renumber(feedsData);
    complete := UpdateExisting(feeds, feedsData, md5);
  }

  // ---------------------------------------------------------------------
  // Looking feeds up by their original URLs
  // ---------------------------------------------------------------------

  /** The update loop with every row looked up among the feeds as they were
      before the loop. */
  function ApplyByOriginal(orig: seq<Feed>, feeds: seq<Feed>, rows: seq<FeedRow>, md5: string -> string): (u: Update)
    requires |feeds| == |orig|
    ensures |u.feeds| == |feeds|
    decreases |rows|
  {
    if rows == [] then Update(feeds, true)
    else
      match FirstWithDigest(orig, DigestOfKey(rows[0].urlKey), md5)
      case None => Update(feeds, false)
      case Some(j) => ApplyByOriginal(orig, feeds[j := FeedOf(rows[0])], rows[1..], md5)
  }

  /** The feed a row is meant for. */
  function Target(orig: seq<Feed>, r: FeedRow, md5: string -> string): Option<nat> {
    FirstWithDigest(orig, DigestOfKey(r.urlKey), md5)
  }

  /** With the lookup against the original URLs, rows that name distinct
      feeds each set exactly their own feed, and feeds no row names keep
      their values, whatever the rows do to the URLs. */
  lemma {:induction false} ByOriginalSetsEach(orig: seq<Feed>, feeds: seq<Feed>, rows: seq<FeedRow>, md5: string -> string)
    requires |feeds| == |orig|
    requires forall r :: 0 <= r < |rows| ==> Target(orig, rows[r], md5).Some?
    requires forall r, q :: 0 <= r < q < |rows| ==> DigestOfKey(rows[r].urlKey) != DigestOfKey(rows[q].urlKey)
    ensures var u := ApplyByOriginal(orig, feeds, rows, md5);
      && u.complete
      && (forall r :: 0 <= r < |rows| ==> u.feeds[Target(orig, rows[r], md5).value] == FeedOf(rows[r]))
      && (forall j :: 0 <= j < |feeds| && (forall r :: 0 <= r < |rows| ==> Target(orig, rows[r], md5) != Some(j)) ==> u.feeds[j] == feeds[j])
    decreases |rows|
  {
    if rows != [] {
      var j0 := Target(orig, rows[0], md5).value;
      var next := feeds[j0 := FeedOf(rows[0])];
      var tail := rows[1..];
      assert forall r :: 0 <= r < |tail| ==> tail[r] == rows[r + 1];
      ByOriginalSetsEach(orig, next, tail, md5);
      var u := ApplyByOriginal(orig, feeds, rows, md5);
      assert u == ApplyByOriginal(orig, next, tail, md5);
      forall r | 0 <= r < |tail| ensures Target(orig, tail[r], md5) != Some(j0) {
        assert DigestOfKey(rows[0].urlKey) != DigestOfKey(rows[r + 1].urlKey);
      }
      forall r | 0 <= r < |rows| ensures u.feeds[Target(orig, rows[r], md5).value] == FeedOf(rows[r]) {
        if r > 0 {
          assert rows[r] == tail[r - 1];
        }
      }
      forall j | 0 <= j < |feeds| && (forall r :: 0 <= r < |rows| ==> Target(orig, rows[r], md5) != Some(j))
        ensures u.feeds[j] == feeds[j]
      {
        assert Target(orig, rows[0], md5) != Some(j);
        forall r | 0 <= r < |tail| ensures Target(orig, tail[r], md5) != Some(j) {
          assert tail[r] == rows[r + 1];
        }
      }
    }
  }

  /** Every feed matches every row's digest in `feeds` exactly when it does
      in `orig`: the lookups in the two lists cannot tell them apart. */
  ghost predicate LookupsAgree(orig: seq<Feed>, feeds: seq<Feed>, rows: seq<FeedRow>, md5: string -> string)
    requires |feeds| == |orig|
  {
    forall j, r :: 0 <= j < |feeds| && 0 <= r < |rows| ==>
      (md5(feeds[j].url) == DigestOfKey(rows[r].urlKey) <==> md5(orig[j].url) == DigestOfKey(rows[r].urlKey))
  }

  /** Lists that match a digest at the same places give the same first match. */
  lemma {:induction false} SameLookup(a: seq<Feed>, b: seq<Feed>, digest: string, md5: string -> string)
    requires |a| == |b|
    requires forall j :: 0 <= j < |a| ==> (md5(a[j].url) == digest <==> md5(b[j].url) == digest)
    ensures FirstWithDigest(a, digest, md5) == FirstWithDigest(b, digest, md5)
    decreases |a|
  {
    if a != [] {
      assert forall j :: 0 <= j < |a| - 1 ==> a[1..][j] == a[j + 1] && b[1..][j] == b[j + 1];
      SameLookup(a[1..], b[1..], digest, md5);
    }
  }

  /** No row gives its feed a URL whose digest a later row's field name
      carries. This holds in particular when no row changes its feed's URL
      and the rows name distinct feeds. */
  predicate NoLaterCollision(rows: seq<FeedRow>, md5: string -> string) {
    forall r, q :: 0 <= r < q < |rows| ==> md5(rows[r].url) != DigestOfKey(rows[q].urlKey)
  }

  /** Rows that name distinct feeds. */
  predicate DistinctKeys(rows: seq<FeedRow>) {
    forall r, q :: 0 <= r < q < |rows| ==> DigestOfKey(rows[r].urlKey) != DigestOfKey(rows[q].urlKey)
  }

  /** While the lookups agree, the loop as written does what the lookup by
      original URL does. */
  lemma {:induction false} AsWrittenFollowsOriginal(orig: seq<Feed>, feeds: seq<Feed>, rows: seq<FeedRow>, md5: string -> string)
    requires |feeds| == |orig|
    requires LookupsAgree(orig, feeds, rows, md5)
    requires DistinctKeys(rows) && NoLaterCollision(rows, md5)
    ensures ApplyAsWritten(feeds, rows, md5) == ApplyByOriginal(orig, feeds, rows, md5)
    decreases |rows|
  {
    if rows != [] {
      var d := DigestOfKey(rows[0].urlKey);
      SameLookup(feeds, orig, d, md5);
      match FirstWithDigest(orig, d, md5)
      case None =>
      case Some(j0) =>
        var next := feeds[j0 := FeedOf(rows[0])];
        var tail := rows[1..];
        forall j, r | 0 <= j < |next| && 0 <= r < |tail|
          ensures md5(next[j].url) == DigestOfKey(tail[r].urlKey) <==> md5(orig[j].url) == DigestOfKey(tail[r].urlKey)
        {
          assert tail[r] == rows[r + 1];
          if j == j0 {
            assert md5(rows[0].url) != DigestOfKey(rows[r + 1].urlKey);
            assert md5(orig[j0].url) == d != DigestOfKey(rows[r + 1].urlKey);
          }
        }
        assert DistinctKeys(tail) && NoLaterCollision(tail, md5) by {
          assert forall r :: 0 <= r < |tail| ==> tail[r] == rows[r + 1];
        }
        AsWrittenFollowsOriginal(orig, next, tail, md5);
    }
  }

  /** The update loop as written sets each feed its own row names, and
      leaves the others alone, as long as no row renames a feed to a URL a
      later row names. */
  lemma AsWrittenSetsEach(feeds: seq<Feed>, rows: seq<FeedRow>, md5: string -> string)
    requires forall r :: 0 <= r < |rows| ==> Target(feeds, rows[r], md5).Some?
    requires DistinctKeys(rows) && NoLaterCollision(rows, md5)
    ensures var u := ApplyAsWritten(feeds, rows, md5);
      && u == ApplyByOriginal(feeds, feeds, rows, md5)
      && u.complete
      && (forall r :: 0 <= r < |rows| ==> u.feeds[Target(feeds, rows[r], md5).value] == FeedOf(rows[r]))
      && (forall j :: 0 <= j < |feeds| && (forall r :: 0 <= r < |rows| ==> Target(feeds, rows[r], md5) != Some(j)) ==> u.feeds[j] == feeds[j])
  {
    AsWrittenFollowsOriginal(feeds, feeds, rows, md5);
    ByOriginalSetsEach(feeds, feeds, rows, md5);
  }

  /** Rows that keep their feeds' URLs and name distinct feeds never
      collide with a later row. */
  lemma UnchangedUrlsNoCollision(rows: seq<FeedRow>, md5: string -> string)
    requires DistinctKeys(rows)
    requires forall r :: 0 <= r < |rows| ==> md5(rows[r].url) == DigestOfKey(rows[r].urlKey)
    ensures NoLaterCollision(rows, md5)
  {
  }

  /** Two feeds whose URLs are swapped in the form, where the feed listed
      first also has its row processed first, as when the feeds are listed
      by their ordering and the form keeps that ordering. As written, the
      second row finds the first feed again under its new URL, so the first
      feed ends up with the second row's values and the second feed is never
      updated; looked up by the original URLs, the swap is carried out.
      When the row of the feed listed second is processed first, the lookup
      still meets that feed first and the swap comes out right. */
  lemma SwappedUrls(a: string, b: string, ta: string, tb: string, md5: string -> string)
    requires md5(a) != md5(b) && '-' !in md5(a) && '-' !in md5(b)
    ensures var orig := [Feed(a, 1, ta), Feed(b, 2, tb)];
      var rows := [FeedRow(md5(a) + "-url", b, md5(a) + "-order", 1, md5(a) + "-title", ta),
                   FeedRow(md5(b) + "-url", a, md5(b) + "-order", 2, md5(b) + "-title", tb)];
      && ApplyAsWritten(orig, rows, md5) == Update([Feed(a, 2, tb), Feed(b, 2, tb)], true)
      && ApplyByOriginal(orig, orig, rows, md5) == Update([Feed(b, 1, ta), Feed(a, 2, tb)], true)
  {
    var orig := [Feed(a, 1, ta), Feed(b, 2, tb)];
    var r0 := FeedRow(md5(a) + "-url", b, md5(a) + "-order", 1, md5(a) + "-title", ta);
    var r1 := FeedRow(md5(b) + "-url", a, md5(b) + "-order", 2, md5(b) + "-title", tb);
    var rows := [r0, r1];
    DigestOfUrlKey(md5(a));
    DigestOfUrlKey(md5(b));
    assert rows[1..] == [r1] && [r1][1..] == [];
    var s1 := orig[0 := FeedOf(r0)];
    assert FirstWithDigest(orig, md5(a), md5) == Some(0);
    assert ApplyAsWritten(orig, rows, md5) == ApplyAsWritten(s1, [r1], md5);
    assert FirstWithDigest(s1, md5(b), md5) == Some(0);
    assert ApplyAsWritten(s1, [r1], md5) == ApplyAsWritten(s1[0 := FeedOf(r1)], [], md5);
    assert FirstWithDigest(orig, md5(b), md5) == Some(1);
    assert ApplyByOriginal(orig, orig, rows, md5) == ApplyByOriginal(orig, s1, [r1], md5);
    assert ApplyByOriginal(orig, s1, [r1], md5) == ApplyByOriginal(orig, s1[1 := FeedOf(r1)], [], md5);
  }

  /** The same swap with the feeds listed the other way round: the row for
      `a` is processed first but `b`'s feed comes first in the list, so the
      second row still finds `b`'s feed and the code as written carries out
      the swap too. */
  lemma SwappedUrlsOtherOrder(a: string, b: string, ta: string, tb: string, md5: string -> string)
    requires md5(a) != md5(b) && '-' !in md5(a) && '-' !in md5(b)
    ensures var orig := [Feed(b, 2, tb), Feed(a, 1, ta)];
      var rows := [FeedRow(md5(a) + "-url", b, md5(a) + "-order", 1, md5(a) + "-title", ta),
                   FeedRow(md5(b) + "-url", a, md5(b) + "-order", 2, md5(b) + "-title", tb)];
      && ApplyAsWritten(orig, rows, md5) == Update([Feed(a, 2, tb), Feed(b, 1, ta)], true)
      && ApplyByOriginal(orig, orig, rows, md5) == ApplyAsWritten(orig, rows, md5)
  {
    var orig := [Feed(b, 2, tb), Feed(a, 1, ta)];
    var r0 := FeedRow(md5(a) + "-url", b, md5(a) + "-order", 1, md5(a) + "-title", ta);
    var r1 := FeedRow(md5(b) + "-url", a, md5(b) + "-order", 2, md5(b) + "-title", tb);
    var rows := [r0, r1];
    DigestOfUrlKey(md5(a));
    DigestOfUrlKey(md5(b));
    assert rows[1..] == [r1] && [r1][1..] == [];
    var s1 := orig[1 := FeedOf(r0)];
    assert FirstWithDigest(orig, md5(a), md5) == Some(1);
    assert ApplyAsWritten(orig, rows, md5) == ApplyAsWritten(s1, [r1], md5);
    assert FirstWithDigest(s1, md5(b), md5) == Some(0);
    assert ApplyAsWritten(s1, [r1], md5) == ApplyAsWritten(s1[0 := FeedOf(r1)], [], md5);
    assert FirstWithDigest(orig, md5(b), md5) == Some(0);
    assert ApplyByOriginal(orig, orig, rows, md5) == ApplyByOriginal(orig, s1, [r1], md5);
    assert ApplyByOriginal(orig, s1, [r1], md5) == ApplyByOriginal(orig, s1[0 := FeedOf(r1)], [], md5);
  }
}
