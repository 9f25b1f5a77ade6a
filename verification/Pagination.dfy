/**
 Keyset pagination of outages: one page of a query, and the walks a client makes by following
 the cursors, over a table that changes between pages and over one that does not.
 */
module Pagination {
  import opened Common
  import opened Text
  import Cursor

  /** A row that matches the caller's filters, reduced to what pagination looks at: the primary
      key and the value of the sort column. A row that stops matching has left the table. */
  datatype Row = Row(id: string, value: string)

  datatype Direction = Asc | Desc

  // ---------------------------------------------------------------- order

  /** ORDER BY: the sort column in the given direction, then the id upward. */
  predicate Before(dir: Direction, a: Row, b: Row) {
    if a.value == b.value then Less(a.id, b.id)
    else if dir.Asc? then Less(a.value, b.value)
    else Less(b.value, a.value)
  }

  /** The cursor filter: descending pages compare the ids downward as well. */
  predicate Past(dir: Direction, cursor: Row, r: Row) {
    if dir.Asc? then Less(cursor.value, r.value) || (r.value == cursor.value && Less(cursor.id, r.id))
    else Less(r.value, cursor.value) || (r.value == cursor.value && Less(r.id, cursor.id))
  }

  lemma {:induction false} BeforeTransitive(dir: Direction, a: Row, b: Row, c: Row)
    requires Before(dir, a, b) && Before(dir, b, c)
    ensures Before(dir, a, c)
  {
    if a.value == b.value == c.value {
      LessTransitive(a.id, b.id, c.id);
    } else if a.value != b.value && b.value != c.value {
      LessIrreflexive(a.value);
      if dir.Asc? {
        LessTransitive(a.value, b.value, c.value);
      } else {
        LessTransitive(c.value, b.value, a.value);
      }
    }
  }

  lemma {:induction false} BeforeIrreflexive(dir: Direction, a: Row)
    ensures !Before(dir, a, a) && !Past(dir, a, a)
  {
    LessIrreflexive(a.id);
    LessIrreflexive(a.value);
  }

  lemma {:induction false} BeforeTotal(dir: Direction, a: Row, b: Row)
    ensures Before(dir, a, b) || a == b || Before(dir, b, a)
  {
    LessTotal(a.id, b.id);
    LessTotal(a.value, b.value);
  }

  lemma {:induction false} PastTransitive(dir: Direction, a: Row, b: Row, c: Row)
    requires Past(dir, a, b) && Past(dir, b, c)
    ensures Past(dir, a, c)
  {
    LessIrreflexive(a.value);
    if a.value == b.value == c.value {
      if dir.Asc? {
        LessTransitive(a.id, b.id, c.id);
      } else {
        LessTransitive(c.id, b.id, a.id);
      }
    } else if a.value != b.value && b.value != c.value {
      if dir.Asc? {
        LessTransitive(a.value, b.value, c.value);
      } else {
        LessTransitive(c.value, b.value, a.value);
      }
    }
  }

  /** Upward, the filter and the order are the same relation. */
  lemma {:induction false} AscPastIsBefore(a: Row, b: Row)
    ensures Past(Asc, a, b) <==> Before(Asc, a, b)
  {
    LessIrreflexive(a.value);
  }

  // ---------------------------------------------------------------- one page

  function Insert(dir: Direction, r: Row, s: seq<Row>): (t: seq<Row>)
    ensures multiset(t) == multiset(s) + multiset{r}
  {
    if s == [] then [r]
    else if Before(dir, s[0], r) then
      assert s == [s[0]] + s[1..];
      [s[0]] + Insert(dir, r, s[1..])
    else [r] + s
  }

  /** The rows of the table in the order of the query. */
  function Sort(dir: Direction, table: seq<Row>): (t: seq<Row>)
    ensures multiset(t) == multiset(table)
  {
    if table == [] then []
    else
      assert table == [table[0]] + table[1..];
      Insert(dir, table[0], Sort(dir, table[1..]))
  }

  /** `id` is the primary key. */
  ghost predicate Distinct(table: seq<Row>) {
    forall i, j | 0 <= i < j < |table| :: table[i].id != table[j].id
  }

  ghost predicate Ordered(dir: Direction, s: seq<Row>) {
    forall i, j | 0 <= i < j < |s| :: Before(dir, s[i], s[j])
  }

  predicate Selects(dir: Direction, cursor: Option<Row>, r: Row) {
    cursor.None? || Past(dir, cursor.value, r)
  }

  /** The rows of `s` that the cursor filter keeps. */
  function Matching(dir: Direction, s: seq<Row>, cursor: Option<Row>): seq<Row>
  {
    if s == [] then []
    else
      (if Selects(dir, cursor, s[0]) then [s[0]] else []) + Matching(dir, s[1..], cursor)
  }

  lemma {:induction false} MatchingMember(dir: Direction, s: seq<Row>, cursor: Option<Row>, r: Row)
    ensures r in Matching(dir, s, cursor) <==> r in s && Selects(dir, cursor, r)
  {
    if s != [] {
      MatchingMember(dir, s[1..], cursor, r);
      assert s == [s[0]] + s[1..];
    }
  }

  datatype Page = Page(items: seq<Row>, hasMore: bool, next: Option<Row>)

  function Take(s: seq<Row>, n: nat): seq<Row> {
    if |s| <= n then s else s[..n]
  }

  /** `list_cursor`: filter, order, look one row ahead, cut to the limit. */
  function PageAfter(dir: Direction, table: seq<Row>, cursor: Option<Row>, limit: nat): Page {
    PageOf(dir, Sort(dir, table), cursor, limit)
  }

  function PageOf(dir: Direction, s: seq<Row>, cursor: Option<Row>, limit: nat): Page
  {
    var fetched := Take(Matching(dir, s, cursor), limit + 1);
    var hasMore := |fetched| > limit;
    var items := Take(fetched, limit);
    Page(items, hasMore, if hasMore && items != [] then Some(items[|items| - 1]) else None)
  }

  /** The request as a client makes it: the cursor is the opaque string of the last answer. */
  function ListCursor(dir: Direction, table: seq<Row>, cursor: Option<string>, limit: nat): (Page, Option<string>)
  {
    var p := PageAfter(dir, table, Decoded(cursor), limit);
    (p, if p.next.Some? then Some(Cursor.EncodeCursor(p.next.value.id, p.next.value.value)) else None)
  }

  function Decoded(cursor: Option<string>): Option<Row>
  {
    var c := Cursor.DecodeCursor(cursor);
    if c.Some? then Some(Row(c.value.0, c.value.1)) else None
  }

  /** The opaque cursor of an answer decodes to the last row of its page. */
  lemma OpaqueCursorIsLastRow(dir: Direction, table: seq<Row>, cursor: Option<string>, limit: nat)
    ensures Decoded(ListCursor(dir, table, cursor, limit).1) == ListCursor(dir, table, cursor, limit).0.next
  {
    var (p, next) := ListCursor(dir, table, cursor, limit);
    if p.next.Some? {
      Cursor.CursorRoundTrip(p.next.value.id, p.next.value.value);
    }
  }

  lemma {:induction false} InsertOrdered(dir: Direction, r: Row, s: seq<Row>)
    requires Ordered(dir, s) && r !in s
    ensures Ordered(dir, Insert(dir, r, s))
  {
    if s != [] {
      if Before(dir, s[0], r) {
        var t := Insert(dir, r, s[1..]);
        InsertOrdered(dir, r, s[1..]);
        forall x | x in t ensures Before(dir, s[0], x) {
          assert x in multiset(t);
          assert x == r || x in s[1..];
        }
      } else {
        BeforeTotal(dir, s[0], r);
        assert s[0] in s;
        forall x | x in s ensures Before(dir, r, x) {
          if x != s[0] {
            BeforeTransitive(dir, r, s[0], x);
          }
        }
      }
    }
  }

  lemma {:induction false} SortOrdered(dir: Direction, table: seq<Row>)
    requires Distinct(table)
    ensures Ordered(dir, Sort(dir, table))
  {
    if table != [] {
      SortOrdered(dir, table[1..]);
      SortMembers(dir, table[1..]);
      InsertOrdered(dir, table[0], Sort(dir, table[1..]));
    }
  }

  lemma {:induction false} SortMembers(dir: Direction, table: seq<Row>)
    ensures forall r :: r in Sort(dir, table) <==> r in table
  {
    forall r ensures r in Sort(dir, table) <==> r in table {
      assert r in Sort(dir, table) <==> r in multiset(Sort(dir, table));
      assert r in table <==> r in multiset(table);
    }
  }

  lemma {:induction false} MatchingOrdered(dir: Direction, s: seq<Row>, cursor: Option<Row>)
    requires Ordered(dir, s)
    ensures Ordered(dir, Matching(dir, s, cursor))
  {
    if s != [] {
      MatchingOrdered(dir, s[1..], cursor);
      forall x | x in Matching(dir, s[1..], cursor) ensures Before(dir, s[0], x) {
        MatchingMember(dir, s[1..], cursor, x);
      }
    }
  }

  /** In ordered rows, what comes at a place is not among the rows before it. */
  ghost predicate SortedApart(dir: Direction, s: seq<Row>, k: nat)
    requires k < |s|
  {
    s[k] !in s[..k]
  }

  lemma {:induction false} OrderedApart(dir: Direction, s: seq<Row>, k: nat)
    requires Ordered(dir, s) && k < |s|
    ensures SortedApart(dir, s, k)
  {
    if s[k] in s[..k] {
      var i :| 0 <= i < k && s[i] == s[k];
      BeforeIrreflexive(dir, s[k]);
    }
  }

  /** What one page is, whatever the table: in order, past the cursor, at most `limit` rows, and
      everything selected up to the next cursor, or everything selected when there is none. */
  lemma {:induction false} PageContract(dir: Direction, table: seq<Row>, cursor: Option<Row>, limit: nat)
    requires Distinct(table) && limit >= 1
    ensures var p := PageAfter(dir, table, cursor, limit);
      && |p.items| <= limit && p.hasMore == p.next.Some?
      && Ordered(dir, p.items)
      && (forall i, j | 0 <= i < j < |p.items| ::
            if p.items[i].value == p.items[j].value then Less(p.items[i].id, p.items[j].id)
            else if dir.Asc? then Less(p.items[i].value, p.items[j].value)
            else Less(p.items[j].value, p.items[i].value))
      && (forall r | r in p.items :: r in table && Selects(dir, cursor, r))
      && (p.next.Some? ==> exists r :: r in table && Selects(dir, cursor, r) && r !in p.items)
      && (p.next.Some? ==> |p.items| == limit && p.next.value == p.items[limit - 1])
      && (forall r | r in table && Selects(dir, cursor, r) && r !in p.items ::
            p.next.Some? && Before(dir, p.next.value, r))
  {
    var s := Sort(dir, table);
    var m := Matching(dir, s, cursor);
    SortOrdered(dir, table);
    SortMembers(dir, table);
    MatchingOrdered(dir, s, cursor);
    var p := PageAfter(dir, table, cursor, limit);
    assert p.items == Take(m, limit);
    if p.next.Some? {
      OrderedApart(dir, m, limit);
      assert m[limit] in m;
    }
    forall r ensures r in m <==> r in table && Selects(dir, cursor, r) {
      MatchingMember(dir, s, cursor, r);
    }
    forall r | r in table && Selects(dir, cursor, r) && r !in p.items
      ensures p.next.Some? && Before(dir, p.next.value, r)
    {
      assert r in m;
      var i :| 0 <= i < |m| && m[i] == r;
      assert i >= limit;
    }
  }

  // ---------------------------------------------------------------- a walk over a changing table

  /** The pages a client collects when `tables[i]` is what the table holds at the i-th request.
      The second component tells whether the walk came to its end. */
  function Walk(dir: Direction, tables: seq<seq<Row>>, cursor: Option<Row>, limit: nat): (seq<Row>, bool)
    decreases |tables|
  {
    if tables == [] then ([], false)
    else
      var p := PageAfter(dir, tables[0], cursor, limit);
      if p.next.None? then (p.items, true)
      else
        var (rest, done) := Walk(dir, tables[1..], p.next, limit);
        (p.items + rest, done)
  }

  /** The same for a client that sends back the opaque strings it is given. */
  function OpaqueWalk(dir: Direction, tables: seq<seq<Row>>, cursor: Option<string>, limit: nat): (seq<Row>, bool)
    decreases |tables|
  {
    if tables == [] then ([], false)
    else
      var (p, next) := ListCursor(dir, tables[0], cursor, limit);
      if next.None? then (p.items, true)
      else
        var (rest, done) := OpaqueWalk(dir, tables[1..], next, limit);
        (p.items + rest, done)
  }

  /** A request without a cursor, or with an empty one, is for the first page. */
  lemma {:induction false} NoCursorIsFirstPage(dir: Direction, table: seq<Row>, limit: nat)
    ensures ListCursor(dir, table, None, limit).0 == PageAfter(dir, table, None, limit)
    ensures ListCursor(dir, table, Some(""), limit).0 == PageAfter(dir, table, None, limit)
    ensures ListCursor(dir, table, None, limit).1.Some? <==> PageAfter(dir, table, None, limit).hasMore && limit > 0
  {
  }

  /** Sending back opaque strings is following the last row of each page, in either direction
      and whatever happens to the table: what is proved of `Walk` holds of every client. */
  lemma {:induction false} OpaqueWalkIsWalk(dir: Direction, tables: seq<seq<Row>>, cursor: Option<string>, limit: nat)
    ensures OpaqueWalk(dir, tables, cursor, limit) == Walk(dir, tables, Decoded(cursor), limit)
    decreases |tables|
  {
    if tables != [] {
      var (p, next) := ListCursor(dir, tables[0], cursor, limit);
      OpaqueCursorIsLastRow(dir, tables[0], cursor, limit);
      if next.Some? {
        OpaqueWalkIsWalk(dir, tables[1..], next, limit);
      }
    }
  }

  /** Among these rows the cursor filter agrees with the order of the pages. */
  ghost predicate FilterFollowsOrder(dir: Direction, all: set<Row>) {
    forall a, b | a in all && b in all :: Past(dir, a, b) <==> Before(dir, a, b)
  }

  /** No two rows that the tables ever hold share a sort value. */
  ghost predicate ValuesDistinct(tables: seq<seq<Row>>) {
    forall t, u | t in tables && u in tables :: forall a, b | a in t && b in u && a.value == b.value :: a == b
  }

  ghost function RowsOf(tables: seq<seq<Row>>): set<Row> {
    set t, r | t in tables && r in t :: r
  }

  lemma {:induction false} UpwardFilterFollowsOrder(all: set<Row>)
    ensures FilterFollowsOrder(Asc, all)
  {
    forall a, b | a in all && b in all ensures Past(Asc, a, b) <==> Before(Asc, a, b) {
      AscPastIsBefore(a, b);
    }
  }

  lemma {:induction false} DistinctFilterFollowsOrder(dir: Direction, tables: seq<seq<Row>>)
    requires ValuesDistinct(tables)
    ensures FilterFollowsOrder(dir, RowsOf(tables))
  {
    forall a, b | a in RowsOf(tables) && b in RowsOf(tables) ensures Past(dir, a, b) <==> Before(dir, a, b) {
      var t :| t in tables && a in t;
      var u :| u in tables && b in u;
      LessIrreflexive(a.value);
      LessIrreflexive(a.id);
    }
  }

  lemma {:induction false} RowsOfHead(tables: seq<seq<Row>>, all: set<Row>)
    requires tables != [] && RowsOf(tables) <= all
    ensures (forall r | r in tables[0] :: r in all) && RowsOf(tables[1..]) <= all
  {
    assert tables[0] in tables;
    forall r | r in tables[0] ensures r in all {
      assert r in RowsOf(tables);
    }
    forall r | r in RowsOf(tables[1..]) ensures r in all {
      assert r in RowsOf(tables);
    }
  }

  /** What a walk whose filter follows the order may assume. */
  ghost predicate WalkSetting(dir: Direction, tables: seq<seq<Row>>, cursor: Option<Row>, limit: nat, all: set<Row>) {
    && limit >= 1 && (forall t | t in tables :: Distinct(t)) && FilterFollowsOrder(dir, all)
    && RowsOf(tables) <= all && (cursor.Some? ==> cursor.value in all)
  }

  /** After a page the setting is that of the rest of the walk. */
  lemma {:induction false} SettingGoesOn(
    dir: Direction, tables: seq<seq<Row>>, cursor: Option<Row>, limit: nat, all: set<Row>, p: Page)
    requires WalkSetting(dir, tables, cursor, limit, all) && tables != []
    requires p == PageAfter(dir, tables[0], cursor, limit)
    ensures Distinct(tables[0]) && (forall r | r in tables[0] :: r in all)
    ensures p.next.Some? ==> p.next.value in p.items && WalkSetting(dir, tables[1..], p.next, limit, all)
  {
    assert tables[0] in tables;
    RowsOfHead(tables, all);
    PageContract(dir, tables[0], cursor, limit);
  }

  /** A walk whose filter follows the order returns its rows in that order, hence none twice, and
      nothing that was not in the table when its page was read. */
  lemma {:induction false} WalkInOrder(
    dir: Direction, tables: seq<seq<Row>>, cursor: Option<Row>, limit: nat, all: set<Row>)
    requires WalkSetting(dir, tables, cursor, limit, all)
    ensures var rows := Walk(dir, tables, cursor, limit).0;
      Ordered(dir, rows) && forall r | r in rows :: Selects(dir, cursor, r) && r in RowsOf(tables)
    decreases |tables|
  {
    if tables != [] {
      var p := PageAfter(dir, tables[0], cursor, limit);
      SettingGoesOn(dir, tables, cursor, limit, all, p);
      PageContract(dir, tables[0], cursor, limit);
      forall r | r in p.items ensures r in RowsOf(tables) {
        assert tables[0] in tables;
      }
      if p.next.Some? {
        WalkInOrder(dir, tables[1..], p.next, limit, all);
        RowsOfHead(tables, RowsOf(tables));
        JoinPages(dir, p, cursor, Walk(dir, tables[1..], p.next, limit).0, all);
      }
    }
  }

  /** When it comes to its end, it has returned every row that stayed in the table unchanged,
      whatever was inserted or deleted around it. */
  lemma {:induction false} WalkMissesNone(
    dir: Direction, tables: seq<seq<Row>>, cursor: Option<Row>, limit: nat, all: set<Row>, r: Row)
    requires WalkSetting(dir, tables, cursor, limit, all) && Walk(dir, tables, cursor, limit).1
    requires Selects(dir, cursor, r) && forall t | t in tables :: r in t
    ensures r in Walk(dir, tables, cursor, limit).0
    decreases |tables|
  {
    var p := PageAfter(dir, tables[0], cursor, limit);
    SettingGoesOn(dir, tables, cursor, limit, all, p);
    PageContract(dir, tables[0], cursor, limit);
    assert r in tables[0];
    if r !in p.items {
      assert Past(dir, p.next.value, r) <==> Before(dir, p.next.value, r);
      assert forall t | t in tables[1..] :: t in tables;
      WalkMissesNone(dir, tables[1..], p.next, limit, all, r);
    }
  }

  lemma {:induction false} JoinPages(dir: Direction, p: Page, cursor: Option<Row>, rest: seq<Row>, all: set<Row>)
    requires p.next.Some? && p.items != [] && p.next.value == p.items[|p.items| - 1]
    requires FilterFollowsOrder(dir, all) && p.next.value in all && forall r | r in rest :: r in all
    requires Ordered(dir, p.items) && Ordered(dir, rest)
    requires forall r | r in p.items :: Selects(dir, cursor, r)
    requires forall r | r in rest :: Selects(dir, p.next, r)
    ensures Ordered(dir, p.items + rest)
    ensures forall r | r in p.items + rest :: Selects(dir, cursor, r)
  {
    var last := p.next.value;
    assert last in p.items;
    forall r | r in rest ensures Before(dir, last, r) && Selects(dir, cursor, r) {
      assert Past(dir, last, r) <==> Before(dir, last, r);
      if cursor.Some? {
        PastTransitive(dir, cursor.value, last, r);
      }
    }
    forall i, j | 0 <= i < |p.items| && 0 <= j < |rest| ensures Before(dir, p.items[i], rest[j]) {
      if i < |p.items| - 1 {
        BeforeTransitive(dir, p.items[i], last, rest[j]);
      }
    }
  }

  /** An upward walk needs no condition. */
  lemma {:induction false} AscendingWalk(tables: seq<seq<Row>>, cursor: Option<Row>, limit: nat)
    requires limit >= 1 && forall t | t in tables :: Distinct(t)
    ensures var (rows, done) := Walk(Asc, tables, cursor, limit);
      && Ordered(Asc, rows)
      && (forall r | r in rows :: Selects(Asc, cursor, r) && r in RowsOf(tables))
      && (done ==> forall r | Selects(Asc, cursor, r) && (forall t | t in tables :: r in t) :: r in rows)
  {
    var all := RowsOf(tables) + if cursor.Some? then {cursor.value} else {};
    UpwardFilterFollowsOrder(all);
    WalkInOrder(Asc, tables, cursor, limit, all);
    forall r | Walk(Asc, tables, cursor, limit).1 && Selects(Asc, cursor, r) && (forall t | t in tables :: r in t)
      ensures r in Walk(Asc, tables, cursor, limit).0
    {
      WalkMissesNone(Asc, tables, cursor, limit, all, r);
    }
  }

  lemma {:induction false} OrderedHasNoRepeats(dir: Direction, s: seq<Row>, r: Row)
    requires Ordered(dir, s)
    ensures multiset(s)[r] == if r in s then 1 else 0
  {
    if s != [] {
      assert s == [s[0]] + s[1..];
      OrderedHasNoRepeats(dir, s[1..], r);
      BeforeIrreflexive(dir, s[0]);
    }
  }

  /** A whole walk of a client returns a row that stays unchanged exactly once: upward always,
      downward if no two rows that the tables ever hold share a sort value. */
  lemma {:induction false} StableRowExactlyOnce(dir: Direction, tables: seq<seq<Row>>, limit: nat, r: Row)
    requires limit >= 1 && forall t | t in tables :: Distinct(t)
    requires dir.Asc? || ValuesDistinct(tables)
    requires OpaqueWalk(dir, tables, None, limit).1
    requires forall t | t in tables :: r in t
    ensures multiset(OpaqueWalk(dir, tables, None, limit).0)[r] == 1
  {
    OpaqueWalkIsWalk(dir, tables, None, limit);
    if dir.Asc? {
      UpwardFilterFollowsOrder(RowsOf(tables));
    } else {
      DistinctFilterFollowsOrder(dir, tables);
    }
    WalkInOrder(dir, tables, None, limit, RowsOf(tables));
    WalkMissesNone(dir, tables, None, limit, RowsOf(tables), r);
    OrderedHasNoRepeats(dir, Walk(dir, tables, None, limit).0, r);
  }

  /** The cursor moves strictly forward from page to page, in either direction. */
  lemma {:induction false} CursorAdvances(dir: Direction, table: seq<Row>, cursor: Row, limit: nat)
    requires Distinct(table) && limit >= 1
    ensures var p := PageAfter(dir, table, Some(cursor), limit); p.next.Some? ==> Past(dir, cursor, p.next.value)
  {
    PageContract(dir, table, Some(cursor), limit);
    var p := PageAfter(dir, table, Some(cursor), limit);
    if p.next.Some? {
      assert p.next.value in p.items;
    }
  }

  // ---------------------------------------------------------------- a walk over a fixed table

  /** Moving the cursor to a selected row strictly shrinks what is still selected. */
  lemma {:induction false} MatchingShrinks(dir: Direction, s: seq<Row>, cursor: Option<Row>, next: Row)
    requires Selects(dir, cursor, next)
    ensures |Matching(dir, s, Some(next))| <= |Matching(dir, s, cursor)|
    ensures next in s ==> |Matching(dir, s, Some(next))| < |Matching(dir, s, cursor)|
  {
    if s != [] {
      MatchingShrinks(dir, s[1..], cursor, next);
      BeforeIrreflexive(dir, next);
      if cursor.Some? && Past(dir, next, s[0]) {
        PastTransitive(dir, cursor.value, next, s[0]);
      }
    }
  }

  lemma {:induction false} PageEndsOnSelected(dir: Direction, s: seq<Row>, cursor: Option<Row>, limit: nat)
    ensures var p := PageOf(dir, s, cursor, limit);
      p.next.Some? ==> p.next.value in s && Selects(dir, cursor, p.next.value)
  {
    var p := PageOf(dir, s, cursor, limit);
    if p.next.Some? {
      assert p.next.value in Matching(dir, s, cursor);
      MatchingMember(dir, s, cursor, p.next.value);
    }
  }

  /** The pages a client collects while the ordered rows stay `s`. */
  function WalkOf(dir: Direction, s: seq<Row>, cursor: Option<Row>, limit: nat): seq<Row>
    decreases |Matching(dir, s, cursor)|
  {
    var p := PageOf(dir, s, cursor, limit);
    if p.next.None? then p.items
    else
      PageEndsOnSelected(dir, s, cursor, limit);
      MatchingShrinks(dir, s, cursor, p.next.value);
      p.items + WalkOf(dir, s, p.next, limit)
  }

  /** All rows a client collects from a table that does not change. */
  function FixedWalk(dir: Direction, table: seq<Row>, limit: nat): seq<Row> {
    WalkOf(dir, Sort(dir, table), None, limit)
  }

  /** The last row of a page that ends before position `j` shares its sort value with a
      neighbour. */
  predicate TiedAt(s: seq<Row>, j: nat)
    requires 1 <= j < |s|
  {
    s[j].value == s[j - 1].value || (j >= 2 && s[j - 2].value == s[j - 1].value)
  }

  /** No page boundary, counted from position `i`, falls on a tied row. */
  predicate Untied(s: seq<Row>, i: nat, limit: nat)
    requires limit >= 1
    decreases |s| - i
  {
    var j := i + limit;
    j >= |s| || (!TiedAt(s, j) && Untied(s, j, limit))
  }

  lemma {:induction false} MatchingSplit(dir: Direction, s: seq<Row>, cursor: Option<Row>, j: nat)
    requires j <= |s|
    requires forall k | 0 <= k < j :: !Selects(dir, cursor, s[k])
    requires forall k | j <= k < |s| :: Selects(dir, cursor, s[k])
    ensures Matching(dir, s, cursor) == s[j..]
  {
    if s != [] {
      if j == 0 {
        MatchingSplit(dir, s[1..], cursor, 0);
      } else {
        MatchingSplit(dir, s[1..], cursor, j - 1);
        assert s[1..][j - 1..] == s[j..];
      }
    }
  }

  /** A cursor on an untied row selects exactly the rows behind it. */
  lemma {:induction false} UntiedCursorSelectsRest(s: seq<Row>, j: nat)
    requires Ordered(Desc, s) && 1 <= j < |s|
    requires !TiedAt(s, j)
    ensures Matching(Desc, s, Some(s[j - 1])) == s[j..]
  {
    var c := s[j - 1];
    forall k | 0 <= k < j ensures !Past(Desc, c, s[k]) {
      BeforeIrreflexive(Desc, c);
      if k < j - 1 {
        if k < j - 2 {
          BeforeTransitive(Desc, s[k], s[j - 2], c);
          ValuesFall(s[k], s[j - 2], c);
        }
        NotBoth(c.value, s[k].value);
      }
    }
    forall k | j <= k < |s| ensures Past(Desc, c, s[k]) {
      if j < k {
        ValuesFall(c, s[j], s[k]);
      }
    }
    MatchingSplit(Desc, s, Some(c), j);
  }

  lemma {:induction false} NotBoth(a: string, b: string)
    requires Less(a, b)
    ensures !Less(b, a) && a != b
  {
    LessIrreflexive(a);
    if Less(b, a) {
      LessTransitive(a, b, a);
    }
  }

  lemma {:induction false} ValuesFall(a: Row, b: Row, c: Row)
    requires Before(Desc, a, b) && Before(Desc, b, c)
    requires a.value != b.value || b.value != c.value
    ensures Less(c.value, a.value)
  {
    if a.value != b.value && b.value != c.value {
      LessTransitive(c.value, b.value, a.value);
    }
  }

  lemma {:induction false} WalkSelected(dir: Direction, s: seq<Row>, cursor: Option<Row>, limit: nat)
    ensures forall r | r in WalkOf(dir, s, cursor, limit) :: Selects(dir, cursor, r)
    decreases |Matching(dir, s, cursor)|
  {
    var p := PageOf(dir, s, cursor, limit);
    forall r | r in p.items ensures Selects(dir, cursor, r) {
      MatchingMember(dir, s, cursor, r);
    }
    if p.next.Some? {
      PageEndsOnSelected(dir, s, cursor, limit);
      MatchingShrinks(dir, s, cursor, p.next.value);
      WalkSelected(dir, s, p.next, limit);
      forall r | r in WalkOf(dir, s, p.next, limit) ensures Selects(dir, cursor, r) {
        if cursor.Some? {
          PastTransitive(dir, cursor.value, p.next.value, r);
        }
      }
    }
  }

  /** A walk that goes on returns the first row its cursor selects. */
  lemma {:induction false} WalkFirst(dir: Direction, s: seq<Row>, cursor: Option<Row>, limit: nat)
    requires limit >= 1 && Matching(dir, s, cursor) != []
    ensures Matching(dir, s, cursor)[0] in WalkOf(dir, s, cursor, limit)
  {
    var p := PageOf(dir, s, cursor, limit);
    assert Matching(dir, s, cursor)[0] == p.items[0];
    assert p.items <= WalkOf(dir, s, cursor, limit);
  }

  lemma {:induction false} FirstMatch(dir: Direction, s: seq<Row>, cursor: Option<Row>, k: nat)
    requires k < |s| && Selects(dir, cursor, s[k])
    ensures Matching(dir, s, cursor) != [] && Matching(dir, s, cursor)[0] in s[..k + 1]
  {
    if !Selects(dir, cursor, s[0]) {
      FirstMatch(dir, s[1..], cursor, k - 1);
      assert s[..k + 1] == [s[0]] + s[1..][..k];
    }
  }

  /** A boundary on a row with a tie before it returns a row twice. */
  lemma {:induction false} TieBefore(s: seq<Row>, cursor: Option<Row>, i: nat, j: nat, limit: nat)
    requires Ordered(Desc, s) && limit >= 1 && i < j <= |s| && Matching(Desc, s, cursor) == s[i..]
    requires j >= 2 && s[j - 2].value == s[j - 1].value
    ensures multiset(s[i..j] + WalkOf(Desc, s, Some(s[j - 1]), limit)) != multiset(s[i..])
  {
    var c := s[j - 1];
    FirstMatch(Desc, s, Some(c), j - 2);
    WalkFirst(Desc, s, Some(c), limit);
    var f := Matching(Desc, s, Some(c))[0];
    MatchingMember(Desc, s, Some(c), f);
    SeenTwice(s, i, j, cursor, c, f);
    Repeated(s[i..j], WalkOf(Desc, s, Some(c), limit), f);
    OrderedHasNoRepeats(Desc, s[i..], f);
  }

  /** A boundary on a row with a tie behind it loses that row. */
  lemma {:induction false} TieBehind(s: seq<Row>, i: nat, j: nat, limit: nat)
    requires Ordered(Desc, s) && limit >= 1 && i < j < |s|
    requires s[j].value == s[j - 1].value
    ensures multiset(s[i..j] + WalkOf(Desc, s, Some(s[j - 1]), limit)) != multiset(s[i..])
  {
    var c, lost := s[j - 1], s[j];
    var rest := WalkOf(Desc, s, Some(c), limit);
    WalkSelected(Desc, s, Some(c), limit);
    NotBoth(c.id, lost.id);
    LessIrreflexive(c.value);
    assert lost !in rest;
    BeforeIrreflexive(Desc, lost);
    assert lost !in s[i..j];
    Lost(s[i..j] + rest, s[i..], lost, j - i);
  }

  lemma {:induction false} Lost(a: seq<Row>, b: seq<Row>, r: Row, k: nat)
    requires r !in a && k < |b| && b[k] == r
    ensures multiset(a) != multiset(b)
  {
    assert r in multiset(b) && r !in multiset(a);
  }

  lemma {:induction false} Repeated(a: seq<Row>, b: seq<Row>, r: Row)
    requires r in a && r in b
    ensures multiset(a + b)[r] >= 2
  {
    assert multiset(a + b) == multiset(a) + multiset(b);
    assert r in multiset(a) && r in multiset(b);
  }

  lemma {:induction false} SeenTwice(s: seq<Row>, i: nat, j: nat, cursor: Option<Row>, c: Row, f: Row)
    requires Ordered(Desc, s) && i < j <= |s| && c == s[j - 1]
    requires Matching(Desc, s, cursor) == s[i..]
    requires f in s[..j - 1] && Past(Desc, c, f)
    ensures f in s[i..j]
  {
    assert c == s[i..][j - 1 - i];
    MatchingMember(Desc, s, cursor, c);
    if cursor.Some? {
      PastTransitive(Desc, cursor.value, c, f);
    }
    MatchingMember(Desc, s, cursor, f);
    var k :| 0 <= k < |s[i..]| && s[i..][k] == f;
    var m :| 0 <= m < j - 1 && s[m] == f;
    BeforeIrreflexive(Desc, f);
    assert i + k == m;
    assert f == s[i..j][k];
  }

  /** While the cursor selects a suffix of the rows, a page is the next slice. */
  lemma {:induction false} WalkGoesOn(dir: Direction, s: seq<Row>, cursor: Option<Row>, i: nat, j: nat, limit: nat)
    requires limit >= 1 && j == i + limit < |s| && Matching(dir, s, cursor) == s[i..]
    ensures WalkOf(dir, s, cursor, limit) == s[i..j] + WalkOf(dir, s, Some(s[j - 1]), limit)
  {
    var p := PageOf(dir, s, cursor, limit);
    assert p.items == s[i..j] && p.next == Some(s[j - 1]);
  }

  lemma {:induction false} WalkEnds(dir: Direction, s: seq<Row>, cursor: Option<Row>, i: nat, limit: nat)
    requires i <= |s| <= i + limit && Matching(dir, s, cursor) == s[i..]
    ensures WalkOf(dir, s, cursor, limit) == s[i..]
  {
  }

  /** An upward walk over a table that does not change is the ordered table itself. */
  lemma {:induction false} AscendingFrom(s: seq<Row>, cursor: Option<Row>, i: nat, limit: nat)
    requires Ordered(Asc, s) && limit >= 1 && i <= |s| && Matching(Asc, s, cursor) == s[i..]
    ensures WalkOf(Asc, s, cursor, limit) == s[i..]
    decreases |s| - i
  {
    var j := i + limit;
    if j >= |s| {
      WalkEnds(Asc, s, cursor, i, limit);
    } else {
      WalkGoesOn(Asc, s, cursor, i, j, limit);
      AscendingCursorSelectsRest(s, j);
      AscendingFrom(s, Some(s[j - 1]), j, limit);
      Rejoin(s, i, j, WalkOf(Asc, s, cursor, limit), WalkOf(Asc, s, Some(s[j - 1]), limit));
    }
  }

  lemma {:induction false} Rejoin(s: seq<Row>, i: nat, j: nat, walk: seq<Row>, rest: seq<Row>)
    requires i <= j <= |s| && walk == s[i..j] + rest && rest == s[j..]
    ensures walk == s[i..]
  {
  }

  lemma {:induction false} AscendingCursorSelectsRest(s: seq<Row>, j: nat)
    requires Ordered(Asc, s) && 1 <= j <= |s|
    ensures Matching(Asc, s, Some(s[j - 1])) == s[j..]
  {
    var c := s[j - 1];
    forall k | 0 <= k < |s| ensures Past(Asc, c, s[k]) <==> j <= k {
      AscPastIsBefore(c, s[k]);
      BeforeIrreflexive(Asc, c);
      if k < j - 1 && Before(Asc, c, s[k]) {
        BeforeTransitive(Asc, c, s[k], c);
      }
    }
    MatchingSplit(Asc, s, Some(c), j);
  }

  lemma {:induction false} AscendingFixedWalk(table: seq<Row>, limit: nat)
    requires Distinct(table) && limit >= 1
    ensures FixedWalk(Asc, table, limit) == Sort(Asc, table)
  {
    var s := Sort(Asc, table);
    SortOrdered(Asc, table);
    MatchingSplit(Asc, s, None, 0);
    assert s[0..] == s;
    AscendingFrom(s, None, 0, limit);
  }

  lemma CancelPrefix(s: seq<Row>, i: nat, j: nat, rest: seq<Row>)
    requires i <= j <= |s|
    ensures multiset(s[i..j] + rest) == multiset(s[i..]) <==> multiset(rest) == multiset(s[j..])
  {
    assert s[i..] == s[i..j] + s[j..];
    assert multiset(s[i..j] + rest) - multiset(s[i..j]) == multiset(rest);
    assert multiset(s[i..j] + s[j..]) - multiset(s[i..j]) == multiset(s[j..]);
  }

  lemma {:induction false} StillInexact(s: seq<Row>, i: nat, j: nat, walk: seq<Row>, rest: seq<Row>)
    requires i <= j <= |s| && walk == s[i..j] + rest && multiset(rest) != multiset(s[j..])
    ensures multiset(walk) != multiset(s[i..])
  {
    CancelPrefix(s, i, j, rest);
  }

  /** Whether the walk is still exact is decided boundary by boundary. */
  lemma {:induction false} Boundary(s: seq<Row>, cursor: Option<Row>, i: nat, j: nat, limit: nat)
    requires Ordered(Desc, s) && limit >= 1 && j == i + limit < |s| && Matching(Desc, s, cursor) == s[i..]
    ensures TiedAt(s, j) ==> multiset(WalkOf(Desc, s, cursor, limit)) != multiset(s[i..])
    ensures !TiedAt(s, j) ==> Matching(Desc, s, Some(s[j - 1])) == s[j..]
  {
    WalkGoesOn(Desc, s, cursor, i, j, limit);
    if j >= 2 && s[j - 2].value == s[j - 1].value {
      TieBefore(s, cursor, i, j, limit);
    } else if s[j].value == s[j - 1].value {
      TieBehind(s, i, j, limit);
    } else {
      UntiedCursorSelectsRest(s, j);
    }
  }

  lemma {:induction false} DescendingInexact(s: seq<Row>, cursor: Option<Row>, i: nat, limit: nat)
    requires Ordered(Desc, s) && limit >= 1 && i <= |s| && Matching(Desc, s, cursor) == s[i..]
    requires !Untied(s, i, limit)
    ensures multiset(WalkOf(Desc, s, cursor, limit)) != multiset(s[i..])
    decreases |s| - i
  {
    var j := i + limit;
    Boundary(s, cursor, i, j, limit);
    if !TiedAt(s, j) {
      DescendingInexact(s, Some(s[j - 1]), j, limit);
      WalkGoesOn(Desc, s, cursor, i, j, limit);
      StillInexact(s, i, j, WalkOf(Desc, s, cursor, limit), WalkOf(Desc, s, Some(s[j - 1]), limit));
    }
  }

  lemma {:induction false} DescendingExact(s: seq<Row>, cursor: Option<Row>, i: nat, limit: nat)
    requires Ordered(Desc, s) && limit >= 1 && i <= |s| && Matching(Desc, s, cursor) == s[i..]
    requires Untied(s, i, limit)
    ensures WalkOf(Desc, s, cursor, limit) == s[i..]
    decreases |s| - i
  {
    var j := i + limit;
    if j >= |s| {
      WalkEnds(Desc, s, cursor, i, limit);
    } else {
      WalkGoesOn(Desc, s, cursor, i, j, limit);
      UntiedCursorSelectsRest(s, j);
      DescendingExact(s, Some(s[j - 1]), j, limit);
      Rejoin(s, i, j, WalkOf(Desc, s, cursor, limit), WalkOf(Desc, s, Some(s[j - 1]), limit));
    }
  }

  /** A downward walk over a table that does not change is the ordered table if and only if no
      page boundary falls on a row that shares its sort value with a neighbour; otherwise it
      does not even return every row exactly once. */
  lemma {:induction false} DescendingWalkIff(table: seq<Row>, limit: nat)
    requires Distinct(table) && limit >= 1
    ensures FixedWalk(Desc, table, limit) == Sort(Desc, table) <==> Untied(Sort(Desc, table), 0, limit)
    ensures multiset(FixedWalk(Desc, table, limit)) == multiset(table) <==> Untied(Sort(Desc, table), 0, limit)
  {
    var s := Sort(Desc, table);
    SortOrdered(Desc, table);
    MatchingSplit(Desc, s, None, 0);
    assert s[0..] == s;
    if Untied(s, 0, limit) {
      DescendingExact(s, None, 0, limit);
    } else {
      DescendingInexact(s, None, 0, limit);
    }
  }

  lemma {:induction false} DistinctValuesAreUntied(table: seq<Row>, i: nat, limit: nat)
    requires Distinct(table) && limit >= 1
    requires forall a, b | a in table && b in table && a.value == b.value :: a == b
    ensures Untied(Sort(Desc, table), i, limit)
    decreases |Sort(Desc, table)| - i
  {
    var s, j := Sort(Desc, table), i + limit;
    if j < |s| {
      SortOrdered(Desc, table);
      SortMembers(Desc, table);
      BeforeIrreflexive(Desc, s[j - 1]);
      assert s[j] in s && s[j - 1] in s;
      if j >= 2 {
        assert s[j - 2] in s;
      }
      DistinctValuesAreUntied(table, j, limit);
    }
  }

  /** Two rows detected at the same moment and a page of one: the second row is never returned. */
  lemma {:induction false} DescendingWalkLosesTie()
    ensures var table := [Row("a", "t"), Row("b", "t")];
      Distinct(table) && multiset(FixedWalk(Desc, table, 1)) != multiset(table)
  {
    var table := [Row("a", "t"), Row("b", "t")];
    assert Less("a", "b");
    NotBoth("a", "b");
    assert table[1..] == [table[1]] && table[1..][1..] == [];
    assert Sort(Desc, [table[1]]) == [table[1]];
    assert Sort(Desc, table) == table;
    DescendingWalkIff(table, 1);
  }

  /** Three rows and pages of two: the first page ends between different values, but on a row
      that is tied with the one before it, and a row is returned twice. */
  lemma {:induction false} DescendingWalkRepeatsTie()
    ensures var table := [Row("a", "t"), Row("b", "t"), Row("c", "s")];
      && Distinct(table) && Sort(Desc, table) == table && table[1].value != table[2].value
      && multiset(FixedWalk(Desc, table, 2)) != multiset(table)
  {
    var table := [Row("a", "t"), Row("b", "t"), Row("c", "s")];
    assert Less("s", "t");
    NotBoth("s", "t");
    TiedTableIsSorted(table);
    assert TiedAt(table, 2);
    DescendingWalkIff(table, 2);
  }

  lemma {:induction false} TiedTableIsSorted(table: seq<Row>)
    requires table == [Row("a", "t"), Row("b", "t"), Row("c", "s")]
    ensures Sort(Desc, table) == table
  {
    assert Less("s", "t");
    NotBoth("s", "t");
    assert Less("a", "b");
    NotBoth("a", "b");
    SortStep(Desc, table[2], []);
    SortStep(Desc, table[1], [table[2]]);
    SortStep(Desc, table[0], [table[1], table[2]]);
    assert [table[0]] + [table[1], table[2]] == table && [table[1]] + [table[2]] == [table[1], table[2]];
    assert [table[2]] + [] == [table[2]];
  }

  /** A row that is not behind the first of sorted rows goes before them. */
  lemma {:induction false} SortStep(dir: Direction, r: Row, s: seq<Row>)
    requires Sort(dir, s) == s && (s == [] || !Before(dir, s[0], r))
    ensures Sort(dir, [r] + s) == [r] + s
  {
    assert ([r] + s)[1..] == s;
  }
}
