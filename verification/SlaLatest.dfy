/**
 SLA results: every recomputation adds a row, and one row per outage is marked as the latest.
 The reports read only those, so they agree as long as the mark is unique.
 */
module SlaLatest {
  import opened Common

  datatype Body = Body(status: string, mttr: int, amount: real, paymentType: string)

  /** A row of `sla_results`. */
  datatype Row = Row(id: nat, outage: string, body: Body, hash: Option<string>, createdAt: Time, isLatest: bool)

  /** What a caller stores: a result as computed, which may carry the id of a stored one. */
  datatype Payload = Payload(id: Option<nat>, outage: string, body: Body, hash: Option<string>)

  /** The rows in the order of their ids, and the next id. */
  datatype Table = Table(rows: seq<Row>, next: nat)

  // ---------------------------------------------------------------- writing

  /** An empty hash counts as none. */
  predicate HasHash(r: Row, outage: string, hash: Option<string>) {
    r.outage == outage && r.hash == hash && hash.Some? && hash.value != ""
  }

  predicate LatestOf(r: Row, outage: string) {
    r.outage == outage && r.isLatest
  }

  predicate Known(rows: seq<Row>, p: Payload) {
    exists i | 0 <= i < |rows| :: HasHash(rows[i], p.outage, p.hash)
  }

  function DemotedRow(r: Row, outage: string): Row {
    if r.outage == outage then r.(isLatest := false) else r
  }

  function Demoted(rows: seq<Row>, outage: string): (r: seq<Row>)
    ensures |r| == |rows|
  {
    seq(|rows|, i requires 0 <= i < |rows| => DemotedRow(rows[i], outage))
  }

  function NewRow(t: Table, p: Payload, now: Time): Row {
    Row(t.next, p.outage, p.body, p.hash, now, true)
  }

  function Create(t: Table, p: Payload, now: Time): Table {
    if Known(t.rows, p) then t
    else Table(Demoted(t.rows, p.outage) + [NewRow(t, p, now)], t.next + 1)
  }

  predicate Same(r: Row, p: Payload) {
    p == Payload(Some(r.id), r.outage, r.body, r.hash)
  }

  /** The row `get_by_outage` returns: the latest, or the newest if none is marked. */
  predicate Current(rows: seq<Row>, i: nat, outage: string) {
    && i < |rows| && rows[i].outage == outage
    && (rows[i].isLatest ||
        forall k | 0 <= k < |rows| && rows[k].outage == outage ::
          !rows[k].isLatest && rows[k].createdAt <= rows[i].createdAt)
  }

  /** `create_if_changed`, given which current row the database returned, if any. */
  function CreateIfChanged(t: Table, p: Payload, now: Time, current: Option<nat>): Table {
    if Known(t.rows, p) then t
    else if current.Some? && current.value < |t.rows| && Same(t.rows[current.value], p) then t
    else Create(t, p, now)
  }

  datatype Event = CreateEvent(p: Payload, now: Time) | ChangeEvent(p: Payload, now: Time, current: Option<nat>)

  function Step(t: Table, e: Event): Table {
    match e
    case CreateEvent(p, now) => Create(t, p, now)
    case ChangeEvent(p, now, current) => CreateIfChanged(t, p, now, current)
  }

  function Run(t: Table, es: seq<Event>): Table
    decreases |es|
  {
    if es == [] then t else Run(Step(t, es[0]), es[1..])
  }

  // ---------------------------------------------------------------- what every run keeps

  ghost predicate UniqueIds(rows: seq<Row>) {
    forall i, j | 0 <= i < j < |rows| :: rows[i].id != rows[j].id
  }

  ghost predicate OneLatest(rows: seq<Row>) {
    forall i, j | 0 <= i < j < |rows| && rows[i].isLatest && rows[j].isLatest :: rows[i].outage != rows[j].outage
  }

  ghost predicate Inv(t: Table) {
    UniqueIds(t.rows) && OneLatest(t.rows) && forall i | 0 <= i < |t.rows| :: t.rows[i].id < t.next
  }

  /** Nothing of a stored row changes but its mark. */
  ghost predicate Kept(rows: seq<Row>, rows': seq<Row>) {
    |rows| <= |rows'| && forall i | 0 <= i < |rows| :: KeptRow(rows[i], rows'[i])
  }

  predicate KeptRow(r: Row, r': Row) {
    r' == r.(isLatest := r'.isLatest)
  }

  lemma {:induction false} CreateKeepsInv(t: Table, p: Payload, now: Time)
    requires Inv(t)
    ensures Inv(Create(t, p, now)) && Kept(t.rows, Create(t, p, now).rows)
    ensures Known(Create(t, p, now).rows, p) || p.hash.None? || p.hash.value == ""
  {
    if !Known(t.rows, p) {
      var rows' := Create(t, p, now).rows;
      assert forall i | 0 <= i < |t.rows| :: rows'[i] == DemotedRow(t.rows[i], p.outage);
      assert rows'[|t.rows|] == NewRow(t, p, now);
    }
  }

  /** Storing the same result again adds nothing. */
  lemma CreateIsIdempotent(t: Table, p: Payload, now: Time, later: Time)
    requires Inv(t) && p.hash.Some? && p.hash.value != ""
    ensures Create(Create(t, p, now), p, later) == Create(t, p, now)
  {
    CreateKeepsInv(t, p, now);
  }

  lemma {:induction false} EveryRunKeepsOneLatest(t: Table, es: seq<Event>)
    requires Inv(t)
    ensures Inv(Run(t, es)) && Kept(t.rows, Run(t, es).rows)
    decreases |es|
  {
    if es != [] {
      var t' := Step(t, es[0]);
      CreateKeepsInv(t, es[0].p, es[0].now);
      EveryRunKeepsOneLatest(t', es[1..]);
      var last := Run(t, es).rows;
      forall i | 0 <= i < |t.rows| ensures KeptRow(t.rows[i], last[i]) {
        assert KeptRow(t.rows[i], t'.rows[i]) && KeptRow(t'.rows[i], last[i]);
      }
    }
  }

  /** How many rows an outage has for a hash. */
  function Copies(rows: seq<Row>, outage: string, hash: Option<string>): nat {
    if rows == [] then 0
    else Copies(rows[..|rows| - 1], outage, hash) + if HasHash(rows[|rows| - 1], outage, hash) then 1 else 0
  }

  lemma {:induction false} CopiesOfKept(rows: seq<Row>, rows': seq<Row>, outage: string, hash: Option<string>)
    requires Kept(rows, rows') && |rows| == |rows'|
    ensures Copies(rows, outage, hash) == Copies(rows', outage, hash)
  {
    if rows != [] {
      var n := |rows| - 1;
      assert KeptRow(rows[n], rows'[n]);
      CopiesOfKept(rows[..n], rows'[..n], outage, hash);
    }
  }

  lemma {:induction false} NoCopies(rows: seq<Row>, outage: string, hash: Option<string>)
    requires forall i | 0 <= i < |rows| :: !HasHash(rows[i], outage, hash)
    ensures Copies(rows, outage, hash) == 0
  {
    if rows != [] {
      NoCopies(rows[..|rows| - 1], outage, hash);
    }
  }

  lemma {:induction false} CreateAddsNoCopy(t: Table, p: Payload, now: Time, outage: string, hash: Option<string>)
    requires Inv(t)
    ensures var n, n' := Copies(t.rows, outage, hash), Copies(Create(t, p, now).rows, outage, hash);
      n' == n || (n == 0 && n' == 1)
  {
    if !Known(t.rows, p) {
      var demoted, r := Demoted(t.rows, p.outage), NewRow(t, p, now);
      assert (demoted + [r])[..|demoted|] == demoted;
      CopiesOfKept(t.rows, demoted, outage, hash);
      if HasHash(r, outage, hash) {
        NoCopies(t.rows, outage, hash);
      }
    }
  }

  /** In every run a hash is stored for an outage at most once more than never. */
  lemma {:induction false} HashIsNeverRepeated(t: Table, es: seq<Event>, outage: string, hash: Option<string>)
    requires Inv(t)
    ensures var n, n' := Copies(t.rows, outage, hash), Copies(Run(t, es).rows, outage, hash);
      n' == n || (n == 0 && n' == 1)
    decreases |es|
  {
    if es != [] {
      CreateKeepsInv(t, es[0].p, es[0].now);
      CreateAddsNoCopy(t, es[0].p, es[0].now, outage, hash);
      HashIsNeverRepeated(Step(t, es[0]), es[1..], outage, hash);
    }
  }

  // ---------------------------------------------------------------- the backfill

  /** Of the rows marked latest for its outage, the row has the highest id. */
  predicate StaysLatest(rows: seq<Row>, r: Row) {
    r.isLatest && forall k | 0 <= k < |rows| && LatestOf(rows[k], r.outage) :: rows[k].id <= r.id
  }

  function Backfilled(rows: seq<Row>): (r: seq<Row>)
    ensures |r| == |rows|
  {
    seq(|rows|, i requires 0 <= i < |rows| => rows[i].(isLatest := StaysLatest(rows, rows[i])))
  }

  lemma {:induction false} HighestLatest(rows: seq<Row>, n: nat, outage: string, some: nat) returns (top: nat)
    requires some < n <= |rows| && LatestOf(rows[some], outage)
    ensures top < n && LatestOf(rows[top], outage)
    ensures forall k | 0 <= k < n && LatestOf(rows[k], outage) :: rows[k].id <= rows[top].id
    decreases n
  {
    if some == n - 1 && forall k | 0 <= k < n - 1 :: !LatestOf(rows[k], outage) {
      top := some;
    } else {
      var other: nat :| other < n - 1 && LatestOf(rows[other], outage);
      top := HighestLatest(rows, n - 1, outage, other);
      if LatestOf(rows[n - 1], outage) && rows[n - 1].id > rows[top].id {
        top := n - 1;
      }
    }
  }

  /** The backfill turns any table into one with at most one latest row for each outage, leaves
      one wherever there was any, and touches nothing but marks. */
  lemma {:induction false} BackfillLeavesOne(rows: seq<Row>, i: nat)
    requires UniqueIds(rows)
    ensures OneLatest(Backfilled(rows)) && UniqueIds(Backfilled(rows)) && Kept(rows, Backfilled(rows))
    ensures i < |rows| && rows[i].isLatest ==>
      exists k: nat :: k < |rows| && LatestOf(Backfilled(rows)[k], rows[i].outage) && rows[k].id >= rows[i].id
  {
    if i < |rows| && rows[i].isLatest {
      var top := HighestLatest(rows, |rows|, rows[i].outage, i);
      assert StaysLatest(rows, rows[top]);
      assert LatestOf(Backfilled(rows)[top], rows[i].outage);
    }
  }

  predicate Duplicated(rows: seq<Row>, outage: string) {
    exists i, j | 0 <= i < j < |rows| :: LatestOf(rows[i], outage) && LatestOf(rows[j], outage)
  }

  function DuplicatedOutages(rows: seq<Row>): set<string> {
    set i | 0 <= i < |rows| && Duplicated(rows, rows[i].outage) :: rows[i].outage
  }

  /** One update of the migration: demote every latest row of the outage but the highest. */
  function Fixed(rows: seq<Row>, outage: string): (r: seq<Row>)
    ensures |r| == |rows|
  {
    seq(|rows|, i requires 0 <= i < |rows| =>
      if LatestOf(rows[i], outage) then rows[i].(isLatest := StaysLatest(rows, rows[i])) else rows[i])
  }

  function FixedRow(was: seq<Row>, r: Row, outages: set<string>): Row {
    if r.outage in outages then r.(isLatest := StaysLatest(was, r)) else r
  }

  /** The rows once the outages in `done` have been dealt with. */
  ghost function FixedIn(was: seq<Row>, done: set<string>): (r: seq<Row>)
    ensures |r| == |was|
  {
    seq(|was|, i requires 0 <= i < |was| => FixedRow(was, was[i], done))
  }

  lemma {:induction false} FixOne(was: seq<Row>, done: set<string>, outage: string)
    requires outage !in done
    ensures Fixed(FixedIn(was, done), outage) == FixedIn(was, done + {outage})
  {
    var rows := FixedIn(was, done);
    forall i | 0 <= i < |rows| ensures Fixed(rows, outage)[i] == FixedRow(was, was[i], done + {outage}) {
      if was[i].outage == outage {
        assert rows[i] == was[i];
        assert forall k | 0 <= k < |rows| ::
          LatestOf(rows[k], outage) == LatestOf(was[k], outage) && rows[k].id == was[k].id;
      }
    }
  }

  // ---------------------------------------------------------------- reading

  function Filter<T>(s: seq<T>, p: T -> bool): seq<T> {
    if s == [] then []
    else Filter(s[..|s| - 1], p) + if p(s[|s| - 1]) then [s[|s| - 1]] else []
  }

  lemma {:induction false} FilterSame<T>(s: seq<T>, p: T -> bool, q: T -> bool)
    requires forall i | 0 <= i < |s| :: p(s[i]) == q(s[i])
    ensures Filter(s, p) == Filter(s, q)
  {
    if s != [] {
      FilterSame(s[..|s| - 1], p, q);
    }
  }

  /** A filter keeps the length exactly if it keeps everything. */
  lemma {:induction false} FilterAll<T>(s: seq<T>, p: T -> bool)
    ensures |Filter(s, p)| <= |s|
    ensures |Filter(s, p)| == |s| <==> forall i | 0 <= i < |s| :: p(s[i])
    ensures |Filter(s, p)| == |s| ==> Filter(s, p) == s
  {
    if s != [] {
      FilterAll(s[..|s| - 1], p);
      assert s == s[..|s| - 1] + [s[|s| - 1]];
    }
  }

  /** What is kept comes from the list, in the same order. */
  lemma {:induction false} FilterFrom<T>(s: seq<T>, p: T -> bool, i: nat, j: nat) returns (a: nat, b: nat)
    requires i < j < |Filter(s, p)|
    ensures a < b < |s| && Filter(s, p)[i] == s[a] && Filter(s, p)[j] == s[b] && p(s[a]) && p(s[b])
  {
    var n := |s| - 1;
    var front := Filter(s[..n], p);
    if j < |front| {
      a, b := FilterFrom(s[..n], p, i, j);
    } else {
      a := FilterAt(s[..n], p, i);
      b := n;
    }
  }

  lemma {:induction false} FilterAt<T>(s: seq<T>, p: T -> bool, i: nat) returns (a: nat)
    requires i < |Filter(s, p)|
    ensures a < |s| && Filter(s, p)[i] == s[a] && p(s[a])
  {
    var n := |s| - 1;
    if i < |Filter(s[..n], p)| {
      a := FilterAt(s[..n], p, i);
    } else {
      a := n;
    }
  }

  datatype Outage = Outage(severity: string, site: string)

  /** The filters of a report. An empty severity or site filters nothing. */
  datatype Query = Query(since: Time, severity: Option<string>, site: Option<string>)

  predicate Given(filter: Option<string>) {
    filter.Some? && filter.value != ""
  }

  predicate Passes(filter: Option<string>, value: string) {
    Given(filter) ==> value == filter.value
  }

  /** The performance report always joins the outages. */
  predicate Joined(outages: map<string, Outage>, q: Query, r: Row) {
    && r.outage in outages
    && Passes(q.severity, outages[r.outage].severity) && Passes(q.site, outages[r.outage].site)
  }

  function PerformanceRows(rows: seq<Row>, outages: map<string, Outage>, q: Query): seq<Row> {
    Filter(rows, (r: Row) => r.createdAt >= q.since && Joined(outages, q, r) && r.isLatest)
  }

  /** The dashboard joins them only when it filters by them. */
  function DashboardRows(rows: seq<Row>, outages: map<string, Outage>, q: Query): seq<Row> {
    Filter(rows, (r: Row) =>
      r.isLatest && r.createdAt >= q.since && (Given(q.severity) || Given(q.site) ==> Joined(outages, q, r)))
  }

  /** `a` comes before `b` in the order of the row numbers. */
  predicate Before(a: Row, b: Row) {
    a.createdAt > b.createdAt || (a.createdAt == b.createdAt && a.id > b.id)
  }

  /** The row has row number one within its outage. */
  predicate FirstOfOutage(rows: seq<Row>, r: Row) {
    forall k | 0 <= k < |rows| && rows[k].outage == r.outage :: !Before(rows[k], r)
  }

  function FirstRows(rows: seq<Row>): seq<Row> {
    Filter(rows, (r: Row) => FirstOfOutage(rows, r))
  }

  datatype Totals = Totals(outages: nat, violations: nat)

  function TotalsOf(rows: seq<Row>): Totals {
    Totals(|rows|, |Filter(rows, (r: Row) => r.body.status == "violated")|)
  }

  function Performance(rows: seq<Row>, outages: map<string, Outage>, q: Query): Totals {
    TotalsOf(FirstRows(PerformanceRows(rows, outages, q)))
  }

  function Dashboard(rows: seq<Row>, outages: map<string, Outage>, q: Query): Totals {
    TotalsOf(DashboardRows(rows, outages, q))
  }

  ghost predicate ForeignKey(rows: seq<Row>, outages: map<string, Outage>) {
    forall i | 0 <= i < |rows| :: rows[i].outage in outages
  }

  lemma {:induction false} SameRowsSelected(rows: seq<Row>, outages: map<string, Outage>, q: Query)
    requires ForeignKey(rows, outages)
    ensures PerformanceRows(rows, outages, q) == DashboardRows(rows, outages, q)
  {
    FilterSame(rows,
      (r: Row) => r.createdAt >= q.since && Joined(outages, q, r) && r.isLatest,
      (r: Row) => r.isLatest && r.createdAt >= q.since &&
        (Given(q.severity) || Given(q.site) ==> Joined(outages, q, r)));
  }

  ghost predicate OnePerOutage(rows: seq<Row>) {
    forall i, j | 0 <= i < j < |rows| :: rows[i].outage != rows[j].outage
  }

  /** Taking the first row of each outage drops nothing exactly if no outage has two. */
  lemma {:induction false} FirstRowsIff(rows: seq<Row>)
    requires UniqueIds(rows)
    ensures |FirstRows(rows)| == |rows| <==> OnePerOutage(rows)
    ensures OnePerOutage(rows) ==> FirstRows(rows) == rows
  {
    FilterAll(rows, (r: Row) => FirstOfOutage(rows, r));
    if !OnePerOutage(rows) {
      var i, j :| 0 <= i < j < |rows| && rows[i].outage == rows[j].outage;
      assert rows[i].id != rows[j].id;
      assert Before(rows[i], rows[j]) || Before(rows[j], rows[i]);
      assert !FirstOfOutage(rows, rows[i]) || !FirstOfOutage(rows, rows[j]);
    } else {
      forall i | 0 <= i < |rows| ensures FirstOfOutage(rows, rows[i]) {
      }
    }
  }

  lemma {:induction false} SelectedKeepsUnique(rows: seq<Row>, p: Row -> bool)
    requires UniqueIds(rows)
    ensures UniqueIds(Filter(rows, p))
    ensures OneLatest(rows) && (forall r :: p(r) ==> r.isLatest) ==> OnePerOutage(Filter(rows, p))
  {
    var s := Filter(rows, p);
    forall i, j | 0 <= i < j < |s|
      ensures s[i].id != s[j].id
      ensures OneLatest(rows) && (forall r :: p(r) ==> r.isLatest) ==> s[i].outage != s[j].outage
    {
      var a, b := FilterFrom(rows, p, i, j);
    }
  }

  /** Both reports count the same outages exactly when no outage has two of the rows selected;
      then the violations agree as well. */
  lemma {:induction false} ReportsAgreeIff(rows: seq<Row>, outages: map<string, Outage>, q: Query)
    requires UniqueIds(rows) && ForeignKey(rows, outages)
    ensures Performance(rows, outages, q).outages == Dashboard(rows, outages, q).outages <==>
      OnePerOutage(DashboardRows(rows, outages, q))
    ensures OnePerOutage(DashboardRows(rows, outages, q)) ==>
      Performance(rows, outages, q) == Dashboard(rows, outages, q)
  {
    SameRowsSelected(rows, outages, q);
    SelectedKeepsUnique(rows, (r: Row) =>
      r.isLatest && r.createdAt >= q.since && (Given(q.severity) || Given(q.site) ==> Joined(outages, q, r)));
    FirstRowsIff(DashboardRows(rows, outages, q));
  }

  /** After the backfill, every run of writes leaves a table on which the two reports give the
      same totals for the same window and filters. */
  lemma {:induction false} ReportsAgreeAfterEveryRun(
    rows: seq<Row>, next: nat, es: seq<Event>, outages: map<string, Outage>, q: Query)
    requires UniqueIds(rows) && forall i | 0 <= i < |rows| :: rows[i].id < next
    requires ForeignKey(Run(Table(Backfilled(rows), next), es).rows, outages)
    ensures var t := Run(Table(Backfilled(rows), next), es);
      OneLatest(t.rows) && Performance(t.rows, outages, q) == Dashboard(t.rows, outages, q)
  {
    BackfillLeavesOne(rows, 0);
    EveryRunKeepsOneLatest(Table(Backfilled(rows), next), es);
    var t := Run(Table(Backfilled(rows), next), es);
    SelectedKeepsUnique(t.rows, (r: Row) =>
      r.isLatest && r.createdAt >= q.since && (Given(q.severity) || Given(q.site) ==> Joined(outages, q, r)));
    ReportsAgreeIff(t.rows, outages, q);
  }

  // ---------------------------------------------------------------- the repository

  class SlaRepository {
    var rows: seq<Row>
    var next: nat

    ghost function Contents(): Table
      reads this
    {
      Table(rows, next)
    }

    constructor ()
      ensures Contents() == Table([], 0) && Inv(Contents())
    {
      rows, next := [], 0;
    }

    /** Returns the stored row: the one with the hash if there is one, otherwise the new row,
        which is the latest of its outage. */
    method Store(p: Payload, now: Time) returns (r: Row)
      requires Inv(Contents())
      modifies this
      ensures Contents() == Create(old(Contents()), p, now) && Inv(Contents())
      ensures r in rows && r.outage == p.outage && r.hash == p.hash
      ensures !Known(old(rows), p) ==> r.isLatest && r.body == p.body
    {
      CreateKeepsInv(Contents(), p, now);
      if i: nat :| i < |rows| && HasHash(rows[i], p.outage, p.hash) {
        return rows[i];
      }
      if exists i | 0 <= i < |rows| :: LatestOf(rows[i], p.outage) {
        rows := Demoted(rows, p.outage);
      } else {
        assert Demoted(rows, p.outage) == rows;
      }
      r := Row(next, p.outage, p.body, p.hash, now, true);
      rows := rows + [r];
      next := next + 1;
    }

    /** Returns the current row if the payload is that row over again. */
    method StoreIfChanged(p: Payload, now: Time) returns (r: Row, ghost current: Option<nat>)
      requires Inv(Contents())
      modifies this
      ensures Contents() == CreateIfChanged(old(Contents()), p, now, current) && Inv(Contents())
      ensures current.Some? ==> Current(old(rows), current.value, p.outage)
      ensures current.None? ==> forall i | 0 <= i < |old(rows)| :: old(rows)[i].outage != p.outage
      ensures r in rows && r.outage == p.outage && r.hash == p.hash
    {
      if i: nat :| i < |rows| && HasHash(rows[i], p.outage, p.hash) {
        current := CurrentExists(rows, p.outage, |rows|);
        return rows[i], current;
      }
      if i: nat :| i < |rows| && Current(rows, i, p.outage) {
        current := Some(i);
        if Same(rows[i], p) {
          return rows[i], current;
        }
      } else {
        current := CurrentExists(rows, p.outage, |rows|);
      }
      r := Store(p, now);
    }

    /** The migration. It deals with the duplicated outages in whatever order they come. */
    method Backfill()
      requires UniqueIds(rows)
      modifies this`rows
      ensures rows == Backfilled(old(rows)) && OneLatest(rows)
    {
      BackfillLeavesOne(rows, 0);
      FixEach(DuplicatedOutages(rows));
    }

    method FixEach(outages: set<string>)
      modifies this`rows
      ensures rows == FixedIn(old(rows), outages)
    {
      ghost var was, done := rows, {};
      assert FixedIn(was, {}) == was;
      var todo := outages;
      while todo != {}
        invariant rows == FixedIn(was, done) && done + todo == outages && done !! todo
        decreases |todo|
      {
        var outage :| outage in todo;
        FixOne(was, done, outage);
        rows := Fixed(rows, outage);
        done := done + {outage};
        todo := todo - {outage};
      }
      assert done == outages;
    }
  }

  /** An outage with rows has a current one. */
  lemma {:induction false} CurrentExists(rows: seq<Row>, outage: string, n: nat) returns (current: Option<nat>)
    requires n == |rows|
    ensures current.Some? ==> Current(rows, current.value, outage)
    ensures current.None? ==> forall i | 0 <= i < |rows| :: rows[i].outage != outage
  {
    if i: nat :| i < n && LatestOf(rows[i], outage) {
      current := Some(i);
    } else {
      assert forall k | 0 <= k < n :: !LatestOf(rows[k], outage);
      current := NewestOf(rows, outage, n);
    }
  }

  lemma {:induction false} NewestOf(rows: seq<Row>, outage: string, n: nat) returns (top: Option<nat>)
    requires n <= |rows|
    ensures top.Some? ==>
      && top.value < n && rows[top.value].outage == outage
      && forall k | 0 <= k < n && rows[k].outage == outage :: rows[k].createdAt <= rows[top.value].createdAt
    ensures top.None? ==> forall k | 0 <= k < n :: rows[k].outage != outage
  {
    if n == 0 {
      top := None;
    } else {
      top := NewestOf(rows, outage, n - 1);
      if rows[n - 1].outage == outage && (top.None? || rows[n - 1].createdAt > rows[top.value].createdAt) {
        top := Some(n - 1);
      }
    }
  }
}
