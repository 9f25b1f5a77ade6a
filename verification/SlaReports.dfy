/**
 What the two SLA reports count, in terms of the table alone, and what one write does to it.
 */
module SlaReports {
  import opened Common
  import opened SlaLatest

  // ---------------------------------------------------------------- one write

  /** A result with a hash of its outage that is stored already adds nothing. Any other becomes
      the last row, with the next id and the time of the write, as the only latest row of its
      outage; every other row stays as it is. */
  lemma {:induction false} CreateAddsTheLatest(t: Table, p: Payload, now: Time)
    ensures var t' := Create(t, p, now);
      var known := p.hash.Some? && p.hash.value != "" &&
        exists i :: 0 <= i < |t.rows| && t.rows[i].outage == p.outage && t.rows[i].hash == p.hash;
      && (known ==> t' == t)
      && (!known ==>
            && |t'.rows| == |t.rows| + 1 && t'.next == t.next + 1
            && t'.rows[|t.rows|] == Row(t.next, p.outage, p.body, p.hash, now, true)
            && forall i | 0 <= i < |t.rows| ::
                 t'.rows[i] == if t.rows[i].outage == p.outage then t.rows[i].(isLatest := false) else t.rows[i])
  {
    var known := p.hash.Some? && p.hash.value != "" &&
      exists i :: 0 <= i < |t.rows| && t.rows[i].outage == p.outage && t.rows[i].hash == p.hash;
    if known {
      var i :| 0 <= i < |t.rows| && t.rows[i].outage == p.outage && t.rows[i].hash == p.hash;
      assert HasHash(t.rows[i], p.outage, p.hash);
    } else {
      assert !Known(t.rows, p);
    }
  }

  /** `create_if_changed` leaves the table as it is exactly when the hash is stored already or the
      current row is the payload in every field, its id included; otherwise it is `create`. */
  lemma {:induction false} ChangeAddsUnlessSame(t: Table, p: Payload, now: Time, current: Option<nat>)
    ensures var known := p.hash.Some? && p.hash.value != "" &&
        exists i :: 0 <= i < |t.rows| && t.rows[i].outage == p.outage && t.rows[i].hash == p.hash;
      var same := current.Some? && current.value < |t.rows| && var r := t.rows[current.value];
        p.id == Some(r.id) && p.outage == r.outage && p.body == r.body && p.hash == r.hash;
      && (CreateIfChanged(t, p, now, current) == t <==> known || same)
      && (CreateIfChanged(t, p, now, current) != t ==> CreateIfChanged(t, p, now, current) == Create(t, p, now))
  {
    CreateAddsTheLatest(t, p, now);
    if i :| 0 <= i < |t.rows| && t.rows[i].outage == p.outage && t.rows[i].hash == p.hash {
      assert p.hash.Some? && p.hash.value != "" ==> HasHash(t.rows[i], p.outage, p.hash);
    }
  }

  /** The current row is the latest of the outage where one is marked, and otherwise one of its
      newest. */
  lemma {:induction false} CurrentMeans(rows: seq<Row>, i: nat, outage: string)
    requires i < |rows| && rows[i].outage == outage
    ensures (exists k :: 0 <= k < |rows| && rows[k].outage == outage && rows[k].isLatest) ==>
      (Current(rows, i, outage) <==> rows[i].isLatest)
    ensures (forall k | 0 <= k < |rows| && rows[k].outage == outage :: !rows[k].isLatest) ==>
      (Current(rows, i, outage) <==>
        forall k | 0 <= k < |rows| && rows[k].outage == outage :: rows[k].createdAt <= rows[i].createdAt)
  {
  }

  /** The backfill leaves a mark exactly where there was one and no marked row of the same outage
      has a higher id. */
  lemma {:induction false} BackfillKeepsTheHighest(rows: seq<Row>, i: nat)
    requires i < |rows|
    ensures Backfilled(rows)[i].isLatest <==>
      rows[i].isLatest &&
      forall k | 0 <= k < |rows| && rows[k].outage == rows[i].outage && rows[k].isLatest :: rows[k].id <= rows[i].id
  {
    if rows[i].isLatest && !Backfilled(rows)[i].isLatest {
      var k :| 0 <= k < |rows| && LatestOf(rows[k], rows[i].outage) && rows[k].id > rows[i].id;
    }
    if Backfilled(rows)[i].isLatest {
      forall k | 0 <= k < |rows| && rows[k].outage == rows[i].outage && rows[k].isLatest
        ensures rows[k].id <= rows[i].id
      {
        assert LatestOf(rows[k], rows[i].outage);
      }
    }
  }

  // ---------------------------------------------------------------- counting

  function OutagesOf(rows: seq<Row>): set<string> {
    set i | 0 <= i < |rows| :: rows[i].outage
  }

  lemma {:induction false} OutagesCount(rows: seq<Row>)
    requires OnePerOutage(rows)
    ensures |OutagesOf(rows)| == |rows|
  {
    if rows != [] {
      var n := |rows| - 1;
      OutagesCount(rows[..n]);
      assert rows[n].outage !in OutagesOf(rows[..n]);
      assert OutagesOf(rows) == OutagesOf(rows[..n]) + {rows[n].outage} by {
        assert rows == rows[..n] + [rows[n]];
      }
    }
  }

  /** The places of the rows that satisfy a condition. */
  ghost function Places(rows: seq<Row>, p: Row -> bool): set<int> {
    set i | 0 <= i < |rows| && p(rows[i])
  }

  lemma {:induction false} FilterCount(rows: seq<Row>, p: Row -> bool)
    ensures |Filter(rows, p)| == |Places(rows, p)|
  {
    if rows != [] {
      var n := |rows| - 1;
      FilterCount(rows[..n], p);
      var before := Places(rows[..n], p);
      assert n !in before;
      assert Places(rows, p) == if p(rows[n]) then before + {n} else before;
    } else {
      assert Places(rows, p) == {};
    }
  }

  lemma {:induction false} FilterHas(rows: seq<Row>, p: Row -> bool, i: nat) returns (j: nat)
    requires i < |rows| && p(rows[i])
    ensures j < |Filter(rows, p)| && Filter(rows, p)[j] == rows[i]
  {
    var n := |rows| - 1;
    if i == n {
      j := |Filter(rows[..n], p)|;
    } else {
      j := FilterHas(rows[..n], p, i);
    }
  }

  lemma {:induction false} FilterOutages(rows: seq<Row>, p: Row -> bool)
    ensures OutagesOf(Filter(rows, p)) == set i | 0 <= i < |rows| && p(rows[i]) :: rows[i].outage
  {
    var all := set i | 0 <= i < |rows| && p(rows[i]) :: rows[i].outage;
    forall o | o in OutagesOf(Filter(rows, p)) ensures o in all {
      var i: nat :| i < |Filter(rows, p)| && Filter(rows, p)[i].outage == o;
      var a := FilterAt(rows, p, i);
    }
    forall o | o in all ensures o in OutagesOf(Filter(rows, p)) {
      var i: nat :| i < |rows| && p(rows[i]) && rows[i].outage == o;
      var j := FilterHas(rows, p, i);
    }
  }

  lemma {:induction false} FilterOnePerOutage(rows: seq<Row>, p: Row -> bool)
    requires OnePerOutage(rows)
    ensures OnePerOutage(Filter(rows, p))
  {
    var s := Filter(rows, p);
    forall i, j | 0 <= i < j < |s| ensures s[i].outage != s[j].outage {
      var a, b := FilterFrom(rows, p, i, j);
    }
  }

  // ---------------------------------------------------------------- the performance report

  /** The row is the latest of its outage, was stored in the window, and its outage exists and
      has the severity and the site asked for, where one is. */
  predicate Reported(outages: map<string, Outage>, q: Query, r: Row) {
    && r.isLatest && q.since <= r.createdAt && r.outage in outages
    && (q.severity == None || q.severity == Some("") || q.severity == Some(outages[r.outage].severity))
    && (q.site == None || q.site == Some("") || q.site == Some(outages[r.outage].site))
  }

  /** No reported row of the same outage is newer; of equal times the higher id counts. */
  ghost predicate Newest(rows: seq<Row>, outages: map<string, Outage>, q: Query, r: Row) {
    forall k | 0 <= k < |rows| && Reported(outages, q, rows[k]) && rows[k].outage == r.outage ::
      rows[k].createdAt < r.createdAt || (rows[k].createdAt == r.createdAt && rows[k].id <= r.id)
  }

  lemma {:induction false} PerformanceRowsAre(rows: seq<Row>, outages: map<string, Outage>, q: Query)
    ensures PerformanceRows(rows, outages, q) == Filter(rows, (r: Row) => Reported(outages, q, r))
  {
    FilterSame(rows,
      (r: Row) => r.createdAt >= q.since && Joined(outages, q, r) && r.isLatest,
      (r: Row) => Reported(outages, q, r));
  }

  /** Among selected rows each outage has exactly one row number one. */
  lemma {:induction false} FirstRowsOnePerOutage(rows: seq<Row>)
    requires UniqueIds(rows)
    ensures OnePerOutage(FirstRows(rows)) && OutagesOf(FirstRows(rows)) == OutagesOf(rows)
  {
    var p := (r: Row) => FirstOfOutage(rows, r);
    var s := FirstRows(rows);
    forall i, j | 0 <= i < j < |s| ensures s[i].outage != s[j].outage {
      var a, b := FilterFrom(rows, p, i, j);
      assert FirstOfOutage(rows, rows[a]) && FirstOfOutage(rows, rows[b]) && rows[a].id != rows[b].id;
    }
    FilterOutages(rows, p);
    forall o | o in OutagesOf(rows) ensures o in OutagesOf(s) {
      var some: nat :| some < |rows| && rows[some].outage == o;
      var top := NewestRow(rows, |rows|, o, some);
    }
  }

  lemma {:induction false} NewestRow(rows: seq<Row>, n: nat, outage: string, some: nat) returns (top: nat)
    requires some < n <= |rows| && rows[some].outage == outage
    ensures top < n && rows[top].outage == outage
    ensures forall k | 0 <= k < n && rows[k].outage == outage :: !Before(rows[k], rows[top])
    decreases n
  {
    if exists other :: 0 <= other < n - 1 && rows[other].outage == outage {
      var other: nat :| other < n - 1 && rows[other].outage == outage;
      top := NewestRow(rows, n - 1, outage, other);
      if rows[n - 1].outage == outage && Before(rows[n - 1], rows[top]) {
        top := n - 1;
      }
    } else {
      top := some;
    }
  }

  /** On any table, the performance report counts the outages that have a reported row, and as
      violations those whose newest reported row has the status "violated". */
  lemma {:induction false} PerformanceCounts(rows: seq<Row>, outages: map<string, Outage>, q: Query)
    requires UniqueIds(rows)
    ensures Performance(rows, outages, q).outages ==
      |set i | 0 <= i < |rows| && Reported(outages, q, rows[i]) :: rows[i].outage|
    ensures Performance(rows, outages, q).violations ==
      |set i | 0 <= i < |rows| && Reported(outages, q, rows[i]) && Newest(rows, outages, q, rows[i])
                 && rows[i].body.status == "violated" :: rows[i].outage|
  {
    var p := (r: Row) => Reported(outages, q, r);
    var sel := PerformanceRows(rows, outages, q);
    PerformanceRowsAre(rows, outages, q);
    SelectedKeepsUnique(rows, p);
    FirstRowsOnePerOutage(sel);
    OutagesCount(FirstRows(sel));
    FilterOutages(rows, p);
    assert OutagesOf(sel) == set i | 0 <= i < |rows| && Reported(outages, q, rows[i]) :: rows[i].outage;
    var v := (r: Row) => r.body.status == "violated";
    var violated := Filter(FirstRows(sel), v);
    FilterOnePerOutage(FirstRows(sel), v);
    OutagesCount(violated);
    ViolatedOutages(rows, outages, q, sel, violated);
  }

  lemma {:induction false} ViolatedOutages(
    rows: seq<Row>, outages: map<string, Outage>, q: Query, sel: seq<Row>, violated: seq<Row>)
    requires sel == Filter(rows, (r: Row) => Reported(outages, q, r))
    requires violated == Filter(FirstRows(sel), (r: Row) => r.body.status == "violated")
    ensures OutagesOf(violated) ==
      set i | 0 <= i < |rows| && Reported(outages, q, rows[i]) && Newest(rows, outages, q, rows[i])
                && rows[i].body.status == "violated" :: rows[i].outage
  {
    var all := set i | 0 <= i < |rows| && Reported(outages, q, rows[i]) && Newest(rows, outages, q, rows[i])
                         && rows[i].body.status == "violated" :: rows[i].outage;
    var p := (r: Row) => Reported(outages, q, r);
    var f := (r: Row) => FirstOfOutage(sel, r);
    var v := (r: Row) => r.body.status == "violated";
    forall o | o in OutagesOf(violated) ensures o in all {
      var i: nat :| i < |violated| && violated[i].outage == o;
      var a := FilterAt(FirstRows(sel), v, i);
      var b := FilterAt(sel, f, a);
      var c := FilterAt(rows, p, b);
      FirstIsNewest(rows, outages, q, sel, rows[c]);
    }
    forall o | o in all ensures o in OutagesOf(violated) {
      var i: nat :| i < |rows| && Reported(outages, q, rows[i]) && Newest(rows, outages, q, rows[i])
        && rows[i].body.status == "violated" && rows[i].outage == o;
      var a := FilterHas(rows, p, i);
      FirstIsNewest(rows, outages, q, sel, rows[i]);
      var b := FilterHas(sel, f, a);
      var c := FilterHas(FirstRows(sel), v, b);
    }
  }

  lemma {:induction false} FirstIsNewest(
    rows: seq<Row>, outages: map<string, Outage>, q: Query, sel: seq<Row>, r: Row)
    requires sel == Filter(rows, (r: Row) => Reported(outages, q, r))
    ensures FirstOfOutage(sel, r) <==> Newest(rows, outages, q, r)
  {
    var p := (r: Row) => Reported(outages, q, r);
    if FirstOfOutage(sel, r) {
      forall k | 0 <= k < |rows| && Reported(outages, q, rows[k]) && rows[k].outage == r.outage
        ensures rows[k].createdAt < r.createdAt || (rows[k].createdAt == r.createdAt && rows[k].id <= r.id)
      {
        var j := FilterHas(rows, p, k);
        assert !Before(sel[j], r);
      }
    }
    if Newest(rows, outages, q, r) {
      forall k | 0 <= k < |sel| && sel[k].outage == r.outage ensures !Before(sel[k], r) {
        var j := FilterAt(rows, p, k);
      }
    }
  }

  // ---------------------------------------------------------------- the dashboard

  /** On any table whose rows belong to outages, the dashboard counts the reported rows, and as
      violations those with the status "violated". */
  lemma {:induction false} DashboardCounts(rows: seq<Row>, outages: map<string, Outage>, q: Query)
    requires ForeignKey(rows, outages)
    ensures Dashboard(rows, outages, q).outages == |set i | 0 <= i < |rows| && Reported(outages, q, rows[i])|
    ensures Dashboard(rows, outages, q).violations ==
      |set i | 0 <= i < |rows| && Reported(outages, q, rows[i]) && rows[i].body.status == "violated"|
  {
    var p := (r: Row) => Reported(outages, q, r);
    var v := (r: Row) => r.body.status == "violated";
    var both := (r: Row) => Reported(outages, q, r) && r.body.status == "violated";
    SameRowsSelected(rows, outages, q);
    PerformanceRowsAre(rows, outages, q);
    FilterCount(rows, p);
    assert Places(rows, p) == set i | 0 <= i < |rows| && Reported(outages, q, rows[i]);
    FilterTwice(rows, p, v, both);
    FilterCount(rows, both);
    assert Places(rows, both) ==
      set i | 0 <= i < |rows| && Reported(outages, q, rows[i]) && rows[i].body.status == "violated";
  }

  lemma {:induction false} FilterTwice(rows: seq<Row>, p: Row -> bool, v: Row -> bool, both: Row -> bool)
    requires forall r :: both(r) == (p(r) && v(r))
    ensures Filter(Filter(rows, p), v) == Filter(rows, both)
  {
    if rows != [] {
      var n := |rows| - 1;
      FilterTwice(rows[..n], p, v, both);
      var front := Filter(rows[..n], p);
      if p(rows[n]) {
        assert Filter(rows, p) == front + [rows[n]];
        assert (front + [rows[n]])[..|front|] == front;
      } else {
        assert Filter(rows, p) == front;
      }
    }
  }

  /** After the backfill and any run of writes, both reports count the outages whose latest row
      was stored in the window and that pass the filters, and as violations those of them whose
      latest row has the status "violated". */
  lemma {:induction false} ReportsCountOutages(
    rows: seq<Row>, next: nat, es: seq<Event>, outages: map<string, Outage>, q: Query)
    requires UniqueIds(rows) && forall i | 0 <= i < |rows| :: rows[i].id < next
    requires ForeignKey(Run(Table(Backfilled(rows), next), es).rows, outages)
    ensures var s := Run(Table(Backfilled(rows), next), es).rows;
      var counted := set i | 0 <= i < |s| && Reported(outages, q, s[i]) :: s[i].outage;
      var violated :=
        set i | 0 <= i < |s| && Reported(outages, q, s[i]) && s[i].body.status == "violated" :: s[i].outage;
      && Performance(s, outages, q) == Totals(|counted|, |violated|)
      && Dashboard(s, outages, q) == Totals(|counted|, |violated|)
  {
    ReportsAgreeAfterEveryRun(rows, next, es, outages, q);
    BackfillLeavesOne(rows, 0);
    EveryRunKeepsOneLatest(Table(Backfilled(rows), next), es);
    var s := Run(Table(Backfilled(rows), next), es).rows;
    PerformanceCounts(s, outages, q);
    LatestIsNewest(s, outages, q);
  }

  lemma {:induction false} LatestIsNewest(rows: seq<Row>, outages: map<string, Outage>, q: Query)
    requires OneLatest(rows)
    ensures
      (set i | 0 <= i < |rows| && Reported(outages, q, rows[i]) && Newest(rows, outages, q, rows[i])
                 && rows[i].body.status == "violated" :: rows[i].outage)
      == (set i | 0 <= i < |rows| && Reported(outages, q, rows[i])
                 && rows[i].body.status == "violated" :: rows[i].outage)
  {
    forall i | 0 <= i < |rows| && Reported(outages, q, rows[i]) ensures Newest(rows, outages, q, rows[i]) {
      forall k | 0 <= k < |rows| && Reported(outages, q, rows[k]) && rows[k].outage == rows[i].outage ensures k == i {
      }
    }
  }
}
