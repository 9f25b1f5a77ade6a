/**
 What becomes of deliveries in the long run: which of them can still be attempted, and when the
 sweep can still reach a retry.
 */
module DeliveryFate {
  import opened Common
  import opened Delivery

  // ---------------------------------------------------------------- which can be attempted

  /** After the run, worker `w` can claim the delivery. */
  ghost predicate ClaimedAfter(delays: nat, s: System, es: seq<Event>, w: Worker, d: Id) {
    Claims(Run(delays, s, es), Claim(w, d), d)
  }

  /** Some continuation attempts the delivery. */
  ghost predicate Attempted(delays: nat, s: System, d: Id) {
    exists es, w :: ClaimedAfter(delays, s, es, w, d)
  }

  ghost predicate Held(s: System, d: Id) {
    exists w :: w in s.holding && s.holding[w] == d
  }

  /** The delivery waits, can be replayed, or is with a worker that may still report. */
  ghost predicate Live(s: System, d: Id)
    requires d in s.rows
  {
    var r := s.rows[d];
    Claimable(r) || r.status.DeadLetter? || (r.status.Sending? && Held(s, d))
  }

  lemma {:induction false} RunKeepsInv(delays: nat, s: System, es: seq<Event>)
    requires Inv(delays, s)
    ensures Inv(delays, Run(delays, s, es))
  {
    if es != [] {
      RunKeepsInv(delays, s, es[..|es| - 1]);
      StepKeepsInv(delays, Run(delays, s, es[..|es| - 1]), es[|es| - 1]);
    }
  }

  /** A row that is not live stays as it is in every run. */
  lemma {:induction false} DeadStaysDead(delays: nat, s: System, es: seq<Event>, d: Id)
    requires Inv(delays, s) && d in s.rows && !Live(s, d)
    ensures var s' := Run(delays, s, es); d in s'.rows && s'.rows[d] == s.rows[d] && !Live(s', d)
  {
    if es != [] {
      DeadStaysDead(delays, s, es[..|es| - 1], d);
      RunKeepsInv(delays, s, es[..|es| - 1]);
    }
  }

  lemma {:induction false} RunTwo(delays: nat, s: System, a: Event, b: Event)
    ensures Run(delays, s, [a]) == Step(delays, s, a)
    ensures Run(delays, s, [a, b]) == Step(delays, Step(delays, s, a), b)
  {
    assert [a, b][..1] == [a] && [a][..0] == [];
  }

  lemma {:induction false} LiveIsAttempted(delays: nat, s: System, d: Id)
    requires d in s.rows && Live(s, d)
    ensures Attempted(delays, s, d)
  {
    var r := s.rows[d];
    if Claimable(r) {
      RunTwo(delays, s, Crash(0), Crash(0));
      assert ClaimedAfter(delays, s, [Crash(0)], 0, d);
    } else if r.status.DeadLetter? {
      RunTwo(delays, s, Replay(d), Crash(0));
      assert ClaimedAfter(delays, s, [Replay(d), Crash(0)], 0, d);
    } else {
      var w :| w in s.holding && s.holding[w] == d;
      RunTwo(delays, s, Report(w, Refused(0.0)), Replay(d));
      var s' := Step(delays, s, Report(w, Refused(0.0)));
      if Claimable(s'.rows[d]) {
        assert ClaimedAfter(delays, s, [Report(w, Refused(0.0))], w, d);
      } else {
        assert ClaimedAfter(delays, s, [Report(w, Refused(0.0)), Replay(d)], w, d);
      }
    }
  }

  /** A delivery can still be attempted if and only if it is waiting, is a dead letter, or is
      being sent by a worker that has not crashed. So success is final, but so is BREAKER_OPEN,
      and so is SENDING once the worker is gone. */
  lemma {:induction false} AttemptedIff(delays: nat, s: System, d: Id)
    requires Inv(delays, s) && d in s.rows
    ensures Attempted(delays, s, d) <==> Live(s, d)
  {
    if Live(s, d) {
      LiveIsAttempted(delays, s, d);
    } else {
      forall es, w ensures !ClaimedAfter(delays, s, es, w, d) {
        DeadStaysDead(delays, s, es, d);
      }
    }
  }

  // ---------------------------------------------------------------- a sweep full of deferred rows

  /** The rows in BREAKER_OPEN that are due by `t`. */
  ghost function DeferredBy(s: System, t: Time): set<Id> {
    set d | d in s.rows && s.rows[d].status.BreakerOpen? && s.rows[d].due.Some? && s.rows[d].due.value <= t
  }

  /** A delivery is refused once and deferred by the breaker when it is tried again. */
  function Deferral(d: Id, t: Time): seq<Event> {
    Dispatch(0, d, Refused(t)) + Dispatch(0, d, Deferred)
  }

  function Deferrals(n: nat, t: Time): seq<Event> {
    if n == 0 then [] else Deferrals(n - 1, t) + ([Create(n - 1, 3)] + Deferral(n - 1, t))
  }

  function DeferredRows(n: nat, t: Time): (rows: map<Id, Row>)
    ensures forall d | d in rows :: d < n && rows[d] == Row(BreakerOpen, 2, 3, Some(t))
  {
    if n == 0 then map[] else DeferredRows(n - 1, t)[n - 1 := Row(BreakerOpen, 2, 3, Some(t))]
  }

  lemma {:induction false} DispatchOutcome(delays: nat, rows: map<Id, Row>, d: Id, outcome: Outcome)
    requires d in rows && Claimable(rows[d])
    ensures Run(delays, System(rows, map[]), Dispatch(0, d, outcome)) ==
      System(rows[d := FinishRow(delays, ClaimRow(rows[d]), outcome)], map[])
  {
    var s := System(rows, map[]);
    assert Dispatch(0, d, outcome) == [Claim(0, d), Report(0, outcome)];
    RunTwo(delays, s, Claim(0, d), Report(0, outcome));
    assert Step(delays, s, Claim(0, d)) == System(rows[d := ClaimRow(rows[d])], map[0 := d]);
    assert map[0 := d] - {0} == map[];
    assert rows[d := ClaimRow(rows[d])][d := FinishRow(delays, ClaimRow(rows[d]), outcome)] ==
      rows[d := FinishRow(delays, ClaimRow(rows[d]), outcome)];
  }

  lemma {:induction false} DeferralOutcome(delays: nat, rows: map<Id, Row>, d: Id, t: Time)
    requires delays >= 1 && d !in rows
    ensures Run(delays, System(rows, map[]), [Create(d, 3)] + Deferral(d, t)) ==
      System(rows[d := Row(BreakerOpen, 2, 3, Some(t))], map[])
  {
    var s := System(rows, map[]);
    var r0, r1 := Row(Pending, 0, 3, None), Row(Retrying, 1, 3, Some(t));
    RunConcat(delays, s, [Create(d, 3)], Deferral(d, t));
    RunTwo(delays, s, Create(d, 3), Crash(0));
    RunConcat(delays, System(rows[d := r0], map[]), Dispatch(0, d, Refused(t)), Dispatch(0, d, Deferred));
    DispatchOutcome(delays, rows[d := r0], d, Refused(t));
    assert rows[d := r0][d := r1] == rows[d := r1];
    DispatchOutcome(delays, rows[d := r1], d, Deferred);
    assert rows[d := r1][d := Row(BreakerOpen, 2, 3, Some(t))] == rows[d := Row(BreakerOpen, 2, 3, Some(t))];
  }

  lemma {:induction false} DeferralsOutcome(delays: nat, n: nat, t: Time)
    requires delays >= 1
    ensures Run(delays, EMPTY, Deferrals(n, t)) == System(DeferredRows(n, t), map[])
  {
    if n > 0 {
      DeferralsOutcome(delays, n - 1, t);
      RunConcat(delays, EMPTY, Deferrals(n - 1, t), [Create(n - 1, 3)] + Deferral(n - 1, t));
      DeferralOutcome(delays, DeferredRows(n - 1, t), n - 1, t);
    }
  }

  lemma {:induction false} DeferredCount(n: nat, t: Time)
    ensures DeferredBy(System(DeferredRows(n, t), map[]), t) == DeferredRows(n, t).Keys
    ensures |DeferredRows(n, t).Keys| == n
  {
    if n > 0 {
      DeferredCount(n - 1, t);
      assert DeferredRows(n, t).Keys == DeferredRows(n - 1, t).Keys + {n - 1};
    }
  }

  /** For every batch size there is a run that leaves a whole batch of deferred rows due, and
      none of these deliveries is ever attempted again. */
  lemma {:induction false} DeferredBatchIsReached(delays: nat, batch: nat, t: Time)
    requires delays >= 1
    ensures var s := Run(delays, EMPTY, Deferrals(batch, t));
      Inv(delays, s) && |DeferredBy(s, t)| == batch && forall d | d in DeferredBy(s, t) :: !Attempted(delays, s, d)
  {
    var s := Run(delays, EMPTY, Deferrals(batch, t));
    DeferralsOutcome(delays, batch, t);
    EveryRunIsSafe(delays, Deferrals(batch, t));
    DeferredCount(batch, t);
    forall d | d in DeferredBy(s, t) ensures !Attempted(delays, s, d) {
      AttemptedIff(delays, s, d);
    }
  }

  // ---------------------------------------------------------------- when a later retry is swept

  /** After the run a sweep selects, as number `i` of its list, a retry that fell due after `t`. */
  ghost predicate LateSweep(
    delays: nat, s: System, es: seq<Event>, now: Time, batch: nat, due: seq<Id>, i: nat, t: Time)
  {
    var rows := Run(delays, s, es).rows;
    && DueList(rows, now, batch, due) && i < |due|
    && rows[due[i]].status.Retrying? && rows[due[i]].due.value > t
  }

  /** Some continuation sweeps a retry that fell due after `t`. */
  ghost predicate LaterRetrySwept(delays: nat, s: System, batch: nat, t: Time) {
    exists es, now, due, i: nat :: LateSweep(delays, s, es, now, batch, due, i, t)
  }

  lemma {:induction false} FullBatchBlocks(
    delays: nat, s: System, es: seq<Event>, now: Time, batch: nat, due: seq<Id>, i: nat, t: Time)
    requires Inv(delays, s) && LateSweep(delays, s, es, now, batch, due, i, t)
    ensures delays >= 1 && |DeferredBy(s, t)| < batch
  {
    RunKeepsInv(delays, s, es);
    var rows := Run(delays, s, es).rows;
    assert Eligible(rows[due[i]], now);
    assert RowInv(delays, rows[due[i]]);
    if |DeferredBy(s, t)| >= batch {
      DeferredRowsBlockTheSweep(delays, s, es, DeferredBy(s, t), t, now, batch, due, i);
    }
  }

  /** The retries due by `t`. */
  ghost function EarlyRetries(s: System, t: Time): set<Id> {
    set d | d in s.rows && s.rows[d].status.Retrying? && s.rows[d].due.Some? && s.rows[d].due.value <= t
  }

  /** Nothing became due and no row entered BREAKER_OPEN. */
  ghost predicate OnlyDelivered(rows: map<Id, Row>, rows': map<Id, Row>) {
    && rows'.Keys == rows.Keys
    && forall d | d in rows :: rows'[d] == rows[d] || (rows'[d].status.Success? && rows'[d].due.None?)
  }

  lemma {:induction false} DeliverOne(delays: nat, s: System, d: Id)
    requires d in s.rows && s.rows[d].status.Retrying?
    ensures var s' := Run(delays, s, [Crash(0)] + Dispatch(0, d, Delivered));
      s'.rows == s.rows[d := s.rows[d].(status := Success, attempts := s.rows[d].attempts + 1, due := None)]
  {
    var s1 := Step(delays, s, Crash(0));
    RunConcat(delays, s, [Crash(0)], Dispatch(0, d, Delivered));
    RunTwo(delays, s, Crash(0), Crash(0));
    assert Dispatch(0, d, Delivered) == [Claim(0, d), Report(0, Delivered)];
    RunTwo(delays, s1, Claim(0, d), Report(0, Delivered));
    var r := s.rows[d].(status := Success, attempts := s.rows[d].attempts + 1, due := None);
    assert s.rows[d := ClaimRow(s.rows[d])][d := r] == s.rows[d := r];
  }

  /** The retries due by `t` can all be delivered. */
  lemma {:induction false} ClearEarlier(delays: nat, s: System, t: Time) returns (es: seq<Event>)
    ensures OnlyDelivered(s.rows, Run(delays, s, es).rows) && EarlyRetries(Run(delays, s, es), t) == {}
    decreases |EarlyRetries(s, t)|
  {
    if |EarlyRetries(s, t)| == 0 {
      es := [];
      assert EarlyRetries(s, t) == {};
    } else {
      var d :| d in EarlyRetries(s, t);
      var first := [Crash(0)] + Dispatch(0, d, Delivered);
      var s' := Run(delays, s, first);
      DeliverOne(delays, s, d);
      assert EarlyRetries(s', t) == EarlyRetries(s, t) - {d};
      var rest := ClearEarlier(delays, s', t);
      RunConcat(delays, s, first, rest);
      es := first + rest;
    }
  }

  lemma {:induction false} FreshId(ids: set<Id>) returns (unused: Id)
    ensures forall d | d in ids :: d < unused
  {
    if |ids| == 0 {
      unused := 0;
      assert ids == {};
    } else {
      var d :| d in ids;
      var other := FreshId(ids - {d});
      unused := if d < other then other else d + 1;
      forall x | x in ids ensures x < unused {
        assert x == d || x in ids - {d};
      }
    }
  }

  /** Right after `t` there is a time up to which nothing more falls due. */
  lemma {:induction false} QuietGap(rows: map<Id, Row>, ids: set<Id>, t: Time) returns (u: Time)
    requires ids <= rows.Keys
    ensures u > t && forall d | d in ids && rows[d].due.Some? :: rows[d].due.value <= t || rows[d].due.value > u
    decreases |ids|
  {
    if |ids| == 0 {
      u := t + 1.0;
      assert ids == {};
    } else {
      var d :| d in ids;
      var other := QuietGap(rows, ids - {d}, t);
      u := other;
      if rows[d].due.Some? && t < rows[d].due.value <= other {
        u := (t + rows[d].due.value) / 2.0;
      }
    }
  }

  /** A new delivery that is refused becomes due at the given time. */
  lemma {:induction false} RefusedRow(delays: nat, s: System, d: Id, u: Time)
    requires delays >= 1 && d !in s.rows
    ensures Run(delays, s, [Crash(0), Create(d, 3)] + Dispatch(0, d, Refused(u))).rows ==
      s.rows[d := Row(Retrying, 1, 3, Some(u))]
  {
    var s2 := Step(delays, Step(delays, s, Crash(0)), Create(d, 3));
    RunConcat(delays, s, [Crash(0), Create(d, 3)], Dispatch(0, d, Refused(u)));
    RunTwo(delays, s, Crash(0), Create(d, 3));
    assert Dispatch(0, d, Refused(u)) == [Claim(0, d), Report(0, Refused(u))];
    RunTwo(delays, s2, Claim(0, d), Report(0, Refused(u)));
    assert s2.rows[d := ClaimRow(s2.rows[d])][d := Row(Retrying, 1, 3, Some(u))] ==
      s.rows[d := Row(Retrying, 1, 3, Some(u))];
  }

  lemma {:induction false} RoomLetsLaterIn(delays: nat, s: System, batch: nat, t: Time)
    requires delays >= 1 && |DeferredBy(s, t)| < batch
    ensures LaterRetrySwept(delays, s, batch, t)
  {
    var before := ClearEarlier(delays, s, t);
    var s1 := Run(delays, s, before);
    var d := FreshId(s1.rows.Keys);
    var u := QuietGap(s1.rows, s1.rows.Keys, t);
    var after := [Crash(0), Create(d, 3)] + Dispatch(0, d, Refused(u));
    RunConcat(delays, s, before, after);
    RefusedRow(delays, s1, d, u);
    var rows := Run(delays, s, before + after).rows;
    forall x | x in s1.rows && s1.rows[x].status.Retrying? && s1.rows[x].due.Some? ensures s1.rows[x].due.value > t {
      assert x !in EarlyRetries(s1, t);
    }
    SubsetSize(Ahead(rows, u, d), DeferredBy(s, t));
    var due := DueListExists(rows, u, batch);
    if d !in due {
      FewAheadIsSelected(rows, u, batch, d, due);
    }
    var i: nat :| i < |due| && due[i] == d;
    assert LateSweep(delays, s, before + after, u, batch, due, i, t);
  }

  /** Some continuation sweeps a retry that falls due after `t` if and only if there are delays
      at all and fewer BREAKER_OPEN rows than the batch size are due by `t`. */
  lemma {:induction false} LaterRetrySweptIff(delays: nat, s: System, batch: nat, t: Time)
    requires Inv(delays, s)
    ensures LaterRetrySwept(delays, s, batch, t) <==> delays >= 1 && |DeferredBy(s, t)| < batch
  {
    if LaterRetrySwept(delays, s, batch, t) {
      var es, now, due, i: nat :| LateSweep(delays, s, es, now, batch, due, i, t);
      FullBatchBlocks(delays, s, es, now, batch, due, i, t);
    }
    if delays >= 1 && |DeferredBy(s, t)| < batch {
      RoomLetsLaterIn(delays, s, batch, t);
    }
  }
}
