/**
 The life of webhook deliveries: any number of workers claim rows, send them and report back,
 and may crash between the two commits; dead letters can be replayed.
 */
module Delivery {
  import opened Common

  type Id = nat
  type Worker = nat

  datatype Status = Pending | Sending | Success | Failed | Retrying | DeadLetter | BreakerOpen

  /** `due` is `next_retry_at`. */
  datatype Row = Row(status: Status, attempts: int, maxRetries: int, due: Option<Time>)

  /** How an attempt ends, as `_attempt_delivery` reports it. A refused delivery that is to be
      tried again becomes due at the given time, which the delays and the jitter decide. */
  datatype Outcome = Delivered | Refused(retryAt: Time) | Deferred

  // ---------------------------------------------------------------- one row

  predicate Claimable(r: Row) {
    r.status.Pending? || r.status.Retrying?
  }

  function ClaimRow(r: Row): Row {
    if Claimable(r) then r.(status := Sending, attempts := r.attempts + 1) else r
  }

  /** `webhook.max_retries or 3` */
  function MaxRetries(r: Row): int {
    if r.maxRetries == 0 then 3 else r.maxRetries
  }

  /** The second half of `dispatch_delivery`, from the re-read of the row on. */
  function FinishRow(delays: nat, r: Row, outcome: Outcome): Row
  {
    if r.status.Success? || r.status.DeadLetter? then r
    else match outcome
      case Delivered => r.(status := Success, due := None)
      case Deferred => r.(status := BreakerOpen)
      case Refused(retryAt) =>
        var retryIndex := r.attempts - 1;
        if retryIndex < MaxRetries(r) && retryIndex < delays then r.(status := Retrying, due := Some(retryAt))
        else r.(status := DeadLetter, due := None)
  }

  function ReplayRow(r: Row): Row {
    if r.status.DeadLetter? then r.(status := Pending, attempts := 0, due := None) else r
  }

  /** How many retries a delivery can be given. */
  function Budget(delays: nat, r: Row): nat
  {
    var m := if MaxRetries(r) < delays then MaxRetries(r) else delays;
    if m < 0 then 0 else m
  }

  // ---------------------------------------------------------------- the system

  /** `holding[w]` is the delivery worker `w` has claimed and not yet reported on. */
  datatype System = System(rows: map<Id, Row>, holding: map<Worker, Id>)

  const EMPTY := System(map[], map[])

  datatype Event =
    | Create(d: Id, maxRetries: int)
    | Claim(w: Worker, d: Id)
    | Report(w: Worker, outcome: Outcome)
    | Crash(w: Worker)
    | Replay(d: Id)

  predicate Claims(s: System, e: Event, d: Id) {
    e.Claim? && e.d == d && e.w !in s.holding && d in s.rows && Claimable(s.rows[d])
  }

  predicate Restarts(s: System, e: Event, d: Id) {
    || (e.Create? && e.d == d && d !in s.rows)
    || (e.Replay? && e.d == d && d in s.rows && s.rows[d].status.DeadLetter?)
  }

  function Step(delays: nat, s: System, e: Event): System
  {
    match e
    case Create(d, maxRetries) =>
      if d in s.rows then s else s.(rows := s.rows[d := Row(Pending, 0, maxRetries, None)])
    case Claim(w, d) =>
      if Claims(s, e, d) then System(s.rows[d := ClaimRow(s.rows[d])], s.holding[w := d]) else s
    case Report(w, outcome) =>
      if w in s.holding && s.holding[w] in s.rows
      then var d := s.holding[w]; System(s.rows[d := FinishRow(delays, s.rows[d], outcome)], s.holding - {w})
      else s
    case Crash(w) => s.(holding := s.holding - {w})
    case Replay(d) => if d in s.rows then s.(rows := s.rows[d := ReplayRow(s.rows[d])]) else s
  }

  function Run(delays: nat, s: System, es: seq<Event>): System
  {
    if es == [] then s else Step(delays, Run(delays, s, es[..|es| - 1]), es[|es| - 1])
  }

  /** Claims of `d` since it was created or last replayed. */
  function ClaimCount(delays: nat, es: seq<Event>, d: Id): nat
  {
    if es == [] then 0
    else
      var front, e := es[..|es| - 1], es[|es| - 1];
      var s := Run(delays, EMPTY, front);
      if Restarts(s, e, d) then 0
      else ClaimCount(delays, front, d) + if Claims(s, e, d) then 1 else 0
  }

  ghost predicate RowInv(delays: nat, r: Row) {
    && (r.status.Pending? ==> r.attempts == 0)
    && (!r.status.Pending? ==> 1 <= r.attempts)
    && r.attempts <= Budget(delays, r) + 1
    && (r.status.Retrying? ==> r.attempts <= Budget(delays, r))
  }

  ghost predicate Inv(delays: nat, s: System) {
    && (forall d | d in s.rows :: RowInv(delays, s.rows[d]))
    && (forall w | w in s.holding :: s.holding[w] in s.rows && s.rows[s.holding[w]].status.Sending?)
    && (forall w, v | w in s.holding && v in s.holding && w != v :: s.holding[w] != s.holding[v])
  }

  lemma {:induction false} ReportKeepsInv(delays: nat, s: System, e: Event)
    requires Inv(delays, s) && e.Report?
    ensures Inv(delays, Step(delays, s, e))
  {
  }

  lemma {:induction false} ClaimKeepsInv(delays: nat, s: System, e: Event)
    requires Inv(delays, s) && e.Claim?
    ensures Inv(delays, Step(delays, s, e))
  {
  }

  lemma {:induction false} StepKeepsInv(delays: nat, s: System, e: Event)
    requires Inv(delays, s)
    ensures Inv(delays, Step(delays, s, e))
  {
    if e.Report? {
      ReportKeepsInv(delays, s, e);
    } else if e.Claim? {
      ClaimKeepsInv(delays, s, e);
    }
  }

  /** Whatever the interleaving of dispatchers, sweeps, crashes and replays: two workers never
      send the same delivery, a worker about to report always finds its row SENDING, and the
      claims since creation or replay are what `attempt_count` says and stay within budget. */
  lemma {:induction false} EveryRunIsSafe(delays: nat, es: seq<Event>)
    ensures var s := Run(delays, EMPTY, es);
      && Inv(delays, s)
      && forall d | d in s.rows ::
           s.rows[d].attempts == ClaimCount(delays, es, d) <= Budget(delays, s.rows[d]) + 1
  {
    if es != [] {
      var front, e := es[..|es| - 1], es[|es| - 1];
      EveryRunIsSafe(delays, front);
      StepKeepsInv(delays, Run(delays, EMPTY, front), e);
      var s' := Run(delays, EMPTY, es);
      forall d | d in s'.rows ensures s'.rows[d].attempts == ClaimCount(delays, es, d) {
        StepCounts(delays, Run(delays, EMPTY, front), e, d);
      }
    }
  }

  lemma {:induction false} StepCounts(delays: nat, s: System, e: Event, d: Id)
    requires d in Step(delays, s, e).rows
    ensures Step(delays, s, e).rows[d].attempts ==
      if Restarts(s, e, d) then 0
      else if d in s.rows then s.rows[d].attempts + (if Claims(s, e, d) then 1 else 0)
      else 0
    ensures d in s.rows || Restarts(s, e, d)
  {
  }

  predicate Settled(r: Row) {
    r.status.Success? || r.status.BreakerOpen?
  }

  /** Once a delivery is SUCCESS no attempt starts and the row never changes. The same is true
      of BREAKER_OPEN: the sweep selects such rows, but the claim never takes one. */
  lemma {:induction false} SettledIsFinal(delays: nat, s: System, es: seq<Event>, e: Event, d: Id)
    requires Inv(delays, s) && d in s.rows && Settled(s.rows[d])
    ensures var s' := Run(delays, s, es); Inv(delays, s') && d in s'.rows && s'.rows[d] == s.rows[d]
    ensures !Claims(Run(delays, s, es), e, d)
  {
    if es != [] {
      var front, last := es[..|es| - 1], es[|es| - 1];
      SettledIsFinal(delays, s, front, last, d);
      StepKeepsInv(delays, Run(delays, s, front), last);
    }
  }

  /** The bound is reached: a receiver that always refuses gets exactly the budget plus one
      attempts, and then the delivery is a dead letter. */
  function Refusals(w: Worker, d: Id, maxRetries: int, at: Time, k: nat): seq<Event>
  {
    if k == 0 then [Create(d, maxRetries)]
    else Refusals(w, d, maxRetries, at, k - 1) + [Claim(w, d)] + [Report(w, Refused(at))]
  }

  lemma {:induction false} RunAppend(delays: nat, s: System, es: seq<Event>, e: Event)
    ensures Run(delays, s, es + [e]) == Step(delays, Run(delays, s, es), e)
  {
    assert (es + [e])[..|es|] == es;
  }

  function AfterRefusals(delays: nat, maxRetries: int, at: Time, k: nat): Row
  {
    var status :=
      if k == 0 then Pending
      else if k <= Budget(delays, Row(Pending, 0, maxRetries, None)) then Retrying
      else DeadLetter;
    Row(status, k, maxRetries, if status.Retrying? then Some(at) else None)
  }

  lemma {:induction false} RefusalStep(delays: nat, s: System, w: Worker, d: Id, maxRetries: int, at: Time, k: nat)
    requires k <= Budget(delays, Row(Pending, 0, maxRetries, None))
    requires s == System(map[d := AfterRefusals(delays, maxRetries, at, k)], map[])
    ensures Step(delays, Step(delays, s, Claim(w, d)), Report(w, Refused(at)))
         == System(map[d := AfterRefusals(delays, maxRetries, at, k + 1)], map[])
  {
    var r := AfterRefusals(delays, maxRetries, at, k);
    assert Step(delays, s, Claim(w, d)) == System(map[d := ClaimRow(r)], map[w := d]);
    assert FinishRow(delays, ClaimRow(r), Refused(at)) == AfterRefusals(delays, maxRetries, at, k + 1);
    assert map[w := d] - {w} == map[];
  }

  lemma {:induction false} RefusalsUseTheBudget(delays: nat, w: Worker, d: Id, maxRetries: int, at: Time, k: nat)
    requires k <= Budget(delays, Row(Pending, 0, maxRetries, None)) + 1
    ensures Run(delays, EMPTY, Refusals(w, d, maxRetries, at, k))
         == System(map[d := AfterRefusals(delays, maxRetries, at, k)], map[])
  {
    if k == 0 {
      RunAppend(delays, EMPTY, [], Create(d, maxRetries));
      assert [] + [Create(d, maxRetries)] == Refusals(w, d, maxRetries, at, 0);
    } else {
      var before := Refusals(w, d, maxRetries, at, k - 1);
      RefusalsUseTheBudget(delays, w, d, maxRetries, at, k - 1);
      RunAppend(delays, EMPTY, before, Claim(w, d));
      RunAppend(delays, EMPTY, before + [Claim(w, d)], Report(w, Refused(at)));
      RefusalStep(delays, Run(delays, EMPTY, before), w, d, maxRetries, at, k - 1);
    }
  }

  // ---------------------------------------------------------------- what a sweep selects

  predicate Eligible(r: Row, now: Time) {
    (r.status.Retrying? || r.status.BreakerOpen?) && r.due.Some? && r.due.value <= now
  }

  /** `b` is due no earlier than `a`. */
  predicate NoLater(rows: map<Id, Row>, a: Id, b: Id) {
    a in rows && b in rows && rows[a].due.Some? && rows[b].due.Some? && rows[a].due.value <= rows[b].due.value
  }

  /** A list the sweep's query may return: eligible rows, the earliest due first, cut to the
      batch size; rows due at the same time come in any order. */
  ghost predicate DueList(rows: map<Id, Row>, now: Time, batch: nat, due: seq<Id>) {
    && |due| <= batch
    && (forall i | 0 <= i < |due| :: due[i] in rows && Eligible(rows[due[i]], now))
    && (forall i, j | 0 <= i < j < |due| :: due[i] != due[j] && NoLater(rows, due[i], due[j]))
    && (forall d | d in rows && Eligible(rows[d], now) && d !in due ::
          |due| == batch && forall i | 0 <= i < |due| :: NoLater(rows, due[i], d))
  }

  ghost function Members(due: seq<Id>): set<Id> {
    set i | 0 <= i < |due| :: due[i]
  }

  lemma {:induction false} MembersSize(due: seq<Id>)
    requires forall i, j | 0 <= i < j < |due| :: due[i] != due[j]
    ensures |Members(due)| == |due|
  {
    if due != [] {
      var n := |due| - 1;
      MembersSize(due[..n]);
      assert due[n] !in Members(due[..n]);
      assert Members(due) == Members(due[..n]) + {due[n]} by {
        assert due == due[..n] + [due[n]];
      }
    }
  }

  lemma {:induction false} EarliestOf(rows: map<Id, Row>, ids: set<Id>) returns (first: Id)
    requires |ids| > 0 && forall d | d in ids :: d in rows && rows[d].due.Some?
    ensures first in ids && forall d | d in ids :: NoLater(rows, first, d)
  {
    var some :| some in ids;
    var rest := ids - {some};
    if |rest| == 0 {
      first := some;
    } else {
      var other := EarliestOf(rows, rest);
      first := if rows[other].due.value < rows[some].due.value then other else some;
      forall d | d in ids ensures NoLater(rows, first, d) {
        assert d == some || NoLater(rows, other, d);
      }
    }
  }

  /** The query always has an answer. */
  lemma {:induction false} DueListExists(rows: map<Id, Row>, now: Time, batch: nat) returns (due: seq<Id>)
    ensures DueList(rows, now, batch, due)
  {
    if batch == 0 {
      due := [];
    } else {
      due := DueListExists(rows, now, batch - 1);
      var left := set d | d in rows && Eligible(rows[d], now) && d !in due;
      if |left| > 0 {
        var next := EarliestOf(rows, left);
        assert next in left;
        var longer := due + [next];
        forall d | d in rows && Eligible(rows[d], now) && d !in longer
          ensures |longer| == batch && forall i | 0 <= i < |longer| :: NoLater(rows, longer[i], d)
        {
          assert next in longer && forall i | 0 <= i < |due| :: due[i] == longer[i];
          assert d in left;
        }
        due := longer;
      } else {
        assert left == {};
        assert forall d | d in rows && Eligible(rows[d], now) && d !in due :: d in left;
      }
    }
  }

  /** The other rows that the query may put before `d`. */
  ghost function Ahead(rows: map<Id, Row>, now: Time, d: Id): set<Id> {
    set x | x in rows && x != d && Eligible(rows[x], now) && NoLater(rows, x, d)
  }

  lemma {:induction false} FewAheadIsSelected(rows: map<Id, Row>, now: Time, batch: nat, d: Id, due: seq<Id>)
    requires d in rows && Eligible(rows[d], now) && DueList(rows, now, batch, due) && d !in due
    ensures |Ahead(rows, now, d)| >= batch
  {
    MembersSize(due);
    SubsetSize(Members(due), Ahead(rows, now, d));
  }

  lemma {:induction false} ManyAheadCanExclude(rows: map<Id, Row>, now: Time, batch: nat, d: Id) returns (due: seq<Id>)
    requires d in rows && Eligible(rows[d], now) && |Ahead(rows, now, d)| >= batch
    ensures DueList(rows, now, batch, due) && d !in due
  {
    var others := rows - {d};
    due := DueListExists(others, now, batch);
    MembersSize(due);
    var ahead := Ahead(rows, now, d);
    if x :| x in ahead && x !in due {
      forall i | 0 <= i < |due| ensures NoLater(rows, due[i], d) {
        assert x in others && Eligible(others[x], now);
        assert NoLater(others, due[i], x);
      }
    } else {
      SubsetSize(ahead, Members(due));
      forall i | 0 <= i < |due| ensures NoLater(rows, due[i], d) {
        assert due[i] in Members(due);
      }
    }
  }

  /** A due delivery is certain to be in the next sweep if and only if fewer rows than the batch
      size are due no later. The rows in BREAKER_OPEN count among them. */
  lemma {:induction false} SweptForCertainIff(rows: map<Id, Row>, now: Time, batch: nat, d: Id)
    requires d in rows && Eligible(rows[d], now)
    ensures (forall due | DueList(rows, now, batch, due) :: d in due) <==> |Ahead(rows, now, d)| < batch
  {
    if |Ahead(rows, now, d)| < batch {
      forall due | DueList(rows, now, batch, due) ensures d in due {
        if d !in due {
          FewAheadIsSelected(rows, now, batch, d, due);
        }
      }
    } else {
      var due := ManyAheadCanExclude(rows, now, batch, d);
    }
  }

  /** Deferred deliveries keep their due time and are never claimed, so they keep their places
      in the query: once as many as a batch are due by time `t`, no sweep ever again selects a
      delivery that becomes due after `t`. */
  lemma {:induction false} DeferredRowsBlockTheSweep(
    delays: nat, s: System, es: seq<Event>, blocked: set<Id>, t: Time, now: Time, batch: nat, due: seq<Id>, i: nat)
    requires Inv(delays, s) && |blocked| >= batch && t <= now
    requires forall d | d in blocked ::
      d in s.rows && s.rows[d].status.BreakerOpen? && s.rows[d].due.Some? && s.rows[d].due.value <= t
    requires DueList(Run(delays, s, es).rows, now, batch, due) && i < |due|
    ensures Run(delays, s, es).rows[due[i]].due.value <= t
  {
    var rows := Run(delays, s, es).rows;
    forall d | d in blocked ensures d in rows && rows[d] == s.rows[d] {
      SettledIsFinal(delays, s, es, Crash(0), d);
    }
    if rows[due[i]].due.value > t {
      var x := due[i];
      assert x !in blocked && x in Members(due);
      forall d | d in blocked ensures d in due {
        assert Eligible(rows[d], now);
      }
      MembersSize(due);
      SubsetSize(blocked + {x}, Members(due));
    }
  }

  // ---------------------------------------------------------------- the operations of one worker

  /** The events one undisturbed call of `dispatch_delivery` consists of. */
  function Dispatch(w: Worker, d: Id, outcome: Outcome): seq<Event> {
    [Claim(w, d)] + [Report(w, outcome)]
  }

  /** The events of a sweep over the selected deliveries. */
  function Sweep(w: Worker, due: seq<Id>, outcomes: seq<Outcome>): seq<Event>
    requires |due| == |outcomes|
  {
    if due == [] then []
    else var n := |due| - 1; Sweep(w, due[..n], outcomes[..n]) + Dispatch(w, due[n], outcomes[n])
  }

  lemma {:induction false} RunConcat(delays: nat, s: System, es: seq<Event>, fs: seq<Event>)
    ensures Run(delays, s, es + fs) == Run(delays, Run(delays, s, es), fs)
  {
    if fs == [] {
      assert es + fs == es;
    } else {
      RunConcat(delays, s, es, fs[..|fs| - 1]);
      assert (es + fs)[..|es + fs| - 1] == es + fs[..|fs| - 1];
    }
  }

  class DeliveryTable {
    const delays: nat
    var rows: map<Id, Row>

    constructor (delays: nat)
      ensures this.delays == delays && rows == map[]
    {
      this.delays, rows := delays, map[];
    }

    method DispatchDelivery(ghost w: Worker, d: Id, outcome: Outcome)
      modifies this
      ensures System(rows, map[]) == Run(delays, System(old(rows), map[]), Dispatch(w, d, outcome))
    {
      ghost var s := System(rows, map[]);
      RunAppend(delays, s, [Claim(w, d)], Report(w, outcome));
      RunAppend(delays, s, [], Claim(w, d));
      assert [] + [Claim(w, d)] == [Claim(w, d)];
      if d !in rows || !Claimable(rows[d]) {
        return;
      }
      rows := rows[d := rows[d].(status := Sending, attempts := rows[d].attempts + 1)];
      assert System(rows, map[w := d]) == Step(delays, s, Claim(w, d));
      if rows[d].status.Success? || rows[d].status.DeadLetter? {
        return;
      }
      rows := rows[d := FinishRow(delays, rows[d], outcome)];
      assert map[w := d] - {w} == map[];
    }

    /** A sweep dispatches what its query returned, one delivery after the other. */
    method RetryPendingDeliveries(
      ghost w: Worker, ghost now: Time, ghost batch: nat, due: seq<Id>, outcomes: seq<Outcome>)
      returns (count: nat)
      requires DueList(rows, now, batch, due) && |due| == |outcomes|
      modifies this
      ensures System(rows, map[]) == Run(delays, System(old(rows), map[]), Sweep(w, due, outcomes))
      ensures count == |due| <= batch
    {
      count := 0;
      while count < |due|
        invariant count <= |due|
        invariant System(rows, map[]) ==
          Run(delays, System(old(rows), map[]), Sweep(w, due[..count], outcomes[..count]))
      {
        DispatchDelivery(w, due[count], outcomes[count]);
        ghost var next := count + 1;
        assert due[..next][..count] == due[..count] && outcomes[..next][..count] == outcomes[..count];
        RunConcat(delays, System(old(rows), map[]), Sweep(w, due[..count], outcomes[..count]),
                  Dispatch(w, due[count], outcomes[count]));
        count := count + 1;
      }
      assert due[..count] == due && outcomes[..count] == outcomes;
    }

    method ReplayDeadLetterDelivery(ghost w: Worker, d: Id, outcome: Outcome) returns (replayed: bool)
      modifies this
      ensures replayed == (d in old(rows) && old(rows)[d].status.DeadLetter?)
      ensures System(rows, map[]) == if replayed
        then Run(delays, Step(delays, System(old(rows), map[]), Replay(d)), Dispatch(w, d, outcome))
        else System(old(rows), map[])
    {
      if d !in rows || !rows[d].status.DeadLetter? {
        return false;
      }
      rows := rows[d := rows[d].(status := Pending, attempts := 0, due := None)];
      DispatchDelivery(w, d, outcome);
      return true;
    }
  }
}
