/**
 What a delivery's row says about its past: status, attempts and due time as a function of the
 claims and reports since it was created or last replayed.
 */
module DeliveryHistory {
  import opened Common
  import opened Delivery

  /** The event is the report of the worker that has claimed the delivery. */
  predicate ReportsOn(s: System, e: Event, d: Id) {
    e.Report? && e.w in s.holding && s.holding[e.w] == d && d in s.rows
  }

  /** The last thing that happened to the delivery since it was created or replayed: nothing, a
      claim, or the report of an attempt. */
  datatype Story = Unsent | Underway | Ended(outcome: Outcome)

  function StoryOf(delays: nat, es: seq<Event>, d: Id): Story {
    if es == [] then Unsent
    else
      var front, e := es[..|es| - 1], es[|es| - 1];
      var s := Run(delays, EMPTY, front);
      if Restarts(s, e, d) then Unsent
      else if Claims(s, e, d) then Underway
      else if ReportsOn(s, e, d) then Ended(e.outcome)
      else StoryOf(delays, front, d)
  }

  /** The retry time that the last refusal since then came with. */
  function LastRefusal(delays: nat, es: seq<Event>, d: Id): Option<Time> {
    if es == [] then None
    else
      var front, e := es[..|es| - 1], es[|es| - 1];
      var s := Run(delays, EMPTY, front);
      if Restarts(s, e, d) then None
      else if ReportsOn(s, e, d) && e.outcome.Refused? then Some(e.outcome.retryAt)
      else LastRefusal(delays, front, d)
  }

  /** The setting the delivery was created with: that of the first event that creates it. */
  function RetriesOf(es: seq<Event>, d: Id): int {
    if es == [] then 0
    else if es[0].Create? && es[0].d == d then es[0].maxRetries
    else RetriesOf(es[1..], d)
  }

  predicate IsCreated(es: seq<Event>, d: Id) {
    exists i | 0 <= i < |es| :: es[i].Create? && es[i].d == d
  }

  /** After `n` attempts another is allowed by the webhook's setting, three if it has none, and
      by the list of delays. */
  predicate MayRetry(delays: nat, maxRetries: int, n: nat) {
    n <= delays && n <= if maxRetries == 0 then 3 else maxRetries
  }

  ghost predicate RowFits(delays: nat, r: Row, story: Story, n: nat, refusal: Option<Time>, m: int) {
    && r.attempts == n && r.maxRetries == m
    && (r.status.Pending? <==> story.Unsent?)
    && (r.status.Sending? <==> story.Underway?)
    && (r.status.Success? <==> story == Ended(Delivered))
    && (r.status.BreakerOpen? <==> story == Ended(Deferred))
    && (r.status.Retrying? <==> story.Ended? && story.outcome.Refused? && MayRetry(delays, m, n))
    && (r.status.DeadLetter? <==> story.Ended? && story.outcome.Refused? && !MayRetry(delays, m, n))
    && r.due == (if r.status.Pending? || r.status.Success? || r.status.DeadLetter? then None else refusal)
    && (r.status.Retrying? ==> refusal == Some(story.outcome.retryAt))
    && (story.Unsent? ==> refusal == None)
  }

  lemma {:induction false} CreatedAppend(es: seq<Event>, e: Event, d: Id)
    ensures IsCreated(es + [e], d) <==> IsCreated(es, d) || (e.Create? && e.d == d)
    ensures IsCreated(es, d) ==> RetriesOf(es + [e], d) == RetriesOf(es, d)
    ensures !IsCreated(es, d) && e.Create? && e.d == d ==> RetriesOf(es + [e], d) == e.maxRetries
  {
    var all := es + [e];
    if es == [] {
      assert all[0] == e;
    } else {
      CreatedAppend(es[1..], e, d);
      assert all[1..] == es[1..] + [e] && all[0] == es[0];
      assert IsCreated(es, d) ==> (es[0].Create? && es[0].d == d) || IsCreated(es[1..], d) by {
        if i :| 0 <= i < |es| && es[i].Create? && es[i].d == d {
          assert i > 0 ==> es[1..][i - 1] == es[i];
        }
      }
      assert IsCreated(es[1..], d) ==> IsCreated(es, d) by {
        if i :| 0 <= i < |es[1..]| && es[1..][i].Create? && es[1..][i].d == d {
          assert es[i + 1] == es[1..][i];
        }
      }
    }
    assert IsCreated(es, d) ==> IsCreated(all, d) by {
      if i :| 0 <= i < |es| && es[i].Create? && es[i].d == d {
        assert all[i] == es[i];
      }
    }
    assert all[|es|] == e;
    if i :| 0 <= i < |all| && all[i].Create? && all[i].d == d {
      assert i < |es| ==> es[i] == all[i];
    }
  }

  /** How one event changes a row that fits its story. */
  lemma {:induction false} RowKeepsFitting(
    delays: nat, s: System, e: Event, d: Id, story: Story, n: nat, refusal: Option<Time>, m: int)
    requires Inv(delays, s) && d in s.rows && RowFits(delays, s.rows[d], story, n, refusal, m)
    ensures d in Step(delays, s, e).rows
    ensures RowFits(delays, Step(delays, s, e).rows[d],
              if Restarts(s, e, d) then Unsent
              else if Claims(s, e, d) then Underway
              else if ReportsOn(s, e, d) then Ended(e.outcome)
              else story,
              if Restarts(s, e, d) then 0 else n + if Claims(s, e, d) then 1 else 0,
              if Restarts(s, e, d) then None
              else if ReportsOn(s, e, d) && e.outcome.Refused? then Some(e.outcome.retryAt)
              else refusal,
              m)
  {
    if ReportsOn(s, e, d) {
      assert s.rows[d].status.Sending?;
    }
  }

  /** In every run, a delivery has a row exactly if it was created, and the row fits its story: it
      is a success exactly if its last attempt since creation or replay was delivered, deferred
      exactly if the breaker deferred it, waiting for its retry time or dead exactly if it was
      refused, according to the attempts made. */
  lemma {:induction false} RowTellsItsStory(delays: nat, es: seq<Event>, d: Id)
    ensures var s := Run(delays, EMPTY, es);
      && (d in s.rows <==> IsCreated(es, d))
      && (d in s.rows ==>
            RowFits(delays, s.rows[d], StoryOf(delays, es, d), ClaimCount(delays, es, d),
                    LastRefusal(delays, es, d), RetriesOf(es, d)))
  {
    if es != [] {
      var front, e := es[..|es| - 1], es[|es| - 1];
      assert es == front + [e];
      var s := Run(delays, EMPTY, front);
      RowTellsItsStory(delays, front, d);
      EveryRunIsSafe(delays, front);
      CreatedAppend(front, e, d);
      if d in s.rows {
        RowKeepsFitting(delays, s, e, d, StoryOf(delays, front, d), ClaimCount(delays, front, d),
                        LastRefusal(delays, front, d), RetriesOf(front, d));
      }
    }
  }

  /** In any state, a worker that finds its delivery settled leaves all rows as they are. */
  lemma {:induction false} SettledIgnoresReports(delays: nat, s: System, w: Worker, outcome: Outcome)
    requires w in s.holding && s.holding[w] in s.rows
    requires s.rows[s.holding[w]].status.Success? || s.rows[s.holding[w]].status.DeadLetter?
    ensures Step(delays, s, Report(w, outcome)) == s.(holding := s.holding - {w})
  {
    assert s.rows[s.holding[w] := s.rows[s.holding[w]]] == s.rows;
  }

  /** In any state, a replay makes a dead letter a new delivery and leaves everything else. */
  lemma {:induction false} ReplayStartsAfresh(delays: nat, s: System, d: Id)
    ensures var s' := Step(delays, s, Replay(d));
      s' == if d in s.rows && s.rows[d].status.DeadLetter?
            then s.(rows := s.rows[d := Row(Pending, 0, s.rows[d].maxRetries, None)]) else s
  {
    if d in s.rows && !s.rows[d].status.DeadLetter? {
      assert s.rows[d := s.rows[d]] == s.rows;
    }
  }
}
