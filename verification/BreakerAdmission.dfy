/**
 When the breaker lets a request through, told from the calls made so far.
 */
module BreakerAdmission {
  import opened Common
  import opened Breaker

  /** Since the last success or reset no marker was seen and no failure was the threshold-th, or
      more, inside one window. */
  predicate Healthy(cfg: Config, cs: seq<Call>) {
    cs == [] ||
    var c := cs[|cs| - 1];
    c.SuccessCall? || c.ResetCall? ||
    (Healthy(cfg, cs[..|cs| - 1])
     && (c.AllowCall? ==> !c.reply.Present?)
     && (c.FailureCall? ==> |InWindow(History(cs), cfg.window)| < cfg.threshold))
  }

  lemma {:induction false} CallsConcat(cfg: Config, l: Local, a: seq<Call>, b: seq<Call>)
    ensures Calls(cfg, l, a + b) == Calls(cfg, Calls(cfg, l, a), b)
  {
    if b == [] {
      assert a + b == a;
    } else {
      CallsConcat(cfg, l, a, b[..|b| - 1]);
      assert (a + b)[..|a + b| - 1] == a + b[..|b| - 1];
    }
  }

  lemma {:induction false} CallsAppend(cfg: Config, l: Local, cs: seq<Call>, c: Call)
    ensures Calls(cfg, l, cs + [c]) == Next(cfg, Calls(cfg, l, cs), c)
  {
    assert (cs + [c])[..|cs|] == cs;
  }

  lemma {:induction false} HistoryAppend(cs: seq<Call>, at: Time)
    ensures History(cs + [FailureCall(at)]) == History(cs) + [at]
  {
    assert (cs + [FailureCall(at)])[..|cs|] == cs;
  }

  /** A failure of a CLOSED host opens it exactly if the window then holds the threshold. */
  lemma {:induction false} FailureOpensIff(cfg: Config, cs: seq<Call>, at: Time)
    requires Before(cs, at) && Calls(cfg, FRESH, cs).phase.Closed?
    ensures var (l, tripped) := Fail(cfg, Calls(cfg, FRESH, cs), at);
      var n := |InWindow(History(cs) + [at], cfg.window)|;
      && (n >= cfg.threshold ==> l.phase.Open? && l.openSince == at && tripped && !l.probe)
      && (n < cfg.threshold ==> l.phase.Closed? && !tripped)
      && l.failures == InWindow(History(cs) + [at], cfg.window)
  {
    ClosedListIsWindow(cfg, cs, at);
    HistoryEnds(cs, at);
    WindowGrows(History(cs), at, cfg.window);
    ProbeFlagMeansHalfOpen(cfg, cs);
  }

  lemma {:induction false} HealthyIsClosed(cfg: Config, cs: seq<Call>, now: Time)
    requires Before(cs, now) && Healthy(cfg, cs)
    ensures Calls(cfg, FRESH, cs).phase.Closed?
  {
    if cs != [] {
      var front, c := cs[..|cs| - 1], cs[|cs| - 1];
      assert cs == front + [c];
      CallsAppend(cfg, FRESH, front, c);
      if c.AllowCall? || c.FailureCall? {
        HealthyIsClosed(cfg, front, c.Start());
      }
      if c.FailureCall? {
        HistoryAppend(front, c.at);
        FailureOpensIff(cfg, front, c.at);
      }
    }
  }

  /** A healthy host lets every request through, unless the request finds the marker of another
      worker and is decided before the reset time has passed since. */
  lemma {:induction false} HealthyAdmitsIff(cfg: Config, cs: seq<Call>, c: Call)
    requires c.AllowCall? && Before(cs, c.Start()) && Healthy(cfg, cs)
    ensures Admits(cfg, Calls(cfg, FRESH, cs), c) <==>
      (c.reply.Present? ==> c.decidedAt - c.adoptedAt >= cfg.reset)
  {
    HealthyIsClosed(cfg, cs, c.Start());
    ProbeFlagMeansHalfOpen(cfg, cs);
  }

  // ---------------------------------------------------------------- after the host was opened

  /** Requests that are all decided before the deadline. */
  predicate Early(ps: seq<Call>, deadline: Time) {
    forall i | 0 <= i < |ps| :: ps[i].AllowCall? && ps[i].decidedAt < deadline
  }

  predicate Requests(ps: seq<Call>) {
    forall i | 0 <= i < |ps| :: ps[i].AllowCall?
  }

  lemma {:induction false} EarlyChangesNothing(cfg: Config, l: Local, ps: seq<Call>)
    requires l.phase.Open? && Early(ps, l.openSince + cfg.reset)
    ensures Calls(cfg, l, ps) == l
  {
    if ps != [] {
      EarlyChangesNothing(cfg, l, ps[..|ps| - 1]);
    }
  }

  lemma {:induction false} OpenAdmitsIff(cfg: Config, cs: seq<Call>, ps: seq<Call>, c: Call, t: Time)
    requires var l := Calls(cfg, FRESH, cs); l.phase.Open? && l.openSince == t
    requires Early(ps, t + cfg.reset) && c.AllowCall?
    ensures Admits(cfg, Calls(cfg, FRESH, cs + ps), c) <==> c.decidedAt >= t + cfg.reset
  {
    CallsConcat(cfg, FRESH, cs, ps);
    EarlyChangesNothing(cfg, Calls(cfg, FRESH, cs), ps);
    ProbeFlagMeansHalfOpen(cfg, cs);
  }

  /** The failure at `t` is the threshold-th in one window of a healthy host. */
  predicate Trips(cfg: Config, cs: seq<Call>, t: Time) {
    Before(cs, t) && Healthy(cfg, cs) && |InWindow(History(cs) + [t], cfg.window)| >= cfg.threshold
  }

  /** After a trip at `t` requests are refused until one is decided at `t + reset` or later; that
      one is let through. */
  lemma {:induction false} TripAdmitsIff(cfg: Config, cs: seq<Call>, t: Time, ps: seq<Call>, c: Call)
    requires Trips(cfg, cs, t) && Early(ps, t + cfg.reset) && c.AllowCall?
    ensures Admits(cfg, Calls(cfg, FRESH, cs + [FailureCall(t)] + ps), c) <==> c.decidedAt >= t + cfg.reset
  {
    HealthyIsClosed(cfg, cs, t);
    FailureOpensIff(cfg, cs, t);
    CallsAppend(cfg, FRESH, cs, FailureCall(t));
    OpenAdmitsIff(cfg, cs + [FailureCall(t)], ps, c, t);
  }

  lemma {:induction false} AfterTrip(cfg: Config, cs: seq<Call>, t: Time, ps: seq<Call>)
    requires Trips(cfg, cs, t) && Early(ps, t + cfg.reset)
    ensures Calls(cfg, FRESH, cs + [FailureCall(t)] + ps) ==
      Local(Open, InWindow(History(cs) + [t], cfg.window), t, false)
  {
    HealthyIsClosed(cfg, cs, t);
    FailureOpensIff(cfg, cs, t);
    CallsAppend(cfg, FRESH, cs, FailureCall(t));
    CallsConcat(cfg, FRESH, cs + [FailureCall(t)], ps);
    EarlyChangesNothing(cfg, Calls(cfg, FRESH, cs + [FailureCall(t)]), ps);
  }

  /** The moment from which the reset time runs after a further failure at `u`: that failure, if
      the window then still holds the threshold, and otherwise the trip. */
  function WaitsSince(cfg: Config, cs: seq<Call>, t: Time, u: Time): Time {
    if |InWindow(History(cs) + [t] + [u], cfg.window)| >= cfg.threshold then u else t
  }

  lemma {:induction false} FailsAgain(cfg: Config, l: Local, h: seq<Time>, t: Time, u: Time)
    requires l == Local(Open, InWindow(h + [t], cfg.window), t, false) && t <= u
    ensures var l' := Next(cfg, l, FailureCall(u));
      l'.phase.Open? && l'.openSince == if |InWindow(h + [t] + [u], cfg.window)| >= cfg.threshold then u else t
  {
    WindowGrows(h + [t], u, cfg.window);
  }

  /** A request sent before the trip may still fail after it, at `u`. That is recorded as well: if
      the window then still holds the threshold, the waiting starts anew, otherwise it goes on. */
  lemma {:induction false} LateFailureAdmitsIff(
    cfg: Config, cs: seq<Call>, t: Time, ps: seq<Call>, u: Time, rs: seq<Call>, c: Call)
    requires Trips(cfg, cs, t) && Early(ps, t + cfg.reset) && t <= u && c.AllowCall?
    requires Early(rs, WaitsSince(cfg, cs, t, u) + cfg.reset)
    ensures Admits(cfg, Calls(cfg, FRESH, cs + [FailureCall(t)] + ps + [FailureCall(u)] + rs), c) <==>
      c.decidedAt >= WaitsSince(cfg, cs, t, u) + cfg.reset
  {
    var before := cs + [FailureCall(t)] + ps;
    AfterTrip(cfg, cs, t, ps);
    FailsAgain(cfg, Calls(cfg, FRESH, before), History(cs), t, u);
    CallsAppend(cfg, FRESH, before, FailureCall(u));
    OpenAdmitsIff(cfg, before + [FailureCall(u)], rs, c, WaitsSince(cfg, cs, t, u));
  }

  /** The failures a worker has recorded since the last success or reset: all but those of a probe. */
  function Recorded(cfg: Config, cs: seq<Call>): seq<Time> {
    if cs == [] then []
    else
      var front, c := cs[..|cs| - 1], cs[|cs| - 1];
      if c.FailureCall? && Calls(cfg, FRESH, front).phase.HalfOpen? then Recorded(cfg, front)
      else Remember(Recorded(cfg, front), c)
  }

  lemma {:induction false} RecordedEnds(cfg: Config, cs: seq<Call>, now: Time)
    requires Before(cs, now)
    ensures var h := Recorded(cfg, cs); h != [] ==> h[|h| - 1] <= now
  {
    if cs != [] {
      RecordedEnds(cfg, cs[..|cs| - 1], cs[|cs| - 1].Start());
    }
  }

  lemma {:induction false} RecordsOne(cfg: Config, l: Local, h: seq<Time>, c: Call)
    requires l.failures == InWindow(h, cfg.window) && (h == [] || h[|h| - 1] <= c.Start())
    ensures Next(cfg, l, c).failures ==
      InWindow(if c.FailureCall? && l.phase.HalfOpen? then h else Remember(h, c), cfg.window)
  {
    if c.FailureCall? {
      WindowGrows(h, c.at, cfg.window);
    }
  }

  /** In every state the list kept is the recorded failures, cut to the window of the latest. */
  lemma {:induction false} ListIsRecorded(cfg: Config, cs: seq<Call>, now: Time)
    requires Before(cs, now)
    ensures Calls(cfg, FRESH, cs).failures == InWindow(Recorded(cfg, cs), cfg.window)
  {
    if cs != [] {
      var front, c := cs[..|cs| - 1], cs[|cs| - 1];
      ListIsRecorded(cfg, front, c.Start());
      RecordedEnds(cfg, front, c.Start());
      RecordsOne(cfg, Calls(cfg, FRESH, front), Recorded(cfg, front), c);
    }
  }

  /** In whatever state, however it was come to: a failure of the probe opens the host as of then and
      publishes nothing; any other opens it as of then, and publishes, exactly if the recorded
      failures of the window reach the threshold with it, and otherwise leaves the phase and the
      time of opening. */
  lemma {:induction false} AnyFailureOpensIff(cfg: Config, cs: seq<Call>, at: Time)
    requires Before(cs, at)
    ensures var l, (l', publishes) := Calls(cfg, FRESH, cs), Fail(cfg, Calls(cfg, FRESH, cs), at);
      var reached := |InWindow(Recorded(cfg, cs) + [at], cfg.window)| >= cfg.threshold;
      && (publishes <==> !l.phase.HalfOpen? && reached)
      && (if l.phase.HalfOpen? || reached then l'.phase.Open? && l'.openSince == at && !l'.probe
          else l'.phase == l.phase && l'.openSince == l.openSince && l'.probe == l.probe)
  {
    ListIsRecorded(cfg, cs, at);
    RecordedEnds(cfg, cs, at);
    WindowGrows(Recorded(cfg, cs), at, cfg.window);
  }

  /** A request that finds the marker of another worker opens the host as of then: requests are
      refused until one is decided the reset time later. */
  lemma {:induction false} MarkerAdmitsIff(cfg: Config, cs: seq<Call>, a: Call, ps: seq<Call>, c: Call)
    requires a.AllowCall? && a.reply.Present? && Before(cs, a.Start()) && Healthy(cfg, cs)
    requires a.decidedAt < a.adoptedAt + cfg.reset && Early(ps, a.adoptedAt + cfg.reset) && c.AllowCall?
    ensures Admits(cfg, Calls(cfg, FRESH, cs + [a] + ps), c) <==> c.decidedAt >= a.adoptedAt + cfg.reset
  {
    HealthyIsClosed(cfg, cs, a.Start());
    CallsAppend(cfg, FRESH, cs, a);
    OpenAdmitsIff(cfg, cs + [a], ps, c, a.adoptedAt);
  }

  lemma {:induction false} HalfOpenStays(cfg: Config, l: Local, qs: seq<Call>)
    requires l.phase.HalfOpen? && l.probe && Requests(qs)
    ensures Calls(cfg, l, qs) == l
  {
    if qs != [] {
      HalfOpenStays(cfg, l, qs[..|qs| - 1]);
    }
  }

  /** The calls of a trip, the requests refused since, and the probe that was let through. */
  ghost predicate Probing(cfg: Config, cs: seq<Call>, t: Time, ps: seq<Call>, probe: Call) {
    && Trips(cfg, cs, t) && Early(ps, t + cfg.reset)
    && probe.AllowCall? && probe.decidedAt >= t + cfg.reset
  }

  lemma {:induction false} ProbeIsOut(cfg: Config, cs: seq<Call>, t: Time, ps: seq<Call>, probe: Call, qs: seq<Call>)
    requires Probing(cfg, cs, t, ps, probe) && Requests(qs)
    ensures var l := Calls(cfg, FRESH, cs + [FailureCall(t)] + ps + [probe] + qs); l.phase.HalfOpen? && l.probe
  {
    var before := cs + [FailureCall(t)] + ps;
    HealthyIsClosed(cfg, cs, t);
    FailureOpensIff(cfg, cs, t);
    CallsAppend(cfg, FRESH, cs, FailureCall(t));
    CallsConcat(cfg, FRESH, cs + [FailureCall(t)], ps);
    EarlyChangesNothing(cfg, Calls(cfg, FRESH, cs + [FailureCall(t)]), ps);
    CallsAppend(cfg, FRESH, before, probe);
    HalfOpenStays(cfg, Calls(cfg, FRESH, before + [probe]), qs);
    CallsConcat(cfg, FRESH, before + [probe], qs);
  }

  /** While the probe is out every other request is refused. If it fails at `u`, requests are
      refused until one is decided at `u + reset` or later, which is let through. */
  lemma {:induction false} FailedProbeAdmitsIff(
    cfg: Config, cs: seq<Call>, t: Time, ps: seq<Call>, probe: Call, qs: seq<Call>, u: Time, rs: seq<Call>, c: Call)
    requires Probing(cfg, cs, t, ps, probe) && Requests(qs) && Early(rs, u + cfg.reset) && c.AllowCall?
    ensures var probing := cs + [FailureCall(t)] + ps + [probe] + qs;
      && !Admits(cfg, Calls(cfg, FRESH, probing), c)
      && (Admits(cfg, Calls(cfg, FRESH, probing + [FailureCall(u)] + rs), c) <==> c.decidedAt >= u + cfg.reset)
  {
    var probing := cs + [FailureCall(t)] + ps + [probe] + qs;
    ProbeIsOut(cfg, cs, t, ps, probe, qs);
    CallsAppend(cfg, FRESH, probing, FailureCall(u));
    OpenAdmitsIff(cfg, probing + [FailureCall(u)], rs, c, u);
  }

  /** A success, and a reset, make any host healthy again. */
  lemma {:induction false} SuccessHeals(cfg: Config, cs: seq<Call>, c: Call)
    requires c.SuccessCall? || c.ResetCall?
    ensures Healthy(cfg, cs + [c])
  {
  }

  // ---------------------------------------------------------------- many workers

  lemma {:induction false} BeforePrepend(c: Call, cs: seq<Call>, now: Time)
    requires c.Ordered() && Before(cs, now)
    requires if cs == [] then c.End() <= now else c.End() <= cs[0].Start()
    ensures Before([c] + cs, now)
  {
    if cs == [] {
      assert [c] + cs == [c] && [c][..0] == [];
    } else {
      var n := |cs| - 1;
      if n > 0 {
        BeforePrepend(c, cs[..n], cs[n].Start());
      } else {
        assert cs[..0] == [];
        BeforePrepend(c, [], cs[0].Start());
        assert [c] + cs[..0] == [c] + [];
      }
      assert ([c] + cs)[..n + 1] == [c] + cs[..n];
    }
  }

  lemma {:induction false} ProjectionStarts(cfg: Config, s: World, es: seq<Event>, w: Worker, h: Host, from: Time)
    requires forall f | f in es && f.w == w :: from <= f.Start()
    ensures var cs := Projection(cfg, s, es, w, h); cs != [] ==> from <= cs[0].Start()
    decreases |es|
  {
    if es != [] {
      assert es[0] in es && forall f | f in es[1..] :: f in es;
      ProjectionStarts(cfg, Step(cfg, s, es[0]), es[1..], w, h, from);
    }
  }

  /** The calls a worker makes for a host in a timed run follow one another. */
  lemma {:induction false} TimedCalls(cfg: Config, s: World, es: seq<Event>, w: Worker, h: Host, from: Time, now: Time)
    requires TimedRun(es, from) && forall f | f in es && f.w == w :: f.End() <= now
    ensures Before(Projection(cfg, s, es, w, h), now)
    decreases |es|
  {
    if es != [] {
      var e, s' := es[0], Step(cfg, s, es[0]);
      assert e in es && forall f | f in es[1..] :: f in es;
      TimedCalls(cfg, s', es[1..], w, h, e.Start(), now);
      var rest := Projection(cfg, s', es[1..], w, h);
      if e.w == w && e.host == h {
        ProjectionStarts(cfg, s', es[1..], w, h, e.End());
        BeforePrepend(AsCall(s, e), rest, now);
        assert Projection(cfg, s, es, w, h) == [AsCall(s, e)] + rest;
      } else {
        assert Projection(cfg, s, es, w, h) == rest;
      }
    }
  }

  /** In every interleaving, a worker to which a host is healthy lets every request through that
      does not find the marker, and one that does exactly if it is decided late enough. */
  lemma {:induction false} HealthyWorkerAdmitsIff(cfg: Config, es: seq<Event>, e: Event, from: Time)
    requires e.Allows? && e.Ordered() && TimedRun(es, from)
    requires forall f | f in es && f.w == e.w :: f.End() <= e.Start()
    requires Healthy(cfg, Projection(cfg, START, es, e.w, e.host))
    ensures var s := Run(cfg, START, es);
      var found := e.redisUp && e.host in s.markers && e.checkedAt < s.markers[e.host];
      Admits(cfg, s.At(e.w, e.host), AsCall(s, e)) <==> (found ==> e.decidedAt - e.adoptedAt >= cfg.reset)
  {
    var s := Run(cfg, START, es);
    WorkersAreIndependent(cfg, START, es, e.w, e.host);
    TimedCalls(cfg, START, es, e.w, e.host, from, e.Start());
    HealthyAdmitsIff(cfg, Projection(cfg, START, es, e.w, e.host), AsCall(s, e));
  }

  /** In every interleaving, once a worker has tripped a host at `t` and made only requests since,
      refused so far, its next request is let through exactly if it is decided at `t + reset` or
      later. */
  lemma {:induction false} TrippedWorkerAdmitsIff(
    cfg: Config, es: seq<Event>, e: Event, cs: seq<Call>, t: Time, ps: seq<Call>)
    requires e.Allows? && Projection(cfg, START, es, e.w, e.host) == cs + [FailureCall(t)] + ps
    requires Trips(cfg, cs, t) && Early(ps, t + cfg.reset)
    ensures var s := Run(cfg, START, es);
      Admits(cfg, s.At(e.w, e.host), AsCall(s, e)) <==> e.decidedAt >= t + cfg.reset
  {
    var s := Run(cfg, START, es);
    WorkersAreIndependent(cfg, START, es, e.w, e.host);
    TripAdmitsIff(cfg, cs, t, ps, AsCall(s, e));
  }

  /** In every interleaving, a failure of a host that is healthy to its worker publishes the marker
      exactly if Redis is up and the failure is the threshold-th in one window. */
  lemma {:induction false} HealthyWorkerPublishesIff(cfg: Config, es: seq<Event>, e: Event, from: Time)
    requires e.Fails? && TimedRun(es, from)
    requires forall f | f in es && f.w == e.w :: f.End() <= e.at
    requires Healthy(cfg, Projection(cfg, START, es, e.w, e.host))
    ensures var cs := Projection(cfg, START, es, e.w, e.host);
      Publishes(cfg, Run(cfg, START, es), e) <==>
        e.redisUp && |InWindow(History(cs) + [e.at], cfg.window)| >= cfg.threshold
  {
    var cs := Projection(cfg, START, es, e.w, e.host);
    WorkersAreIndependent(cfg, START, es, e.w, e.host);
    TimedCalls(cfg, START, es, e.w, e.host, from, e.at);
    HealthyIsClosed(cfg, cs, e.at);
    FailureOpensIff(cfg, cs, e.at);
  }

  /** What the other workers see of the marker of a host: a publication shows until its reset time
      is over, a reported success hides it, and nothing else changes it. */
  lemma {:induction false} MarkerShows(cfg: Config, s: World, e: Event, h: Host, now: Time)
    requires cfg.reset > 0.0
    ensures Step(cfg, s, e).Reply(h, true, now).Present? <==>
      if e.host == h && Publishes(cfg, s, e) then now < e.at + cfg.reset
      else if e.host == h && e.Succeeds? && e.redisUp then false
      else s.Reply(h, true, now).Present?
  {
  }
}
