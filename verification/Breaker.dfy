/**
 The per-host circuit breaker and the OPEN marker that workers share through Redis.

 `Local` is what one process remembers about one host. The four breaker operations are
 functions on it, the class `CircuitBreaker` performs them on the four dictionaries, and
 `World` interleaves the operations of any number of workers over one marker table.
 */
module Breaker {
  import opened Common

  datatype Phase = Closed | HalfOpen | Open

  datatype Config = Config(threshold: int, window: Time, reset: Time)

  datatype Local = Local(phase: Phase, failures: seq<Time>, openSince: Time, probe: bool)

  /** What the dictionaries answer for a host they do not hold. */
  const FRESH := Local(Closed, [], 0.0, false)

  /** What a worker learns when it asks Redis for the marker of a host. */
  datatype Reply = Unreachable | Absent | Present

  // ---------------------------------------------------------------- one host in one process

  /** `allow_request`: a marker that is there is adopted at `adoptedAt`, the decision taken at
      `decidedAt`. */
  function Allow(cfg: Config, l: Local, reply: Reply, adoptedAt: Time, decidedAt: Time): (Local, bool)
  {
    var a := if l.phase.Closed? && reply.Present? then l.(phase := Open, openSince := adoptedAt) else l;
    if a.phase.Open? && decidedAt - a.openSince < cfg.reset then (a, false)
    else if a.phase.Closed? then (a, true)
    else if a.probe then (a.(phase := HalfOpen), false)
    else (a.(phase := HalfOpen, probe := true), true)
  }

  /** `_record_failure`: the second component says whether the host was tripped. */
  function RecordFailure(cfg: Config, l: Local, now: Time): (Local, bool)
  {
    var kept := Recent(l.failures, now - cfg.window) + [now];
    if |kept| >= cfg.threshold then (Local(Open, kept, now, false), true)
    else (l.(failures := kept), false)
  }

  /** `on_failure`: a failed probe reopens the host without recording or publishing. */
  function Fail(cfg: Config, l: Local, now: Time): (Local, bool)
  {
    if l.phase.HalfOpen? then (l.(phase := Open, openSince := now, probe := false), false)
    else RecordFailure(cfg, l, now)
  }

  datatype Call =
    | AllowCall(reply: Reply, checkedAt: Time, adoptedAt: Time, decidedAt: Time)
    | FailureCall(at: Time)
    | SuccessCall(at: Time)
    | ResetCall(at: Time)
  {
    function Start(): Time {
      if AllowCall? then checkedAt else at
    }

    function End(): Time {
      if AllowCall? then decidedAt else at
    }

    /** Whether the readings within the call are in order. */
    predicate Ordered() {
      AllowCall? ==> checkedAt <= adoptedAt <= decidedAt
    }
  }

  function Next(cfg: Config, l: Local, c: Call): Local
  {
    match c
    case AllowCall(reply, _, adoptedAt, decidedAt) => Allow(cfg, l, reply, adoptedAt, decidedAt).0
    case FailureCall(at) => Fail(cfg, l, at).0
    case SuccessCall(_) => FRESH
    case ResetCall(_) => FRESH
  }

  predicate Admits(cfg: Config, l: Local, c: Call) {
    c.AllowCall? && Allow(cfg, l, c.reply, c.adoptedAt, c.decidedAt).1
  }

  function Calls(cfg: Config, l: Local, cs: seq<Call>): Local
  {
    if cs == [] then l else Next(cfg, Calls(cfg, l, cs[..|cs| - 1]), cs[|cs| - 1])
  }

  /** A host is HALF_OPEN exactly while its probe is out. */
  predicate ProbeInv(l: Local) {
    l.phase.HalfOpen? <==> l.probe
  }

  lemma {:induction false} ProbeFlagMeansHalfOpen(cfg: Config, cs: seq<Call>)
    ensures ProbeInv(Calls(cfg, FRESH, cs))
  {
    if cs != [] {
      ProbeFlagMeansHalfOpen(cfg, cs[..|cs| - 1]);
    }
  }

  /** The clock never runs back inside or between the calls, and starts no earlier than `from`. */
  predicate Timed(cs: seq<Call>, from: Time)
    decreases |cs|
  {
    cs == [] || (from <= cs[0].Start() && cs[0].Ordered() && Timed(cs[1..], cs[0].End()))
  }

  function AdmittedCount(cfg: Config, l: Local, cs: seq<Call>): nat
    decreases |cs|
  {
    if cs == [] then 0
    else (if Admits(cfg, l, cs[0]) then 1 else 0) + AdmittedCount(cfg, Next(cfg, l, cs[0]), cs[1..])
  }

  predicate AdmittedBefore(cfg: Config, l: Local, cs: seq<Call>, deadline: Time)
    decreases |cs|
  {
    cs != [] && (|| (cs[0].End() < deadline && Admits(cfg, l, cs[0]))
                 || AdmittedBefore(cfg, Next(cfg, l, cs[0]), cs[1..], deadline))
  }

  /** From OPEN, any number of requests brings in at most one probe, and that one not before
      the reset time has passed. From HALF_OPEN none is let in. */
  lemma {:induction false} OneProbePerTrip(cfg: Config, l: Local, cs: seq<Call>)
    requires ProbeInv(l) && !l.phase.Closed?
    requires forall c | c in cs :: c.AllowCall?
    ensures AdmittedCount(cfg, l, cs) <= if l.phase.Open? then 1 else 0
    ensures l.phase.Open? ==> !AdmittedBefore(cfg, l, cs, l.openSince + cfg.reset)
    decreases |cs|
  {
    if cs != [] {
      var l' := Next(cfg, l, cs[0]);
      OneProbePerTrip(cfg, l', cs[1..]);
      if l'.phase.HalfOpen? {
        NoneFromHalfOpen(cfg, l', cs[1..], l.openSince + cfg.reset);
      }
    }
  }

  lemma {:induction false} NoneFromHalfOpen(cfg: Config, l: Local, cs: seq<Call>, deadline: Time)
    requires ProbeInv(l) && l.phase.HalfOpen?
    requires forall c | c in cs :: c.AllowCall?
    ensures !AdmittedBefore(cfg, l, cs, deadline)
    decreases |cs|
  {
    if cs != [] {
      NoneFromHalfOpen(cfg, Next(cfg, l, cs[0]), cs[1..], deadline);
    }
  }

  // ---------------------------------------------------------------- the failure window

  /** The failures reported since the last success or reset, after one more call. */
  function Remember(h: seq<Time>, c: Call): seq<Time>
  {
    match c
    case FailureCall(at) => h + [at]
    case AllowCall(_, _, _, _) => h
    case _ => []
  }

  /** Every failure reported since the last success or reset. */
  function History(cs: seq<Call>): seq<Time>
  {
    if cs == [] then [] else Remember(History(cs[..|cs| - 1]), cs[|cs| - 1])
  }

  /** The failures of `h` inside the window that ends at the latest of them. */
  function InWindow(h: seq<Time>, window: Time): (r: seq<Time>)
  {
    if h == [] then []
    else Recent(h[..|h| - 1], h[|h| - 1] - window) + [h[|h| - 1]]
  }

  /** The calls were made one after the other on a clock that does not run back, and all
      had ended by `now`. */
  predicate Before(cs: seq<Call>, now: Time)
  {
    cs == [] ||
    var c := cs[|cs| - 1];
    c.Ordered() && c.End() <= now && Before(cs[..|cs| - 1], c.Start())
  }

  lemma {:induction false} HistoryEnds(cs: seq<Call>, now: Time)
    requires Before(cs, now)
    ensures var h := History(cs); h != [] ==> h[|h| - 1] <= now
  {
    if cs != [] && cs[|cs| - 1].AllowCall? {
      HistoryEnds(cs[..|cs| - 1], now);
    }
  }

  lemma {:induction false} PruneAgain(front: seq<Time>, last: Time, early: Time, late: Time)
    requires early <= late
    ensures Recent(Recent(front, early) + [last], late) == Recent(front + [last], late)
  {
    RecentRecent(front, early, late);
    RecentAppend(Recent(front, early), last, late);
    RecentAppend(front, last, late);
  }

  lemma {:induction false} PruneWindow(h: seq<Time>, now: Time, window: Time)
    requires h == [] || h[|h| - 1] <= now
    ensures Recent(InWindow(h, window), now - window) == Recent(h, now - window)
  {
    if h != [] {
      var front, last := h[..|h| - 1], h[|h| - 1];
      assert front + [last] == h;
      PruneAgain(front, last, last - window, now - window);
    }
  }

  lemma {:induction false} WindowGrows(h: seq<Time>, now: Time, window: Time)
    requires h == [] || h[|h| - 1] <= now
    ensures Recent(InWindow(h, window), now - window) + [now] == InWindow(h + [now], window)
  {
    PruneWindow(h, now, window);
    var longer := h + [now];
    assert longer[..|longer| - 1] == h && longer[|longer| - 1] == now;
  }

  predicate ListIsWindow(cfg: Config, l: Local, h: seq<Time>)
  {
    l.failures == InWindow(h, cfg.window) && (h != [] ==> |l.failures| < cfg.threshold)
  }

  lemma {:induction false} ListStaysWindow(cfg: Config, l: Local, h: seq<Time>, c: Call)
    requires l.phase.Closed? ==> ListIsWindow(cfg, l, h)
    requires h == [] || h[|h| - 1] <= c.Start()
    requires Next(cfg, l, c).phase.Closed?
    ensures ListIsWindow(cfg, Next(cfg, l, c), Remember(h, c))
  {
    if c.FailureCall? {
      WindowGrows(h, c.at, cfg.window);
    }
  }

  /** While a host is CLOSED, the pruned list is the whole failure history cut down to one
      window. */
  lemma {:induction false} ClosedListIsWindow(cfg: Config, cs: seq<Call>, now: Time)
    requires Before(cs, now)
    requires Calls(cfg, FRESH, cs).phase.Closed?
    ensures ListIsWindow(cfg, Calls(cfg, FRESH, cs), History(cs))
  {
    if cs != [] {
      var front, c := cs[..|cs| - 1], cs[|cs| - 1];
      if Calls(cfg, FRESH, front).phase.Closed? {
        ClosedListIsWindow(cfg, front, c.Start());
      }
      HistoryEnds(front, c.Start());
      ListStaysWindow(cfg, Calls(cfg, FRESH, front), History(front), c);
    }
  }

  lemma {:induction false} TripStep(cfg: Config, l: Local, h: seq<Time>, now: Time)
    requires cfg.threshold >= 1 && l.phase.Closed? && ListIsWindow(cfg, l, h)
    requires h == [] || h[|h| - 1] <= now
    ensures Fail(cfg, l, now).0.phase.Open? <==> |InWindow(h + [now], cfg.window)| == cfg.threshold
    ensures |InWindow(h + [now], cfg.window)| <= cfg.threshold
  {
    WindowGrows(h, now, cfg.window);
  }

  /** A failure therefore trips a CLOSED host exactly when it is the threshold-th failure
      inside one window. */
  lemma {:induction false} FailureTripsAtThreshold(cfg: Config, cs: seq<Call>, now: Time)
    requires cfg.threshold >= 1
    requires Before(cs, now)
    requires Calls(cfg, FRESH, cs).phase.Closed?
    ensures Calls(cfg, FRESH, cs + [FailureCall(now)]).phase.Open?
       <==> |InWindow(History(cs) + [now], cfg.window)| == cfg.threshold
    ensures |InWindow(History(cs) + [now], cfg.window)| <= cfg.threshold
  {
    var l := Calls(cfg, FRESH, cs);
    assert Calls(cfg, FRESH, cs + [FailureCall(now)]) == Fail(cfg, l, now).0 by {
      assert (cs + [FailureCall(now)])[..|cs|] == cs;
    }
    ClosedListIsWindow(cfg, cs, now);
    HistoryEnds(cs, now);
    TripStep(cfg, l, History(cs), now);
  }

  // ---------------------------------------------------------------- many workers, one marker table

  type Worker = nat
  type Host = string

  /** `markers[h]` is the instant at which the OPEN marker of host `h` expires. */
  datatype World = World(locals: map<(Worker, Host), Local>, markers: map<Host, Time>)
  {
    function At(w: Worker, h: Host): Local {
      if (w, h) in locals then locals[(w, h)] else FRESH
    }

    function Reply(h: Host, redisUp: bool, now: Time): Reply {
      if !redisUp then Unreachable
      else if h in markers && now < markers[h] then Present
      else Absent
    }
  }

  datatype Event =
    | Allows(w: Worker, host: Host, redisUp: bool, checkedAt: Time, adoptedAt: Time, decidedAt: Time)
    | Fails(w: Worker, host: Host, redisUp: bool, at: Time)
    | Succeeds(w: Worker, host: Host, redisUp: bool, at: Time)
    | Resets(w: Worker, host: Host, redisUp: bool, at: Time)
  {
    function Start(): Time {
      if Allows? then checkedAt else at
    }

    function End(): Time {
      if Allows? then decidedAt else at
    }

    predicate Ordered() {
      Allows? ==> checkedAt <= adoptedAt <= decidedAt
    }
  }

  /** The call that the event is for the worker that performs it. */
  function AsCall(s: World, e: Event): (c: Call)
    ensures c.Start() == e.Start() && c.End() == e.End() && (e.Ordered() <==> c.Ordered())
  {
    match e
    case Allows(_, h, up, checkedAt, adoptedAt, decidedAt) =>
      AllowCall(s.Reply(h, up, checkedAt), checkedAt, adoptedAt, decidedAt)
    case Fails(_, _, _, at) => FailureCall(at)
    case Succeeds(_, _, _, at) => SuccessCall(at)
    case Resets(_, _, _, at) => ResetCall(at)
  }

  predicate Publishes(cfg: Config, s: World, e: Event) {
    e.Fails? && Fail(cfg, s.At(e.w, e.host), e.at).1 && e.redisUp
  }

  /** SETEX refuses a lifetime that is not positive; the refusal is only logged. */
  function MarkersAfter(cfg: Config, s: World, e: Event): map<Host, Time>
  {
    if Publishes(cfg, s, e) && cfg.reset > 0.0 then s.markers[e.host := e.at + cfg.reset]
    else if e.Succeeds? && e.redisUp then s.markers - {e.host}
    else s.markers
  }

  function Step(cfg: Config, s: World, e: Event): World
  {
    World(s.locals[(e.w, e.host) := Next(cfg, s.At(e.w, e.host), AsCall(s, e))], MarkersAfter(cfg, s, e))
  }

  /** The calls that worker `w` makes for host `h` during the run, with the replies it gets. */
  function Projection(cfg: Config, s: World, es: seq<Event>, w: Worker, h: Host): seq<Call>
    decreases |es|
  {
    if es == [] then []
    else
      (if es[0].w == w && es[0].host == h then [AsCall(s, es[0])] else [])
      + Projection(cfg, Step(cfg, s, es[0]), es[1..], w, h)
  }

  function Run(cfg: Config, s: World, es: seq<Event>): World
    decreases |es|
  {
    if es == [] then s else Run(cfg, Step(cfg, s, es[0]), es[1..])
  }

  lemma {:induction false} CallsPrepend(cfg: Config, l: Local, c: Call, cs: seq<Call>)
    ensures Calls(cfg, l, [c] + cs) == Calls(cfg, Next(cfg, l, c), cs)
  {
    if cs == [] {
      assert [c] + cs == [c] && [c][..0] == [];
    } else {
      CallsPrepend(cfg, l, c, cs[..|cs| - 1]);
      assert ([c] + cs)[..|cs|] == [c] + cs[..|cs| - 1];
    }
  }

  /** In every interleaving each worker sees its own calls only: what it remembers of a host
      is what its own calls alone would have left, so the results about one host in one
      process hold for each worker of every run. */
  lemma {:induction false} WorkersAreIndependent(cfg: Config, s: World, es: seq<Event>, w: Worker, h: Host)
    ensures Run(cfg, s, es).At(w, h) == Calls(cfg, s.At(w, h), Projection(cfg, s, es, w, h))
    decreases |es|
  {
    if es != [] {
      var s' := Step(cfg, s, es[0]);
      WorkersAreIndependent(cfg, s', es[1..], w, h);
      if es[0].w == w && es[0].host == h {
        CallsPrepend(cfg, s.At(w, h), AsCall(s, es[0]), Projection(cfg, s', es[1..], w, h));
      } else {
        assert Projection(cfg, s, es, w, h) == Projection(cfg, s', es[1..], w, h);
      }
    }
  }

  const START := World(map[], map[])

  /** In every interleaving, a host is HALF_OPEN in a worker exactly when its probe flag is set. */
  lemma EveryRunKeepsProbeInv(cfg: Config, es: seq<Event>, w: Worker, h: Host)
    ensures ProbeInv(Run(cfg, START, es).At(w, h))
  {
    WorkersAreIndependent(cfg, START, es, w, h);
    ProbeFlagMeansHalfOpen(cfg, Projection(cfg, START, es, w, h));
  }

  /** The events come in the order of the instants at which they read or write the marker. Calls
      of different workers may overlap; one worker makes its calls one after the other. */
  ghost predicate TimedRun(es: seq<Event>, from: Time)
    decreases |es|
  {
    es == [] ||
    (&& from <= es[0].Start() && es[0].Ordered()
     && (forall f | f in es[1..] && f.w == es[0].w :: es[0].End() <= f.Start())
     && TimedRun(es[1..], es[0].Start()))
  }

  /** Redis stays reachable and no worker reports a success for the host. */
  predicate Quiet(es: seq<Event>, h: Host) {
    forall e | e in es :: e.redisUp && !(e.Succeeds? && e.host == h)
  }

  /** During the run, worker `w` lets a request to `h` through before the deadline. */
  predicate LetsThrough(cfg: Config, s: World, es: seq<Event>, w: Worker, h: Host, deadline: Time) {
    AdmittedBefore(cfg, s.At(w, h), Projection(cfg, s, es, w, h), deadline)
  }

  /** What the marker guarantees about a worker: it cannot reach a probe before the deadline. */
  predicate Held(l: Local, t: Time) {
    ProbeInv(l) && (l.phase.Open? ==> l.openSince >= t)
  }

  /** A worker whose calls all start after the deadline lets nothing through before it. */
  lemma {:induction false} LateRun(
    cfg: Config, s: World, es: seq<Event>, w: Worker, h: Host, from: Time, deadline: Time)
    requires TimedRun(es, from) && forall f | f in es && f.w == w :: deadline <= f.Start()
    ensures !LetsThrough(cfg, s, es, w, h, deadline)
    decreases |es|
  {
    if es != [] {
      assert es[0] in es && forall f | f in es[1..] :: f in es;
      LateRun(cfg, Step(cfg, s, es[0]), es[1..], w, h, es[0].Start(), deadline);
      ProjectionStep(cfg, s, es, w, h, deadline);
    }
  }

  lemma {:induction false} ProjectionStep(cfg: Config, s: World, es: seq<Event>, w: Worker, h: Host, deadline: Time)
    requires es != []
    ensures LetsThrough(cfg, s, es, w, h, deadline) ==
            (|| (es[0].w == w && es[0].host == h && es[0].End() < deadline
                 && Admits(cfg, s.At(w, h), AsCall(s, es[0])))
             || LetsThrough(cfg, Step(cfg, s, es[0]), es[1..], w, h, deadline))
  {
    var rest := Projection(cfg, Step(cfg, s, es[0]), es[1..], w, h);
    if es[0].w == w && es[0].host == h {
      var all := Projection(cfg, s, es, w, h);
      assert all == [AsCall(s, es[0])] + rest;
      assert all[1..] == rest;
    } else {
      assert Projection(cfg, s, es, w, h) == rest;
    }
  }

  lemma HeldStep(cfg: Config, s: World, e: Event, w: Worker, h: Host, t: Time)
    requires t <= e.Start() && e.Ordered() && e.redisUp && !(e.Succeeds? && e.host == h)
    requires e.w == w ==> e.End() < t + cfg.reset
    requires Held(s.At(w, h), t)
    requires h in s.markers && s.markers[h] >= t + cfg.reset
    ensures e.w == w && e.host == h ==> !Admits(cfg, s.At(w, h), AsCall(s, e))
    ensures Held(Step(cfg, s, e).At(w, h), t)
    ensures var m := Step(cfg, s, e).markers; h in m && m[h] >= t + cfg.reset
  {
  }

  /** The marker's own guarantee, by induction over the interleaving. */
  lemma {:induction false} MarkerHolds(cfg: Config, s: World, es: seq<Event>, w: Worker, h: Host, t: Time, from: Time)
    requires TimedRun(es, from) && Quiet(es, h) && t <= from
    requires Held(s.At(w, h), t)
    requires h in s.markers && s.markers[h] >= t + cfg.reset
    ensures !LetsThrough(cfg, s, es, w, h, t + cfg.reset)
    decreases |es|
  {
    if es != [] {
      var e, s' := es[0], Step(cfg, s, es[0]);
      assert e in es;
      ProjectionStep(cfg, s, es, w, h, t + cfg.reset);
      if e.w == w && e.End() >= t + cfg.reset {
        LateRun(cfg, s', es[1..], w, h, e.Start(), t + cfg.reset);
      } else {
        HeldStep(cfg, s, e, w, h, t);
        MarkerHolds(cfg, s', es[1..], w, h, t, e.Start());
      }
    }
  }

  /** Once, in any run, a worker publishes the marker for a host at time `t`, a worker `w` is
      kept from the host until `t + reset` in every continuation without a success for the
      host, if and only if `w` does not have the host OPEN since before `t`. So every worker
      that was CLOSED is held, and so are the publisher and every worker whose probe is out. */
  lemma {:induction false} MarkerHoldsWorkerIff(cfg: Config, past: seq<Event>, e: Event, w: Worker)
    requires cfg.reset > 0.0 && Publishes(cfg, Run(cfg, START, past), e)
    ensures var s, h, t := Run(cfg, START, past), e.host, e.at;
      (forall es | TimedRun(es, t) && Quiet(es, h) :: !LetsThrough(cfg, Step(cfg, s, e), es, w, h, t + cfg.reset))
      <==> (w == e.w || !(s.At(w, h).phase.Open? && s.At(w, h).openSince < t))
  {
    var s, h, t := Run(cfg, START, past), e.host, e.at;
    EveryRunKeepsProbeInv(cfg, past, w, h);
    var s' := Step(cfg, s, e);
    var l := s'.At(w, h);
    if l.phase.Open? && l.openSince < t {
      EarlyProbe(cfg, s', w, h, t);
    } else {
      forall es | TimedRun(es, t) && Quiet(es, h)
        ensures !LetsThrough(cfg, s', es, w, h, t + cfg.reset)
      {
        MarkerHolds(cfg, s', es, w, h, t, t);
      }
    }
  }

  /** The failing family: OPEN since before `t`, the worker's own reset time comes first. */
  lemma EarlyProbe(cfg: Config, s: World, w: Worker, h: Host, t: Time)
    requires cfg.reset > 0.0 && ProbeInv(s.At(w, h))
    requires s.At(w, h).phase.Open? && s.At(w, h).openSince < t
    ensures exists es :: TimedRun(es, t) && Quiet(es, h) && LetsThrough(cfg, s, es, w, h, t + cfg.reset)
  {
    var due := s.At(w, h).openSince + cfg.reset;
    var at := if due < t then t else due;
    var es := [Allows(w, h, true, at, at, at)];
    assert es[1..] == [];
    ProjectionStep(cfg, s, es, w, h, t + cfg.reset);
    assert TimedRun(es, t) && Quiet(es, h) && LetsThrough(cfg, s, es, w, h, t + cfg.reset);
  }

  /** A reachable member of that family: worker 0 trips at 0 and worker 1 publishes at 5, yet
      worker 0 sends a probe before 605. */
  lemma MarkerMissesOpenWorker()
    ensures var cfg := Config(1, 300.0, 600.0);
      var s, e := Run(cfg, START, [Fails(0, "h", true, 0.0)]), Fails(1, "h", true, 5.0);
      Publishes(cfg, s, e)
      && exists es :: TimedRun(es, 5.0) && Quiet(es, "h") && LetsThrough(cfg, Step(cfg, s, e), es, 0, "h", 605.0)
  {
    var cfg := Config(1, 300.0, 600.0);
    var past := [Fails(0, "h", true, 0.0)];
    assert past[1..] == [];
    EarlyProbe(cfg, Step(cfg, Run(cfg, START, past), Fails(1, "h", true, 5.0)), 0, "h", 5.0);
  }

  // ---------------------------------------------------------------- the breaker object

  /** The one Redis key per host that the breakers share. */
  class MarkerStore {
    var reachable: bool
    var markers: map<Host, Time>

    constructor ()
      ensures reachable && markers == map[]
    {
      reachable, markers := true, map[];
    }

    function Reply(host: Host, now: Time): Reply
      reads this
    {
      World(map[], markers).Reply(host, reachable, now)
    }

    method SetEx(host: Host, seconds: Time, now: Time)
      modifies this`markers
      ensures markers == if reachable && seconds > 0.0 then old(markers)[host := now + seconds] else old(markers)
    {
      if reachable && seconds > 0.0 {
        markers := markers[host := now + seconds];
      }
    }

    method Delete(host: Host)
      modifies this`markers
      ensures markers == if reachable then old(markers) - {host} else old(markers)
    {
      if reachable {
        markers := markers - {host};
      }
    }
  }

  class CircuitBreaker {
    const cfg: Config
    const store: MarkerStore
    var state: map<Host, Phase>
    var failures: map<Host, seq<Time>>
    var openSince: map<Host, Time>
    var probeSent: map<Host, bool>

    constructor (cfg: Config, store: MarkerStore)
      ensures this.cfg == cfg && this.store == store
      ensures forall h :: View(h) == FRESH
    {
      this.cfg, this.store := cfg, store;
      state, failures, openSince, probeSent := map[], map[], map[], map[];
    }

    function View(host: Host): Local
      reads this
    {
      Local(Get(state, host, Closed), Get(failures, host, []), Get(openSince, host, 0.0), Get(probeSent, host, false))
    }

    method AllowRequest(host: Host, checkedAt: Time, adoptedAt: Time, decidedAt: Time) returns (allowed: bool)
      modifies this
      ensures (View(host), allowed) == Allow(cfg, old(View(host)), store.Reply(host, checkedAt), adoptedAt, decidedAt)
      ensures forall h | h != host :: View(h) == old(View(h))
    {
      var phase := Get(state, host, Closed);
      if phase.Closed? && store.Reply(host, checkedAt).Present? {
        state := state[host := Open];
        openSince := openSince[host := adoptedAt];
        phase := Open;
      }
      if phase.Open? {
        var since := Get(openSince, host, 0.0);
        if decidedAt - since >= cfg.reset {
          state := state[host := HalfOpen];
        } else {
          return false;
        }
      }
      phase := Get(state, host, Closed);
      if phase.HalfOpen? {
        if Get(probeSent, host, false) {
          return false;
        }
        probeSent := probeSent[host := true];
        return true;
      }
      return true;
    }

    method OnSuccess(host: Host)
      modifies this, store`markers
      ensures View(host) == FRESH
      ensures forall h | h != host :: View(h) == old(View(h))
      ensures store.markers == if store.reachable then old(store.markers) - {host} else old(store.markers)
    {
      failures := failures - {host};
      state := state[host := Closed];
      openSince := openSince - {host};
      probeSent := probeSent - {host};
      store.Delete(host);
    }

    method OnFailure(host: Host, now: Time)
      modifies this, store`markers
      ensures View(host) == Fail(cfg, old(View(host)), now).0
      ensures forall h | h != host :: View(h) == old(View(h))
      ensures store.markers ==
        if Fail(cfg, old(View(host)), now).1 && store.reachable && cfg.reset > 0.0
        then old(store.markers)[host := now + cfg.reset] else old(store.markers)
    {
      var phase := Get(state, host, Closed);
      if phase.HalfOpen? {
        state := state[host := Open];
        openSince := openSince[host := now];
        probeSent := probeSent[host := false];
        return;
      }
      RecordFailureFor(host, now);
    }

    method RecordFailureFor(host: Host, now: Time)
      modifies this, store`markers
      ensures View(host) == RecordFailure(cfg, old(View(host)), now).0
      ensures forall h | h != host :: View(h) == old(View(h))
      ensures store.markers ==
        if RecordFailure(cfg, old(View(host)), now).1 && store.reachable && cfg.reset > 0.0
        then old(store.markers)[host := now + cfg.reset] else old(store.markers)
    {
      var kept := Recent(Get(failures, host, []), now - cfg.window) + [now];
      failures := failures[host := kept];
      if |kept| >= cfg.threshold {
        state := state[host := Open];
        openSince := openSince[host := now];
        probeSent := probeSent[host := false];
        store.SetEx(host, cfg.reset, now);
      }
    }

    method Reset(host: Host)
      modifies this
      ensures View(host) == FRESH
      ensures forall h | h != host :: View(h) == old(View(h))
    {
      state := state - {host};
      failures := failures - {host};
      openSince := openSince - {host};
      probeSent := probeSent - {host};
    }
  }
}
