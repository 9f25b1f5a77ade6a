/** The sliding window over the full history of grants: what every sliding limiter refines. */
module SlidingWindow {
  import opened Common

  datatype Budget = Budget(limit: nat, window: Time)

  /** Fewer than the limit were granted in the window that ends now. */
  predicate Allows(b: Budget, grants: seq<Time>, now: Time) {
    |Recent(grants, now - b.window)| < b.limit
  }

  function Granting(b: Budget, grants: seq<Time>, now: Time): seq<Time> {
    if Allows(b, grants, now) then grants + [now] else grants
  }

  /** The grants of a run of requests at the given times. */
  function GrantsOf(b: Budget, times: seq<Time>): seq<Time> {
    if times == [] then []
    else Granting(b, GrantsOf(b, times[..|times| - 1]), times[|times| - 1])
  }

  /** Each grant comes a whole window after the one `limit` places before it. */
  ghost predicate Spaced(b: Budget, grants: seq<Time>) {
    forall i: nat | i + b.limit < |grants| :: Apart(b, grants, i)
  }

  ghost predicate Apart(b: Budget, grants: seq<Time>, i: nat)
    requires i + b.limit < |grants|
  {
    grants[i + b.limit] - grants[i] >= b.window
  }

  lemma {:induction false} RecentTail(xs: seq<Time>, k: nat, cutoff: Time)
    requires k < |xs| && Nondecreasing(xs) && xs[k] > cutoff
    ensures |Recent(xs, cutoff)| >= |xs| - k
    decreases |xs|
  {
    if k < |xs| - 1 {
      RecentTail(xs[..|xs| - 1], k, cutoff);
    }
  }

  lemma {:induction false} GrantingKeepsSpacing(b: Budget, grants: seq<Time>, now: Time)
    requires Nondecreasing(grants) && Spaced(b, grants)
    requires grants != [] ==> grants[|grants| - 1] <= now
    ensures Nondecreasing(Granting(b, grants, now)) && Spaced(b, Granting(b, grants, now))
  {
    if Allows(b, grants, now) {
      var r := grants + [now];
      if |grants| >= b.limit && grants[|grants| - b.limit] > now - b.window {
        RecentTail(grants, |grants| - b.limit, now - b.window);
      }
      forall i: nat | i + b.limit < |r| ensures Apart(b, r, i) {
        if i + b.limit < |grants| {
          assert Apart(b, grants, i);
        }
      }
    }
  }

  lemma {:induction false} GrantsAreSpaced(b: Budget, times: seq<Time>)
    requires Nondecreasing(times)
    ensures var g := GrantsOf(b, times);
      && Nondecreasing(g) && Spaced(b, g)
      && (g != [] ==> times != [] && g[|g| - 1] <= times[|times| - 1])
  {
    if times != [] {
      GrantsAreSpaced(b, times[..|times| - 1]);
      GrantingKeepsSpacing(b, GrantsOf(b, times[..|times| - 1]), times[|times| - 1]);
    }
  }

  /** The places of the grants later than `cutoff`. */
  ghost function After(grants: seq<Time>, cutoff: Time): set<int> {
    set i | 0 <= i < |grants| && grants[i] > cutoff
  }

  lemma {:induction false} RecentCount(xs: seq<Time>, cutoff: Time)
    ensures |Recent(xs, cutoff)| == |After(xs, cutoff)|
  {
    if xs == [] {
      assert After(xs, cutoff) == {};
    } else {
      var n := |xs| - 1;
      RecentCount(xs[..n], cutoff);
      assert n !in After(xs[..n], cutoff);
      assert After(xs, cutoff) == if xs[n] > cutoff then After(xs[..n], cutoff) + {n} else After(xs[..n], cutoff);
    }
  }

  /** In every run, a request is granted exactly if fewer than the limit of the grants so far are
      less than a window old. */
  lemma {:induction false} GrantedIff(b: Budget, times: seq<Time>, now: Time)
    ensures var g := GrantsOf(b, times);
      GrantsOf(b, times + [now]) == if |After(g, now - b.window)| < b.limit then g + [now] else g
  {
    RecentCount(GrantsOf(b, times), now - b.window);
    assert (times + [now])[..|times|] == times;
  }

  /** How many stamps lie in the half-open interval from `from` to `to`. */
  function Between(xs: seq<Time>, from: Time, to: Time): nat {
    if xs == [] then 0
    else Between(xs[..|xs| - 1], from, to) + if from <= xs[|xs| - 1] < to then 1 else 0
  }

  lemma {:induction false} NoneBefore(xs: seq<Time>, k: nat, from: Time, to: Time)
    requires k <= |xs| && forall i | 0 <= i < k :: xs[i] < from
    ensures Between(xs, from, to) <= |xs| - k
  {
    if xs != [] {
      NoneBefore(xs[..|xs| - 1], if k < |xs| then k else k - 1, from, to);
    }
  }

  lemma {:induction false} SpacedWindow(b: Budget, grants: seq<Time>, t: Time)
    requires Nondecreasing(grants) && Spaced(b, grants)
    ensures Between(grants, t, t + b.window) <= b.limit
  {
    var n := |grants|;
    if n <= b.limit {
      NoneBefore(grants, 0, t, t + b.window);
    } else if t <= grants[n - 1] < t + b.window {
      var k := n - b.limit;
      forall i | 0 <= i < k ensures grants[i] < t {
        assert Apart(b, grants, k - 1);
        assert i == k - 1 || grants[i] <= grants[k - 1];
      }
      NoneBefore(grants, k, t, t + b.window);
    } else {
      var front := grants[..n - 1];
      assert forall i: nat | i + b.limit < |front| :: Apart(b, grants, i) ==> Apart(b, front, i);
      SpacedWindow(b, front, t);
    }
  }

  /** No interval of one window's length, wherever it starts, holds more grants than the limit. */
  lemma {:induction false} NoWindowOverLimit(b: Budget, times: seq<Time>, t: Time)
    requires Nondecreasing(times)
    ensures Between(GrantsOf(b, times), t, t + b.window) <= b.limit
  {
    GrantsAreSpaced(b, times);
    SpacedWindow(b, GrantsOf(b, times), t);
  }

  lemma {:induction false} RecentDrop(xs: seq<Time>, cutoff: Time)
    requires xs != [] && xs[0] <= cutoff
    ensures Recent(xs[1..], cutoff) == Recent(xs, cutoff)
  {
    var n := |xs| - 1;
    if n > 0 {
      RecentDrop(xs[..n], cutoff);
      assert xs[1..][..n - 1] == xs[..n][1..];
    }
  }

  lemma {:induction false} RecentAll(xs: seq<Time>, cutoff: Time)
    requires forall i | 0 <= i < |xs| :: xs[i] > cutoff
    ensures Recent(xs, cutoff) == xs
  {
    if xs != [] {
      var n := |xs| - 1;
      RecentAll(xs[..n], cutoff);
      assert xs == xs[..n] + [xs[n]];
    }
  }

  lemma {:induction false} RecentNondecreasing(xs: seq<Time>, cutoff: Time)
    requires Nondecreasing(xs)
    ensures Nondecreasing(Recent(xs, cutoff))
    ensures Recent(xs, cutoff) != [] ==> Recent(xs, cutoff)[|Recent(xs, cutoff)| - 1] == xs[|xs| - 1]
  {
    if xs != [] {
      var front, last := xs[..|xs| - 1], xs[|xs| - 1];
      RecentNondecreasing(front, cutoff);
      if last <= cutoff {
        RecentEmpty(xs, cutoff);
      } else if |xs| > 1 {
        assert xs[|xs| - 2] <= last;
      }
    }
  }

  /** `kept` is what the last request, at `clock`, left of all the grants so far. */
  ghost predicate Kept(b: Budget, granted: seq<Time>, kept: seq<Time>, clock: Time) {
    && Nondecreasing(granted) && Spaced(b, granted) && (granted != [] ==> granted[|granted| - 1] <= clock)
    && Nondecreasing(kept) && kept == Recent(granted, clock - b.window)
  }

  lemma {:induction false} NextStamps(b: Budget, granted: seq<Time>, now: Time, r: seq<Time>)
    requires b.window > 0.0 && Nondecreasing(granted) && (granted != [] ==> granted[|granted| - 1] <= now)
    requires r == Recent(granted, now - b.window)
    ensures Nondecreasing(r) && Nondecreasing(r + [now]) && Recent(granted + [now], now - b.window) == r + [now]
  {
    RecentNondecreasing(granted, now - b.window);
    RecentAppend(granted, now, now - b.window);
  }

  lemma {:induction false} StampsKept(
    b: Budget, granted: seq<Time>, now: Time, r: seq<Time>, granted': seq<Time>, kept': seq<Time>)
    requires b.window > 0.0 && Nondecreasing(granted) && Spaced(b, granted) &&
      (granted != [] ==> granted[|granted| - 1] <= now)
    requires r == Recent(granted, now - b.window)
    requires if |r| < b.limit then granted' == granted + [now] && kept' == r + [now]
             else granted' == granted && kept' == r
    ensures granted' == Granting(b, granted, now)
    ensures Kept(b, granted', kept', now)
  {
    GrantingKeepsSpacing(b, granted, now);
    NextStamps(b, granted, now, r);
  }

  lemma {:induction false} AcquireKeeps(
    b: Budget, granted: seq<Time>, kept: seq<Time>, clock: Time, now: Time, r: seq<Time>, next: seq<Time>)
    requires b.window > 0.0 && Kept(b, granted, kept, clock) && clock <= now
    requires r == Recent(kept, now - b.window) && next == Granting(b, granted, now)
    ensures |r| < b.limit <==> Allows(b, granted, now)
    ensures |r| < b.limit ==> Kept(b, next, r + [now], now)
    ensures |r| >= b.limit ==> Kept(b, next, r, now)
  {
    RecentRecent(granted, clock - b.window, now - b.window);
    StampsKept(b, granted, now, r, next, if |r| < b.limit then r + [now] else r);
  }

  /** The limiter in front of the block source. It keeps only the stamps of the last window;
      `granted` is the whole history. */
  class SlidingWindowRateLimiter {
    const budget: Budget
    var timestamps: seq<Time>
    ghost var granted: seq<Time>
    ghost var clock: Time

    ghost predicate Valid()
      reads this
    {
      budget.window > 0.0 && Kept(budget, granted, timestamps, clock)
    }

    constructor (limit: nat, window: Time, now: Time)
      requires limit > 0 && window > 0.0
      ensures Valid() && budget == Budget(limit, window) && clock == now && granted == []
    {
      budget := Budget(limit, window);
      timestamps, granted, clock := [], [], now;
    }

    method DiscardExpired(now: Time)
      requires Nondecreasing(timestamps)
      modifies this`timestamps
      ensures timestamps == Recent(old(timestamps), now - budget.window)
    {
      var cutoff := now - budget.window;
      while timestamps != [] && timestamps[0] <= cutoff
        invariant Nondecreasing(timestamps) && Recent(timestamps, cutoff) == Recent(old(timestamps), cutoff)
        decreases |timestamps|
      {
        RecentDrop(timestamps, cutoff);
        timestamps := timestamps[1..];
      }
      RecentAll(timestamps, cutoff);
    }

    /** Grants exactly when fewer than the limit of all grants ever made fall in the last
        window. */
    method TryAcquire(now: Time) returns (ok: bool)
      requires Valid() && clock <= now
      modifies this
      ensures Valid() && clock == now
      ensures ok == (|After(old(granted), now - budget.window)| < budget.limit)
      ensures granted == if ok then old(granted) + [now] else old(granted)
    {
      RecentCount(granted, now - budget.window);
      ghost var r := Recent(timestamps, now - budget.window);
      ghost var next := Granting(budget, granted, now);
      AcquireKeeps(budget, granted, timestamps, clock, now, r, next);
      ok := Record(now, r);
      granted, clock := next, now;
    }

    method Record(now: Time, ghost r: seq<Time>) returns (ok: bool)
      requires Nondecreasing(timestamps) && r == Recent(timestamps, now - budget.window)
      modifies this`timestamps
      ensures ok == (|r| < budget.limit) && timestamps == if ok then r + [now] else r
    {
      DiscardExpired(now);
      if |timestamps| >= budget.limit {
        return false;
      }
      timestamps := timestamps + [now];
      return true;
    }
  }
}

/**
 The in-process limiters that keep one pruned list per key: the login limiter, which sweeps
 when its dictionary grows past a threshold, and the local path of the event limiter, which is
 only swept from outside.
 */
module KeyedWindows {
  import opened Common
  import opened SlidingWindow

  type Hits = map<string, seq<Time>>

  /** `sweeps`: when a request sweeps the dictionary before it decides. */
  datatype Config = Config(budget: Budget, sweeps: Hits -> bool)

  predicate Stale(hits: seq<Time>, cutoff: Time) {
    hits == [] || hits[|hits| - 1] <= cutoff
  }

  function StaleKeys(m: Hits, cutoff: Time): set<string> {
    set k | k in m && Stale(m[k], cutoff)
  }

  function Swept(c: Config, m: Hits, cutoff: Time): Hits {
    if c.sweeps(m) then m - StaleKeys(m, cutoff) else m
  }

  /** A request: prune the key's own list, sweep if need be, decide. Reading a key that is not
      there puts an empty list there. */
  function Handle(c: Config, m: Hits, key: string, now: Time): (Hits, bool) {
    Decide(c.budget, Swept(c, Pruned(c.budget, m, key, now), now - c.budget.window), key, now)
  }

  function Pruned(b: Budget, m: Hits, key: string, now: Time): Hits {
    m[key := Recent(Get(m, key, []), now - b.window)]
  }

  function Decide(b: Budget, m: Hits, key: string, now: Time): (Hits, bool) {
    var hits := Get(m, key, []);
    if |hits| >= b.limit then (m[key := hits], false) else (m[key := hits + [now]], true)
  }

  datatype Event = Request(key: string, now: Time) | Sweep(now: Time)

  /** The decisions of a run, in order. */
  function Decisions(c: Config, m: Hits, es: seq<Event>): seq<bool>
    decreases |es|
  {
    if es == [] then []
    else match es[0]
      case Request(key, now) =>
        var h := Handle(c, m, key, now);
        [h.1] + Decisions(c, h.0, es[1..])
      case Sweep(now) => Decisions(c, m - StaleKeys(m, now - c.budget.window), es[1..])
  }

  /** The reference: a limiter that remembers every grant and never forgets one. */
  function Remembering(b: Budget, all: Hits, e: Event): Hits {
    if e.Request? then all[e.key := Granting(b, Get(all, e.key, []), e.now)] else all
  }

  function IdealDecisions(b: Budget, all: Hits, es: seq<Event>): seq<bool>
    decreases |es|
  {
    if es == [] then []
    else
      (if es[0].Request? then [Allows(b, Get(all, es[0].key, []), es[0].now)] else [])
      + IdealDecisions(b, Remembering(b, all, es[0]), es[1..])
  }

  function IdealGrants(b: Budget, all: Hits, es: seq<Event>): Hits
    decreases |es|
  {
    if es == [] then all else IdealGrants(b, Remembering(b, all, es[0]), es[1..])
  }

  ghost predicate Timed(clock: Time, es: seq<Event>)
    decreases |es|
  {
    es == [] || (clock <= es[0].now && Timed(es[0].now, es[1..]))
  }

  // ---------------------------------------------------------------- agreement with the reference

  ghost predicate Bounded(xs: seq<Time>, max: Time) {
    forall i | 0 <= i < |xs| :: xs[i] <= max
  }

  /** The last stamp is the latest, and not in the future. */
  ghost predicate UpTo(xs: seq<Time>, clock: Time) {
    xs != [] ==> Bounded(xs, xs[|xs| - 1]) && xs[|xs| - 1] <= clock
  }

  lemma {:induction false} RecentBounded(xs: seq<Time>, cutoff: Time, max: Time)
    requires Bounded(xs, max)
    ensures Bounded(Recent(xs, cutoff), max) && (max <= cutoff ==> Recent(xs, cutoff) == [])
  {
    if xs != [] {
      RecentBounded(xs[..|xs| - 1], cutoff, max);
    }
  }

  lemma {:induction false} RecentUpTo(xs: seq<Time>, cutoff: Time, clock: Time)
    requires UpTo(xs, clock)
    ensures UpTo(Recent(xs, cutoff), clock)
    ensures Stale(xs, cutoff) ==> Recent(xs, cutoff) == []
  {
    if xs != [] {
      RecentBounded(xs, cutoff, xs[|xs| - 1]);
      var front := Recent(xs[..|xs| - 1], cutoff);
      assert xs[|xs| - 1] > cutoff ==> Recent(xs, cutoff) == front + [xs[|xs| - 1]];
    }
  }

  /** A kept list and a full history that show the same window from now on. */
  ghost predicate Agree(b: Budget, hits: seq<Time>, all: seq<Time>, clock: Time) {
    UpTo(hits, clock) && Recent(hits, clock - b.window) == Recent(all, clock - b.window)
  }

  ghost predicate AgreeAt(b: Budget, m: Hits, all: Hits, clock: Time, key: string) {
    Agree(b, Get(m, key, []), Get(all, key, []), clock)
  }

  ghost predicate Inv(b: Budget, m: Hits, all: Hits, clock: Time) {
    b.window > 0.0 && forall key: string :: AgreeAt(b, m, all, clock, key)
  }

  lemma {:induction false} AgreeLater(b: Budget, hits: seq<Time>, all: seq<Time>, clock: Time, now: Time)
    requires Agree(b, hits, all, clock) && clock <= now
    ensures Agree(b, hits, all, now)
  {
    RecentRecent(hits, clock - b.window, now - b.window);
    RecentRecent(all, clock - b.window, now - b.window);
  }

  lemma {:induction false} AgreePruned(b: Budget, hits: seq<Time>, all: seq<Time>, now: Time)
    requires Agree(b, hits, all, now)
    ensures Agree(b, Recent(hits, now - b.window), all, now)
  {
    RecentRecent(hits, now - b.window, now - b.window);
    RecentUpTo(hits, now - b.window, now);
  }

  lemma {:induction false} AgreeStale(b: Budget, hits: seq<Time>, all: seq<Time>, now: Time)
    requires Agree(b, hits, all, now) && Stale(hits, now - b.window)
    ensures Agree(b, [], all, now)
  {
    RecentUpTo(hits, now - b.window, now);
  }

  lemma {:induction false} WaitKeeps(b: Budget, m: Hits, all: Hits, clock: Time, now: Time)
    requires Inv(b, m, all, clock) && clock <= now
    ensures Inv(b, m, all, now)
  {
    forall key: string ensures AgreeAt(b, m, all, now, key) {
      assert AgreeAt(b, m, all, clock, key);
      AgreeLater(b, Get(m, key, []), Get(all, key, []), clock, now);
    }
  }

  lemma {:induction false} SweepKeeps(b: Budget, m: Hits, all: Hits, now: Time)
    requires Inv(b, m, all, now)
    ensures Inv(b, m - StaleKeys(m, now - b.window), all, now)
  {
    var m' := m - StaleKeys(m, now - b.window);
    forall key: string ensures AgreeAt(b, m', all, now, key) {
      assert AgreeAt(b, m, all, now, key);
      if key in StaleKeys(m, now - b.window) {
        AgreeStale(b, m[key], Get(all, key, []), now);
      }
    }
  }

  lemma {:induction false} PruneKeeps(b: Budget, m: Hits, all: Hits, now: Time, key: string)
    requires Inv(b, m, all, now)
    ensures Inv(b, Pruned(b, m, key, now), all, now)
  {
    var m' := Pruned(b, m, key, now);
    forall k: string ensures AgreeAt(b, m', all, now, k) {
      assert AgreeAt(b, m, all, now, k);
      if k == key {
        AgreePruned(b, Get(m, key, []), Get(all, key, []), now);
      }
    }
  }

  /** Once the key's list has been pruned and the dictionary swept, what is left of the list is
      exactly the last window of the key's history. */
  lemma {:induction false} WindowIsLeft(c: Config, m: Hits, all: Hits, now: Time, key: string, swept: Hits)
    requires Inv(c.budget, m, all, now)
    requires swept == Swept(c, Pruned(c.budget, m, key, now), now - c.budget.window)
    ensures Inv(c.budget, swept, all, now) && Get(swept, key, []) == Recent(Get(all, key, []), now - c.budget.window)
  {
    PruneKeeps(c.budget, m, all, now, key);
    SweepKeeps(c.budget, Pruned(c.budget, m, key, now), all, now);
    assert AgreeAt(c.budget, m, all, now, key);
    assert AgreeAt(c.budget, swept, all, now, key);
  }

  lemma {:induction false} DecideKeeps(b: Budget, m: Hits, all: Hits, now: Time, key: string)
    requires Inv(b, m, all, now) && Get(m, key, []) == Recent(Get(all, key, []), now - b.window)
    ensures Decide(b, m, key, now).1 == Allows(b, Get(all, key, []), now)
    ensures Inv(b, Decide(b, m, key, now).0, Remembering(b, all, Request(key, now)), now)
  {
    var m', all' := Decide(b, m, key, now).0, Remembering(b, all, Request(key, now));
    forall k: string ensures AgreeAt(b, m', all', now, k) {
      assert AgreeAt(b, m, all, now, k);
    }
  }

  lemma {:induction false} RequestKeeps(c: Config, m: Hits, all: Hits, clock: Time, key: string, now: Time)
    requires Inv(c.budget, m, all, clock) && clock <= now
    ensures Handle(c, m, key, now).1 == Allows(c.budget, Get(all, key, []), now)
    ensures Inv(c.budget, Handle(c, m, key, now).0, Remembering(c.budget, all, Request(key, now)), now)
  {
    var swept := Swept(c, Pruned(c.budget, m, key, now), now - c.budget.window);
    WaitKeeps(c.budget, m, all, clock, now);
    WindowIsLeft(c, m, all, now, key, swept);
    DecideKeeps(c.budget, swept, all, now, key);
  }

  /** Pruning and sweeping, at whatever threshold and at whatever moments, never change a
      decision: every run decides as the limiter that forgets nothing. */
  lemma {:induction false} SweepingChangesNothing(c: Config, m: Hits, all: Hits, clock: Time, es: seq<Event>)
    requires Inv(c.budget, m, all, clock) && Timed(clock, es)
    ensures Decisions(c, m, es) == IdealDecisions(c.budget, all, es)
    decreases |es|
  {
    if es != [] {
      var e := es[0];
      var all' := Remembering(c.budget, all, e);
      if e.Request? {
        RequestKeeps(c, m, all, clock, e.key, e.now);
        SweepingChangesNothing(c, Handle(c, m, e.key, e.now).0, all', e.now, es[1..]);
      } else {
        WaitKeeps(c.budget, m, all, clock, e.now);
        SweepKeeps(c.budget, m, all, e.now);
        SweepingChangesNothing(c, m - StaleKeys(m, e.now - c.budget.window), all', e.now, es[1..]);
      }
    }
  }

  ghost predicate AllSpaced(b: Budget, all: Hits, clock: Time) {
    forall key | key in all :: Spaced(b, all[key]) && Nondecreasing(all[key]) && UpTo(all[key], clock)
  }

  lemma {:induction false} IdealKeyWithinLimit(b: Budget, all: Hits, clock: Time, es: seq<Event>, key: string, t: Time)
    requires AllSpaced(b, all, clock) && Timed(clock, es)
    ensures Between(Get(IdealGrants(b, all, es), key, []), t, t + b.window) <= b.limit
    decreases |es|
  {
    if es == [] {
      SpacedWindow(b, Get(all, key, []), t);
    } else {
      var e := es[0];
      if e.Request? {
        GrantingKeepsSpacing(b, Get(all, e.key, []), e.now);
      }
      IdealKeyWithinLimit(b, Remembering(b, all, e), e.now, es[1..], key, t);
    }
  }

  /** The times at which the run grants requests of the key. */
  function GrantTimes(c: Config, m: Hits, es: seq<Event>, key: string): seq<Time>
    decreases |es|
  {
    if es == [] then []
    else match es[0]
      case Request(k, now) =>
        var h := Handle(c, m, k, now);
        (if k == key && h.1 then [now] else []) + GrantTimes(c, h.0, es[1..], key)
      case Sweep(now) => GrantTimes(c, m - StaleKeys(m, now - c.budget.window), es[1..], key)
  }

  lemma {:induction false} GrantNoted(b: Budget, all: Hits, e: Event, key: string, ok: bool, rest: seq<Time>)
    requires e.Request? && ok == Allows(b, Get(all, e.key, []), e.now)
    ensures Get(Remembering(b, all, e), key, []) + rest ==
      Get(all, key, []) + ((if e.key == key && ok then [e.now] else []) + rest)
  {
  }

  lemma {:induction false} GrantTimesAreIdeal(c: Config, m: Hits, all: Hits, clock: Time, es: seq<Event>, key: string)
    requires Inv(c.budget, m, all, clock) && Timed(clock, es)
    ensures Get(IdealGrants(c.budget, all, es), key, []) == Get(all, key, []) + GrantTimes(c, m, es, key)
    decreases |es|
  {
    if es == [] {
      assert Get(all, key, []) + [] == Get(all, key, []);
    } else {
      var e := es[0];
      var all' := Remembering(c.budget, all, e);
      if e.Request? {
        var h := Handle(c, m, e.key, e.now);
        RequestKeeps(c, m, all, clock, e.key, e.now);
        GrantTimesAreIdeal(c, h.0, all', e.now, es[1..], key);
        var rest := GrantTimes(c, h.0, es[1..], key);
        GrantNoted(c.budget, all, e, key, h.1, rest);
        assert GrantTimes(c, m, es, key) == (if e.key == key && h.1 then [e.now] else []) + rest;
      } else {
        WaitKeeps(c.budget, m, all, clock, e.now);
        SweepKeeps(c.budget, m, all, e.now);
        GrantTimesAreIdeal(c, m - StaleKeys(m, e.now - c.budget.window), all', e.now, es[1..], key);
        assert GrantTimes(c, m, es, key) == GrantTimes(c, m - StaleKeys(m, e.now - c.budget.window), es[1..], key);
      }
    }
  }

  /** In every run of the pruning and sweeping limiter, no key is granted more than the limit in
      an interval of one window's length. */
  lemma {:induction false} NoKeyOverLimit(c: Config, clock: Time, es: seq<Event>, key: string, t: Time)
    requires c.budget.window > 0.0 && Timed(clock, es)
    ensures Between(GrantTimes(c, map[], es, key), t, t + c.budget.window) <= c.budget.limit
  {
    FromNothing(c, map[], clock, es, key);
    IdealKeyWithinLimit(c.budget, map[], clock, es, key, t);
  }

  lemma {:induction false} FromNothing(c: Config, none: Hits, clock: Time, es: seq<Event>, key: string)
    requires c.budget.window > 0.0 && Timed(clock, es) && none == map[]
    ensures Get(IdealGrants(c.budget, none, es), key, []) == GrantTimes(c, none, es, key)
  {
    GrantTimesAreIdeal(c, none, none, clock, es, key);
    assert [] + GrantTimes(c, none, es, key) == GrantTimes(c, none, es, key);
  }

  // ---------------------------------------------------------------- the dictionaries

  /** Deletes the stale keys one by one. */
  method CullStale(m: Hits, cutoff: Time) returns (r: Hits, n: nat)
    ensures r == m - StaleKeys(m, cutoff) && n == |StaleKeys(m, cutoff)|
  {
    var expired := StaleKeys(m, cutoff);
    n := |expired|;
    r := m;
    ghost var gone: set<string> := {};
    while expired != {}
      invariant r == m - gone && gone + expired == StaleKeys(m, cutoff)
      decreases |expired|
    {
      var key :| key in expired;
      r := r - {key};
      gone := gone + {key};
      expired := expired - {key};
    }
  }

  /** The login limiter sweeps when it holds more keys than its threshold. */
  function Above(threshold: nat): Hits -> bool {
    (m: Hits) => |m| > threshold
  }

  function Never(): Hits -> bool {
    (m: Hits) => false
  }

  /** A key is stale exactly if none of its stamps is in the window any more. */
  lemma {:induction false} StaleIff(hits: seq<Time>, cutoff: Time, clock: Time)
    requires UpTo(hits, clock)
    ensures Stale(hits, cutoff) <==> Recent(hits, cutoff) == []
    ensures Stale(hits, cutoff) <==> forall i | 0 <= i < |hits| :: hits[i] <= cutoff
  {
    RecentUpTo(hits, cutoff, clock);
  }

  /** A request that finds more keys than the threshold leaves no stale key but its own; any other
      leaves all keys. */
  lemma {:induction false} SweepsAboveThreshold(b: Budget, threshold: nat, m: Hits, key: string, now: Time)
    ensures var m' := Handle(Config(b, Above(threshold)), m, key, now).0;
      && (|m.Keys + {key}| <= threshold ==> m'.Keys == m.Keys + {key})
      && (|m.Keys + {key}| > threshold ==>
            forall k: string :: k in m' <==> k == key || (k in m && !Stale(m[k], now - b.window)))
      && forall k | k in m' && k != key :: k in m && m'[k] == m[k]
  {
    var pruned := Pruned(b, m, key, now);
    assert pruned.Keys == m.Keys + {key};
    assert |pruned| == |pruned.Keys|;
  }

  class SimpleRateLimiter {
    const budget: Budget
    const threshold: nat
    var requests: Hits
    ghost var granted: Hits
    ghost var clock: Time

    ghost predicate Valid()
      reads this
    {
      Inv(budget, requests, granted, clock)
    }

    constructor (budget: Budget, threshold: nat, now: Time)
      requires budget.window > 0.0
      ensures Valid() && this.budget == budget && this.threshold == threshold
      ensures clock == now && requests == map[] && granted == map[]
    {
      this.budget, this.threshold := budget, threshold;
      requests, granted, clock := map[], map[], now;
    }

    /** Decides by the key's whole history, and keeps of it what `Handle` keeps. */
    method IsAllowed(key: string, now: Time) returns (ok: bool)
      requires Valid() && clock <= now
      modifies this
      ensures Valid() && clock == now && granted == Remembering(budget, old(granted), Request(key, now))
      ensures ok == (|After(Get(old(granted), key, []), now - budget.window)| < budget.limit)
      ensures (requests, ok) == Handle(Config(budget, Above(threshold)), old(requests), key, now)
    {
      RecentCount(Get(granted, key, []), now - budget.window);
      RequestKeeps(Config(budget, Above(threshold)), requests, granted, clock, key, now);
      granted, clock := Remembering(budget, granted, Request(key, now)), now;
      ok := Record(key, now);
    }

    method Record(key: string, now: Time) returns (ok: bool)
      modifies this`requests
      ensures (requests, ok) == Handle(Config(budget, Above(threshold)), old(requests), key, now)
    {
      var cutoff := now - budget.window;
      requests := requests[key := Recent(Get(requests, key, []), cutoff)];
      if |requests| > threshold {
        var _ := CullExpired(now);
      }
      var hits := Get(requests, key, []);
      ok := |hits| < budget.limit;
      requests := requests[key := if ok then hits + [now] else hits];
    }

    method CullExpired(now: Time) returns (n: nat)
      modifies this`requests
      ensures requests == old(requests) - StaleKeys(old(requests), now - budget.window)
      ensures n == |StaleKeys(old(requests), now - budget.window)|
    {
      requests, n := CullStale(requests, now - budget.window);
    }
  }

  /** The event limiter without Redis. */
  class EventRateLimiter {
    const budget: Budget
    var hits: Hits
    ghost var granted: Hits
    ghost var clock: Time

    ghost predicate Valid()
      reads this
    {
      Inv(budget, hits, granted, clock)
    }

    constructor (budget: Budget, now: Time)
      requires budget.window > 0.0
      ensures Valid() && this.budget == budget && clock == now && hits == map[] && granted == map[]
    {
      this.budget := budget;
      hits, granted, clock := map[], map[], now;
    }

    method AllowLocal(subscriber: string, now: Time) returns (ok: bool)
      requires Valid() && clock <= now
      modifies this
      ensures Valid() && clock == now && granted == Remembering(budget, old(granted), Request(subscriber, now))
      ensures ok == (|After(Get(old(granted), subscriber, []), now - budget.window)| < budget.limit)
      ensures (hits, ok) == Handle(Config(budget, Never()), old(hits), subscriber, now)
    {
      RecentCount(Get(granted, subscriber, []), now - budget.window);
      RequestKeeps(Config(budget, Never()), hits, granted, clock, subscriber, now);
      granted, clock := Remembering(budget, granted, Request(subscriber, now)), now;
      ok := Record(subscriber, now);
    }

    method Record(subscriber: string, now: Time) returns (ok: bool)
      modifies this`hits
      ensures (hits, ok) == Handle(Config(budget, Never()), old(hits), subscriber, now)
    {
      var kept := Recent(Get(hits, subscriber, []), now - budget.window);
      assert hits[subscriber := kept] ==
        Swept(Config(budget, Never()), Pruned(budget, hits, subscriber, now), now - budget.window);
      if |kept| >= budget.limit {
        assert hits[subscriber := kept][subscriber := kept] == hits[subscriber := kept];
        hits := hits[subscriber := kept];
        return false;
      }
      assert hits[subscriber := kept][subscriber := kept + [now]] == hits[subscriber := kept + [now]];
      hits := hits[subscriber := kept + [now]];
      return true;
    }

    /** A sweep forgets nothing that a later request would count. */
    method CullExpired(now: Time) returns (n: nat)
      requires Valid() && clock <= now
      modifies this`hits, this`clock
      ensures Valid() && clock == now
      ensures hits == old(hits) - StaleKeys(old(hits), now - budget.window)
      ensures n == |StaleKeys(old(hits), now - budget.window)|
    {
      WaitKeeps(budget, hits, granted, clock, now);
      SweepKeeps(budget, hits, granted, now);
      clock := now;
      hits, n := CullStale(hits, now - budget.window);
    }
  }
}

/**
 The shared event budget: a Redis counter per subscriber that lives for one window. Workers
 interleave between the commands of one call and may stop after any of them. One key is
 modelled; keys do not affect each other.
 */
module FixedWindow {
  import opened Common
  import SlidingWindow
  type Budget = SlidingWindow.Budget

  type Worker = nat

  /** The key: absent, or a counter with or without an expiry time. */
  datatype Counter = Counter(count: nat, expiresAt: Option<Time>)

  /** Where a worker is in its call: it has counted and will look at the time to live, or it
      has decided to set it. */
  datatype Phase = Counted(count: nat) | Arming

  /** Every life of the key is an epoch, which starts at the increment that creates the key.
      The log holds each grant's time and epoch. */
  datatype Grant = Grant(at: Time, epoch: int)

  datatype State = State(key: Option<Counter>, phases: map<Worker, Phase>, starts: seq<Time>, log: seq<Grant>)

  const EMPTY := State(None, map[], [], [])

  datatype Event =
    | Incr(worker: Worker, at: Time)
    | Ttl(worker: Worker, at: Time)
    | Expire(worker: Worker, at: Time)
    | Crash(worker: Worker, at: Time)

  /** The key as a command at time `t` finds it. */
  function Live(key: Option<Counter>, t: Time): Option<Counter> {
    if key.Some? && (key.value.expiresAt.None? || t < key.value.expiresAt.value) then key else None
  }

  function Step(b: Budget, s: State, e: Event): State {
    var live := Live(s.key, e.at);
    match e
    case Incr(w, t) =>
      var count := if live.Some? then live.value.count + 1 else 1;
      var starts := if live.Some? then s.starts else s.starts + [t];
      State(Some(Counter(count, if live.Some? then live.value.expiresAt else None)),
            s.phases[w := Counted(count)],
            starts,
            if count <= b.limit then s.log + [Grant(t, |starts| - 1)] else s.log)
    case Ttl(w, t) =>
      if w in s.phases && s.phases[w].Counted? then
        if s.phases[w].count == 1 || live.None? || live.value.expiresAt.None?
        then s.(phases := s.phases[w := Arming])
        else s.(phases := s.phases - {w})
      else s
    case Expire(w, t) =>
      if w in s.phases && s.phases[w].Arming? then
        s.(phases := s.phases - {w},
           key := if live.Some? then Some(live.value.(expiresAt := Some(t + b.window))) else None)
      else s
    case Crash(w, _) => s.(phases := s.phases - {w})
  }

  function Run(b: Budget, s: State, es: seq<Event>): State
    decreases |es|
  {
    if es == [] then s else Run(b, Step(b, s, es[0]), es[1..])
  }

  ghost predicate Timed(clock: Time, es: seq<Event>)
    decreases |es|
  {
    es == [] || (clock <= es[0].at && Timed(es[0].at, es[1..]))
  }

  // ---------------------------------------------------------------- what every run keeps

  /** How many grants an epoch has had. */
  function InEpoch(log: seq<Grant>, epoch: int): nat {
    if log == [] then 0
    else InEpoch(log[..|log| - 1], epoch) + if log[|log| - 1].epoch == epoch then 1 else 0
  }

  /** A grant falls between the start of its epoch and the start of the next one. */
  ghost predicate Placed(s: State, g: Grant, clock: Time) {
    && 0 <= g.epoch < |s.starts| && s.starts[g.epoch] <= g.at <= clock
    && (g.epoch + 1 < |s.starts| ==> g.at <= s.starts[g.epoch + 1])
  }

  ghost predicate LogInv(s: State, clock: Time) {
    && (forall i | 0 <= i < |s.log| :: Placed(s, s.log[i], clock))
    && (forall i, j | 0 <= i < j < |s.log| :: s.log[i].epoch <= s.log[j].epoch)
  }

  ghost predicate Apart(b: Budget, starts: seq<Time>, i: nat)
    requires 0 < i < |starts|
  {
    starts[i] - starts[i - 1] >= b.window
  }

  /** Epochs start at least one window apart, and the key at hand will not expire sooner. */
  ghost predicate EpochInv(b: Budget, s: State, clock: Time) {
    && (forall i | 0 < i < |s.starts| :: Apart(b, s.starts, i))
    && (forall i | 0 <= i < |s.starts| :: s.starts[i] <= clock)
    && (s.key.Some? ==> s.starts != [])
    && (s.key.Some? && s.key.value.expiresAt.Some? ==>
      s.key.value.expiresAt.value >= s.starts[|s.starts| - 1] + b.window)
    && (s.key.None? && s.starts != [] ==> clock >= s.starts[|s.starts| - 1] + b.window)
  }

  /** The counter bounds the grants of the epoch at hand. */
  ghost predicate CountInv(b: Budget, s: State) {
    && (forall e: int :: InEpoch(s.log, e) <= b.limit)
    && (s.key.Some? ==> forall e: int | e + 1 == |s.starts| :: InEpoch(s.log, e) <= s.key.value.count)
    && (forall e: int | e >= |s.starts| :: InEpoch(s.log, e) == 0)
  }

  /** The increment that starts an epoch is granted. */
  ghost predicate Opened(s: State, e: nat)
    requires e < |s.starts|
  {
    Grant(s.starts[e], e) in s.log
  }

  ghost predicate StartInv(b: Budget, s: State) {
    b.limit > 0 ==> forall e: nat | e < |s.starts| :: Opened(s, e)
  }

  ghost predicate Inv(b: Budget, s: State, clock: Time) {
    b.window > 0.0 && LogInv(s, clock) && EpochInv(b, s, clock) && CountInv(b, s) && StartInv(b, s)
  }

  lemma {:induction false} InEpochAppend(log: seq<Grant>, g: Grant, e: int)
    ensures InEpoch(log + [g], e) == InEpoch(log, e) + if g.epoch == e then 1 else 0
  {
    assert (log + [g])[..|log|] == log;
  }

  lemma {:induction false} IncrKeepsLog(b: Budget, s: State, e: Event, clock: Time)
    requires Inv(b, s, clock) && clock <= e.at && e.Incr?
    ensures LogInv(Step(b, s, e), e.at)
  {
    var s' := Step(b, s, e);
    forall i | 0 <= i < |s'.log| ensures Placed(s', s'.log[i], e.at) {
      if i < |s.log| {
        assert Placed(s, s.log[i], clock);
      }
    }
    forall i, j | 0 <= i < j < |s'.log| ensures s'.log[i].epoch <= s'.log[j].epoch {
      if j == |s.log| {
        assert Placed(s, s.log[i], clock);
      }
    }
  }

  lemma {:induction false} IncrKeepsEpochs(b: Budget, s: State, e: Event, clock: Time)
    requires Inv(b, s, clock) && clock <= e.at && e.Incr?
    ensures EpochInv(b, Step(b, s, e), e.at)
  {
    var s' := Step(b, s, e);
    forall i | 0 < i < |s'.starts| ensures Apart(b, s'.starts, i) {
      if i < |s.starts| {
        assert Apart(b, s.starts, i);
      }
    }
  }

  lemma {:induction false} IncrKeepsCount(b: Budget, s: State, e: Event, clock: Time)
    requires Inv(b, s, clock) && clock <= e.at && e.Incr?
    ensures CountInv(b, Step(b, s, e))
  {
    var s' := Step(b, s, e);
    var last := |s'.starts| - 1;
    if s'.log != s.log {
      assert s'.log == s.log + [Grant(e.at, last)];
      forall k: int ensures InEpoch(s'.log, k) == InEpoch(s.log, k) + if k == last then 1 else 0 {
        InEpochAppend(s.log, Grant(e.at, last), k);
      }
    }
  }

  lemma {:induction false} IncrKeepsStarts(b: Budget, s: State, e: Event, clock: Time)
    requires Inv(b, s, clock) && clock <= e.at && e.Incr?
    ensures StartInv(b, Step(b, s, e))
  {
    var s' := Step(b, s, e);
    if b.limit > 0 {
      forall k: nat | k < |s'.starts| ensures Opened(s', k) {
        if k < |s.starts| {
          assert Opened(s, k);
        }
      }
    }
  }

  lemma {:induction false} StepKeepsInv(b: Budget, s: State, e: Event, clock: Time)
    requires Inv(b, s, clock) && clock <= e.at
    ensures Inv(b, Step(b, s, e), e.at)
  {
    if e.Incr? {
      IncrKeepsLog(b, s, e, clock);
      IncrKeepsEpochs(b, s, e, clock);
      IncrKeepsCount(b, s, e, clock);
      IncrKeepsStarts(b, s, e, clock);
    } else {
      OtherStepsKeepInv(b, s, e, clock);
    }
  }

  lemma {:induction false} OtherStepsKeepInv(b: Budget, s: State, e: Event, clock: Time)
    requires Inv(b, s, clock) && clock <= e.at && !e.Incr?
    ensures Inv(b, Step(b, s, e), e.at)
  {
    var s' := Step(b, s, e);
    assert s'.log == s.log && s'.starts == s.starts;
    forall i | 0 <= i < |s'.log| ensures Placed(s', s'.log[i], e.at) {
      assert Placed(s, s.log[i], clock);
    }
    assert CountInv(b, s');
    assert StartInv(b, s') by {
      forall k: nat | b.limit > 0 && k < |s'.starts| ensures Opened(s', k) {
        assert Opened(s, k);
      }
    }
  }

  lemma {:induction false} EveryRunKeepsInv(b: Budget, s: State, clock: Time, es: seq<Event>) returns (now: Time)
    requires Inv(b, s, clock) && Timed(clock, es)
    ensures Inv(b, Run(b, s, es), now)
    decreases |es|
  {
    if es == [] {
      now := clock;
    } else {
      StepKeepsInv(b, s, es[0], clock);
      now := EveryRunKeepsInv(b, Step(b, s, es[0]), es[0].at, es[1..]);
    }
  }

  // ---------------------------------------------------------------- the budget

  /** How many grants lie in the half-open interval of one window from `t`. */
  function InWindow(b: Budget, log: seq<Grant>, t: Time): nat {
    if log == [] then 0
    else InWindow(b, log[..|log| - 1], t) + if t <= log[|log| - 1].at < t + b.window then 1 else 0
  }

  /** Grants two epochs apart are at least a window apart. */
  lemma {:induction false} TwoEpochsApart(b: Budget, s: State, clock: Time, i: nat, j: nat)
    requires Inv(b, s, clock) && i < j < |s.log| && s.log[i].epoch + 2 <= s.log[j].epoch
    ensures s.log[j].at - s.log[i].at >= b.window
  {
    assert Placed(s, s.log[i], clock) && Placed(s, s.log[j], clock);
    var e := s.log[i].epoch;
    StartsGrow(b, s, clock, e + 2, s.log[j].epoch);
    assert Apart(b, s.starts, e + 2);
  }

  lemma {:induction false} StartsGrow(b: Budget, s: State, clock: Time, i: nat, j: nat)
    requires Inv(b, s, clock) && i <= j < |s.starts|
    ensures s.starts[i] <= s.starts[j]
    decreases j - i
  {
    if i < j {
      StartsGrow(b, s, clock, i, j - 1);
      assert Apart(b, s.starts, j);
    }
  }

  /** If every grant of the interval belongs to one of two epochs, the two bound it. */
  lemma {:induction false} TwoEpochsBound(b: Budget, log: seq<Grant>, t: Time, e: int)
    requires forall i | 0 <= i < |log| && t <= log[i].at < t + b.window :: log[i].epoch == e || log[i].epoch == e + 1
    ensures InWindow(b, log, t) <= InEpoch(log, e) + InEpoch(log, e + 1)
  {
    if log != [] {
      TwoEpochsBound(b, log[..|log| - 1], t, e);
    }
  }

  /** One grant of the first epoch outside the interval makes the bound strict. */
  lemma {:induction false} TwoEpochsBoundStrictly(b: Budget, log: seq<Grant>, t: Time, e: int, k: nat)
    requires forall i | 0 <= i < |log| && t <= log[i].at < t + b.window :: log[i].epoch == e || log[i].epoch == e + 1
    requires k < |log| && log[k].epoch == e && !(t <= log[k].at < t + b.window)
    ensures InWindow(b, log, t) < InEpoch(log, e) + InEpoch(log, e + 1)
    decreases |log|
  {
    if k == |log| - 1 {
      TwoEpochsBound(b, log[..k], t, e);
    } else {
      TwoEpochsBoundStrictly(b, log[..|log| - 1], t, e, k);
    }
  }

  lemma {:induction false} OneEpochBound(b: Budget, log: seq<Grant>, t: Time, e: int)
    requires forall i | 0 <= i < |log| && t <= log[i].at < t + b.window :: log[i].epoch == e
    ensures InWindow(b, log, t) <= InEpoch(log, e)
  {
    if log != [] {
      OneEpochBound(b, log[..|log| - 1], t, e);
    }
  }

  lemma {:induction false} NoneInWindow(b: Budget, log: seq<Grant>, t: Time)
    requires forall i | 0 <= i < |log| :: !(t <= log[i].at < t + b.window)
    ensures InWindow(b, log, t) == 0
  {
    if log != [] {
      NoneInWindow(b, log[..|log| - 1], t);
    }
  }

  /** A grant of the epoch after `e` in the interval leaves the grant that started `e` out. */
  lemma {:induction false} StartIsOutside(b: Budget, s: State, clock: Time, t: Time, j: nat, e: nat) returns (k: nat)
    requires Inv(b, s, clock) && b.limit > 0
    requires j < |s.log| && s.log[j].epoch == e + 1 && s.log[j].at < t + b.window
    ensures k < |s.log| && s.log[k].epoch == e && s.log[k].at < t
  {
    assert Placed(s, s.log[j], clock);
    assert Apart(b, s.starts, e + 1);
    assert Opened(s, e);
    k :| k < |s.log| && s.log[k] == Grant(s.starts[e], e);
  }

  lemma {:induction false} FromFirst(b: Budget, s: State, clock: Time, t: Time, first: nat)
    requires Inv(b, s, clock) && first < |s.log| && t <= s.log[first].at < t + b.window
    requires forall i | 0 <= i < first :: !(t <= s.log[i].at < t + b.window)
    ensures forall i | 0 <= i < |s.log| && t <= s.log[i].at < t + b.window ::
      s.log[i].epoch == s.log[first].epoch || s.log[i].epoch == s.log[first].epoch + 1
  {
    forall i | 0 <= i < |s.log| && t <= s.log[i].at < t + b.window
      ensures s.log[i].epoch == s.log[first].epoch || s.log[i].epoch == s.log[first].epoch + 1
    {
      if i > first && s.log[i].epoch >= s.log[first].epoch + 2 {
        TwoEpochsApart(b, s, clock, first, i);
      }
    }
  }

  lemma {:induction false} GrantsNeedALimit(b: Budget, s: State, clock: Time, k: nat)
    requires Inv(b, s, clock) && k < |s.log|
    ensures b.limit > 0
  {
    InEpochAt(s.log, k);
  }

  lemma {:induction false} InEpochAt(log: seq<Grant>, k: nat)
    requires k < |log|
    ensures InEpoch(log, log[k].epoch) > 0
  {
    if k < |log| - 1 {
      InEpochAt(log[..|log| - 1], k);
    }
  }

  /** The most a window can hold. */
  function Most(b: Budget): nat {
    if b.limit == 0 then 0 else 2 * b.limit - 1
  }

  lemma {:induction false} FirstBounds(b: Budget, s: State, clock: Time, t: Time, first: nat)
    requires Inv(b, s, clock) && first < |s.log| && t <= s.log[first].at < t + b.window
    requires forall i | 0 <= i < first :: !(t <= s.log[i].at < t + b.window)
    ensures InWindow(b, s.log, t) <= Most(b)
  {
    var e := s.log[first].epoch;
    assert Placed(s, s.log[first], clock);
    GrantsNeedALimit(b, s, clock, first);
    FromFirst(b, s, clock, t, first);
    if j: nat :| j < |s.log| && t <= s.log[j].at < t + b.window && s.log[j].epoch == e + 1 {
      var k := StartIsOutside(b, s, clock, t, j, e);
      TwoEpochsBoundStrictly(b, s.log, t, e, k);
    } else {
      OneEpochBound(b, s.log, t, e);
    }
  }

  lemma {:induction false} InvBoundsWindow(b: Budget, s: State, clock: Time, t: Time)
    requires Inv(b, s, clock)
    ensures InWindow(b, s.log, t) <= Most(b)
  {
    if first: nat :|
      && first < |s.log| && t <= s.log[first].at < t + b.window
      && forall i | 0 <= i < first :: !(t <= s.log[i].at < t + b.window)
    {
      FirstBounds(b, s, clock, t, first);
    } else {
      NoneBeforeNoFirst(b, s.log, t, |s.log|);
      NoneInWindow(b, s.log, t);
    }
  }

  lemma {:induction false} NoneBeforeNoFirst(b: Budget, log: seq<Grant>, t: Time, n: nat)
    requires n <= |log|
    requires forall first: nat | first < |log| && t <= log[first].at < t + b.window ::
      exists i :: 0 <= i < first && t <= log[i].at < t + b.window
    ensures forall i | 0 <= i < n :: !(t <= log[i].at < t + b.window)
  {
    if n > 0 {
      NoneBeforeNoFirst(b, log, t, n - 1);
    }
  }

  /** In every interleaving of workers, with any of them stopping half-way, an epoch grants at
      most the limit, epochs start at least a window apart, and no interval of one window's
      length holds more than twice the limit, or even that many. */
  lemma {:induction false} BudgetHolds(b: Budget, clock: Time, es: seq<Event>, t: Time, epoch: int)
    requires b.window > 0.0 && Timed(clock, es)
    ensures var s := Run(b, EMPTY, es);
      && InEpoch(s.log, epoch) <= b.limit
      && (forall i | 0 < i < |s.starts| :: Apart(b, s.starts, i))
      && InWindow(b, s.log, t) <= Most(b) <= 2 * b.limit
  {
    var now := EveryRunKeepsInv(b, EMPTY, clock, es);
    InvBoundsWindow(b, Run(b, EMPTY, es), now, t);
  }

  /** `n` calls that get no further than their first command. */
  function Calls(n: nat, t: Time): seq<Event> {
    if n == 0 then [] else [Incr(0, t)] + Calls(n - 1, t)
  }

  lemma {:induction false} RunConcat(b: Budget, s: State, es: seq<Event>, fs: seq<Event>)
    ensures Run(b, s, es + fs) == Run(b, Run(b, s, es), fs)
    decreases |es|
  {
    if es == [] {
      assert es + fs == fs;
    } else {
      assert (es + fs)[1..] == es[1..] + fs;
      RunConcat(b, Step(b, s, es[0]), es[1..], fs);
    }
  }

  lemma {:induction false} TimedCons(clock: Time, e: Event, es: seq<Event>)
    requires clock <= e.at && Timed(e.at, es)
    ensures Timed(clock, [e] + es)
  {
    assert ([e] + es)[1..] == es;
  }

  lemma {:induction false} TimedCalls(clock: Time, n: nat, t: Time, rest: seq<Event>)
    requires clock <= t && Timed(t, rest)
    ensures Timed(clock, Calls(n, t) + rest)
    decreases n
  {
    if n == 0 {
      assert Calls(n, t) + rest == rest;
    } else {
      TimedCalls(t, n - 1, t, rest);
      TimedCons(clock, Incr(0, t), Calls(n - 1, t) + rest);
      assert Calls(n, t) + rest == [Incr(0, t)] + (Calls(n - 1, t) + rest);
    }
  }

  lemma {:induction false} InWindowAppend(b: Budget, log: seq<Grant>, g: Grant, u: Time)
    ensures InWindow(b, log + [g], u) == InWindow(b, log, u) + if u <= g.at < u + b.window then 1 else 0
  {
    assert (log + [g])[..|log|] == log;
  }

  /** Calls on a living key are granted as long as the count stays within the limit. */
  lemma {:induction false} CallsAreGranted(b: Budget, s: State, n: nat, t: Time, u: Time)
    requires s.key.Some? && (s.key.value.expiresAt.None? || t < s.key.value.expiresAt.value)
    requires s.key.value.count + n <= b.limit && u <= t < u + b.window
    ensures var r := Run(b, s, Calls(n, t));
      r.key == Some(s.key.value.(count := s.key.value.count + n)) && InWindow(b, r.log, u) == InWindow(b, s.log, u) + n
    decreases n
  {
    if n > 0 {
      var s' := Step(b, s, Incr(0, t));
      LiveKeyGrants(b, s, s', t);
      InWindowAppend(b, s.log, Grant(t, |s.starts| - 1), u);
      assert Calls(n, t)[1..] == Calls(n - 1, t);
      CallsAreGranted(b, s', n - 1, t, u);
    }
  }

  lemma {:induction false} LiveKeyGrants(b: Budget, s: State, s': State, t: Time)
    requires s.key.Some? && (s.key.value.expiresAt.None? || t < s.key.value.expiresAt.value)
    requires s.key.value.count < b.limit && s' == Step(b, s, Incr(0, t))
    ensures s'.key == Some(s.key.value.(count := s.key.value.count + 1))
    ensures s'.starts == s.starts && s'.log == s.log + [Grant(t, |s.starts| - 1)]
  {
  }

  function Opening(): seq<Event> {
    [Incr(0, 0.0), Ttl(0, 0.0), Expire(0, 0.0)]
  }

  /** The first call creates the key and arms it. */
  lemma {:induction false} ArmedWindow(b: Budget)
    requires b.limit >= 1 && b.window > 0.0
    ensures Run(b, EMPTY, Opening()) ==
      State(Some(Counter(1, Some(b.window))), map[], [0.0], [Grant(0.0, 0)])
  {
    var e1, e2, e3 := Incr(0, 0.0), Ttl(0, 0.0), Expire(0, 0.0);
    assert [e1, e2, e3][1..] == [e2, e3] && [e2, e3][1..] == [e3] && [e3][1..] == [];
    var s1 := State(Some(Counter(1, None)), map[0 := Counted(1)], [0.0], [Grant(0.0, 0)]);
    var s2 := s1.(phases := map[0 := Arming]);
    var s3 := State(Some(Counter(1, Some(b.window))), map[], [0.0], [Grant(0.0, 0)]);
    assert Step(b, EMPTY, e1) == s1;
    assert Step(b, s1, e2) == s2;
    assert Step(b, s2, e3) == s3;
    assert Run(b, s2, [e3]) == s3;
    assert Run(b, s1, [e2, e3]) == s3;
  }

  lemma {:induction false} DeadKeyGrants(b: Budget, s: State, s': State, t: Time)
    requires b.limit >= 1 && Live(s.key, t).None? && s' == Step(b, s, Incr(0, t))
    ensures s'.key == Some(Counter(1, None)) && s'.log == s.log + [Grant(t, |s'.starts| - 1)]
  {
  }

  /** The whole budget of a key that has just expired. */
  lemma {:induction false} FreshKeyGrants(b: Budget, s: State, t: Time, u: Time)
    requires b.limit >= 1 && Live(s.key, t).None? && u <= t < u + b.window
    ensures InWindow(b, Run(b, s, Calls(b.limit, t)).log, u) == InWindow(b, s.log, u) + b.limit
  {
    var s' := Step(b, s, Incr(0, t));
    DeadKeyGrants(b, s, s', t);
    InWindowAppend(b, s.log, Grant(t, |s'.starts| - 1), u);
    assert Calls(b.limit, t)[1..] == Calls(b.limit - 1, t);
    CallsAreGranted(b, s', b.limit - 1, t, u);
  }

  /** One call at the start of a window, the rest of its budget half-way through, and a whole
      budget as soon as it is over. */
  function Burst(b: Budget): seq<Event>
    requires b.limit >= 1
  {
    Opening() + (Calls(b.limit - 1, b.window / 2.0) + Calls(b.limit, b.window))
  }

  lemma {:induction false} BurstReachesBound(b: Budget)
    requires b.limit >= 1 && b.window > 0.0
    ensures InWindow(b, Run(b, EMPTY, Burst(b)).log, b.window / 2.0) == Most(b)
  {
    var half := b.window / 2.0;
    BurstParts(b, half, Calls(b.limit - 1, half), Calls(b.limit, b.window), Burst(b));
  }

  lemma {:induction false} BurstParts(
    b: Budget, half: Time, second: seq<Event>, third: seq<Event>, all: seq<Event>)
    requires b.limit >= 1 && b.window > 0.0 && half == b.window / 2.0
    requires second == Calls(b.limit - 1, half) && third == Calls(b.limit, b.window)
    requires all == Opening() + (second + third)
    ensures InWindow(b, Run(b, EMPTY, all).log, half) == Most(b)
  {
    var s := State(Some(Counter(1, Some(b.window))), map[], [0.0], [Grant(0.0, 0)]);
    var r2 := Run(b, s, second);
    OneGrantBefore(b, s.log, half);
    TwoBudgets(b, s, half, second, third, r2);
    BurstRuns(b, s, second, third, all, Run(b, Run(b, s, second), third));
  }

  lemma {:induction false} BurstRuns(
    b: Budget, s: State, second: seq<Event>, third: seq<Event>, all: seq<Event>, r: State)
    requires b.limit >= 1 && b.window > 0.0 && all == Opening() + (second + third)
    requires s == State(Some(Counter(1, Some(b.window))), map[], [0.0], [Grant(0.0, 0)])
    requires r == Run(b, Run(b, s, second), third)
    ensures Run(b, EMPTY, all) == r
  {
    ArmedWindow(b);
    RunConcat(b, EMPTY, Opening(), second + third);
    RunConcat(b, s, second, third);
  }

  lemma {:induction false} OneGrantBefore(b: Budget, log: seq<Grant>, half: Time)
    requires log == [Grant(0.0, 0)] && half > 0.0
    ensures InWindow(b, log, half) == 0
  {
    assert log == [] + [Grant(0.0, 0)];
    InWindowAppend(b, [], Grant(0.0, 0), half);
  }

  lemma {:induction false} TwoBudgets(
    b: Budget, s: State, half: Time, second: seq<Event>, third: seq<Event>, r2: State)
    requires b.limit >= 1 && b.window > 0.0 && half == b.window / 2.0
    requires s.key == Some(Counter(1, Some(b.window))) && InWindow(b, s.log, half) == 0
    requires second == Calls(b.limit - 1, half) && third == Calls(b.limit, b.window)
    requires r2 == Run(b, s, second)
    ensures InWindow(b, Run(b, r2, third).log, half) == Most(b)
  {
    CallsAreGranted(b, s, b.limit - 1, half, half);
    assert InWindow(b, r2.log, half) == b.limit - 1;
    FreshKeyGrants(b, r2, b.window, half);
  }

  lemma {:induction false} BurstIsTimed(b: Budget)
    requires b.limit >= 1 && b.window > 0.0
    ensures Timed(0.0, Burst(b))
  {
    var rest := Calls(b.limit - 1, b.window / 2.0) + Calls(b.limit, b.window);
    assert Calls(b.limit, b.window) + [] == Calls(b.limit, b.window);
    TimedCalls(b.window / 2.0, b.limit, b.window, []);
    TimedCalls(0.0, b.limit - 1, b.window / 2.0, Calls(b.limit, b.window));
    var e1, e2, e3 := Incr(0, 0.0), Ttl(0, 0.0), Expire(0, 0.0);
    TimedCons(0.0, e3, rest);
    TimedCons(0.0, e2, [e3] + rest);
    TimedCons(0.0, e1, [e2] + ([e3] + rest));
    assert Opening() + rest == [e1] + ([e2] + ([e3] + rest));
  }

  /** For every limit and window, the bound is reached by a run. */
  lemma {:induction false} BoundIsReached(b: Budget)
    requires b.limit >= 1 && b.window > 0.0
    ensures Timed(0.0, Burst(b))
    ensures InWindow(b, Run(b, EMPTY, Burst(b)).log, b.window / 2.0) == Most(b)
  {
    BurstReachesBound(b);
    BurstIsTimed(b);
  }

  // ---------------------------------------------------------------- the budget comes back

  /** A call that completes, at moments in order and before the key expires, leaves the key with an
      expiry time, whether or not earlier calls had set one. */
  lemma {:induction false} CompletedCallArms(b: Budget, s: State, w: Worker, t1: Time, t2: Time, t3: Time)
    requires b.window > 0.0 && t1 <= t2 <= t3
    requires s.key.Some? && s.key.value.expiresAt.Some? ==>
      t3 < s.key.value.expiresAt.value || s.key.value.expiresAt.value <= t1
    ensures var s' := Step(b, Step(b, Step(b, s, Incr(w, t1)), Ttl(w, t2)), Expire(w, t3));
      && s'.key.Some? && s'.key.value.expiresAt.Some? && w !in s'.phases
      && (Live(s.key, t1).Some? && s.key.value.expiresAt.Some? && s.key.value.count > 0 ==>
            s'.key.value.expiresAt == s.key.value.expiresAt)
      && (Live(s.key, t1).None? || s.key.value.expiresAt.None? ==> s'.key.value.expiresAt == Some(t3 + b.window))
  {
  }

  /** The answer of a call counts the key's life so far: a dead key starts a new one, whose first
      call is granted if any is; a living one grants exactly below the limit. */
  lemma {:induction false} AnswerIff(b: Budget, s: State, w: Worker, t: Time)
    ensures var s' := Step(b, s, Incr(w, t));
      var dead := s.key.None? || (s.key.value.expiresAt.Some? && s.key.value.expiresAt.value <= t);
      && (|s'.log| == |s.log| + 1 <==> if dead then b.limit >= 1 else s.key.value.count < b.limit)
      && (|s'.log| != |s.log| + 1 ==> s'.log == s.log)
      && (dead ==> s'.starts == s.starts + [t]) && (!dead ==> s'.starts == s.starts)
  {
  }

  /** One worker's view: the key, and the trace of all commands so far. */
  class SharedBudget {
    const budget: Budget
    var key: Option<Counter>
    ghost var trace: State

    ghost predicate Valid()
      reads this
    {
      trace.key == key
    }

    constructor (budget: Budget)
      ensures Valid() && this.budget == budget && trace == EMPTY
    {
      this.budget := budget;
      key, trace := None, EMPTY;
    }

    /** A call whose commands reach Redis at three moments is three steps of the machine, and
        its answer says whether the machine logged a grant. */
    method AllowRedis(worker: Worker, t1: Time, t2: Time, t3: Time) returns (ok: bool)
      requires Valid()
      modifies this
      ensures Valid() && trace ==
        Step(budget, Step(budget, Step(budget, old(trace), Incr(worker, t1)), Ttl(worker, t2)), Expire(worker, t3))
      ensures trace.log == if ok then old(trace).log + [Grant(t1, |trace.starts| - 1)] else old(trace).log
    {
      var live := Live(key, t1);
      var count := if live.Some? then live.value.count + 1 else 1;
      key := Some(Counter(count, if live.Some? then live.value.expiresAt else None));
      trace := Step(budget, trace, Incr(worker, t1));
      live := Live(key, t2);
      trace := Step(budget, trace, Ttl(worker, t2));
      if count == 1 || live.None? || live.value.expiresAt.None? {
        live := Live(key, t3);
        key := if live.Some? then Some(live.value.(expiresAt := Some(t3 + budget.window))) else None;
      }
      trace := Step(budget, trace, Expire(worker, t3));
      ok := count <= budget.limit;
    }
  }
}
