/**
 The two-level semaphore that bounds how many deliveries are sent at once.
 */
module DispatchLimiter {
  import opened Common

  type Thread = nat
  type Webhook = nat

  /** Where a thread is in `acquire`: before the global semaphore, between the two, in the
      body, and after the release of the webhook's semaphore. */
  datatype Place = Arriving(hook: Webhook) | Between(hook: Webhook) | Inside(hook: Webhook) | Leaving(hook: Webhook)

  /** `permits` and `hooks` are the semaphore counters; a webhook without one gets a fresh one.
      `extra` counts, for each webhook, the permits given back that had never been taken. */
  datatype State = State(
    total: nat, perHook: nat, permits: int, hooks: map<Webhook, int>,
    threads: map<Thread, Place>, extra: map<Webhook, nat>)
  {
    function Extra(h: Webhook): nat {
      Get(extra, h, 0)
    }

    function Hook(h: Webhook): int {
      Get(hooks, h, perHook)
    }
  }

  function AtLeastOne(n: int): nat {
    if n < 1 then 1 else n
  }

  function Initial(globalLimit: int, perWebhookLimit: int): State {
    State(AtLeastOne(globalLimit), AtLeastOne(perWebhookLimit), AtLeastOne(globalLimit), map[], map[], map[])
  }

  datatype Event = Arrive(t: Thread, hook: Webhook) | Advance(t: Thread) | Interrupt(t: Thread)

  /** A thread that has arrived can move on unless the semaphore it needs is empty. */
  predicate Enabled(s: State, t: Thread) {
    t in s.threads &&
    match s.threads[t]
    case Arriving(_) => s.permits > 0
    case Between(h) => s.Hook(h) > 0
    case Inside(_) => true
    case Leaving(_) => true
  }

  function Move(s: State, t: Thread): State
    requires Enabled(s, t)
  {
    match s.threads[t]
    case Arriving(h) => s.(permits := s.permits - 1, threads := s.threads[t := Between(h)])
    case Between(h) => s.(hooks := s.hooks[h := s.Hook(h) - 1], threads := s.threads[t := Inside(h)])
    case Inside(h) => s.(hooks := s.hooks[h := s.Hook(h) + 1], threads := s.threads[t := Leaving(h)])
    case Leaving(_) => s.(permits := s.permits + 1, threads := s.threads - {t})
  }

  /** An exception raised in the thread where it is. Waiting for the global semaphore it just
      goes. Waiting for the webhook's, it runs the `finally` and gives back both semaphores,
      one of which it does not have. In the body it leaves as usual. */
  function Interrupted(s: State, t: Thread): State
    requires t in s.threads
  {
    match s.threads[t]
    case Arriving(_) => s.(threads := s.threads - {t})
    case Between(h) =>
      s.(permits := s.permits + 1, hooks := s.hooks[h := s.Hook(h) + 1],
         threads := s.threads - {t}, extra := s.extra[h := s.Extra(h) + 1])
    case Inside(_) => Move(s, t)
    case Leaving(_) => s
  }

  function Step(s: State, e: Event): State
  {
    match e
    case Arrive(t, h) => if t in s.threads then s else s.(threads := s.threads[t := Arriving(h)])
    case Advance(t) => if Enabled(s, t) then Move(s, t) else s
    case Interrupt(t) => if t in s.threads then Interrupted(s, t) else s
  }

  function Run(s: State, es: seq<Event>): State
    decreases |es|
  {
    if es == [] then s else Run(Step(s, es[0]), es[1..])
  }

  function InsideAny(s: State): set<Thread> {
    set t | t in s.threads && s.threads[t].Inside?
  }

  function InsideOf(s: State, h: Webhook): set<Thread> {
    set t | t in s.threads && s.threads[t] == Inside(h)
  }

  function Holders(s: State): set<Thread> {
    set t | t in s.threads && !s.threads[t].Arriving?
  }

  /** Every permit is either in a semaphore or with a thread. */
  ghost predicate Inv(s: State) {
    && s.total >= 1 && s.perHook >= 1
    && s.permits >= 0 && s.permits + |Holders(s)| == s.total
    && forall h :: HookInv(s, h)
  }

  ghost predicate HookInv(s: State, h: Webhook) {
    s.Hook(h) >= 0 && s.Hook(h) + |InsideOf(s, h)| == s.perHook + s.Extra(h)
  }

  lemma {:induction false} StepKeepsInv(s: State, e: Event)
    requires Inv(s)
    ensures Inv(Step(s, e))
    ensures Step(s, e).total == s.total && Step(s, e).perHook == s.perHook
  {
    var s' := Step(s, e);
    if e.Arrive? {
      assert Holders(s') == Holders(s);
      forall h ensures HookInv(s', h) {
        assert HookInv(s, h);
        assert InsideOf(s', h) == InsideOf(s, h);
      }
    } else if e.Interrupt? && e.t in s.threads {
      InterruptKeepsInv(s, e.t);
    } else if Enabled(s, e.t) {
      MoveKeepsInv(s, e.t);
    }
  }

  lemma {:induction false} InterruptKeepsInv(s: State, t: Thread)
    requires Inv(s) && t in s.threads
    ensures Inv(Interrupted(s, t))
  {
    var s' := Interrupted(s, t);
    if s.threads[t].Inside? {
      MoveKeepsInv(s, t);
    } else if !s.threads[t].Leaving? {
      assert Holders(s') == Holders(s) - {t};
      forall h ensures HookInv(s', h) {
        assert HookInv(s, h);
        assert InsideOf(s', h) == InsideOf(s, h);
      }
    }
  }

  lemma {:induction false} MoveKeepsPermits(s: State, t: Thread)
    requires Inv(s) && Enabled(s, t)
    ensures var s' := Move(s, t); s'.permits >= 0 && s'.permits + |Holders(s')| == s'.total
  {
    var s' := Move(s, t);
    match s.threads[t]
    case Arriving(_) => assert Holders(s') == Holders(s) + {t};
    case Leaving(_) => assert Holders(s') == Holders(s) - {t};
    case _ => assert Holders(s') == Holders(s);
  }

  lemma {:induction false} MoveKeepsHook(s: State, t: Thread, h: Webhook)
    requires HookInv(s, h) && Enabled(s, t)
    ensures HookInv(Move(s, t), h)
  {
    InsideMoves(s, t, h);
  }

  /** A move takes the thread into its webhook's body, out of it, or neither. */
  lemma {:induction false} InsideMoves(s: State, t: Thread, h: Webhook)
    requires Enabled(s, t)
    ensures var p, was := s.threads[t], InsideOf(s, h);
      && InsideOf(Move(s, t), h) == (if p == Between(h) then was + {t} else if p == Inside(h) then was - {t} else was)
      && (p == Between(h) ==> t !in was) && (p == Inside(h) ==> t in was)
  {
  }

  lemma {:induction false} MoveKeepsInv(s: State, t: Thread)
    requires Inv(s) && Enabled(s, t)
    ensures Inv(Move(s, t))
  {
    MoveKeepsPermits(s, t);
    forall h ensures HookInv(Move(s, t), h) {
      MoveKeepsHook(s, t, h);
    }
  }

  /** In every interleaving, no more threads are in the body than the global limit, nor for any
      webhook than its own limit and the permits wrongly given back. */
  lemma {:induction false} LimitsHold(s: State, es: seq<Event>, h: Webhook)
    requires Inv(s)
    ensures var s' := Run(s, es);
      && Inv(s') && s'.total == s.total && s'.perHook == s.perHook
      && |InsideAny(s')| <= s.total && |InsideOf(s', h)| <= s.perHook + s'.Extra(h)
    decreases |es|
  {
    if es == [] {
      SubsetSize(InsideAny(s), Holders(s));
      assert HookInv(s, h);
    } else {
      StepKeepsInv(s, es[0]);
      LimitsHold(Step(s, es[0]), es[1..], h);
    }
  }

  /** Without interruptions no permit is wrongly given back, and both limits hold as they are. */
  lemma {:induction false} NoInterruptNoExtra(s: State, es: seq<Event>, h: Webhook)
    requires Inv(s) && s.Extra(h) == 0 && forall e | e in es :: !e.Interrupt?
    ensures Run(s, es).Extra(h) == 0 && |InsideAny(Run(s, es))| <= s.total && |InsideOf(Run(s, es), h)| <= s.perHook
    decreases |es|
  {
    LimitsHold(s, es, h);
    if es != [] {
      assert es[0] in es;
      StepKeepsInv(s, es[0]);
      NoInterruptNoExtra(Step(s, es[0]), es[1..], h);
    }
  }

  lemma {:induction false} InitialInv(globalLimit: int, perWebhookLimit: int)
    ensures var s := Initial(globalLimit, perWebhookLimit);
      && Inv(s) && s.permits == s.total && s.threads == map[]
      && s.total >= 1 && s.total >= globalLimit && (s.total == 1 || s.total == globalLimit)
      && s.perHook >= 1 && s.perHook >= perWebhookLimit && (s.perHook == 1 || s.perHook == perWebhookLimit)
      && forall h :: s.Hook(h) == s.perHook && s.Extra(h) == 0
  {
    var s := Initial(globalLimit, perWebhookLimit);
    assert Holders(s) == {};
    forall h ensures HookInv(s, h) {
      assert InsideOf(s, h) == {};
    }
  }

  /** The threads other than `me` that still have three, two and one moves to make. */
  ghost function Rest(s: State, me: Thread): (set<Thread>, set<Thread>, set<Thread>)
  {
    (set t | t in s.threads && t != me && s.threads[t].Between?,
     set t | t in s.threads && t != me && s.threads[t].Inside?,
     set t | t in s.threads && t != me && s.threads[t].Leaving?)
  }

  /** As long as another thread holds the global semaphore, some such thread can move. */
  lemma {:induction false} SomeHolderCanMove(s: State, me: Thread, other: Thread) returns (t: Thread)
    requires Inv(s) && (me in s.threads ==> s.threads[me].Arriving? || s.threads[me].Between?)
    requires other in Holders(s) && other != me
    ensures t in Holders(s) && t != me && Enabled(s, t)
  {
    if u :| u in s.threads && u != me && (s.threads[u].Inside? || s.threads[u].Leaving?) {
      t := u;
    } else {
      t := other;
      var h := s.threads[t].hook;
      assert HookInv(s, h) && InsideOf(s, h) == {};
    }
  }

  lemma {:induction false} MoveLowersRest(s: State, me: Thread, t: Thread)
    requires t in Holders(s) && t != me && Enabled(s, t)
    ensures var ((b, i, l), (b', i', l')) := (Rest(s, me), Rest(Move(s, t), me));
      b' < b || (b' == b && (i' < i || (i' == i && l' < l)))
  {
    var ((b, i, l), (b', i', l')) := (Rest(s, me), Rest(Move(s, t), me));
    match s.threads[t]
    case Between(_) =>
      assert b' == b - {t} && t in b;
    case Inside(_) =>
      assert b' == b && i' == i - {t} && t in i;
    case Leaving(_) =>
      assert b' == b && i' == i && l' == l - {t} && t in l;
  }

  /** There is no deadlock: from every reachable state, however many threads wait, each waiting
      thread can still be brought into the body by letting the threads that are there move. */
  lemma {:induction false} EveryWaiterCanEnter(s: State, me: Thread) returns (es: seq<Event>)
    requires Inv(s) && me in s.threads && !s.threads[me].Leaving?
    ensures var s' := Run(s, es); me in s'.threads && s'.threads[me] == Inside(s.threads[me].hook)
    ensures forall e | e in es :: e.Advance?
    decreases if s.threads[me].Inside? then 0 else if s.threads[me].Between? then 1 else 2,
              Rest(s, me).0, Rest(s, me).1, Rest(s, me).2
  {
    if s.threads[me].Inside? {
      es := [];
    } else {
      var t := me;
      if u :| u in Holders(s) && u != me {
        t := SomeHolderCanMove(s, me, u);
        MoveLowersRest(s, me, t);
      } else {
        NothingHeldByOthers(s, me);
      }
      MoveKeepsInv(s, t);
      var rest := EveryWaiterCanEnter(Move(s, t), me);
      es := [Advance(t)] + rest;
      assert es[1..] == rest;
    }
  }

  lemma {:induction false} NothingHeldByOthers(s: State, me: Thread)
    requires Inv(s) && me in s.threads && (s.threads[me].Arriving? || s.threads[me].Between?)
    requires forall u | u in Holders(s) :: u == me
    ensures Enabled(s, me)
  {
    var h := s.threads[me].hook;
    assert InsideOf(s, h) <= Holders(s) && me !in InsideOf(s, h);
    assert HookInv(s, h) && InsideOf(s, h) == {};
    if s.threads[me].Arriving? {
      assert Holders(s) == {};
    }
  }

  // ---------------------------------------------------------------- interrupted threads

  lemma {:induction false} RunConcat(s: State, es: seq<Event>, fs: seq<Event>)
    ensures Run(s, es + fs) == Run(Run(s, es), fs)
    decreases |es|
  {
    if es == [] {
      assert es + fs == fs;
    } else {
      assert (es + fs)[1..] == es[1..] + fs;
      RunConcat(Step(s, es[0]), es[1..], fs);
    }
  }

  lemma {:induction false} RunThree(s: State, a: Event, b: Event, c: Event)
    ensures Run(s, [a, b, c]) == Step(Step(Step(s, a), b), c)
  {
    assert [a, b, c][1..] == [b, c] && [b, c][1..] == [c] && [c][1..] == [];
    assert Run(Step(Step(s, a), b), [c]) == Step(Step(Step(s, a), b), c);
  }

  /** `n` threads are in the body for `h`, `k` permits of it were wrongly given back, and nothing
      else goes on. */
  ghost predicate Entered(s: State, h: Webhook, k: nat, n: nat) {
    && s.permits == s.total - n && s.Hook(h) == s.perHook + k - n && s.Extra(h) == k
    && (forall t: Thread :: t in s.threads <==> t < n)
    && (forall t | t in s.threads :: s.threads[t] == Inside(h))
  }

  lemma {:induction false} BreakOnce(s: State, h: Webhook, k: nat)
    requires Entered(s, h, k, 0) && s.total >= 1
    ensures var s' := Run(s, [Arrive(0, h), Advance(0), Interrupt(0)]);
      Entered(s', h, k + 1, 0) && s'.total == s.total && s'.perHook == s.perHook
  {
    RunThree(s, Arrive(0, h), Advance(0), Interrupt(0));
  }

  lemma {:induction false} EnterOne(s: State, h: Webhook, k: nat, n: nat)
    requires Entered(s, h, k, n) && n < s.total && n < s.perHook + k
    ensures var s' := Run(s, [Arrive(n, h), Advance(n), Advance(n)]);
      Entered(s', h, k, n + 1) && s'.total == s.total && s'.perHook == s.perHook
  {
    RunThree(s, Arrive(n, h), Advance(n), Advance(n));
  }

  /** `k` interrupted waiters, one after the other. */
  function Breaks(h: Webhook, k: nat): seq<Event> {
    if k == 0 then [] else Breaks(h, k - 1) + [Arrive(0, h), Advance(0), Interrupt(0)]
  }

  /** `n` threads that come in. */
  function Entries(h: Webhook, n: nat): seq<Event> {
    if n == 0 then [] else Entries(h, n - 1) + [Arrive(n - 1, h), Advance(n - 1), Advance(n - 1)]
  }

  lemma {:induction false} AfterBreaks(s: State, h: Webhook, k: nat)
    requires Entered(s, h, 0, 0) && s.total >= 1
    ensures var s' := Run(s, Breaks(h, k)); Entered(s', h, k, 0) && s'.total == s.total && s'.perHook == s.perHook
  {
    if k > 0 {
      AfterBreaks(s, h, k - 1);
      RunConcat(s, Breaks(h, k - 1), [Arrive(0, h), Advance(0), Interrupt(0)]);
      BreakOnce(Run(s, Breaks(h, k - 1)), h, k - 1);
    }
  }

  lemma {:induction false} AfterEntries(s: State, h: Webhook, k: nat, n: nat)
    requires Entered(s, h, k, 0) && n <= s.total && n <= s.perHook + k
    ensures var s' := Run(s, Entries(h, n)); Entered(s', h, k, n) && s'.total == s.total && s'.perHook == s.perHook
  {
    if n > 0 {
      AfterEntries(s, h, k, n - 1);
      RunConcat(s, Entries(h, n - 1), [Arrive(n - 1, h), Advance(n - 1), Advance(n - 1)]);
      EnterOne(Run(s, Entries(h, n - 1)), h, k, n - 1);
    }
  }

  lemma {:induction false} FirstThreads(s: set<Thread>, n: nat)
    requires forall t: Thread :: t in s <==> t < n
    ensures |s| == n
  {
    if n > 0 {
      FirstThreads(s - {n - 1}, n - 1);
    } else {
      assert s == {};
    }
  }

  /** The most threads a webhook can have in the body after `k` such interruptions. */
  function MostInside(total: nat, perHook: nat, k: nat): nat {
    if total < perHook + k then total else perHook + k
  }

  /** The bound of `LimitsHold` is exact: for all limits and every number of interrupted waiters
      there is a run that fills it. So the limit of a webhook outlives an interruption only where
      the global limit is no greater. */
  lemma {:induction false} InterruptsLiftTheLimit(globalLimit: int, perWebhookLimit: int, h: Webhook, k: nat)
    ensures var s := Initial(globalLimit, perWebhookLimit);
      var n := MostInside(s.total, s.perHook, k);
      var s' := Run(s, Breaks(h, k) + Entries(h, n));
      s'.Extra(h) == k && |InsideOf(s', h)| == n
  {
    var s := Initial(globalLimit, perWebhookLimit);
    var n := MostInside(s.total, s.perHook, k);
    AfterBreaks(s, h, k);
    RunConcat(s, Breaks(h, k), Entries(h, n));
    AfterEntries(Run(s, Breaks(h, k)), h, k, n);
    FirstThreads(InsideOf(Run(s, Breaks(h, k) + Entries(h, n)), h), n);
  }

  /** An interruption ends a wait: before the global semaphore with nothing taken or given, before
      the webhook's with one permit of each semaphore given back. A thread in the body goes on to
      leave, and one that leaves does so undisturbed. */
  lemma {:induction false} InterruptEndsTheWait(s: State, t: Thread)
    requires t in s.threads
    ensures var s' := Step(s, Interrupt(t));
      var here := s.threads[t];
      && (here.Arriving? ==> s' == s.(threads := s.threads - {t}))
      && (here.Between? ==>
            && s'.threads == s.threads - {t} && s'.permits == s.permits + 1
            && forall h :: s'.Hook(h) == s.Hook(h) + (if h == here.hook then 1 else 0)
                         && s'.Extra(h) == s.Extra(h) + if h == here.hook then 1 else 0)
      && (here.Inside? ==> s' == Step(s, Advance(t)))
      && (here.Leaving? ==> s' == s)
  {
  }
}
