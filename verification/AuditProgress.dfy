/**
 The log can always be written: the lock is free or with a call under way, and every call under
 way can still come to its commit.
 */
module AuditProgress {
  import opened Common
  import opened AuditChain

  function RequestOf(p: Phase): Request {
    p.request
  }

  /** A writer holds the lock exactly while its call is under way and past waiting for it. */
  ghost predicate LockInv(s: Database) {
    forall w :: s.lock == Some(w) <==> w in s.calls && !s.calls[w].Waiting?
  }

  lemma {:induction false} StepKeepsLock(h: HashFn, s: Database, e: Event)
    requires LockInv(s)
    ensures LockInv(Step(h, s, e))
  {
    var s' := Step(h, s, e);
    forall w ensures s'.lock == Some(w) <==> w in s'.calls && !s'.calls[w].Waiting? {
      assert s.lock == Some(w) <==> w in s.calls && !s.calls[w].Waiting?;
      assert s.lock == Some(e.w) <==> e.w in s.calls && !s.calls[e.w].Waiting?;
    }
  }

  lemma {:induction false} RunKeepsLock(h: HashFn, s: Database, es: seq<Event>)
    requires LockInv(s)
    ensures LockInv(Run(h, s, es))
    decreases |es|
  {
    if es != [] {
      StepKeepsLock(h, s, es[0]);
      RunKeepsLock(h, Step(h, s, es[0]), es[1..]);
    }
  }

  lemma {:induction false} RunConcat(h: HashFn, s: Database, es: seq<Event>, fs: seq<Event>)
    ensures Run(h, s, es + fs) == Run(h, Run(h, s, es), fs)
    decreases |es|
  {
    if es == [] {
      assert es + fs == fs;
    } else {
      assert (es + fs)[1..] == es[1..] + fs;
      RunConcat(h, Step(h, s, es[0]), es[1..], fs);
    }
  }

  lemma {:induction false} RunOne(h: HashFn, s: Database, e: Event)
    ensures Run(h, s, [e]) == Step(h, s, e)
  {
    assert Run(h, Step(h, s, e), []) == Step(h, s, e);
  }

  lemma {:induction false} RunFirst(h: HashFn, s: Database, e: Event, es: seq<Event>)
    ensures Run(h, s, [e] + es) == Run(h, Step(h, s, e), es)
  {
    RunConcat(h, s, [e], es);
    RunOne(h, s, e);
  }

  /** The row holds what the request gave: the hashed fields, the address and the actor. */
  predicate Holds(e: Entry, r: Request) {
    && e.fields.eventType == r.fields.eventType && e.fields.details == r.fields.details
    && e.fields.correlationId == r.fields.correlationId && e.fields.createdAt == r.fields.createdAt
    && e.email == r.email && e.actorId == r.actorId
  }

  /** What a commit of `w` leaves: its request is the new last row, nothing else has changed, and
      the lock is free. */
  ghost predicate Written(s: Database, s': Database, w: Writer)
    requires w in s.calls
  {
    && |s'.table| == |s.table| + 1 && s'.table[..|s.table|] == s.table
    && Holds(s'.table[|s.table|], RequestOf(s.calls[w]))
    && s'.lock == None && s'.calls == s.calls - {w}
  }

  /** The events that are left of a call that has the lock. */
  function Rest(p: Phase, w: Writer): seq<Event> {
    match p
    case Waiting(_) => [Acquire(w)] + ([ReadTail(w)] + ([Add(w)] + [Commit(w)]))
    case Locked(_) => [ReadTail(w)] + ([Add(w)] + [Commit(w)])
    case HasTail(_, _) => [Add(w)] + [Commit(w)]
    case Added(_, _) => [Commit(w)]
  }

  lemma {:induction false} AddedCommits(h: HashFn, s: Database, w: Writer)
    requires w in s.calls && s.calls[w].Added? && s.lock == Some(w)
    requires Holds(s.calls[w].entry, RequestOf(s.calls[w]))
    ensures Written(s, Run(h, s, [Commit(w)]), w)
  {
    RunOne(h, s, Commit(w));
  }

  lemma {:induction false} TailCommits(h: HashFn, s: Database, w: Writer)
    requires w in s.calls && s.calls[w].HasTail? && s.lock == Some(w)
    ensures Written(s, Run(h, s, [Add(w)] + [Commit(w)]), w)
  {
    RunFirst(h, s, Add(w), [Commit(w)]);
    var s' := Step(h, s, Add(w));
    AddedCommits(h, s', w);
    assert s'.calls - {w} == s.calls - {w};
  }

  lemma {:induction false} LockedCommits(h: HashFn, s: Database, w: Writer)
    requires w in s.calls && s.calls[w].Locked? && s.lock == Some(w)
    ensures Written(s, Run(h, s, [ReadTail(w)] + ([Add(w)] + [Commit(w)])), w)
  {
    RunFirst(h, s, ReadTail(w), [Add(w)] + [Commit(w)]);
    var s' := Step(h, s, ReadTail(w));
    TailCommits(h, s', w);
    assert s'.calls - {w} == s.calls - {w};
  }

  lemma {:induction false} WaitingCommits(h: HashFn, s: Database, w: Writer)
    requires w in s.calls && s.calls[w].Waiting? && s.lock == None
    ensures Written(s, Run(h, s, Rest(s.calls[w], w)), w)
  {
    RunFirst(h, s, Acquire(w), [ReadTail(w)] + ([Add(w)] + [Commit(w)]));
    var s' := Step(h, s, Acquire(w));
    LockedCommits(h, s', w);
    assert s'.calls - {w} == s.calls - {w};
  }

  /** A call that has the lock, or may have it at once, commits when it goes on. */
  lemma {:induction false} CallCommits(h: HashFn, s: Database, w: Writer)
    requires AuditChain.Inv(h, s) && LockInv(s) && w in s.calls && (s.lock == None || s.lock == Some(w))
    ensures Written(s, Run(h, s, Rest(s.calls[w], w)), w)
  {
    assert CallInv(h, s, w);
    match s.calls[w]
    case Waiting(_) => WaitingCommits(h, s, w);
    case Locked(_) => LockedCommits(h, s, w);
    case HasTail(_, _) => TailCommits(h, s, w);
    case Added(_, _) => AddedCommits(h, s, w);
  }

  /** No deadlock and nothing lost: each call under way has a continuation without a rollback
      after which its own request is the last row, and before it at most one row is added, that of
      the call that had the lock. */
  lemma {:induction false} EveryCallCanCommit(h: HashFn, s: Database, w: Writer) returns (es: seq<Event>)
    requires AuditChain.Inv(h, s) && LockInv(s) && w in s.calls
    ensures var t := Run(h, s, es).table;
      && |s.table| < |t| <= |s.table| + 2 && t[..|s.table|] == s.table
      && Holds(t[|t| - 1], RequestOf(s.calls[w]))
      && (|t| == |s.table| + 2 ==>
            s.lock.Some? && s.lock.value in s.calls && Holds(t[|s.table|], RequestOf(s.calls[s.lock.value])))
  {
    if s.lock == None || s.lock == Some(w) {
      es := Rest(s.calls[w], w);
      CallCommits(h, s, w);
    } else {
      var v := s.lock.value;
      assert v in s.calls && !s.calls[v].Waiting?;
      var first := Rest(s.calls[v], v);
      var s1 := Run(h, s, first);
      CallCommits(h, s, v);
      WritersKeepOneChain(h, s, first);
      RunKeepsLock(h, s, first);
      var second := Rest(s1.calls[w], w);
      CallCommits(h, s1, w);
      RunConcat(h, s, first, second);
      es := first + second;
      var t := Run(h, s, es).table;
      assert t[..|s.table|] == t[..|s1.table|][..|s.table|];
      assert t[|s.table|] == t[..|s1.table|][|s.table|];
    }
  }

  /** So it is in every state of every run from a good log with no calls under way: the lock is
      with a call under way or free, and each call can come to its commit. */
  lemma {:induction false} EveryReachedCallCanCommit(
    h: HashFn, table: seq<Entry>, nextId: nat, past: seq<Event>, w: Writer) returns (es: seq<Event>)
    requires Chain(h, table) && Increasing(table, nextId)
    requires w in Run(h, Database(table, nextId, None, map[]), past).calls
    ensures var s := Run(h, Database(table, nextId, None, map[]), past);
      && LockInv(s)
      && var t := Run(h, s, es).table;
         t != [] && |t| > |s.table| && Holds(t[|t| - 1], RequestOf(s.calls[w]))
  {
    var start := Database(table, nextId, None, map[]);
    WritersKeepOneChain(h, start, past);
    RunKeepsLock(h, start, past);
    es := EveryCallCanCommit(h, Run(h, start, past), w);
  }

  /** A call may begin at any time, if the same worker has none under way, and its request can be
      written. */
  lemma {:induction false} EveryRequestCanBeWritten(h: HashFn, s: Database, w: Writer, request: Request)
    returns (es: seq<Event>)
    requires AuditChain.Inv(h, s) && LockInv(s) && w !in s.calls
    ensures var t := Run(h, s, [Begin(w, request)] + es).table;
      && |s.table| < |t| <= |s.table| + 2 && t[..|s.table|] == s.table && Holds(t[|t| - 1], request)
  {
    var s' := Step(h, s, Begin(w, request));
    RunOne(h, s, Begin(w, request));
    WritersKeepOneChain(h, s, [Begin(w, request)]);
    StepKeepsLock(h, s, Begin(w, request));
    assert RequestOf(s'.calls[w]) == request;
    es := EveryCallCanCommit(h, s', w);
    RunFirst(h, s, Begin(w, request), es);
  }

  /** Rows are numbered one after the other as they are added; other steps take no number. */
  lemma {:induction false} AddTakesTheNextId(h: HashFn, s: Database, e: Event)
    ensures var s' := Step(h, s, e);
      if e.Add? && e.w in s.calls && s.calls[e.w].HasTail?
      then s'.nextId == s.nextId + 1 && e.w in s'.calls && s'.calls[e.w].Added? && s'.calls[e.w].entry.id == s.nextId
      else s'.nextId == s.nextId
  {
  }

  /** A rollback adds nothing, takes no other call with it, and frees the lock if it was held. */
  lemma {:induction false} AbortLeavesNothing(h: HashFn, s: Database, w: Writer)
    requires LockInv(s)
    ensures var s' := Step(h, s, Abort(w));
      && s'.table == s.table && s'.calls == s.calls - {w}
      && s'.lock == (if s.lock == Some(w) then None else s.lock)
  {
  }
}
