/**
 The ledger poller: fetch a page after the cursor, with retries; hand the blocks to the handler
 one by one; move the cursor past each block the handler accepts.
 */
module Poller {
  import opened Common

  datatype Block = Block(cursor: string, height: int)

  /** An honest source: the blocks after the start cursor, in ascending order. */
  datatype Source = Source(start: Option<string>, chain: seq<Block>)

  ghost predicate Honest(src: Source) {
    && (forall i, j | 0 <= i < j < |src.chain| :: src.chain[i].cursor != src.chain[j].cursor)
    && (forall i | 0 <= i < |src.chain| :: Some(src.chain[i].cursor) != src.start)
  }

  /** The number of blocks up to and including the one the cursor names. */
  function Seek(chain: seq<Block>, cursor: Option<string>): (n: nat)
    ensures n <= |chain|
  {
    if chain == [] then 0
    else if Some(chain[0].cursor) == cursor then 1
    else 1 + Seek(chain[1..], cursor)
  }

  /** What the source serves after a cursor: up to `limit` blocks, or fewer if it has not
      caught up yet. */
  function PageAfter(src: Source, cursor: Option<string>, limit: nat, count: nat): seq<Block> {
    var from := if cursor == src.start then 0 else Seek(src.chain, cursor);
    var n := Min(Min(count, limit), |src.chain| - from);
    src.chain[from..from + n]
  }

  function Min(a: nat, b: nat): nat {
    if a < b then a else b
  }

  /** What a call of the source comes to: an error of its own, any other exception, something
      that is not a list of blocks, or a page. */
  datatype Reply = FetchError(retryable: bool) | OtherError | NotBlocks | Page(count: nat)

  predicate Retryable(r: Reply) {
    r.OtherError? || (r.FetchError? && r.retryable)
  }

  datatype Config = Config(batchSize: nat, maxAttempts: nat, baseDelay: real, maxDelay: real)

  /** The constructor's checks. */
  predicate Accepted(c: Config) {
    1 <= c.batchSize <= 200 && c.maxAttempts >= 1 && 0.0 <= c.baseDelay <= c.maxDelay
  }

  datatype Fetched = Blocks(blocks: seq<Block>, attempts: nat) | Failed(attempts: nat)

  datatype Failure = FetchFailure | HandlerFailure(block: Block)

  /** The poller's fields, and the blocks whose handler call has succeeded. */
  datatype State = State(cursor: Option<string>, failures: nat, lastError: Option<Failure>, handled: seq<Block>)

  /** One poll's surroundings: the source's reply to each attempt, and the handler, if any. */
  datatype Poll = Poll(replies: nat -> Reply, handler: Option<Block -> bool>)

  // ---------------------------------------------------------------- one poll, as a function

  /** The attempt that decides the fetch: the first that is not a retryable error, or the last. */
  function Deciding(replies: nat -> Reply, attempt: nat, maxAttempts: nat): (n: nat)
    requires 1 <= attempt <= maxAttempts
    ensures attempt <= n <= maxAttempts
    ensures forall k | attempt <= k < n :: Retryable(replies(k))
    ensures n == maxAttempts || !Retryable(replies(n))
    decreases maxAttempts - attempt
  {
    if attempt == maxAttempts || !Retryable(replies(attempt)) then attempt
    else Deciding(replies, attempt + 1, maxAttempts)
  }

  function Fetch(c: Config, src: Source, cursor: Option<string>, replies: nat -> Reply): Fetched
    requires Accepted(c)
  {
    var n := Deciding(replies, 1, c.maxAttempts);
    var r := replies(n);
    if r.Page? then Blocks(PageAfter(src, cursor, c.batchSize, r.count), n) else Failed(n)
  }

  predicate Takes(handler: Option<Block -> bool>, b: Block) {
    handler.None? || handler.value(b)
  }

  /** How many blocks of a page are handled: those before the first one the handler rejects. */
  function TakenOf(handler: Option<Block -> bool>, blocks: seq<Block>): (n: nat)
    ensures n <= |blocks|
    ensures forall i | 0 <= i < n :: Takes(handler, blocks[i])
    ensures n < |blocks| ==> !Takes(handler, blocks[n])
  {
    if blocks == [] || !Takes(handler, blocks[0]) then 0 else 1 + TakenOf(handler, blocks[1..])
  }

  function Advance(s: State, blocks: seq<Block>): State {
    if blocks == [] then s
    else s.(cursor := Some(blocks[|blocks| - 1].cursor), handled := s.handled + blocks)
  }

  function AfterPoll(c: Config, src: Source, s: State, p: Poll): State
    requires Accepted(c)
  {
    match Fetch(c, src, s.cursor, p.replies)
    case Failed(_) => s.(failures := s.failures + 1, lastError := Some(FetchFailure))
    case Blocks(blocks, _) => AfterPage(s, p.handler, blocks)
  }

  function AfterPage(s: State, handler: Option<Block -> bool>, blocks: seq<Block>): State {
    var n := TakenOf(handler, blocks);
    var moved := Advance(s, blocks[..n]);
    if n < |blocks| then moved.(failures := s.failures + 1, lastError := Some(HandlerFailure(blocks[n])))
    else moved.(failures := 0, lastError := None)
  }

  function Run(c: Config, src: Source, s: State, ps: seq<Poll>): State
    requires Accepted(c)
    decreases |ps|
  {
    if ps == [] then s else Run(c, src, AfterPoll(c, src, s, ps[0]), ps[1..])
  }

  // ---------------------------------------------------------------- what every run keeps

  /** The cursor after `n` blocks of the chain. */
  function CursorAt(src: Source, n: nat): Option<string>
    requires n <= |src.chain|
  {
    if n == 0 then src.start else Some(src.chain[n - 1].cursor)
  }

  /** The handled blocks are the chain up to some point, and the cursor names the last one. */
  ghost predicate Inv(src: Source, s: State) {
    && |s.handled| <= |src.chain|
    && s.handled == src.chain[..|s.handled|]
    && s.cursor == CursorAt(src, |s.handled|)
    && (s.failures == 0 <==> s.lastError.None?)
  }

  lemma {:induction false} SeekFinds(chain: seq<Block>, i: nat)
    requires i < |chain|
    requires forall j, k | 0 <= j < k < |chain| :: chain[j].cursor != chain[k].cursor
    ensures Seek(chain, Some(chain[i].cursor)) == i + 1
    decreases i
  {
    if i > 0 {
      assert chain[0].cursor != chain[i].cursor;
      assert chain[1..][i - 1] == chain[i];
      SeekFinds(chain[1..], i - 1);
    }
  }

  /** The page served at a cursor continues the chain just after it. */
  lemma {:induction false} PageContinues(src: Source, n: nat, limit: nat, count: nat)
    requires Honest(src) && n <= |src.chain|
    ensures var page := PageAfter(src, CursorAt(src, n), limit, count);
      |page| == Min(Min(count, limit), |src.chain| - n) && page == src.chain[n..n + |page|]
  {
    if n > 0 {
      assert Some(src.chain[n - 1].cursor) != src.start;
      SeekFinds(src.chain, n - 1);
    }
  }

  lemma AdvanceOne(s: State, blocks: seq<Block>, i: nat)
    requires i < |blocks|
    ensures var s' := Advance(s, blocks[..i]);
      Advance(s, blocks[..i + 1]) == s'.(cursor := Some(blocks[i].cursor), handled := s'.handled + [blocks[i]])
  {
    assert blocks[..i + 1] == blocks[..i] + [blocks[i]];
  }

  /** Taking `m` blocks of the page at hand leads from one point of the chain to another. */
  lemma {:induction false} AdvanceKeepsPlace(src: Source, s: State, page: seq<Block>, m: nat)
    requires Inv(src, s) && m <= |page| && |s.handled| + |page| <= |src.chain|
    requires page == src.chain[|s.handled|..|s.handled| + |page|]
    ensures var n := |s.handled|;
      var s' := Advance(s, page[..m]);
      && |s'.handled| == n + m && s'.handled == src.chain[..n + m]
      && s'.cursor == CursorAt(src, n + m)
  {
    var n := |s.handled|;
    assert page[..m] == src.chain[n..n + m];
    if m > 0 {
      assert page[..m][m - 1] == src.chain[n + m - 1];
    }
  }

  lemma {:induction false} PollKeepsInv(c: Config, src: Source, s: State, p: Poll)
    requires Accepted(c) && Honest(src) && Inv(src, s)
    ensures Inv(src, AfterPoll(c, src, s, p))
    ensures |s.handled| <= |AfterPoll(c, src, s, p).handled|
  {
    var f := Fetch(c, src, s.cursor, p.replies);
    if f.Blocks? {
      var n := |s.handled|;
      PageContinues(src, n, c.batchSize, p.replies(f.attempts).count);
      var m := TakenOf(p.handler, f.blocks);
      AdvanceKeepsPlace(src, s, f.blocks, m);
    }
  }

  /** Under any failures whatever, the handled blocks are an initial piece of the chain with
      nothing left out and nothing twice, and the cursor names the last of them. */
  lemma {:induction false} EveryRunHandlesInOrder(c: Config, src: Source, s: State, ps: seq<Poll>)
    requires Accepted(c) && Honest(src) && Inv(src, s)
    ensures var s' := Run(c, src, s, ps);
      && |s.handled| <= |s'.handled| <= |src.chain|
      && s'.handled == src.chain[..|s'.handled|]
      && s'.cursor == CursorAt(src, |s'.handled|)
      && (forall i, j | 0 <= i < j < |s'.handled| :: s'.handled[i] != s'.handled[j])
      && Inv(src, s')
    decreases |ps|
  {
    if ps != [] {
      PollKeepsInv(c, src, s, ps[0]);
      EveryRunHandlesInOrder(c, src, AfterPoll(c, src, s, ps[0]), ps[1..]);
    }
  }

  /** What becomes of a page: the blocks up to the first that the handler rejects are handled. A
      rejection counts as a failure and names the block; a page handled to its end clears the
      failures. */
  ghost predicate PageHandled(
    src: Source, s: State, s': State, handler: Option<Block -> bool>, k: nat, m: nat)
    requires |s.handled| + m <= |src.chain|
  {
    var n := |s.handled|;
    && k <= m && s'.handled == src.chain[..n + k] && s'.cursor == CursorAt(src, n + k)
    && (forall i | n <= i < n + k :: handler.None? || handler.value(src.chain[i]))
    && (k == m ==> s'.failures == 0 && s'.lastError == None)
    && (k < m ==>
          && handler.Some? && !handler.value(src.chain[n + k])
          && s'.failures == s.failures + 1 && s'.lastError == Some(HandlerFailure(src.chain[n + k])))
  }

  lemma {:induction false} PageOutcome(src: Source, s: State, handler: Option<Block -> bool>, blocks: seq<Block>)
    requires Inv(src, s) && |s.handled| + |blocks| <= |src.chain|
    requires blocks == src.chain[|s.handled|..|s.handled| + |blocks|]
    ensures PageHandled(src, s, AfterPage(s, handler, blocks), handler, TakenOf(handler, blocks), |blocks|)
  {
    var n, k := |s.handled|, TakenOf(handler, blocks);
    AdvanceKeepsPlace(src, s, blocks, k);
    forall i | n <= i < n + k ensures handler.None? || handler.value(src.chain[i]) {
      assert Takes(handler, blocks[i - n]);
    }
  }

  /** Exactly what one poll does. If the attempt that decides it brings no page, nothing is handled
      and the failure counts. Otherwise the page is the next blocks of the chain, as many as the
      source has for it, the batch size allows and the chain holds. */
  lemma {:induction false} PollOutcome(c: Config, src: Source, s: State, p: Poll) returns (k: nat)
    requires Accepted(c) && Honest(src) && Inv(src, s)
    ensures var s', reply := AfterPoll(c, src, s, p), p.replies(Deciding(p.replies, 1, c.maxAttempts));
      && (!reply.Page? ==> s' == s.(failures := s.failures + 1, lastError := Some(FetchFailure)))
      && (reply.Page? ==>
            PageHandled(src, s, s', p.handler, k, Min(Min(reply.count, c.batchSize), |src.chain| - |s.handled|)))
  {
    var f := Fetch(c, src, s.cursor, p.replies);
    k := 0;
    if f.Blocks? {
      PageContinues(src, |s.handled|, c.batchSize, p.replies(f.attempts).count);
      k := TakenOf(p.handler, f.blocks);
      PageOutcome(src, s, p.handler, f.blocks);
    }
  }

  /** The poll handled a whole page, be it empty. */
  predicate Succeeds(c: Config, src: Source, s: State, p: Poll)
    requires Accepted(c)
  {
    match Fetch(c, src, s.cursor, p.replies)
    case Failed(_) => false
    case Blocks(blocks, _) => TakenOf(p.handler, blocks) == |blocks|
  }

  /** The number of failed polls at the end of the run. */
  function FailedTail(c: Config, src: Source, s: State, ps: seq<Poll>): nat
    requires Accepted(c)
  {
    if ps == [] then 0
    else
      var front, p := ps[..|ps| - 1], ps[|ps| - 1];
      if Succeeds(c, src, Run(c, src, s, front), p) then 0 else FailedTail(c, src, s, front) + 1
  }

  lemma {:induction false} RunAppend(c: Config, src: Source, s: State, ps: seq<Poll>, p: Poll)
    requires Accepted(c)
    ensures Run(c, src, s, ps + [p]) == AfterPoll(c, src, Run(c, src, s, ps), p)
    decreases |ps|
  {
    if ps == [] {
      assert [] + [p] == [p] && [p][1..] == [];
      assert Run(c, src, AfterPoll(c, src, s, p), []) == AfterPoll(c, src, s, p);
    } else {
      assert (ps + [p])[1..] == ps[1..] + [p];
      RunAppend(c, src, AfterPoll(c, src, s, ps[0]), ps[1..], p);
    }
  }

  /** After any run from a fresh poller, the counter is the number of polls that failed since the
      last one that did not. */
  lemma {:induction false} FailuresCountTheTail(c: Config, src: Source, ps: seq<Poll>)
    requires Accepted(c)
    ensures var s := State(src.start, 0, None, []);
      Run(c, src, s, ps).failures == FailedTail(c, src, s, ps)
  {
    if ps != [] {
      var n := |ps| - 1;
      FailuresCountTheTail(c, src, ps[..n]);
      RunAppend(c, src, State(src.start, 0, None, []), ps[..n], ps[n]);
      assert ps == ps[..n] + [ps[n]];
    }
  }

  /** A poll in which the source answers in time with a block that the handler takes. */
  ghost predicate Good(c: Config, p: Poll)
    requires Accepted(c)
  {
    var r := p.replies(Deciding(p.replies, 1, c.maxAttempts));
    r.Page? && r.count > 0 && forall b :: Takes(p.handler, b)
  }

  ghost function GoodPolls(c: Config, ps: seq<Poll>): nat
    requires Accepted(c)
  {
    if ps == [] then 0 else (if Good(c, ps[0]) then 1 else 0) + GoodPolls(c, ps[1..])
  }

  lemma GoodPollMoves(c: Config, src: Source, s: State, p: Poll)
    requires Accepted(c) && Honest(src) && Inv(src, s) && Good(c, p) && |s.handled| < |src.chain|
    ensures |AfterPoll(c, src, s, p).handled| > |s.handled|
  {
    var f := Fetch(c, src, s.cursor, p.replies);
    var n := |s.handled|;
    PageContinues(src, n, c.batchSize, p.replies(f.attempts).count);
    AdvanceKeepsPlace(src, s, f.blocks, |f.blocks|);
    assert f.blocks[..|f.blocks|] == f.blocks;
  }

  /** Failures only delay: as many good polls as there are blocks left handle all of them,
      wherever the failed polls fall. */
  lemma {:induction false} EnoughGoodPollsHandleAll(c: Config, src: Source, s: State, ps: seq<Poll>)
    requires Accepted(c) && Honest(src) && Inv(src, s)
    requires GoodPolls(c, ps) >= |src.chain| - |s.handled|
    ensures Run(c, src, s, ps).handled == src.chain
    decreases |ps|
  {
    if ps == [] {
      assert s.handled == src.chain;
    } else {
      PollKeepsInv(c, src, s, ps[0]);
      if Good(c, ps[0]) && |s.handled| < |src.chain| {
        GoodPollMoves(c, src, s, ps[0]);
      }
      EnoughGoodPollsHandleAll(c, src, AfterPoll(c, src, s, ps[0]), ps[1..]);
    }
  }

  // ---------------------------------------------------------------- retry delays

  function Pow2(n: nat): (r: real)
    ensures r >= 1.0
  {
    if n == 0 then 1.0 else 2.0 * Pow2(n - 1)
  }

  function Delay(c: Config, attempt: nat): real
    requires attempt >= 1
  {
    var d := c.baseDelay * Pow2(attempt - 1);
    if d < c.maxDelay then d else c.maxDelay
  }

  /** The first wait is the base, and each further one doubles, up to the cap. */
  lemma {:induction false} DelayDoubles(c: Config, attempt: nat)
    requires Accepted(c) && attempt >= 1
    ensures Delay(c, 1) == c.baseDelay
    ensures var d := 2.0 * Delay(c, attempt);
      Delay(c, attempt + 1) == if d < c.maxDelay then d else c.maxDelay
  {
    var d, e := c.baseDelay * Pow2(attempt - 1), c.baseDelay * Pow2(attempt);
    assert Pow2(attempt) == 2.0 * Pow2(attempt - 1);
    assert e == 2.0 * d;
    assert Pow2(0) == 1.0;
    DelayIs(c, 1, c.baseDelay * 1.0);
    DelayIs(c, attempt, d);
    DelayIs(c, attempt + 1, e);
    Scales(c.baseDelay, 0.0, Pow2(attempt - 1));
  }

  /** A wait never falls below the base, never passes the cap, and never shrinks. */
  lemma {:induction false} DelayGrows(c: Config, attempt: nat)
    requires Accepted(c) && attempt >= 1
    ensures c.baseDelay <= Delay(c, attempt) <= c.maxDelay
    ensures Delay(c, attempt) <= Delay(c, attempt + 1)
  {
    var d, e := c.baseDelay * Pow2(attempt - 1), c.baseDelay * Pow2(attempt);
    assert c.baseDelay <= d <= e by {
      Scales(c.baseDelay, 1.0, Pow2(attempt - 1));
      Scales(c.baseDelay, Pow2(attempt - 1), Pow2(attempt));
    }
    DelayIs(c, attempt, d);
    DelayIs(c, attempt + 1, e);
  }

  lemma {:induction false} DelayIs(c: Config, attempt: nat, d: real)
    requires attempt >= 1 && d == c.baseDelay * Pow2(attempt - 1)
    ensures Delay(c, attempt) == if d < c.maxDelay then d else c.maxDelay
  {
  }

  ghost predicate AreDelays(c: Config, delays: seq<real>) {
    forall k: nat | k < |delays| :: delays[k] == Delay(c, k + 1)
  }

  lemma {:induction false} DelaysGrowAndDouble(c: Config, delays: seq<real>)
    requires Accepted(c) && AreDelays(c, delays)
    ensures forall k | 0 <= k < |delays| :: c.baseDelay <= delays[k] <= c.maxDelay
    ensures forall k | 0 < k < |delays| :: delays[k - 1] <= delays[k]
    ensures delays != [] ==> delays[0] == c.baseDelay
    ensures forall k | 0 < k < |delays| ::
      delays[k] == if 2.0 * delays[k - 1] < c.maxDelay then 2.0 * delays[k - 1] else c.maxDelay
  {
    forall k: nat | k < |delays|
      ensures c.baseDelay <= delays[k] <= c.maxDelay && (k == 0 ==> delays[k] == c.baseDelay)
    {
      DelayGrows(c, k + 1);
      DelayDoubles(c, k + 1);
    }
    forall k: nat | 0 < k < |delays|
      ensures delays[k - 1] <= delays[k]
      ensures delays[k] == if 2.0 * delays[k - 1] < c.maxDelay then 2.0 * delays[k - 1] else c.maxDelay
    {
      DelayGrows(c, k);
      DelayDoubles(c, k);
    }
  }

  lemma {:induction false} Scales(x: real, a: real, b: real)
    requires 0.0 <= x && a <= b
    ensures x * a <= x * b
  {
    assert x * (b - a) >= 0.0;
  }

  // ---------------------------------------------------------------- the poller

  class BlockPoller {
    const config: Config
    var cursor: Option<string>
    var failures: nat
    var lastError: Option<Failure>
    ghost var handled: seq<Block>

    ghost function Fields(): State
      reads this
    {
      State(cursor, failures, lastError, handled)
    }

    constructor (config: Config, start: Option<string>)
      requires Accepted(config)
      ensures this.config == config && Fields() == State(start, 0, None, [])
      ensures forall chain :: Inv(Source(start, chain), Fields())
    {
      this.config := config;
      cursor, failures, lastError := start, 0, None;
      handled := [];
    }

    /** At most `maxAttempts` fetches, a wait between each two. `delays` is what it slept. */
    method FetchWithRetry(src: Source, replies: nat -> Reply) returns (out: Fetched, delays: seq<real>)
      requires Accepted(config)
      ensures out == Fetch(config, src, cursor, replies)
      ensures 1 <= out.attempts <= config.maxAttempts && |delays| == out.attempts - 1
      ensures forall k | 1 <= k < out.attempts :: replies(k) == OtherError || replies(k) == FetchError(true)
      ensures out.Failed? && out.attempts < config.maxAttempts ==>
        replies(out.attempts) == FetchError(false) || replies(out.attempts) == NotBlocks
      ensures forall k | 0 <= k < |delays| :: config.baseDelay <= delays[k] <= config.maxDelay
      ensures forall k | 0 < k < |delays| :: delays[k - 1] <= delays[k]
      ensures delays != [] ==> delays[0] == config.baseDelay
      ensures forall k | 0 < k < |delays| ::
        delays[k] == if 2.0 * delays[k - 1] < config.maxDelay then 2.0 * delays[k - 1] else config.maxDelay
    {
      delays := [];
      var attempt := 1;
      while true
        invariant 1 <= attempt <= config.maxAttempts && |delays| == attempt - 1
        invariant forall k | 1 <= k < attempt :: Retryable(replies(k))
        invariant Deciding(replies, 1, config.maxAttempts) == Deciding(replies, attempt, config.maxAttempts)
        invariant AreDelays(config, delays)
        decreases config.maxAttempts - attempt
      {
        var reply := replies(attempt);
        if reply.Page? {
          DelaysGrowAndDouble(config, delays);
          return Blocks(PageAfter(src, cursor, config.batchSize, reply.count), attempt), delays;
        }
        if !Retryable(reply) || attempt >= config.maxAttempts {
          DelaysGrowAndDouble(config, delays);
          return Failed(attempt), delays;
        }
        delays := delays + [Delay(config, attempt)];
        attempt := attempt + 1;
      }
    }

    method RecordFailure(error: Failure)
      modifies this`failures, this`lastError
      ensures failures == old(failures) + 1 && lastError == Some(error)
    {
      lastError := Some(error);
      failures := failures + 1;
    }

    /** Hands over a page and moves the cursor past each block the handler takes. */
    method HandlePage(handler: Option<Block -> bool>, blocks: seq<Block>) returns (processed: Option<nat>)
      modifies this
      ensures Fields() == AfterPage(old(Fields()), handler, blocks)
      ensures processed == if failures == 0 then Some(|blocks|) else None
    {
      var i := 0;
      while i < |blocks|
        invariant 0 <= i <= TakenOf(handler, blocks)
        invariant Fields() == Advance(old(Fields()), blocks[..i])
      {
        if handler.Some? && !handler.value(blocks[i]) {
          RecordFailure(HandlerFailure(blocks[i]));
          return None;
        }
        AdvanceOne(old(Fields()), blocks, i);
        handled := handled + [blocks[i]];
        cursor := Some(blocks[i].cursor);
        i := i + 1;
      }
      failures, lastError := 0, None;
      return Some(i);
    }

    method PollOnce(src: Source, p: Poll) returns (processed: Option<nat>)
      requires Accepted(config)
      modifies this
      ensures Fields() == AfterPoll(config, src, old(Fields()), p)
      ensures processed.Some? <==> failures == 0
      ensures processed.Some? ==> |handled| == |old(handled)| + processed.value
    {
      var fetched, _ := FetchWithRetry(src, p.replies);
      if fetched.Failed? {
        RecordFailure(FetchFailure);
        return None;
      }
      processed := HandlePage(p.handler, fetched.blocks);
    }
  }
}
