/**
 The audit log as a hash chain: the verifier, the migration that chains the existing rows, what
 the chain proves about a log, and any number of concurrent writers under the advisory lock.
 The hash of an entry is an arbitrary function; where a result needs it, it is injective.
 */
module AuditChain {
  import opened Common
  import opened Text
  import opened JsonText
  import JsonTree
  type Json = JsonTree.Json

  type Digest = string

  /** The scrubbed details: a tree of JSON values. No details are null. */
  type Details = v: Json | Canonical(v) witness JsonTree.Null

  /** What `_compute_entry_hash` covers besides the previous hash; the time stamp is the ISO text
      that is hashed. */
  datatype Fields = Fields(
    eventType: string, details: Details, correlationId: Option<string>, createdAt: Option<string>)

  datatype Entry = Entry(
    id: nat, fields: Fields, email: Option<string>, actorId: Option<string>,
    prevHash: Option<Digest>, entryHash: Digest)

  type HashFn = (Option<Digest>, Fields) -> Digest

  ghost predicate Injective(h: HashFn) {
    forall p, f, q, g | h(p, f) == h(q, g) :: p == q && f == g
  }

  function OrNull(o: Option<string>): Json {
    if o.Some? then JsonTree.Str(o.value) else JsonTree.Null
  }

  function Field(name: string, v: Json): JsonTree.Entry {
    JsonTree.Entry(JsonTree.Name(name), v)
  }

  /** The dictionary that is hashed, in the order of its keys. */
  function HashedObject(p: Option<Digest>, f: Fields): Json {
    JsonTree.Obj([
      Field("correlation_id", OrNull(f.correlationId)), Field("created_at", OrNull(f.createdAt)),
      Field("details", f.details), Field("event_type", JsonTree.Str(f.eventType)), Field("prev_hash", OrNull(p))])
  }

  /** The text that is hashed: canonical JSON, with sorted keys and no spaces. */
  function HashedText(p: Option<Digest>, f: Fields): string {
    Write(HashedObject(p, f))
  }

  lemma {:induction false} HashedObjectIsCanonical(p: Option<Digest>, f: Fields)
    ensures Canonical(HashedObject(p, f))
  {
    var entries := HashedObject(p, f).entries;
    assert Less("correlation_id", "created_at");
    forall i, j | 0 <= i < j < 5 ensures Less(entries[i].key.text, entries[j].key.text) {
    }
    forall i | 0 <= i < 5 ensures CanonicalEntry(entries[i]) {
    }
  }

  /** The text that is hashed determines every hashed field. So injective hashes exist, and what
      is asked of the hash is no more than that the digest keeps different texts apart. */
  lemma {:induction false} HashedTextInjective()
    ensures Injective(HashedText)
  {
    forall p, f, q, g | HashedText(p, f) == HashedText(q, g) ensures p == q && f == g {
      HashedObjectIsCanonical(p, f);
      HashedObjectIsCanonical(q, g);
      TextDeterminesTree(HashedObject(p, f), HashedObject(q, g));
    }
  }

  /** So a digest without collisions makes an injective hash. */
  lemma {:induction false} CollisionFreeDigest(digest: string -> Digest)
    requires forall s, t | digest(s) == digest(t) :: s == t
    ensures Injective((p, f) => digest(HashedText(p, f)))
  {
    HashedTextInjective();
  }

  // ---------------------------------------------------------------- chains

  function PreviousHash(t: seq<Entry>, i: nat): Option<Digest>
    requires i <= |t|
  {
    if i == 0 then None else Some(t[i - 1].entryHash)
  }

  predicate GoodAt(h: HashFn, t: seq<Entry>, i: nat)
    requires i < |t|
  {
    t[i].prevHash == PreviousHash(t, i) && t[i].entryHash == h(PreviousHash(t, i), t[i].fields)
  }

  ghost predicate Chain(h: HashFn, t: seq<Entry>) {
    forall i | 0 <= i < |t| :: GoodAt(h, t, i)
  }

  datatype Verdict = Verdict(verified: bool, firstBadId: Option<nat>, total: nat, lastHash: Option<Digest>)

  /** Entry `i` is the first that does not fit. */
  ghost predicate FirstBad(h: HashFn, t: seq<Entry>, i: nat) {
    i < |t| && !GoodAt(h, t, i) && forall j | 0 <= j < i :: GoodAt(h, t, j)
  }

  method VerifyChain(h: HashFn, t: seq<Entry>) returns (v: Verdict)
    ensures v.verified <==> Chain(h, t)
    ensures v.verified <==> v.firstBadId.None?
    ensures !v.verified ==> exists i: nat :: FirstBad(h, t, i) && v.firstBadId == Some(t[i].id)
    ensures v.total == |t| && v.lastHash == PreviousHash(t, |t|)
  {
    if |t| == 0 {
      return Verdict(true, None, 0, None);
    }
    for i := 0 to |t|
      invariant forall j | 0 <= j < i :: GoodAt(h, t, j)
    {
      var previous := if i > 0 then Some(t[i - 1].entryHash) else None;
      var expected := h(previous, t[i].fields);
      if t[i].prevHash != previous || t[i].entryHash != expected {
        assert FirstBad(h, t, i);
        return Verdict(false, Some(t[i].id), |t|, Some(t[|t| - 1].entryHash));
      }
    }
    return Verdict(true, None, |t|, Some(t[|t| - 1].entryHash));
  }

  // ---------------------------------------------------------------- the backfill

  /** The rows with their hashes computed in order. */
  function Backfilled(h: HashFn, t: seq<Entry>): (r: seq<Entry>)
    ensures |r| == |t|
  {
    if t == [] then []
    else
      var front, e := Backfilled(h, t[..|t| - 1]), t[|t| - 1];
      var previous := PreviousHash(front, |front|);
      front + [e.(prevHash := previous, entryHash := h(previous, e.fields))]
  }

  /** The rows but for their hashes. */
  predicate SameContent(a: Entry, b: Entry) {
    a == b.(prevHash := a.prevHash, entryHash := a.entryHash)
  }

  /** The migration makes every table a chain and touches nothing but the hashes; a table is
      left as it is exactly when it was a chain already. */
  lemma {:induction false} BackfillMakesChain(h: HashFn, t: seq<Entry>)
    ensures Chain(h, Backfilled(h, t))
    ensures forall i | 0 <= i < |t| :: SameContent(Backfilled(h, t)[i], t[i])
    ensures Backfilled(h, t) == t <==> Chain(h, t)
  {
    if t != [] {
      var n := |t| - 1;
      var front := Backfilled(h, t[..n]);
      BackfillMakesChain(h, t[..n]);
      var r := Backfilled(h, t);
      forall i | 0 <= i < |r| ensures GoodAt(h, r, i) {
        if i < n {
          assert GoodAt(h, front, i);
        }
      }
      assert t == t[..n] + [t[n]];
      if Chain(h, t) {
        forall i | 0 <= i < n ensures GoodAt(h, t[..n], i) {
          assert GoodAt(h, t, i);
        }
        assert GoodAt(h, t, n);
        assert r == t;
      }
    }
  }

  method Backfill(h: HashFn, rows: array<Entry>)
    modifies rows
    ensures rows[..] == Backfilled(h, old(rows[..]))
  {
    var prevHash: Option<Digest> := None;
    for i := 0 to rows.Length
      invariant rows[..i] == Backfilled(h, old(rows[..])[..i])
      invariant rows[i..] == old(rows[..])[i..]
      invariant prevHash == PreviousHash(rows[..i], i)
    {
      ghost var was := old(rows[..]);
      assert rows[i] == was[i] by {
        assert rows[i..][0] == was[i..][0];
      }
      var entryHash := h(prevHash, rows[i].fields);
      rows[i] := rows[i].(prevHash := prevHash, entryHash := entryHash);
      prevHash := Some(entryHash);
      assert was[..i + 1][..i] == was[..i];
      assert rows[..i + 1] == rows[..i] + [rows[i]];
    }
    assert rows[..rows.Length] == rows[..] && old(rows[..])[..rows.Length] == old(rows[..]);
  }

  // ---------------------------------------------------------------- what a chain proves

  /** Two accepted logs with the same last hash have the same length and the same hashed
      content, entry by entry. */
  lemma {:induction false} LastHashFixesTheLog(h: HashFn, a: seq<Entry>, b: seq<Entry>)
    requires Injective(h) && Chain(h, a) && Chain(h, b)
    requires PreviousHash(a, |a|) == PreviousHash(b, |b|)
    ensures |a| == |b|
    ensures forall i | 0 <= i < |a| ::
      a[i].fields == b[i].fields && a[i].prevHash == b[i].prevHash && a[i].entryHash == b[i].entryHash
  {
    if a != [] && b != [] {
      var m, n := |a| - 1, |b| - 1;
      assert GoodAt(h, a, m) && GoodAt(h, b, n);
      assert h(PreviousHash(a, m), a[m].fields) == h(PreviousHash(b, n), b[n].fields);
      ChainPrefix(h, a, m);
      ChainPrefix(h, b, n);
      LastHashFixesTheLog(h, a[..m], b[..n]);
      forall i | 0 <= i < m
        ensures a[i].fields == b[i].fields && a[i].prevHash == b[i].prevHash && a[i].entryHash == b[i].entryHash
      {
        assert a[..m][i] == a[i] && b[..n][i] == b[i];
      }
    }
  }

  lemma ChainPrefix(h: HashFn, t: seq<Entry>, n: nat)
    requires n <= |t| && Chain(h, t)
    ensures Chain(h, t[..n]) && PreviousHash(t[..n], n) == PreviousHash(t, n)
  {
    forall i | 0 <= i < n ensures GoodAt(h, t[..n], i) {
      assert GoodAt(h, t, i);
    }
  }

  /** Replacing one row of a good log goes unnoticed if and only if the new row carries the
      right hashes itself and, unless it is the last, leaves the hash its successor refers to. */
  lemma AlterationUnnoticedIff(h: HashFn, t: seq<Entry>, i: nat, e: Entry)
    requires Chain(h, t) && i < |t|
    ensures Chain(h, t[i := e]) <==>
      && e.prevHash == t[i].prevHash && e.entryHash == h(e.prevHash, e.fields)
      && (i + 1 < |t| ==> e.entryHash == t[i].entryHash)
  {
    var s := t[i := e];
    assert GoodAt(h, t, i);
    if i + 1 < |t| {
      assert GoodAt(h, t, i + 1);
      assert s[i + 1] == t[i + 1] && PreviousHash(s, i + 1) == Some(e.entryHash);
    }
    forall j | 0 <= j < |t| && j != i && j != i + 1 ensures GoodAt(h, s, j) {
      assert GoodAt(h, t, j);
    }
    if Chain(h, s) {
      assert GoodAt(h, s, i);
      if i + 1 < |t| {
        assert GoodAt(h, s, i + 1);
      }
    }
  }

  /** With an injective hash, a row before the last can change unnoticed in its address fields
      only; and altering a hashed field without the hashes makes the verifier name that row. */
  lemma AlteredFieldIsNamed(h: HashFn, t: seq<Entry>, i: nat, e: Entry)
    requires Injective(h) && Chain(h, t) && i < |t|
    ensures i + 1 < |t| ==> (Chain(h, t[i := e]) <==>
      e.fields == t[i].fields && e.prevHash == t[i].prevHash && e.entryHash == t[i].entryHash)
    ensures e.fields != t[i].fields && e.prevHash == t[i].prevHash && e.entryHash == t[i].entryHash ==>
      FirstBad(h, t[i := e], i)
  {
    AlterationUnnoticedIff(h, t, i, e);
    assert GoodAt(h, t, i);
    var s := t[i := e];
    forall j | 0 <= j < i ensures GoodAt(h, s, j) {
      assert GoodAt(h, t, j);
    }
  }

  /** No two entries of a chain have the same hash, so the unique index never refuses one. */
  lemma {:induction false} HashesAreDistinct(h: HashFn, t: seq<Entry>, i: nat, j: nat)
    requires Injective(h) && Chain(h, t) && i < j < |t|
    ensures t[i].entryHash != t[j].entryHash
  {
    assert GoodAt(h, t, i) && GoodAt(h, t, j);
    if t[i].entryHash == t[j].entryHash {
      assert PreviousHash(t, i) == PreviousHash(t, j);
      HashesAreDistinct(h, t, i - 1, j - 1);
    }
  }

  // ---------------------------------------------------------------- concurrent writers

  type Writer = nat

  /** What a call of `log_event` wants written. */
  datatype Request = Request(fields: Fields, email: Option<string>, actorId: Option<string>)

  /** How far a call has come: before the lock, with it, after the read of the last entry, and
      with the row added but not committed. */
  datatype Phase =
    | Waiting(request: Request)
    | Locked(request: Request)
    | HasTail(request: Request, previous: Option<Digest>)
    | Added(request: Request, entry: Entry)

  /** The committed rows in id order, the id sequence, the advisory lock, the calls under way. */
  datatype Database = Database(table: seq<Entry>, nextId: nat, lock: Option<Writer>, calls: map<Writer, Phase>)

  datatype Event =
    | Begin(w: Writer, request: Request)
    | Acquire(w: Writer)
    | ReadTail(w: Writer)
    | Add(w: Writer)
    | Commit(w: Writer)
    | Abort(w: Writer)

  function Release(s: Database, w: Writer): Database {
    s.(lock := if s.lock == Some(w) then None else s.lock, calls := s.calls - {w})
  }

  /** One step; an event that is not possible changes nothing. The lock is held until the
      transaction commits or rolls back. */
  function Step(h: HashFn, s: Database, e: Event): Database
  {
    match e
    case Begin(w, request) => if w in s.calls then s else s.(calls := s.calls[w := Waiting(request)])
    case Acquire(w) =>
      if w in s.calls && s.calls[w].Waiting? && s.lock.None?
      then s.(lock := Some(w), calls := s.calls[w := Locked(s.calls[w].request)]) else s
    case ReadTail(w) =>
      if w in s.calls && s.calls[w].Locked?
      then s.(calls := s.calls[w := HasTail(s.calls[w].request, PreviousHash(s.table, |s.table|))]) else s
    case Add(w) =>
      if w in s.calls && s.calls[w].HasTail?
      then
        var (r, previous) := (s.calls[w].request, s.calls[w].previous);
        var entry := Entry(s.nextId, r.fields, r.email, r.actorId, previous, h(previous, r.fields));
        s.(nextId := s.nextId + 1, calls := s.calls[w := Added(r, entry)])
      else s
    case Commit(w) =>
      if w in s.calls && s.calls[w].Added?
      then Release(s.(table := s.table + [s.calls[w].entry]), w) else s
    case Abort(w) => Release(s, w)
  }

  function Run(h: HashFn, s: Database, es: seq<Event>): Database
    decreases |es|
  {
    if es == [] then s else Run(h, Step(h, s, es[0]), es[1..])
  }

  ghost predicate Increasing(t: seq<Entry>, bound: nat) {
    && (forall i, j | 0 <= i < j < |t| :: t[i].id < t[j].id)
    && (forall i | 0 <= i < |t| :: t[i].id < bound)
  }

  predicate Records(e: Entry, r: Request) {
    e.fields == r.fields && e.email == r.email && e.actorId == r.actorId
  }

  /** The requests whose transactions commit during the run, in that order. */
  function Committed(h: HashFn, s: Database, es: seq<Event>): seq<Request>
    decreases |es|
  {
    if es == [] then []
    else
      var e, rest := es[0], Committed(h, Step(h, s, es[0]), es[1..]);
      if e.Commit? && e.w in s.calls && s.calls[e.w].Added? then [s.calls[e.w].request] + rest else rest
  }

  /** A call past `Waiting` holds the lock and what it knows of the tail is still true. */
  ghost predicate CallInv(h: HashFn, s: Database, w: Writer)
    requires w in s.calls
  {
    match s.calls[w]
    case Waiting(_) => true
    case Locked(_) => s.lock == Some(w)
    case HasTail(_, previous) => s.lock == Some(w) && previous == PreviousHash(s.table, |s.table|)
    case Added(r, e) =>
      && s.lock == Some(w) && e.prevHash == PreviousHash(s.table, |s.table|)
      && Records(e, r) && e.entryHash == h(e.prevHash, e.fields)
      && e.id < s.nextId && forall i | 0 <= i < |s.table| :: s.table[i].id < e.id
  }

  ghost predicate Inv(h: HashFn, s: Database) {
    && Chain(h, s.table) && Increasing(s.table, s.nextId)
    && forall w | w in s.calls :: CallInv(h, s, w)
  }

  lemma AppendKeepsChain(h: HashFn, t: seq<Entry>, e: Entry)
    requires Chain(h, t) && e.prevHash == PreviousHash(t, |t|) && e.entryHash == h(e.prevHash, e.fields)
    ensures Chain(h, t + [e])
  {
    forall i | 0 <= i < |t| + 1 ensures GoodAt(h, t + [e], i) {
      if i < |t| {
        assert GoodAt(h, t, i);
      }
    }
  }

  lemma StepKeepsInv(h: HashFn, s: Database, e: Event)
    requires Inv(h, s)
    ensures Inv(h, Step(h, s, e))
  {
    if e.Commit? && e.w in s.calls && s.calls[e.w].Added? {
      AppendKeepsChain(h, s.table, s.calls[e.w].entry);
    }
  }

  /** In every interleaving of writers, with transactions aborting anywhere, the committed table
      stays one chain that the verifier accepts, and what it has gained are the committed
      requests, each once and in the order of the commits. */
  lemma {:induction false} WritersKeepOneChain(h: HashFn, s: Database, es: seq<Event>)
    requires Inv(h, s)
    ensures var t, rs := Run(h, s, es).table, Committed(h, s, es);
      && Inv(h, Run(h, s, es))
      && |t| == |s.table| + |rs| && t[..|s.table|] == s.table
      && forall i | 0 <= i < |rs| :: Records(t[|s.table| + i], rs[i])
    decreases |es|
  {
    if es != [] {
      var e, s' := es[0], Step(h, s, es[0]);
      StepKeepsInv(h, s, e);
      WritersKeepOneChain(h, s', es[1..]);
      var t, rs := Run(h, s, es).table, Committed(h, s, es);
      if s'.table != s.table {
        var r := s.calls[e.w].request;
        assert s'.table == s.table + [s.calls[e.w].entry];
        assert t[..|s.table|] == t[..|s'.table|][..|s.table|] == s.table;
        assert t[|s.table|] == t[..|s'.table|][|s.table|];
        assert rs == [r] + Committed(h, s', es[1..]);
        forall i | 0 <= i < |rs| ensures Records(t[|s.table| + i], rs[i]) {
          if i > 0 {
            assert Records(t[|s'.table| + (i - 1)], Committed(h, s', es[1..])[i - 1]);
          }
        }
      }
    }
  }

  /** The runs start from any table that the backfill has rewritten, the empty one included. */
  lemma BackfilledStart(h: HashFn, t: seq<Entry>, nextId: nat, es: seq<Event>)
    requires Increasing(t, nextId)
    ensures Chain(h, Run(h, Database(Backfilled(h, t), nextId, None, map[]), es).table)
  {
    BackfillMakesChain(h, t);
    WritersKeepOneChain(h, Database(Backfilled(h, t), nextId, None, map[]), es);
  }
}
