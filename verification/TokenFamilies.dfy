/**
 Login sessions and refresh-token families. Tokens are fresh values from one supply; they are
 stored under an injective hash, so a token stands for its hash. Operations follow one another.
 */
module TokenFamilies {
  import opened Common

  type Token = nat
  type FamilyId = nat

  /** A row of `sessions`, keyed by the access token. Rows from before families have none. */
  datatype Session = Session(refresh: Token, email: string, family: Option<FamilyId>, sequence: int, expiresAt: Time)

  datatype Family = Family(email: string, current: int, compromised: bool)

  /** Both tables and the supply of fresh tokens and family ids. */
  datatype Db = Db(sessions: map<Token, Session>, families: map<FamilyId, Family>, next: nat)

  datatype Outcome =
    | Invalid | AccountLocked | InvalidFamily | Compromised | ReuseDetected | UserNotFound
    | Rotated(access: Token, refresh: Token)

  // ---------------------------------------------------------------- the operations

  /** A successful login opens a family with one session; the access and the refresh token are
      handed out. */
  function Login(db: Db, email: string, expiresAt: Time): (Db, Token, Token)
  {
    (Db(db.sessions[db.next + 1 := Session(db.next + 2, email, Some(db.next), 0, expiresAt)],
        db.families[db.next := Family(email, 0, false)],
        db.next + 3),
     db.next + 1, db.next + 2)
  }

  predicate Revoked(db: Db, family: Option<FamilyId>) {
    family.Some? && (family.value !in db.families || db.families[family.value].compromised)
  }

  predicate Accepts(db: Db, token: Token, now: Time) {
    token in db.sessions && now <= db.sessions[token].expiresAt && !Revoked(db, db.sessions[token].family)
  }

  /** The account a request with the access token acts for, if any. */
  function UserFor(db: Db, token: Token, now: Time, userExists: bool): Option<string> {
    if Accepts(db, token, now) && userExists then Some(db.sessions[token].email) else None
  }

  /** `get_user_for_token`: a session that is expired or of a revoked family is deleted. */
  function Access(db: Db, token: Token, now: Time): Db {
    if token in db.sessions && !Accepts(db, token, now) then db.(sessions := db.sessions - {token}) else db
  }

  predicate HasRefresh(db: Db, a: Token, refresh: Token) {
    a in db.sessions && db.sessions[a].refresh == refresh
  }

  /** A session without a family is given a fresh one before it is rotated. */
  function Migrated(db: Db, a: Token): Db
    requires a in db.sessions
  {
    var s := db.sessions[a];
    if s.family.Some? then db
    else Db(db.sessions[a := s.(family := Some(db.next), sequence := 0)],
            db.families[db.next := Family(s.email, 0, false)],
            db.next + 1)
  }

  /** The rest of `refresh`, for the session `a` the token belongs to. The new sequence number
      is computed after the family's own counter has been moved on. */
  function RotateSession(db: Db, a: Token, userExists: bool, expiresAt: Time): (Db, Outcome)
    requires a in db.sessions && db.sessions[a].family.Some?
  {
    var s := db.sessions[a];
    var f := s.family.value;
    if f !in db.families then (db, InvalidFamily)
    else
      var family := db.families[f];
      if family.compromised then (db, Compromised)
      else if s.sequence < family.current then
        (db.(sessions := map b | b in db.sessions && db.sessions[b].family != Some(f) :: db.sessions[b],
             families := db.families[f := family.(compromised := true)]), ReuseDetected)
      else
        var moved := db.(
          sessions := db.sessions - {a},
          families := db.families[f := family.(current := family.current + 1)]);
        if !userExists then (moved, UserNotFound)
        else
          var renewed := Session(db.next + 1, s.email, Some(f), moved.families[f].current + 1, expiresAt);
          (moved.(sessions := moved.sessions[db.next := renewed], next := db.next + 2), Rotated(db.next, db.next + 1))
  }

  ghost function Refresh(db: Db, refresh: Token, locked: bool, userExists: bool, expiresAt: Time): (Db, Outcome)
  {
    if exists a :: HasRefresh(db, a, refresh) then
      var a :| HasRefresh(db, a, refresh);
      if locked then (db, AccountLocked)
      else RotateSession(Migrated(db, a), a, userExists, expiresAt)
    else (db, Invalid)
  }

  function Logout(db: Db, token: Token): Db {
    db.(sessions := db.sessions - {token})
  }

  function LogoutAll(db: Db, email: string): Db {
    db.(sessions := map a | a in db.sessions && db.sessions[a].email != email :: db.sessions[a],
        families := map f | f in db.families && db.families[f].email != email :: db.families[f])
  }

  function Expired(sessions: map<Token, Session>, now: Time): set<Token> {
    set a | a in sessions && sessions[a].expiresAt < now
  }

  function Orphaned(families: map<FamilyId, Family>, sessions: map<Token, Session>): set<FamilyId> {
    set f | f in families && forall a | a in sessions :: sessions[a].family != Some(f)
  }

  datatype Event =
    | LoginEvent(email: string, expiresAt: Time)
    | AccessEvent(token: Token, now: Time)
    | RefreshEvent(refresh: Token, locked: bool, userExists: bool, expiresAt: Time)
    | LogoutEvent(token: Token)
    | LogoutAllEvent(email: string)
    | ExpireEvent(now: Time)
    | OrphanEvent

  ghost function Step(db: Db, e: Event): Db
  {
    match e
    case LoginEvent(email, expiresAt) => Login(db, email, expiresAt).0
    case AccessEvent(token, now) => Access(db, token, now)
    case RefreshEvent(refresh, locked, userExists, expiresAt) => Refresh(db, refresh, locked, userExists, expiresAt).0
    case LogoutEvent(token) => Logout(db, token)
    case LogoutAllEvent(email) => LogoutAll(db, email)
    case ExpireEvent(now) => db.(sessions := db.sessions - Expired(db.sessions, now))
    case OrphanEvent => db.(families := db.families - Orphaned(db.families, db.sessions))
  }

  ghost function Run(db: Db, es: seq<Event>): Db
    decreases |es|
  {
    if es == [] then db else Run(Step(db, es[0]), es[1..])
  }

  // ---------------------------------------------------------------- what every run keeps

  /** Tokens come from the supply and refresh tokens are unique. */
  ghost predicate TokenInv(db: Db) {
    && (forall a | a in db.sessions :: a < db.next && db.sessions[a].refresh < db.next)
    && (forall a, b | a in db.sessions && b in db.sessions && a != b ::
      db.sessions[a].refresh != db.sessions[b].refresh)
    && (forall f | f in db.families :: f < db.next && !db.families[f].compromised)
  }

  /** A session's family exists, belongs to the same account, and is not ahead of it. */
  ghost predicate SessionInv(db: Db, s: Session) {
    s.family.Some? ==>
      && s.family.value in db.families
      && db.families[s.family.value].email == s.email
      && s.sequence >= db.families[s.family.value].current
  }

  ghost predicate FamilyInv(db: Db) {
    && (forall a | a in db.sessions :: SessionInv(db, db.sessions[a]))
    && (forall a, b | a in db.sessions && b in db.sessions && a != b && db.sessions[a].family.Some? ::
          db.sessions[a].family != db.sessions[b].family)
  }

  ghost predicate Inv(db: Db) {
    TokenInv(db) && FamilyInv(db)
  }

  lemma MigratedKeepsInv(db: Db, a: Token)
    requires Inv(db) && a in db.sessions
    ensures Inv(Migrated(db, a)) && a in Migrated(db, a).sessions
    ensures Migrated(db, a).sessions[a].family.Some?
    ensures Migrated(db, a).sessions[a].refresh == db.sessions[a].refresh
  {
  }

  lemma RotateKeepsInv(db: Db, a: Token, userExists: bool, expiresAt: Time)
    requires Inv(db) && a in db.sessions && db.sessions[a].family.Some?
    ensures Inv(RotateSession(db, a, userExists, expiresAt).0)
    ensures RotateSession(db, a, userExists, expiresAt).1.Rotated? ||
      RotateSession(db, a, userExists, expiresAt).1.UserNotFound?
  {
  }

  lemma RefreshKeepsInv(db: Db, refresh: Token, locked: bool, userExists: bool, expiresAt: Time)
    requires Inv(db)
    ensures Inv(Refresh(db, refresh, locked, userExists, expiresAt).0)
  {
    if (exists a :: HasRefresh(db, a, refresh)) && !locked {
      var a :| HasRefresh(db, a, refresh);
      MigratedKeepsInv(db, a);
      RotateKeepsInv(Migrated(db, a), a, userExists, expiresAt);
      assert forall b | HasRefresh(db, b, refresh) :: b == a;
    }
  }

  lemma LoginKeepsInv(db: Db, email: string, expiresAt: Time)
    requires Inv(db)
    ensures Inv(Login(db, email, expiresAt).0)
  {
  }

  /** The other operations only delete; a family goes only when its sessions have gone. */
  lemma DeletionKeepsInv(db: Db, db': Db)
    requires Inv(db) && db'.next == db.next
    requires forall a | a in db'.sessions :: a in db.sessions && db'.sessions[a] == db.sessions[a]
    requires forall f | f in db'.families :: f in db.families && db'.families[f] == db.families[f]
    requires forall a | a in db'.sessions && db'.sessions[a].family.Some? ::
      db'.sessions[a].family.value in db'.families
    ensures Inv(db')
  {
  }

  lemma StepKeepsInv(db: Db, e: Event)
    requires Inv(db)
    ensures Inv(Step(db, e))
  {
    match e
    case LoginEvent(email, expiresAt) => LoginKeepsInv(db, email, expiresAt);
    case RefreshEvent(refresh, locked, userExists, expiresAt) =>
      RefreshKeepsInv(db, refresh, locked, userExists, expiresAt);
    case _ => DeletionKeepsInv(db, Step(db, e));
  }

  /** In every run each family has at most one session, and no refresh ever finds its token
      behind the family: the reuse branch, and with it every compromise, is out of reach. */
  lemma {:induction false} EveryRunKeepsFamilies(db: Db, es: seq<Event>)
    requires Inv(db)
    ensures Inv(Run(db, es))
    decreases |es|
  {
    if es != [] {
      StepKeepsInv(db, es[0]);
      EveryRunKeepsFamilies(Step(db, es[0]), es[1..]);
    }
  }

  lemma RefreshOutcomes(db: Db, refresh: Token, locked: bool, userExists: bool, expiresAt: Time)
    requires Inv(db)
    ensures var o := Refresh(db, refresh, locked, userExists, expiresAt).1;
      && !o.ReuseDetected? && !o.Compromised? && !o.InvalidFamily?
      && (o.Invalid? <==> forall a :: !HasRefresh(db, a, refresh))
      && (o.Rotated? <==> (exists a :: HasRefresh(db, a, refresh)) && !locked && userExists)
  {
    if (exists a :: HasRefresh(db, a, refresh)) && !locked {
      var a :| HasRefresh(db, a, refresh);
      MigratedKeepsInv(db, a);
      RotateKeepsInv(Migrated(db, a), a, userExists, expiresAt);
    }
  }

  /** A refresh does not look at the time: the access token of an expired session is refused,
      yet its refresh token still rotates. */
  lemma {:induction false} RefreshIgnoresExpiry(db: Db, a: Token, now: Time, expiresAt: Time)
    requires Inv(db) && a in db.sessions && now > db.sessions[a].expiresAt
    ensures !Accepts(db, a, now)
    ensures Refresh(db, db.sessions[a].refresh, false, true, expiresAt).1.Rotated?
  {
    assert HasRefresh(db, a, db.sessions[a].refresh);
    RefreshOutcomes(db, db.sessions[a].refresh, false, true, expiresAt);
  }

  /** For instance, one second after a login that expires at once. */
  lemma {:induction false} ExpiredLoginIsRefreshed(email: string)
    ensures var (db, access, refresh) := Login(Db(map[], map[], 0), email, 0.0);
      !Accepts(db, access, 1.0) && Refresh(db, refresh, false, true, 900.0).1.Rotated?
  {
    var start := Db(map[], map[], 0);
    LoginKeepsInv(start, email, 0.0);
    var (db, access, refresh) := Login(start, email, 0.0);
    RefreshIgnoresExpiry(db, access, 1.0, 900.0);
  }

  // ---------------------------------------------------------------- spent tokens

  /** The token was handed out and no session answers to it any more. */
  ghost predicate SpentAccess(db: Db, token: Token) {
    token < db.next && token !in db.sessions
  }

  ghost predicate SpentRefresh(db: Db, refresh: Token) {
    refresh < db.next && forall a :: !HasRefresh(db, a, refresh)
  }

  lemma RefreshKeepsSpent(db: Db, e: Event, token: Token, refresh: Token)
    requires Inv(db) && e.RefreshEvent?
    ensures SpentAccess(db, token) ==> SpentAccess(Step(db, e), token)
    ensures SpentRefresh(db, refresh) ==> SpentRefresh(Step(db, e), refresh)
  {
    if (exists a :: HasRefresh(db, a, e.refresh)) && !e.locked {
      var a :| HasRefresh(db, a, e.refresh);
      assert forall b | HasRefresh(db, b, e.refresh) :: b == a;
      MigratedKeepsInv(db, a);
      var m := Migrated(db, a);
      assert SpentRefresh(db, refresh) ==> SpentRefresh(m, refresh) by {
        assert forall b | HasRefresh(m, b, refresh) :: HasRefresh(db, b, refresh);
      }
      RotateKeepsSpent(m, a, e.userExists, e.expiresAt, token, refresh);
    }
  }

  lemma StepKeepsSpent(db: Db, e: Event, token: Token, refresh: Token)
    requires Inv(db)
    ensures SpentAccess(db, token) ==> SpentAccess(Step(db, e), token)
    ensures SpentRefresh(db, refresh) ==> SpentRefresh(Step(db, e), refresh)
  {
    if e.RefreshEvent? {
      RefreshKeepsSpent(db, e, token, refresh);
    } else if SpentRefresh(db, refresh) {
      forall b ensures !HasRefresh(Step(db, e), b, refresh) {
        assert !HasRefresh(db, b, refresh);
      }
    }
  }

  lemma RotateKeepsSpent(db: Db, a: Token, userExists: bool, expiresAt: Time, token: Token, refresh: Token)
    requires Inv(db) && a in db.sessions && db.sessions[a].family.Some?
    ensures SpentAccess(db, token) ==> SpentAccess(RotateSession(db, a, userExists, expiresAt).0, token)
    ensures SpentRefresh(db, refresh) ==> SpentRefresh(RotateSession(db, a, userExists, expiresAt).0, refresh)
  {
    var db' := RotateSession(db, a, userExists, expiresAt).0;
    if SpentRefresh(db, refresh) {
      forall b ensures !HasRefresh(db', b, refresh) {
        assert !HasRefresh(db, b, refresh);
      }
    }
  }

  /** A spent token is never accepted again, on the access path or for a refresh, whatever
      happens afterwards. */
  lemma {:induction false} SpentStaysSpent(db: Db, es: seq<Event>, token: Token, refresh: Token)
    requires Inv(db) && SpentAccess(db, token) && SpentRefresh(db, refresh)
    ensures var db' := Run(db, es);
      && SpentAccess(db', token) && SpentRefresh(db', refresh)
      && (forall now :: !Accepts(db', token, now))
      && forall locked, user, expiresAt :: Refresh(db', refresh, locked, user, expiresAt) == (db', Invalid)
    decreases |es|
  {
    if es != [] {
      StepKeepsInv(db, es[0]);
      StepKeepsSpent(db, es[0], token, refresh);
      SpentStaysSpent(Step(db, es[0]), es[1..], token, refresh);
    }
  }

  /** Rotation, logout, logout-all and the refusal of an access token each spend both tokens of
      the session they end. */
  lemma {:induction false} EndedSessionIsSpent(db: Db, a: Token, e: Event, es: seq<Event>)
    requires Inv(db) && a in db.sessions
    requires || (e.RefreshEvent? && e.refresh == db.sessions[a].refresh && !e.locked)
             || (e.LogoutEvent? && e.token == a)
             || (e.LogoutAllEvent? && e.email == db.sessions[a].email)
             || (e.AccessEvent? && e.token == a && !Accepts(db, a, e.now))
             || (e.ExpireEvent? && db.sessions[a].expiresAt < e.now)
    ensures var db' := Run(Step(db, e), es);
      && (forall now :: !Accepts(db', a, now))
      && forall locked, user, expiresAt ::
        Refresh(db', db.sessions[a].refresh, locked, user, expiresAt) == (db', Invalid)
  {
    var s := db.sessions[a];
    var db' := Step(db, e);
    StepKeepsInv(db, e);
    if e.RefreshEvent? {
      assert HasRefresh(db, a, e.refresh);
      MigratedKeepsInv(db, a);
      RotateEndsSession(Migrated(db, a), a, e.userExists, e.expiresAt);
    }
    assert a !in db'.sessions;
    forall b ensures !HasRefresh(db', b, s.refresh) {
      assert HasRefresh(db, a, s.refresh);
    }
    SpentStaysSpent(db', es, a, s.refresh);
  }

  lemma RotateEndsSession(db: Db, a: Token, userExists: bool, expiresAt: Time)
    requires Inv(db) && a in db.sessions && db.sessions[a].family.Some?
    ensures var db' := RotateSession(db, a, userExists, expiresAt).0;
      SpentAccess(db', a) && SpentRefresh(db', db.sessions[a].refresh)
  {
  }

  // ---------------------------------------------------------------- the store

  lemma {:induction false} SubsetOfSize<T>(s: set<T>, n: nat) returns (r: set<T>)
    requires n <= |s|
    ensures r <= s && |r| == n
  {
    if n == 0 {
      r := {};
    } else {
      var x :| x in s;
      var rest := SubsetOfSize(s - {x}, n - 1);
      r := rest + {x};
    }
  }

  /** The rows a query with LIMIT returns: any of them, as many as asked for if there are. */
  method Limit<T(==)>(rows: set<T>, limit: nat) returns (batch: set<T>)
    ensures batch <= rows
    ensures |batch| == if |rows| < limit then |rows| else limit
    ensures |batch| < limit ==> batch == rows
    ensures batch == {} ==> limit == 0 || rows == {}
  {
    var n := if |rows| < limit then |rows| else limit;
    ghost var some := SubsetOfSize(rows, n);
    batch :| batch <= rows && |batch| == n;
    if batch != rows {
      SubsetSize(batch, rows);
    }
  }

  /** One more batch of what is left: the totals add up and less is left. */
  lemma TakeBatch<T>(all: set<T>, gone: set<T>, batch: set<T>)
    requires gone <= all && batch <= all - gone && batch != {}
    ensures gone + batch <= all && |gone + batch| == |gone| + |batch|
    ensures |all - (gone + batch)| < |all - gone|
    ensures batch == all - gone ==> gone + batch == all
  {
    SubsetSize(all - (gone + batch), all - gone);
  }

  lemma MinusMinus<K, V>(m: map<K, V>, a: set<K>, b: set<K>)
    ensures m - a - b == m - (a + b)
  {
  }

  lemma ExpiredMinus(sessions: map<Token, Session>, gone: set<Token>, now: Time)
    ensures Expired(sessions - gone, now) == Expired(sessions, now) - gone
  {
  }

  lemma OrphanedMinus(families: map<FamilyId, Family>, sessions: map<Token, Session>, gone: set<FamilyId>)
    ensures Orphaned(families - gone, sessions) == Orphaned(families, sessions) - gone
  {
  }

  class AuthStore {
    var sessions: map<Token, Session>
    var families: map<FamilyId, Family>
    var next: nat

    ghost function Tables(): Db
      reads this
    {
      Db(sessions, families, next)
    }

    constructor ()
      ensures Tables() == Db(map[], map[], 0) && Inv(Tables())
    {
      sessions, families, next := map[], map[], 0;
    }

    method LoginUser(email: string, expiresAt: Time) returns (access: Token, refresh: Token)
      requires Inv(Tables())
      modifies this
      ensures (Tables(), access, refresh) == Login(old(Tables()), email, expiresAt) && Inv(Tables())
    {
      LoginKeepsInv(Tables(), email, expiresAt);
      access, refresh := next + 1, next + 2;
      families := families[next := Family(email, 0, false)];
      sessions := sessions[access := Session(refresh, email, Some(next), 0, expiresAt)];
      next := next + 3;
    }

    method GetUserForToken(token: Token, now: Time, userExists: bool) returns (user: Option<string>)
      modifies this`sessions
      ensures Tables() == Access(old(Tables()), token, now)
      ensures user == UserFor(old(Tables()), token, now, userExists)
    {
      if token !in sessions {
        return None;
      }
      var session := sessions[token];
      if now > session.expiresAt {
        sessions := sessions - {token};
        return None;
      }
      if session.family.Some? && (session.family.value !in families || families[session.family.value].compromised) {
        sessions := sessions - {token};
        return None;
      }
      return if userExists then Some(session.email) else None;
    }

    method LogoutSession(token: Token)
      modifies this`sessions
      ensures Tables() == Logout(old(Tables()), token)
    {
      if token in sessions {
        sessions := sessions - {token};
      } else {
        assert sessions - {token} == sessions;
      }
    }

    method RefreshToken(refresh: Token, locked: bool, userExists: bool, expiresAt: Time) returns (outcome: Outcome)
      requires Inv(Tables())
      modifies this
      ensures (Tables(), outcome) == Refresh(old(Tables()), refresh, locked, userExists, expiresAt) && Inv(Tables())
    {
      RefreshKeepsInv(Tables(), refresh, locked, userExists, expiresAt);
      ghost var db := Tables();
      if a :| a in sessions && sessions[a].refresh == refresh {
        assert HasRefresh(db, a, refresh);
        assert forall b | HasRefresh(db, b, refresh) :: b == a;
        if locked {
          return AccountLocked;
        }
        MigratedKeepsInv(db, a);
        outcome := RotateFound(a, userExists, expiresAt);
      } else {
        assert forall a :: !HasRefresh(db, a, refresh);
        return Invalid;
      }
    }

    method RotateFound(a: Token, userExists: bool, expiresAt: Time) returns (outcome: Outcome)
      requires a in sessions
      modifies this
      ensures (Tables(), outcome) == RotateSession(Migrated(old(Tables()), a), a, userExists, expiresAt)
    {
      if sessions[a].family.None? {
        families := families[next := Family(sessions[a].email, 0, false)];
        sessions := sessions[a := sessions[a].(family := Some(next), sequence := 0)];
        next := next + 1;
      }
      ghost var db := Tables();
      assert db == Migrated(old(Tables()), a);
      var oldSession := sessions[a];
      var f := oldSession.family.value;
      if f !in families {
        return InvalidFamily;
      }
      if families[f].compromised {
        return Compromised;
      }
      if oldSession.sequence < families[f].current {
        families := families[f := families[f].(compromised := true)];
        sessions := map b | b in sessions && sessions[b].family != Some(f) :: sessions[b];
        return ReuseDetected;
      }
      families := families[f := families[f].(current := families[f].current + 1)];
      sessions := sessions - {a};
      if !userExists {
        return UserNotFound;
      }
      var access, refresh := next, next + 1;
      sessions := sessions[access := Session(refresh, oldSession.email, Some(f), families[f].current + 1, expiresAt)];
      next := next + 2;
      return Rotated(access, refresh);
    }

    method LogoutAllSessions(email: string) returns (count: nat)
      requires Inv(Tables())
      modifies this
      ensures Tables() == LogoutAll(old(Tables()), email) && Inv(Tables())
      ensures count == |set a | a in old(sessions) && old(sessions)[a].email == email|
    {
      StepKeepsInv(Tables(), LogoutAllEvent(email));
      count := |set a | a in sessions && sessions[a].email == email|;
      sessions := map a | a in sessions && sessions[a].email != email :: sessions[a];
      families := map f | f in families && families[f].email != email :: families[f];
    }

    /** Deletes the expired sessions a batch at a time, in whatever order the database gives
        them: all of them go unless the batch size is zero, and the count says how many. */
    method DeleteExpiredSessions(now: Time, batchSize: nat) returns (total: nat)
      modifies this`sessions
      ensures batchSize > 0 ==>
        sessions == old(sessions) - old(Expired(sessions, now)) && total == |old(Expired(sessions, now))|
      ensures batchSize == 0 ==> sessions == old(sessions) && total == 0
    {
      total := 0;
      ghost var was, all, gone := sessions, Expired(sessions, now), {};
      assert sessions == was - gone;
      while true
        invariant sessions == was - gone && gone <= all && total == |gone|
        invariant batchSize == 0 ==> gone == {}
        decreases |all - gone|
      {
        ExpiredMinus(was, gone, now);
        var due := Expired(sessions, now);
        var batch := Limit(due, batchSize);
        if batch == {} {
          assert batchSize > 0 ==> gone == all;
          break;
        }
        TakeBatch(all, gone, batch);
        MinusMinus(was, gone, batch);
        sessions := sessions - batch;
        total := total + |batch|;
        gone := gone + batch;
        if |batch| < batchSize {
          break;
        }
      }
    }

    /** Deletes the families no session points at, a batch at a time. */
    method DeleteOrphanedFamilies(batchSize: nat) returns (total: nat)
      modifies this`families
      ensures batchSize > 0 ==>
        families == old(families) - old(Orphaned(families, sessions)) && total == |old(Orphaned(families, sessions))|
      ensures batchSize == 0 ==> families == old(families) && total == 0
    {
      total := 0;
      ghost var was, all, gone := families, Orphaned(families, sessions), {};
      assert families == was - gone;
      while true
        invariant families == was - gone && gone <= all && total == |gone|
        invariant batchSize == 0 ==> gone == {}
        decreases |all - gone|
      {
        OrphanedMinus(was, sessions, gone);
        var due := Orphaned(families, sessions);
        var batch := Limit(due, batchSize);
        if batch == {} {
          assert batchSize > 0 ==> gone == all;
          break;
        }
        TakeBatch(all, gone, batch);
        MinusMinus(was, gone, batch);
        families := families - batch;
        total := total + |batch|;
        gone := gone + batch;
        if |batch| < batchSize {
          break;
        }
      }
    }
  }
}
