/**
 The life of the tokens a login or a refresh hands out: what they are good for, and until when.
 */
module TokenLife {
  import opened Common
  import opened TokenFamilies

  /** The access token acts for the account until it expires and not after. The refresh token can
      be rotated; if the account is locked or gone, the refresh says so. */
  ghost predicate Works(db: Db, access: Token, refresh: Token, email: string, expiresAt: Time) {
    && (forall now :: UserFor(db, access, now, true) == if now <= expiresAt then Some(email) else None)
    && (forall now :: UserFor(db, access, now, false) == None)
    && (forall until :: Refresh(db, refresh, false, true, until).1.Rotated?)
    && (forall user, until :: Refresh(db, refresh, true, user, until) == (db, AccountLocked))
    && (forall until :: Refresh(db, refresh, false, false, until).1 == UserNotFound)
  }

  /** The session that the two tokens belong to. */
  ghost predicate Holds(db: Db, access: Token, refresh: Token, email: string, expiresAt: Time) {
    && HasRefresh(db, access, refresh)
    && db.sessions[access].email == email && db.sessions[access].expiresAt == expiresAt
  }

  lemma {:induction false} GoneUserIsTold(db: Db, a: Token, refresh: Token, until: Time)
    requires Inv(db) && HasRefresh(db, a, refresh)
    ensures Refresh(db, refresh, false, false, until).1 == UserNotFound
  {
    assert forall c | HasRefresh(db, c, refresh) :: c == a;
    MigratedKeepsInv(db, a);
    RotateKeepsInv(Migrated(db, a), a, false, until);
  }

  lemma {:induction false} HoldsWorks(db: Db, access: Token, refresh: Token, email: string, expiresAt: Time)
    requires Inv(db) && Holds(db, access, refresh, email, expiresAt)
    ensures Works(db, access, refresh, email, expiresAt)
  {
    forall until ensures Refresh(db, refresh, false, true, until).1.Rotated? {
      RefreshOutcomes(db, refresh, false, true, until);
    }
    forall until ensures Refresh(db, refresh, false, false, until).1 == UserNotFound {
      GoneUserIsTold(db, access, refresh, until);
    }
  }

  /** A token that was never handed out before. */
  predicate New(db: Db, db': Db, token: Token) {
    db.next <= token < db'.next
  }

  /** Both tokens of a login are new, different and good for the account until the expiry. */
  lemma {:induction false} LoginGivesWorkingTokens(db: Db, email: string, expiresAt: Time)
    requires Inv(db)
    ensures var (db', access, refresh) := Login(db, email, expiresAt);
      && access != refresh && New(db, db', access) && New(db, db', refresh)
      && Holds(db', access, refresh, email, expiresAt) && Works(db', access, refresh, email, expiresAt)
  {
    var (db', access, refresh) := Login(db, email, expiresAt);
    LoginKeepsInv(db, email, expiresAt);
    HoldsWorks(db', access, refresh, email, expiresAt);
  }

  lemma {:induction false} RotationHolds(db: Db, a: Token, expiresAt: Time)
    requires Inv(db) && a in db.sessions && db.sessions[a].family.Some?
    ensures var (db', o) := RotateSession(db, a, true, expiresAt);
      && o.Rotated? && o.access != o.refresh && New(db, db', o.access) && New(db, db', o.refresh)
      && Holds(db', o.access, o.refresh, db.sessions[a].email, expiresAt)
      && db'.sessions[o.access].family == db.sessions[a].family
  {
  }

  /** Both tokens of a refresh are new, different and good for the account of the old session
      until the expiry, in the same family. */
  lemma {:induction false} RefreshGivesWorkingTokens(db: Db, a: Token, refresh: Token, expiresAt: Time)
    requires Inv(db) && HasRefresh(db, a, refresh)
    ensures var (db', o) := Refresh(db, refresh, false, true, expiresAt);
      && o.Rotated? && o.access != o.refresh && New(db, db', o.access) && New(db, db', o.refresh)
      && Holds(db', o.access, o.refresh, db.sessions[a].email, expiresAt)
      && Works(db', o.access, o.refresh, db.sessions[a].email, expiresAt)
      && db'.sessions[o.access].family.Some?
      && (db.sessions[a].family.Some? ==> db'.sessions[o.access].family == db.sessions[a].family)
  {
    var (db', o) := Refresh(db, refresh, false, true, expiresAt);
    var b :| HasRefresh(db, b, refresh);
    assert a == b && forall c | HasRefresh(db, c, refresh) :: c == a;
    MigratedKeepsInv(db, a);
    RotationHolds(Migrated(db, a), a, expiresAt);
    RefreshKeepsInv(db, refresh, false, true, expiresAt);
    HoldsWorks(db', o.access, o.refresh, db.sessions[a].email, expiresAt);
  }

  /** A login opens a family of its own, and counts from zero. */
  lemma {:induction false} LoginCounts(db: Db, email: string, expiresAt: Time)
    requires Inv(db)
    ensures var (db', access, _) := Login(db, email, expiresAt);
      var family := db'.sessions[access].family;
      && family.Some? && New(db, db', family.value) && db'.families[family.value] == Family(email, 0, false)
      && db'.sessions[access].sequence == 0
  {
  }

  /** A refresh, whether the user is still there or not, moves the counter of the family on by one
      and deletes the old session; the new session is numbered two above the old counter. A session
      without a family is first given a new one that counts from zero. */
  lemma {:induction false} RefreshCounts(db: Db, a: Token, refresh: Token, userExists: bool, expiresAt: Time)
    requires Inv(db) && HasRefresh(db, a, refresh)
    ensures var (db', o) := Refresh(db, refresh, false, userExists, expiresAt);
      var f := if db.sessions[a].family.Some? then db.sessions[a].family.value else db.next;
      var count := if db.sessions[a].family.Some? then db.families[f].current else 0;
      && a !in db'.sessions && db'.families == db.families[f := Family(db.sessions[a].email, count + 1, false)]
      && (userExists ==>
            && o.Rotated? && db'.sessions.Keys == db.sessions.Keys - {a} + {o.access}
            && db'.sessions[o.access].sequence == count + 2)
      && (!userExists ==> db'.sessions == db.sessions - {a})
  {
    assert forall c | HasRefresh(db, c, refresh) :: c == a;
    var f := if db.sessions[a].family.Some? then db.sessions[a].family.value else db.next;
    var count := if db.sessions[a].family.Some? then db.families[f].current else 0;
    MigratedKeepsInv(db, a);
    RotationCounts(Migrated(db, a), a, userExists, expiresAt);
    MigratedLooks(db, a, f, count, Family(db.sessions[a].email, count + 1, false));
  }

  lemma {:induction false} MigratedLooks(db: Db, a: Token, f: FamilyId, count: int, v: Family)
    requires Inv(db) && a in db.sessions
    requires f == if db.sessions[a].family.Some? then db.sessions[a].family.value else db.next
    requires count == if db.sessions[a].family.Some? then db.families[f].current else 0
    ensures var m := Migrated(db, a);
      && m.sessions.Keys == db.sessions.Keys && m.sessions - {a} == db.sessions - {a}
      && m.sessions[a].family == Some(f) && m.sessions[a].email == db.sessions[a].email
      && f in m.families && m.families[f].current == count && m.families[f := v] == db.families[f := v]
  {
  }

  lemma {:induction false} RotationCounts(db: Db, a: Token, userExists: bool, expiresAt: Time)
    requires Inv(db) && a in db.sessions && db.sessions[a].family.Some?
    ensures var (db', o) := RotateSession(db, a, userExists, expiresAt);
      var f := db.sessions[a].family.value;
      && a !in db'.sessions
      && db'.families == db.families[f := Family(db.sessions[a].email, db.families[f].current + 1, false)]
      && (userExists ==>
            && o.Rotated? && db'.sessions.Keys == db.sessions.Keys - {a} + {o.access}
            && db'.sessions[o.access].sequence == db.families[f].current + 2)
      && (!userExists ==> db'.sessions == db.sessions - {a})
  {
  }

  /** In any tables, also those no sequential run comes to: a token behind its family, if the family
      is not compromised yet, compromises it and deletes all its sessions and no other; of those
      left over none rotates again. */
  lemma {:induction false} ReuseEndsTheFamily(db: Db, a: Token, userExists: bool, expiresAt: Time)
    requires a in db.sessions && db.sessions[a].family.Some?
    ensures var (db', o) := RotateSession(db, a, userExists, expiresAt);
      var f := db.sessions[a].family.value;
      && (o == InvalidFamily <==> f !in db.families)
      && (o == Compromised <==> f in db.families && db.families[f].compromised)
      && (o == ReuseDetected <==>
            f in db.families && !db.families[f].compromised && db.sessions[a].sequence < db.families[f].current)
      && (o == InvalidFamily || o == Compromised ==> db' == db)
      && (o == ReuseDetected ==>
            && db'.next == db.next && db'.families == db.families[f := db.families[f].(compromised := true)]
            && (forall b :: b in db'.sessions <==> b in db.sessions && db.sessions[b].family != Some(f))
            && (forall b | b in db'.sessions :: db'.sessions[b] == db.sessions[b]))
  {
  }

  // ---------------------------------------------------------------- how long they work

  /** The event ends the session: its rotation, a logout, a refused access or its clean-up. */
  predicate Ends(db: Db, access: Token, e: Event)
    requires access in db.sessions
  {
    || (e.RefreshEvent? && e.refresh == db.sessions[access].refresh && !e.locked)
    || (e.LogoutEvent? && e.token == access)
    || (e.LogoutAllEvent? && e.email == db.sessions[access].email)
    || (e.AccessEvent? && e.token == access && !Accepts(db, access, e.now))
    || (e.ExpireEvent? && db.sessions[access].expiresAt < e.now)
  }

  lemma {:induction false} RotationKeepsOthers(db: Db, a: Token, userExists: bool, expiresAt: Time, other: Token)
    requires Inv(db) && a in db.sessions && db.sessions[a].family.Some? && other in db.sessions && other != a
    ensures var db' := RotateSession(db, a, userExists, expiresAt).0;
      other in db'.sessions && db'.sessions[other] == db.sessions[other]
  {
  }

  lemma {:induction false} StepKeepsSession(
    db: Db, e: Event, access: Token, refresh: Token, email: string, expiresAt: Time)
    requires Inv(db) && Holds(db, access, refresh, email, expiresAt) && !Ends(db, access, e)
    ensures Holds(Step(db, e), access, refresh, email, expiresAt)
  {
    if e.RefreshEvent? && !e.locked && exists a :: HasRefresh(db, a, e.refresh) {
      var a :| HasRefresh(db, a, e.refresh);
      assert forall b | HasRefresh(db, b, e.refresh) :: b == a;
      MigratedKeepsInv(db, a);
      RotationKeepsOthers(Migrated(db, a), a, e.userExists, e.expiresAt, access);
    }
  }

  /** No event of the run ends the session. */
  ghost predicate NoneEnds(db: Db, es: seq<Event>, access: Token)
    decreases |es|
  {
    es != [] ==> access in db.sessions && !Ends(db, access, es[0]) && NoneEnds(Step(db, es[0]), es[1..], access)
  }

  /** The tokens work after a run if and only if nothing in it ends their session. */
  lemma {:induction false} WorkUntilEnded(
    db: Db, es: seq<Event>, access: Token, refresh: Token, email: string, expiresAt: Time)
    requires Inv(db) && Holds(db, access, refresh, email, expiresAt)
    ensures Works(Run(db, es), access, refresh, email, expiresAt) <==> NoneEnds(db, es, access)
    decreases |es|
  {
    if es == [] {
      HoldsWorks(db, access, refresh, email, expiresAt);
    } else if Ends(db, access, es[0]) {
      EndedSessionIsSpent(db, access, es[0], es[1..]);
      assert !Accepts(Run(Step(db, es[0]), es[1..]), access, expiresAt);
      assert UserFor(Run(db, es), access, expiresAt, true) == None;
    } else {
      StepKeepsInv(db, es[0]);
      StepKeepsSession(db, es[0], access, refresh, email, expiresAt);
      WorkUntilEnded(Step(db, es[0]), es[1..], access, refresh, email, expiresAt);
    }
  }

  // ---------------------------------------------------------------- what the deletions delete

  /** The sessions an event deletes. */
  predicate Deletes(db: Db, e: Event, a: Token)
    requires a in db.sessions
  {
    match e
    case AccessEvent(token, now) => a == token && !Accepts(db, a, now)
    case LogoutEvent(token) => a == token
    case LogoutAllEvent(email) => db.sessions[a].email == email
    case ExpireEvent(now) => db.sessions[a].expiresAt < now
    case _ => false
  }

  /** The families an event deletes. */
  predicate DeletesFamily(db: Db, e: Event, f: FamilyId)
    requires f in db.families
  {
    match e
    case LogoutAllEvent(email) => db.families[f].email == email
    case OrphanEvent => forall a | a in db.sessions :: db.sessions[a].family != Some(f)
    case _ => false
  }

  /** Events other than logins and refreshes delete exactly these and change nothing else. */
  lemma {:induction false} OtherEventsOnlyDelete(db: Db, e: Event)
    requires !e.LoginEvent? && !e.RefreshEvent?
    ensures var db' := Step(db, e);
      && db'.next == db.next
      && (forall a :: a in db'.sessions <==> a in db.sessions && !Deletes(db, e, a))
      && (forall a | a in db'.sessions :: db'.sessions[a] == db.sessions[a])
      && (forall f :: f in db'.families <==> f in db.families && !DeletesFamily(db, e, f))
      && (forall f | f in db'.families :: db'.families[f] == db.families[f])
  {
  }

  /** An access token is accepted exactly if its session is there and not past its expiry, and its
      family, if it has one, is there and not compromised. */
  lemma {:induction false} AcceptsIff(db: Db, token: Token, now: Time)
    ensures Accepts(db, token, now) <==>
      && token in db.sessions && now <= db.sessions[token].expiresAt
      && (db.sessions[token].family.Some? ==>
            var f := db.sessions[token].family.value; f in db.families && !db.families[f].compromised)
  {
  }
}
