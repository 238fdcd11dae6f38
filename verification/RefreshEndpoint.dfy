/**
 The HTTP refresh and logout as transactions (entrypoints/api/routes/auth.py:356-455), on the transaction
 manager of platform/database/transaction.py and the identity check of
 modules/identity/application/resolve_identity.py. Requests are served one at a time.
 */
module RefreshEndpoint {
  import opened Common
  import opened RefreshSession
  import opened SessionStore
  import SessionFamilies

  // ----- the transaction manager -----

  class Database {
    var committed: Rows

    constructor ()
      ensures committed == []
    {
      committed := [];
    }
  }

  datatype ManagerError = Reentered | BeginFailed | CommitFailed | RollbackFailed

  class TransactionManager {
    const database: Database
    var session: Store?

    constructor (database: Database)
      ensures this.database == database && session == null
    {
      this.database, session := database, null;
    }

    /** `__aenter__`: a session that sees the committed rows, unless beginning fails. */
    method Enter(beginFails: bool) returns (error: Option<ManagerError>)
      modifies this
      ensures error == if old(session) != null then Some(Reentered) else if beginFails then Some(BeginFailed) else None
      ensures error.Some? ==> session == old(session)
      ensures error.None? ==> session != null && fresh(session) && session.rows == database.committed
    {
      if session != null { return Some(Reentered); }
      var own := new Store();
      session := own;
      if beginFails {
        session := null;
        return Some(BeginFailed);
      }
      own.rows := database.committed;
      error := None;
    }

    /** `__aexit__`: commit unless the body raised or the commit fails; the session is always given up. */
    method Exit(raised: bool, commitFails: bool, rollbackFails: bool) returns (error: Option<ManagerError>)
      requires session != null
      modifies this, database
      ensures session == null
      ensures database.committed == if raised || commitFails then old(database.committed) else old(session.rows)
      ensures error == if raised then (if rollbackFails then Some(RollbackFailed) else None)
                       else if commitFails then Some(CommitFailed) else None
    {
      var rows := session.rows;
      error := None;
      if raised {
        if rollbackFails { error := Some(RollbackFailed); }
      } else if commitFails {
        error := Some(CommitFailed);
      } else {
        database.committed := rows;
      }
      session := null;
    }
  }

  // ----- the identity check -----

  // Whether each known account can authenticate, and whether each known membership is active.
  datatype Directory = Directory(accounts: map<string, bool>, memberships: map<(string, string), bool>)

  predicate PartyResolves(dir: Directory, userId: string, tenantId: string) {
    && userId in dir.accounts && dir.accounts[userId]
    && (userId, tenantId) in dir.memberships && dir.memberships[(userId, tenantId)]
  }

  predicate SessionResolves(rows: Rows, userId: string, tenantId: string, sessionId: string, at: Time) {
    var s := FindSession(rows, sessionId);
    && s.Some?
    && s.value.userId == userId && s.value.tenantId == tenantId
    && IsActive(s.value, at)
  }

  /** `ResolveIdentityHandler.handle` does not raise. */
  predicate Resolves(dir: Directory, rows: Rows, userId: string, tenantId: string, sessionId: string, at: Time) {
    PartyResolves(dir, userId, tenantId) && SessionResolves(rows, userId, tenantId, sessionId, at)
  }

  /** Finding the row just appended to a table with distinct session ids. */
  lemma AppendedIsFound(rows: Rows, s: Session)
    ensures FindSession(rows + [s], s.sessionId) == Some(s)
  {
    assert (rows + [s])[|rows|] == s;
  }

  /** The session just created by a rotation passes the session part of the check at the same instant. */
  lemma ReplacementResolves(rows: Rows, presented: string, newId: string, newDigest: string, now: Time, idleTtl: int)
    requires var r := RotateByDigest(rows, presented, newId, newDigest, now, idleTtl);
      r.Success? && r.value.1.Rotated?
    ensures var (after, status) := RotateByDigest(rows, presented, newId, newDigest, now, idleTtl).value;
      SessionResolves(after, status.session.userId, status.session.tenantId, status.session.sessionId, now)
  {
    var i := FindDigest(rows, presented).value;
    var (consumed, replacement) := Rotate(rows[i], presented, newId, newDigest, now, idleTtl).value;
    AppendedIsFound(rows[i := consumed], replacement);
  }

  // ----- the requests -----

  // `rejected`: no CSRF token, no cookie, over the limit, or authentication is switched off.
  // `answerRaises`: issuing the access token or building the response fails.
  datatype Request = Request(
    presented: string, newId: string, newDigest: string, now: Time, idleTtl: int,
    rejected: bool, answerRaises: bool, beginFails: bool, commitFails: bool, rollbackFails: bool)

  /** Nothing but the presented session and the directory decides what the request does. */
  predicate Undisturbed(q: Request) {
    !q.rejected && !q.answerRaises && !q.beginFails && !q.commitFails
  }

  // Returned responses let the transaction commit; raised ones roll it back.
  datatype Response = Granted(session: Session) | Unauthorized | LoggedOut | Raised

  /** The three things a refresh may commit. */
  datatype Effect = ConsumeAndReplace(session: Session) | RevokeWholeFamily(family: string) | Nothing

  function EffectOf(rows: Rows, dir: Directory, q: Request): Effect {
    var r := RotateByDigest(rows, q.presented, q.newId, q.newDigest, q.now, q.idleTtl);
    if q.rejected || q.beginFails || q.commitFails || r.Failure? then Nothing
    else match r.value.1
      case Rotated(s) =>
        if PartyResolves(dir, s.userId, s.tenantId) && !q.answerRaises then ConsumeAndReplace(s) else Nothing
      case ReplayRevoked => RevokeWholeFamily(rows[FindDigest(rows, q.presented).value].familyId)
      case Unusable => Nothing
  }

  function Committed(rows: Rows, q: Request, effect: Effect): Rows
    requires effect.ConsumeAndReplace? ==> FindDigest(rows, q.presented).Some?
  {
    match effect
    case ConsumeAndReplace(s) =>
      var i := FindDigest(rows, q.presented).value;
      rows[i := rows[i].(consumedAt := Some(q.now))] + [s]
    case RevokeWholeFamily(family) => RevokeFamily(rows, family, q.now)
    case Nothing => rows
  }

  class AuthRoutes {
    const manager: TransactionManager

    constructor (manager: TransactionManager)
      ensures this.manager == manager
    {
      this.manager := manager;
    }

    /**
     A refresh commits exactly one of the three effects, and grants a session exactly when it has
     committed that session as the replacement of the presented one.
     */
    method Refresh(dir: Directory, q: Request) returns (response: Response)
      requires manager.session == null
      modifies manager, manager.database
      ensures manager.session == null
      ensures var effect := EffectOf(old(manager.database.committed), dir, q);
        && (effect.ConsumeAndReplace? ==> FindDigest(old(manager.database.committed), q.presented).Some?)
        && manager.database.committed == Committed(old(manager.database.committed), q, effect)
        && (response.Granted? <==> effect.ConsumeAndReplace?)
        && (response.Granted? ==> response.session == effect.session)
        && (effect.RevokeWholeFamily? ==> response.Unauthorized?)
      ensures response.Granted? ==>
        var s := response.session;
        && s.userId in dir.accounts && dir.accounts[s.userId] == true
        && (s.userId, s.tenantId) in dir.memberships && dir.memberships[(s.userId, s.tenantId)] == true
      ensures response.Granted? ==>
        && !q.rejected && !q.answerRaises && !q.beginFails && !q.commitFails
        && manager.database.committed != []
        && response.session == manager.database.committed[|manager.database.committed| - 1]
      ensures response.Unauthorized? ==> !q.rejected && !q.beginFails && !q.commitFails
      ensures !response.Granted? && !response.Unauthorized? ==>
        response.Raised? && manager.database.committed == old(manager.database.committed)
    {
      var failure := manager.Enter(q.beginFails);
      if failure.Some? { return Raised; }
      if q.rejected {
        var e := manager.Exit(true, q.commitFails, q.rollbackFails);
        return Raised;
      }
      var rotation := manager.session.RotateRefreshSession(q.presented, q.newId, q.newDigest, q.now, q.idleTtl);
      if rotation.Failure? {
        var e := manager.Exit(true, q.commitFails, q.rollbackFails);
        return Raised;
      }
      if !rotation.value.Rotated? {
        var e := manager.Exit(false, q.commitFails, q.rollbackFails);
        return if e.Some? then Raised else Unauthorized;
      }
      var s := rotation.value.session;
      ReplacementResolves(manager.database.committed, q.presented, q.newId, q.newDigest, q.now, q.idleTtl);
      if !Resolves(dir, manager.session.rows, s.userId, s.tenantId, s.sessionId, q.now) || q.answerRaises {
        var e := manager.Exit(true, q.commitFails, q.rollbackFails);
        return Raised;
      }
      var e := manager.Exit(false, q.commitFails, q.rollbackFails);
      response := if e.Some? then Raised else Granted(s);
    }

    /** Logging out never fails on an unknown or absent cookie. */
    method Logout(cookie: Option<string>, now: Time, rejected: bool, beginFails: bool, commitFails: bool)
      returns (response: Response)
      requires manager.session == null
      modifies manager, manager.database
      ensures manager.session == null
      ensures response == if beginFails || rejected || commitFails then Raised else LoggedOut
      ensures manager.database.committed
           == if response.Raised? then old(manager.database.committed)
              else SessionFamilies.Apply(old(manager.database.committed), SessionFamilies.Logout(cookie, now))
    {
      var failure := manager.Enter(beginFails);
      if failure.Some? { return Raised; }
      if rejected {
        var e := manager.Exit(true, commitFails, false);
        return Raised;
      }
      if cookie.Some? {
        var known := manager.session.RevokeRefreshFamilyByDigest(cookie.value, now);
      }
      var e := manager.Exit(false, commitFails, false);
      response := if e.Some? then Raised else LoggedOut;
    }
  }

  /** A refresh is the refresh of `SessionFamilies`, so everything proved there of runs holds of requests. */
  lemma RequestsAreFamilyOperations(rows: Rows, dir: Directory, q: Request)
    requires !q.rejected && !q.beginFails && !q.commitFails
    ensures var effect := EffectOf(rows, dir, q);
      var r := RotateByDigest(rows, q.presented, q.newId, q.newDigest, q.now, q.idleTtl);
      var resolves := r.Success? && r.value.1.Rotated?
        && PartyResolves(dir, r.value.1.session.userId, r.value.1.session.tenantId) && !q.answerRaises;
      && (effect.ConsumeAndReplace? ==> FindDigest(rows, q.presented).Some?)
      && Committed(rows, q, effect)
         == SessionFamilies.Apply(
              rows, SessionFamilies.Refresh(q.presented, q.newId, q.newDigest, q.now, q.idleTtl, resolves))
  {
  }

  /** Identity resolution, said of the account, the membership and the session themselves. */
  lemma ResolvesExactly(dir: Directory, rows: Rows, s: Session, userId: string, tenantId: string, at: Time)
    requires s in rows
    requires forall other :: other in rows && other.sessionId == s.sessionId ==> other == s
    ensures Resolves(dir, rows, userId, tenantId, s.sessionId, at)
       <==> && userId in dir.accounts && dir.accounts[userId] == true
            && (userId, tenantId) in dir.memberships && dir.memberships[(userId, tenantId)] == true
            && s.userId == userId && s.tenantId == tenantId
            && s.consumedAt.None? && s.revokedAt.None? && at < s.idleExpiresAt && at < s.absoluteExpiresAt
  {
    var k :| 0 <= k < |rows| && rows[k] == s;
    assert FindSession(rows, s.sessionId) == Some(s);
  }

  /** No session, no identity. */
  lemma UnknownSessionsDoNotResolve(dir: Directory, rows: Rows, userId: string, tenantId: string, sessionId: string,
                                    at: Time)
    requires forall i :: 0 <= i < |rows| ==> rows[i].sessionId != sessionId
    ensures !Resolves(dir, rows, userId, tenantId, sessionId, at)
  {
  }

  /** A token nobody has issued does nothing. */
  lemma UnknownTokensDoNothing(rows: Rows, dir: Directory, q: Request)
    requires forall i :: 0 <= i < |rows| ==> rows[i].digest != q.presented
    ensures EffectOf(rows, dir, q) == Nothing
  {
    assert FindDigest(rows, q.presented).None?;
  }

  /**
   When each effect happens, in terms of the presented session: replacement exactly for an active session
   whose user and tenant still resolve, revocation exactly for a consumed one, nothing otherwise.
   */
  lemma EffectIsDecidedByTheSession(rows: Rows, dir: Directory, q: Request, i: nat, limits: SessionFamilies.Limits)
    requires SessionFamilies.Inv(rows, limits) && i < |rows| && rows[i].digest == q.presented
    requires Undisturbed(q) && q.idleTtl > 0
    requires !Blank(q.newId) && !Blank(q.newDigest)
    requires forall k :: 0 <= k < |rows| ==> rows[k].sessionId != q.newId && rows[k].digest != q.newDigest
    ensures EffectOf(rows, dir, q).ConsumeAndReplace?
       <==> && IsActive(rows[i], q.now)
            && rows[i].userId in dir.accounts && dir.accounts[rows[i].userId] == true
            && (rows[i].userId, rows[i].tenantId) in dir.memberships
            && dir.memberships[(rows[i].userId, rows[i].tenantId)] == true
    ensures EffectOf(rows, dir, q) == RevokeWholeFamily(rows[i].familyId) <==> rows[i].consumedAt.Some?
  {
    assert FindDigest(rows, q.presented) == Some(i);
    var k := SessionFamilies.MemberOfFamily(rows, i);
    assert SessionFamilies.Timely(SessionFamilies.Family(rows, rows[i].familyId)[k], limits);
    var r := Rotate(rows[i], q.presented, q.newId, q.newDigest, q.now, q.idleTtl);
    if r.Success? {
      var after := rows[i := r.value.0];
      assert forall j :: 0 <= j < |after| ==>
        after[j].sessionId == rows[j].sessionId && after[j].digest == rows[j].digest;
    }
  }
}
