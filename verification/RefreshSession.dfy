/** The rules of one refresh session (modules/identity/domain/session.py). Times are instants. */
module RefreshSession {
  import opened Common

  type Time = int

  datatype Session = Session(
    sessionId: string,
    familyId: string,
    userId: string,
    tenantId: string,
    digest: string,
    issuedAt: Time,
    idleExpiresAt: Time,
    absoluteExpiresAt: Time,
    consumedAt: Option<Time>,
    revokedAt: Option<Time>)

  datatype SessionError = Invalid | Replay(familyId: string) | BadValue

  /** `RefreshSession.__post_init__` */
  predicate WellFormed(s: Session) {
    && !Blank(s.sessionId) && !Blank(s.familyId) && !Blank(s.userId) && !Blank(s.tenantId) && !Blank(s.digest)
    && s.idleExpiresAt <= s.absoluteExpiresAt
  }

  function Checked(s: Session): Result<Session, SessionError> {
    if WellFormed(s) then Success(s) else Failure(BadValue)
  }

  function Earlier(a: Time, b: Time): Time {
    if a <= b then a else b
  }

  function Issue(sessionId: string, familyId: string, userId: string, tenantId: string, digest: string,
                 issuedAt: Time, idleTtl: int, absoluteTtl: int): Result<Session, SessionError>
  {
    if idleTtl <= 0 || absoluteTtl <= 0 then Failure(BadValue)
    else
      var deadline := issuedAt + absoluteTtl;
      Checked(Session(sessionId, familyId, userId, tenantId, digest, issuedAt,
                      Earlier(issuedAt + idleTtl, deadline), deadline, None, None))
  }

  /** The consumed session and its replacement. */
  function Rotate(s: Session, presented: string, newId: string, newDigest: string, now: Time, idleTtl: int)
    : Result<(Session, Session), SessionError>
  {
    if idleTtl <= 0 then Failure(BadValue)
    else if s.digest != presented then Failure(Invalid)
    else if s.consumedAt.Some? then Failure(Replay(s.familyId))
    else if s.revokedAt.Some? || now >= s.idleExpiresAt || now >= s.absoluteExpiresAt then Failure(Invalid)
    else
      var replacement := Checked(Session(newId, s.familyId, s.userId, s.tenantId, newDigest, now,
                                         Earlier(now + idleTtl, s.absoluteExpiresAt), s.absoluteExpiresAt, None, None));
      if replacement.Failure? then Failure(replacement.error)
      else Success((s.(consumedAt := Some(now)), replacement.value))
  }

  function Revoke(s: Session, now: Time): Session {
    if s.revokedAt.Some? then s else s.(revokedAt := Some(now))
  }

  predicate IsActive(s: Session, now: Time) {
    s.consumedAt.None? && s.revokedAt.None? && now < s.idleExpiresAt && now < s.absoluteExpiresAt
  }

  /** A session just issued can be used exactly until its idle or its absolute lifetime is over. */
  lemma IssuedSessionsLast(sessionId: string, familyId: string, userId: string, tenantId: string, digest: string,
                           issuedAt: Time, idleTtl: int, absoluteTtl: int, at: Time)
    ensures var r := Issue(sessionId, familyId, userId, tenantId, digest, issuedAt, idleTtl, absoluteTtl);
      && (r.Success? <==>
            && idleTtl > 0 && absoluteTtl > 0
            && !Blank(sessionId) && !Blank(familyId) && !Blank(userId) && !Blank(tenantId) && !Blank(digest))
      && (r.Failure? ==> r == Failure(BadValue))
      && (r.Success? ==>
            && (IsActive(r.value, at) <==> at < issuedAt + idleTtl && at < issuedAt + absoluteTtl)
            && r.value.absoluteExpiresAt == issuedAt + absoluteTtl
            && r.value.sessionId == sessionId && r.value.familyId == familyId
            && r.value.userId == userId && r.value.tenantId == tenantId && r.value.digest == digest)
  {
  }

  /**
   A rotation consumes the session for good, and its replacement, of the same family, user and tenant, can be used
   exactly until a new idle lifetime or the old absolute one is over.
   */
  lemma ReplacementsLast(s: Session, presented: string, newId: string, newDigest: string, now: Time, idleTtl: int,
                         at: Time)
    ensures var r := Rotate(s, presented, newId, newDigest, now, idleTtl);
      r.Success? ==>
        var (consumed, replacement) := r.value;
        && consumed == s.(consumedAt := Some(now)) && !IsActive(consumed, at)
        && (IsActive(replacement, at) <==> at < now + idleTtl && at < s.absoluteExpiresAt)
        && replacement.absoluteExpiresAt == s.absoluteExpiresAt && replacement.issuedAt == now
        && replacement.sessionId == newId && replacement.digest == newDigest
        && replacement.familyId == s.familyId && replacement.userId == s.userId && replacement.tenantId == s.tenantId
  {
  }

  /** Why a rotation fails, in the order of the checks. */
  lemma RotationErrors(s: Session, presented: string, newId: string, newDigest: string, now: Time, idleTtl: int)
    requires WellFormed(s) && idleTtl > 0 && !Blank(newId) && !Blank(newDigest)
    ensures var r := Rotate(s, presented, newId, newDigest, now, idleTtl);
      && (r == Failure(Replay(s.familyId)) <==> presented == s.digest && s.consumedAt.Some?)
      && (r == Failure(Invalid) <==>
            presented != s.digest
            || (s.consumedAt.None? && (s.revokedAt.Some? || now >= s.idleExpiresAt || now >= s.absoluteExpiresAt)))
      && r != Failure(BadValue)
  {
  }

  /** A presented token rotates exactly when its session is active, the ids are usable and the TTL positive. */
  lemma RotationNeedsActivity(s: Session, presented: string, newId: string, newDigest: string, now: Time, idleTtl: int)
    requires WellFormed(s)
    ensures Rotate(s, presented, newId, newDigest, now, idleTtl).Success?
       <==> && idleTtl > 0 && presented == s.digest && IsActive(s, now)
            && !Blank(newId) && !Blank(newDigest)
  {
  }
}
