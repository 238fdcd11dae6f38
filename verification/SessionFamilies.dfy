/**
 Session families over whole runs. Logins, refreshes and logouts of any number of users interleave; each is
 one committed (or rolled back) store operation. A family turns out to be a chain: each session consumed by
 the one after it, and only the newest usable (refresh-token rotation, section 4.14.2 of RFC 9700).
 */
module SessionFamilies {
  import opened Common
  import opened RefreshSession
  import opened SessionStore

  // Every idle lifetime is at most `idle`; every family lives for `absolute`.
  datatype Limits = Limits(idle: nat, absolute: nat)

  /** The sessions of one family, oldest first. */
  function Family(rows: Rows, f: string): Rows {
    if rows == [] then []
    else Family(rows[..|rows| - 1], f) + if rows[|rows| - 1].familyId == f then [rows[|rows| - 1]] else []
  }

  ghost predicate Related(a: Session, b: Session) {
    && a.familyId == b.familyId && a.userId == b.userId && a.tenantId == b.tenantId
    && a.absoluteExpiresAt == b.absoluteExpiresAt
  }

  ghost predicate Timely(s: Session, limits: Limits) {
    && WellFormed(s)
    && s.issuedAt < s.idleExpiresAt <= s.absoluteExpiresAt
    && s.idleExpiresAt <= s.issuedAt + limits.idle
  }

  /** `next` was issued by consuming `s`, before `s` went idle. */
  ghost predicate Succeeds(s: Session, next: Session) {
    s.consumedAt == Some(next.issuedAt) && next.issuedAt < s.idleExpiresAt
  }

  /** A family as rotation makes it, whatever has been revoked. */
  ghost predicate Linked(c: Rows, limits: Limits) {
    && c != []
    && c[0].absoluteExpiresAt == c[0].issuedAt + limits.absolute
    && c[|c| - 1].consumedAt.None?
    && (forall i :: 0 <= i < |c| ==> Related(c[0], c[i]) && Timely(c[i], limits))
    && (forall i :: 0 <= i < |c| - 1 ==> Succeeds(c[i], c[i + 1]))
  }

  /** All sessions carry the same revocation time, or none has one. */
  ghost predicate Uniform(c: Rows) {
    forall i :: 0 <= i < |c| ==> c[i].revokedAt == c[0].revokedAt
  }

  ghost predicate Chain(c: Rows, limits: Limits) {
    Linked(c, limits) && Uniform(c)
  }

  ghost predicate DistinctKeys(rows: Rows) {
    forall i, j :: 0 <= i < j < |rows| ==> rows[i].sessionId != rows[j].sessionId && rows[i].digest != rows[j].digest
  }

  ghost predicate Inv(rows: Rows, limits: Limits) {
    && DistinctKeys(rows)
    && forall f :: Family(rows, f) == [] || Chain(Family(rows, f), limits)
  }

  // ----- how operations change the families -----

  lemma AddToFamily(rows: Rows, s: Session, f: string)
    ensures Family(rows + [s], f) == if s.familyId == f then Family(rows, f) + [s] else Family(rows, f)
  {
    assert (rows + [s])[..|rows|] == rows;
  }

  /** Changing one row changes the same one session of its family. */
  lemma {:induction false} UpdateInFamily(rows: Rows, i: nat, s: Session) returns (k: nat)
    requires i < |rows| && s.familyId == rows[i].familyId
    ensures k < |Family(rows, s.familyId)| && Family(rows, s.familyId)[k] == rows[i]
    ensures Family(rows[i := s], s.familyId) == Family(rows, s.familyId)[k := s]
    ensures forall f :: f != s.familyId ==> Family(rows[i := s], f) == Family(rows, f)
    decreases |rows|
  {
    var n := |rows| - 1;
    if i == n {
      assert rows[i := s][..n] == rows[..n];
      k := |Family(rows[..n], s.familyId)|;
    } else {
      assert rows[i := s][..n] == rows[..n][i := s];
      k := UpdateInFamily(rows[..n], i, s);
    }
  }

  lemma {:induction false} RevokeInFamily(rows: Rows, family: string, now: Time, f: string)
    ensures Family(RevokeFamily(rows, family, now), f)
         == if f == family then RevokeFamily(Family(rows, f), family, now) else Family(rows, f)
  {
    if rows != [] {
      var n := |rows| - 1;
      RevokeInFamily(rows[..n], family, now, f);
      assert RevokeFamily(rows, family, now)[..n] == RevokeFamily(rows[..n], family, now);
      if f == family && rows[n].familyId == f {
        assert RevokeFamily(Family(rows[..n], f) + [rows[n]], family, now)
            == RevokeFamily(Family(rows[..n], f), family, now) + [Revoke(rows[n], now)];
      }
    }
  }

  lemma {:induction false} FamilyMembers(rows: Rows, f: string, k: nat)
    requires k < |Family(rows, f)|
    ensures Family(rows, f)[k] in rows && Family(rows, f)[k].familyId == f
  {
    var n := |rows| - 1;
    if k < |Family(rows[..n], f)| {
      FamilyMembers(rows[..n], f, k);
      assert Family(rows, f)[k] in rows[..n];
    }
  }

  /** Revoking some of the sessions of a family leaves it linked. */
  lemma RevokedIsLinked(c: Rows, r: Rows, now: Time, limits: Limits)
    requires Linked(c, limits) && |r| == |c|
    requires forall i :: 0 <= i < |c| ==> r[i] == c[i] || r[i] == Revoke(c[i], now)
    ensures Linked(r, limits)
  {
    forall i | 0 <= i < |r| ensures Related(r[0], r[i]) && Timely(r[i], limits) {
      assert Related(c[0], c[i]) && Timely(c[i], limits);
    }
    forall i | 0 <= i < |r| - 1 ensures Succeeds(r[i], r[i + 1]) {
      assert Succeeds(c[i], c[i + 1]);
    }
  }

  lemma RevokedChain(c: Rows, family: string, now: Time, limits: Limits)
    requires Chain(c, limits) && c[0].familyId == family
    ensures Chain(RevokeFamily(c, family, now), limits)
  {
    RevokedIsLinked(c, RevokeFamily(c, family, now), now, limits);
    forall i | 0 <= i < |c| ensures RevokeFamily(c, family, now)[i] == Revoke(c[i], now) {
      assert Related(c[0], c[i]);
    }
  }

  lemma ExtendedIsLinked(c: Rows, consumed: Session, replacement: Session, limits: Limits)
    requires Linked(c, limits)
    requires consumed == c[|c| - 1].(consumedAt := Some(replacement.issuedAt))
    requires replacement.issuedAt < consumed.idleExpiresAt && replacement.consumedAt.None?
    requires Related(consumed, replacement) && Timely(replacement, limits)
    ensures Linked(c[|c| - 1 := consumed] + [replacement], limits)
  {
    var n := |c| - 1;
    var longer := c[n := consumed] + [replacement];
    assert Related(c[0], c[n]) && Timely(c[n], limits);
    forall i | 0 <= i < |longer| ensures Related(longer[0], longer[i]) && Timely(longer[i], limits) {
      if i < n { assert Related(c[0], c[i]) && Timely(c[i], limits); }
    }
    forall i | 0 <= i < |longer| - 1 ensures Succeeds(longer[i], longer[i + 1]) {
      if i < n { assert Succeeds(c[i], c[i + 1]); }
    }
  }

  /** A rotation of an unrevoked session extends a uniform family uniformly. */
  lemma ExtendedIsUniform(c: Rows, k: nat, consumed: Session, replacement: Session)
    requires Uniform(c) && k < |c| && c[k].revokedAt.None?
    requires consumed.revokedAt.None? && replacement.revokedAt.None?
    ensures Uniform(c[k := consumed] + [replacement])
  {
  }

  lemma OlderIsConsumed(c: Rows, limits: Limits, k: nat)
    requires Linked(c, limits) && k < |c| - 1
    ensures c[k].consumedAt.Some?
  {
    assert Succeeds(c[k], c[k + 1]);
  }

  /** The one unconsumed session of a family is its newest. */
  lemma UnconsumedIsNewest(c: Rows, limits: Limits, k: nat)
    requires Linked(c, limits) && k < |c| && c[k].consumedAt.None?
    ensures k == |c| - 1
  {
    if k < |c| - 1 { OlderIsConsumed(c, limits, k); }
  }

  // ----- operations -----

  datatype Op =
    | Login(sessionId: string, familyId: string, userId: string, tenantId: string, digest: string,
            now: Time, idleTtl: int, absoluteTtl: int)
    | Refresh(presented: string, newId: string, newDigest: string, now: Time, idleTtl: int, resolves: bool)
    | Logout(cookie: Option<string>, now: Time)

  /** Family ids are drawn at random at login; lifetimes come from the settings. */
  ghost predicate Admissible(rows: Rows, op: Op, limits: Limits) {
    match op
    case Login(_, familyId, _, _, _, _, idleTtl, absoluteTtl) =>
      Family(rows, familyId) == [] && idleTtl <= limits.idle && absoluteTtl == limits.absolute
    case Refresh(_, _, _, _, idleTtl, _) => idleTtl <= limits.idle
    case Logout(_, _) => true
  }

  /** The committed table after an operation; whatever raises leaves it as it was. */
  function Apply(rows: Rows, op: Op): Rows {
    match op
    case Login(sessionId, familyId, userId, tenantId, digest, now, idleTtl, absoluteTtl) =>
      var s := Issue(sessionId, familyId, userId, tenantId, digest, now, idleTtl, absoluteTtl);
      if s.Failure? || Add(rows, s.value).Failure? then rows else Add(rows, s.value).value
    case Refresh(presented, newId, newDigest, now, idleTtl, resolves) =>
      var r := RotateByDigest(rows, presented, newId, newDigest, now, idleTtl);
      if r.Failure? || (r.value.1.Rotated? && !resolves) then rows else r.value.0
    case Logout(cookie, now) =>
      if cookie.None? then rows else RevokeByDigest(rows, cookie.value, now).0
  }

  lemma RevocationKeepsInv(rows: Rows, family: string, now: Time, limits: Limits)
    requires Inv(rows, limits)
    ensures Inv(RevokeFamily(rows, family, now), limits)
  {
    forall f ensures Family(RevokeFamily(rows, family, now), f) == []
                  || Chain(Family(RevokeFamily(rows, family, now), f), limits)
    {
      RevokeInFamily(rows, family, now, f);
      if f == family && Family(rows, f) != [] {
        FamilyMembers(rows, f, 0);
        RevokedChain(Family(rows, f), family, now, limits);
      }
    }
  }

  lemma RotationKeepsInv(rows: Rows, i: nat, newId: string, newDigest: string, now: Time, idleTtl: int, limits: Limits)
    requires Inv(rows, limits) && i < |rows| && idleTtl <= limits.idle
    requires Rotate(rows[i], rows[i].digest, newId, newDigest, now, idleTtl).Success?
    requires var (consumed, replacement) := Rotate(rows[i], rows[i].digest, newId, newDigest, now, idleTtl).value;
      CanInsert(rows[i := consumed], replacement)
    ensures var (consumed, replacement) := Rotate(rows[i], rows[i].digest, newId, newDigest, now, idleTtl).value;
      Inv(rows[i := consumed] + [replacement], limits)
  {
    var (consumed, replacement) := Rotate(rows[i], rows[i].digest, newId, newDigest, now, idleTtl).value;
    var family := rows[i].familyId;
    var c := Family(rows, family);
    var k := UpdateInFamily(rows, i, consumed);
    UnconsumedIsNewest(c, limits, k);
    ExtendedIsLinked(c, consumed, replacement, limits);
    ExtendedIsUniform(c, k, consumed, replacement);
    var after := rows[i := consumed] + [replacement];
    forall f ensures Family(after, f) == [] || Chain(Family(after, f), limits) {
      AddToFamily(rows[i := consumed], replacement, f);
      if f == family {
        assert Family(after, f) == c[|c| - 1 := consumed] + [replacement];
      } else {
        assert Family(after, f) == Family(rows, f);
      }
    }
  }

  lemma AddedKeysAreDistinct(rows: Rows, s: Session)
    requires DistinctKeys(rows) && CanInsert(rows, s)
    ensures DistinctKeys(rows + [s])
  {
  }

  lemma LoginKeepsInv(rows: Rows, s: Session, limits: Limits)
    requires Inv(rows, limits) && CanInsert(rows, s) && Family(rows, s.familyId) == []
    requires Chain([s], limits)
    ensures Inv(rows + [s], limits)
  {
    AddedKeysAreDistinct(rows, s);
    forall f ensures Family(rows + [s], f) == [] || Chain(Family(rows + [s], f), limits) {
      AddToFamily(rows, s, f);
      assert f == s.familyId ==> Family(rows + [s], f) == [s];
    }
  }

  /** Every operation of every client keeps all families chains. */
  lemma OperationKeepsInv(rows: Rows, op: Op, limits: Limits)
    requires Inv(rows, limits) && Admissible(rows, op, limits)
    ensures Inv(Apply(rows, op), limits)
  {
    match op
    case Login(sessionId, familyId, userId, tenantId, digest, now, idleTtl, absoluteTtl) =>
      var s := Issue(sessionId, familyId, userId, tenantId, digest, now, idleTtl, absoluteTtl);
      if s.Success? && Add(rows, s.value).Success? { LoginKeepsInv(rows, s.value, limits); }
    case Refresh(presented, newId, newDigest, now, idleTtl, resolves) =>
      var found := FindDigest(rows, presented);
      if found.Some? {
        var r := Rotate(rows[found.value], presented, newId, newDigest, now, idleTtl);
        if r.Success? {
          if Add(rows[found.value := r.value.0], r.value.1).Success? {
            RotationKeepsInv(rows, found.value, newId, newDigest, now, idleTtl, limits);
          }
        } else if r.error.Replay? {
          RevocationKeepsInv(rows, r.error.familyId, now, limits);
        }
      }
    case Logout(cookie, now) =>
      if cookie.Some? && FindDigest(rows, cookie.value).Some? {
        RevocationKeepsInv(rows, rows[FindDigest(rows, cookie.value).value].familyId, now, limits);
      }
  }

  ghost predicate Steps(states: seq<Rows>, ops: seq<Op>, limits: Limits, i: nat)
    requires i < |ops| < |states|
  {
    Admissible(states[i], ops[i], limits) && states[i + 1] == Apply(states[i], ops[i])
  }

  /** A run starts from the empty table, and each table results from an operation on the one before. */
  ghost predicate IsRun(states: seq<Rows>, ops: seq<Op>, limits: Limits) {
    && |states| == |ops| + 1
    && states[0] == []
    && (forall i :: 0 <= i < |ops| ==> Steps(states, ops, limits, i))
  }

  lemma {:induction false} RunsKeepInv(states: seq<Rows>, ops: seq<Op>, limits: Limits, k: nat)
    requires IsRun(states, ops, limits) && k < |states|
    ensures Inv(states[k], limits)
  {
    if k > 0 {
      RunsKeepInv(states, ops, limits, k - 1);
      assert Steps(states, ops, limits, k - 1);
      OperationKeepsInv(states[k - 1], ops[k - 1], limits);
    }
  }

  // ----- what a chain means -----

  /** In every reachable table at most one session of a family can be used, at whatever times one looks. */
  lemma AtMostOneActive(states: seq<Rows>, ops: seq<Op>, limits: Limits, k: nat, f: string,
                        i: nat, j: nat, atI: Time, atJ: Time)
    requires IsRun(states, ops, limits) && k < |states|
    requires i < |Family(states[k], f)| && j < |Family(states[k], f)|
    requires IsActive(Family(states[k], f)[i], atI) && IsActive(Family(states[k], f)[j], atJ)
    ensures i == j == |Family(states[k], f)| - 1
  {
    RunsKeepInv(states, ops, limits, k);
    UnconsumedIsNewest(Family(states[k], f), limits, i);
    UnconsumedIsNewest(Family(states[k], f), limits, j);
  }

  lemma {:induction false} IssueTimesAreBounded(c: Rows, limits: Limits, k: nat)
    requires Linked(c, limits) && k < |c|
    ensures c[k].issuedAt <= c[0].issuedAt + k * limits.idle
    ensures k > 0 ==> c[k].issuedAt < c[0].issuedAt + k * limits.idle
  {
    if k > 0 {
      IssueTimesAreBounded(c, limits, k - 1);
      assert Succeeds(c[k - 1], c[k]) && Timely(c[k - 1], limits);
      assert k * limits.idle == (k - 1) * limits.idle + limits.idle;
    }
  }

  /**
   Lifetimes. However often it has been rotated, the k-th replacement of a family was issued before k idle
   lifetimes had passed, and no session of the family can be used once the absolute lifetime is over.
   */
  lemma FamiliesExpire(states: seq<Rows>, ops: seq<Op>, limits: Limits, n: nat, f: string, k: nat, at: Time)
    requires IsRun(states, ops, limits) && n < |states| && k < |Family(states[n], f)|
    ensures var c := Family(states[n], f);
      && c[k].issuedAt < c[k].idleExpiresAt <= c[k].absoluteExpiresAt == c[0].issuedAt + limits.absolute
      && (k > 0 ==> c[k].issuedAt < c[0].issuedAt + k * limits.idle)
      && (at >= c[0].issuedAt + limits.absolute ==> !IsActive(c[k], at))
  {
    RunsKeepInv(states, ops, limits, n);
    var c := Family(states[n], f);
    assert Related(c[0], c[k]) && Timely(c[k], limits);
    IssueTimesAreBounded(c, limits, k);
  }

  /** A login with usable values opens a family of one session, which can be used until its lifetimes are over. */
  lemma LoginOpensAFamily(rows: Rows, op: Op, at: Time)
    requires op.Login? && op.idleTtl > 0 && op.absoluteTtl > 0 && Family(rows, op.familyId) == []
    requires !Blank(op.sessionId) && !Blank(op.familyId) && !Blank(op.digest)
    requires !Blank(op.userId) && !Blank(op.tenantId)
    requires forall i :: 0 <= i < |rows| ==> rows[i].sessionId != op.sessionId && rows[i].digest != op.digest
    ensures var family := Family(Apply(rows, op), op.familyId);
      && |family| == 1 && family[0].userId == op.userId && family[0].tenantId == op.tenantId
      && family[0].digest == op.digest && family[0].sessionId == op.sessionId
      && (IsActive(family[0], at) <==> at < op.now + op.idleTtl && at < op.now + op.absoluteTtl)
  {
    IssuedSessionsLast(op.sessionId, op.familyId, op.userId, op.tenantId, op.digest, op.now, op.idleTtl,
                       op.absoluteTtl, at);
    var s := Issue(op.sessionId, op.familyId, op.userId, op.tenantId, op.digest, op.now, op.idleTtl, op.absoluteTtl);
    AddToFamily(rows, s.value, op.familyId);
  }

  // ----- revocation -----

  ghost predicate IsRevoked(rows: Rows, f: string) {
    forall k :: 0 <= k < |Family(rows, f)| ==> Family(rows, f)[k].revokedAt.Some?
  }

  lemma {:induction false} MemberOfFamily(rows: Rows, i: nat) returns (k: nat)
    requires i < |rows|
    ensures k < |Family(rows, rows[i].familyId)| && Family(rows, rows[i].familyId)[k] == rows[i]
  {
    k := UpdateInFamily(rows, i, rows[i]);
  }

  lemma RefreshLeavesRevokedFamilies(rows: Rows, op: Op, f: string)
    requires op.Refresh? && IsRevoked(rows, f)
    ensures Family(Apply(rows, op), f) == Family(rows, f)
  {
    var found := FindDigest(rows, op.presented);
    if found.Some? {
      var r := Rotate(rows[found.value], op.presented, op.newId, op.newDigest, op.now, op.idleTtl);
      if r.Success? {
        RotationIsElsewhere(rows, found.value, r.value.0, r.value.1, f);
      } else if r.error.Replay? {
        RevokingAgainChangesNothing(rows, r.error.familyId, op.now, f);
      }
    }
  }

  /**
   A revoked family never changes again: no rotation, no new session, no later revocation time.
   (A login cannot touch it, because it draws a new family.)
   */
  lemma RevokedFamilyIsFrozen(rows: Rows, op: Op, limits: Limits, f: string)
    requires Admissible(rows, op, limits)
    requires Family(rows, f) != [] && IsRevoked(rows, f)
    ensures Family(Apply(rows, op), f) == Family(rows, f)
  {
    match op
    case Login(sessionId, familyId, userId, tenantId, digest, now, idleTtl, absoluteTtl) =>
      var s := Issue(sessionId, familyId, userId, tenantId, digest, now, idleTtl, absoluteTtl);
      if s.Success? { AddToFamily(rows, s.value, f); }
    case Refresh(_, _, _, _, _, _) => RefreshLeavesRevokedFamilies(rows, op, f);
    case Logout(cookie, now) =>
      if cookie.Some? && FindDigest(rows, cookie.value).Some? {
        RevokingAgainChangesNothing(rows, rows[FindDigest(rows, cookie.value).value].familyId, now, f);
      }
  }

  /** Rotating an unrevoked session does not touch a revoked family. */
  lemma RotationIsElsewhere(rows: Rows, i: nat, consumed: Session, replacement: Session, f: string)
    requires i < |rows| && rows[i].revokedAt.None? && IsRevoked(rows, f)
    requires consumed.familyId == replacement.familyId == rows[i].familyId
    ensures Family(rows[i := consumed] + [replacement], f) == Family(rows, f)
  {
    var k := UpdateInFamily(rows, i, consumed);
    AddToFamily(rows[i := consumed], replacement, f);
  }

  lemma RevokingAgainChangesNothing(rows: Rows, family: string, now: Time, f: string)
    requires IsRevoked(rows, f)
    ensures Family(RevokeFamily(rows, family, now), f) == Family(rows, f)
  {
    RevokeInFamily(rows, family, now, f);
    assert RevokeFamily(Family(rows, f), family, now) == Family(rows, f);
  }

  /** The same over a whole run. */
  lemma {:induction false} RevokedForever(states: seq<Rows>, ops: seq<Op>, limits: Limits, i: nat, j: nat, f: string)
    requires IsRun(states, ops, limits) && i <= j < |states|
    requires Family(states[i], f) != [] && IsRevoked(states[i], f)
    ensures Family(states[j], f) == Family(states[i], f) && IsRevoked(states[j], f)
    decreases j
  {
    if i < j {
      RevokedForever(states, ops, limits, i, j - 1, f);
      assert Steps(states, ops, limits, j - 1);
      RevokedFamilyIsFrozen(states[j - 1], ops[j - 1], limits, f);
    }
  }

  /** The operation replays the consumed token of row i, or logs out with its token. */
  predicate GivesAway(rows: Rows, op: Op, i: nat)
    requires i < |rows|
  {
    || (op.Refresh? && op.idleTtl > 0 && op.presented == rows[i].digest && rows[i].consumedAt.Some?)
    || (op.Logout? && op.cookie == Some(rows[i].digest))
  }

  lemma GivenAwayFamilyIsRevoked(rows: Rows, op: Op, i: nat)
    requires DistinctKeys(rows) && i < |rows| && GivesAway(rows, op, i)
    ensures Apply(rows, op) == RevokeFamily(rows, rows[i].familyId, op.now)
  {
    var found := FindDigest(rows, rows[i].digest);
    assert found == Some(i);
  }

  lemma RevocationIsUniform(c: Rows, family: string, now: Time, limits: Limits, k: nat)
    requires Chain(c, limits) && c[0].familyId == family && k < |c|
    ensures RevokeFamily(c, family, now)[k] == c[k].(revokedAt := Some(c[0].revokedAt.GetOr(now)))
  {
    assert Related(c[0], c[k]) && c[k].revokedAt == c[0].revokedAt;
  }

  /**
   Replaying a consumed token, or logging out with any token of a family, revokes the whole family at one
   instant: the recorded time is the first one ever, and the sessions are otherwise untouched.
   */
  lemma ReplayAndLogoutRevokeTheFamily(rows: Rows, op: Op, limits: Limits, i: nat)
    requires Inv(rows, limits) && i < |rows| && GivesAway(rows, op, i)
    ensures var before := Family(rows, rows[i].familyId);
      var after := Family(Apply(rows, op), rows[i].familyId);
      && |after| == |before| > 0
      && (forall k :: 0 <= k < |after| ==>
            after[k] == before[k].(revokedAt := Some(before[0].revokedAt.GetOr(op.now))))
    ensures IsRevoked(Apply(rows, op), rows[i].familyId)
  {
    var f := rows[i].familyId;
    GivenAwayFamilyIsRevoked(rows, op, i);
    var at := MemberOfFamily(rows, i);
    RevokeInFamily(rows, f, op.now, f);
    var before := Family(rows, f);
    FamilyMembers(rows, f, 0);
    forall k | 0 <= k < |before|
      ensures RevokeFamily(before, f, op.now)[k] == before[k].(revokedAt := Some(before[0].revokedAt.GetOr(op.now)))
    {
      RevocationIsUniform(before, f, op.now, limits, k);
    }
  }
}
