/**
 Concurrent refreshes and logouts, split at every database statement
 (modules/identity/infrastructure/repository.py:83-97, 167-232). A rotation locks the presented row, flushes,
 and commits. A replay or a logout revokes with one UPDATE, which sees the rows committed when it starts, waits
 for the locks on those it must change, and leaves out whatever is committed later. A row is known by its
 position in the order of commits.
 */
module SessionTransactions {
  import opened Common
  import opened RefreshSession
  import opened SessionStore
  import opened SessionFamilies

  type TxId = nat

  datatype Params = Params(presented: string, newId: string, newDigest: string, now: Time, idleTtl: int)

  // What an open transaction has executed so far.
  datatype Work =
    | Found(i: nat, q: Params)                            // presented row selected FOR UPDATE
    | Flushed(i: nat, q: Params, consumed: Session, replacement: Session)    // both rows written
    | Named(family: string, now: Time)                    // family to be revoked is known
    | Sweeping(family: string, now: Time, seen: nat)      // UPDATE started on the first `seen` rows

  datatype Db = Db(rows: Rows, locks: map<nat, TxId>, txs: map<TxId, Work>)

  const EMPTY := Db([], map[], map[])

  datatype Op =
    | SignIn(s: Session)
    | Find(tx: TxId, q: Params)
    | Decide(tx: TxId)
    | FindFamily(tx: TxId, digest: string, now: Time)
    | Snapshot(tx: TxId)
    | LockRow(tx: TxId, i: nat)
    | Commit(tx: TxId)
    | Abort(tx: TxId)

  function Outcome(s: Session, q: Params): Result<(Session, Session), SessionError> {
    Rotate(s, q.presented, q.newId, q.newDigest, q.now, q.idleTtl)
  }

  predicate SameKey(a: Session, b: Session) {
    a.sessionId == b.sessionId || a.digest == b.digest
  }

  /** No other open transaction has inserted a row with the same id or digest. */
  ghost predicate NoPendingClash(db: Db, s: Session) {
    forall tx :: tx in db.txs && db.txs[tx].Flushed? ==> !SameKey(db.txs[tx].replacement, s)
  }

  predicate IssuedWith(s: Session, idleTtl: int, absoluteTtl: int) {
    Issue(s.sessionId, s.familyId, s.userId, s.tenantId, s.digest, s.issuedAt, idleTtl, absoluteTtl) == Success(s)
  }

  ghost predicate Issued(s: Session, limits: Limits) {
    exists idleTtl: int :: 0 < idleTtl <= limits.idle && IssuedWith(s, idleTtl, limits.absolute)
  }

  /** The row must be changed by the UPDATE: it sees the row, and the WHERE clause holds of it now. */
  predicate ToSweep(rows: Rows, w: Work, i: nat)
    requires w.Sweeping?
  {
    i < w.seen && i < |rows| && rows[i].familyId == w.family && rows[i].revokedAt.None?
  }

  ghost predicate Swept(db: Db, tx: TxId)
    requires tx in db.txs && db.txs[tx].Sweeping?
  {
    forall i :: ToSweep(db.rows, db.txs[tx], i) ==> i in db.locks && db.locks[i] == tx
  }

  ghost predicate Enabled(db: Db, op: Op, limits: Limits) {
    match op
    case SignIn(s) => Issued(s, limits) && Family(db.rows, s.familyId) == [] && NoPendingClash(db, s)
    case Find(tx, q) =>
      && tx !in db.txs && q.idleTtl <= limits.idle
      && (FindDigest(db.rows, q.presented).Some? ==> FindDigest(db.rows, q.presented).value !in db.locks)
    case Decide(tx) =>
      && tx in db.txs && db.txs[tx].Found? && db.txs[tx].i < |db.rows|
      && var r := Outcome(db.rows[db.txs[tx].i], db.txs[tx].q); r.Success? ==> NoPendingClash(db, r.value.1)
    case FindFamily(tx, _, _) => tx !in db.txs
    case Snapshot(tx) => tx in db.txs && db.txs[tx].Named?
    case LockRow(tx, i) =>
      tx in db.txs && db.txs[tx].Sweeping? && ToSweep(db.rows, db.txs[tx], i) && i !in db.locks
    case Commit(tx) =>
      && tx in db.txs
      && ((db.txs[tx].Flushed? && db.txs[tx].i < |db.rows|)
          || (db.txs[tx].Sweeping? && db.txs[tx].seen <= |db.rows| && Swept(db, tx)))
    case Abort(tx) => tx in db.txs
  }

  function Note(db: Db, tx: TxId, w: Work): Db {
    db.(txs := db.txs[tx := w])
  }

  function End(db: Db, tx: TxId): Db {
    db.(txs := db.txs - {tx}, locks := map i | i in db.locks && db.locks[i] != tx :: db.locks[i])
  }

  function Sweep(rows: Rows, family: string, now: Time, seen: nat): Rows
    requires seen <= |rows|
  {
    RevokeFamily(rows[..seen], family, now) + rows[seen..]
  }

  ghost function Apply(db: Db, op: Op, limits: Limits): Db
    requires Enabled(db, op, limits)
  {
    match op
    case SignIn(s) => if CanInsert(db.rows, s) then db.(rows := db.rows + [s]) else db
    case Find(tx, q) =>
      var found := FindDigest(db.rows, q.presented);
      if found.None? then db else Note(db, tx, Found(found.value, q)).(locks := db.locks[found.value := tx])
    case Decide(tx) =>
      var w := db.txs[tx];
      (match Outcome(db.rows[w.i], w.q)
       case Failure(Replay(family)) => Note(db, tx, Named(family, w.q.now))
       case Failure(_) => End(db, tx)
       case Success((consumed, replacement)) =>
         if CanInsert(db.rows[w.i := consumed], replacement)
         then Note(db, tx, Flushed(w.i, w.q, consumed, replacement)) else End(db, tx))
    case FindFamily(tx, digest, now) =>
      var found := FindDigest(db.rows, digest);
      if found.None? then db else Note(db, tx, Named(db.rows[found.value].familyId, now))
    case Snapshot(tx) => Note(db, tx, Sweeping(db.txs[tx].family, db.txs[tx].now, |db.rows|))
    case LockRow(tx, i) => db.(locks := db.locks[i := tx])
    case Commit(tx) => End(db.(rows := Committed(db.rows, db.txs[tx])), tx)
    case Abort(tx) => End(db, tx)
  }

  function Committed(rows: Rows, w: Work): Rows
    requires (w.Flushed? && w.i < |rows|) || (w.Sweeping? && w.seen <= |rows|)
  {
    if w.Flushed? then rows[w.i := w.consumed] + [w.replacement] else Sweep(rows, w.family, w.now, w.seen)
  }

  // ----- the invariant -----

  /** Every family is linked as rotation links it; nothing is said about revocation. */
  ghost predicate AllLinked(rows: Rows, limits: Limits) {
    DistinctKeys(rows) && forall f :: Family(rows, f) == [] || Linked(Family(rows, f), limits)
  }

  predicate HasMember(rows: Rows, f: string, n: nat) {
    exists i :: 0 <= i < n && i < |rows| && rows[i].familyId == f
  }

  ghost predicate Owns(db: Db, tx: TxId, i: nat, q: Params) {
    i < |db.rows| && i in db.locks && db.locks[i] == tx && db.rows[i].digest == q.presented
  }

  /** What a transaction has found out is still true of the committed rows. */
  ghost predicate WorkSound(db: Db, tx: TxId, limits: Limits)
    requires tx in db.txs
  {
    match db.txs[tx]
    case Found(i, q) => Owns(db, tx, i, q) && q.idleTtl <= limits.idle
    case Flushed(i, q, consumed, replacement) =>
      && Owns(db, tx, i, q) && q.idleTtl <= limits.idle
      && Outcome(db.rows[i], q) == Success((consumed, replacement))
      && CanInsert(db.rows, replacement)
    case Named(family, _) => HasMember(db.rows, family, |db.rows|)
    case Sweeping(family, _, seen) => seen <= |db.rows| && HasMember(db.rows, family, seen)
  }

  ghost predicate NoClashes(txs: map<TxId, Work>) {
    forall tx, other :: tx in txs && other in txs && tx != other && txs[tx].Flushed? && txs[other].Flushed? ==>
      !SameKey(txs[tx].replacement, txs[other].replacement)
  }

  ghost predicate AllSound(db: Db, limits: Limits) {
    forall tx :: tx in db.txs ==> WorkSound(db, tx, limits)
  }

  ghost predicate Inv(db: Db, limits: Limits) {
    AllLinked(db.rows, limits) && AllSound(db, limits) && NoClashes(db.txs)
  }

  // ----- rows that evolve -----

  /** Rows keep their place, their keys and their family; the others come behind them. */
  ghost predicate Evolves(rows: Rows, later: Rows) {
    && |rows| <= |later|
    && forall i :: 0 <= i < |rows| ==>
         && later[i].sessionId == rows[i].sessionId && later[i].digest == rows[i].digest
         && later[i].familyId == rows[i].familyId
  }

  /** Rows locked by a transaction are changed by no other, and nothing clashes with its insertion. */
  lemma WorkSurvives(db: Db, later: Rows, tx: TxId, limits: Limits)
    requires tx in db.txs && WorkSound(db, tx, limits) && Evolves(db.rows, later)
    requires forall i :: 0 <= i < |db.rows| && i in db.locks && db.locks[i] == tx ==> later[i] == db.rows[i]
    requires db.txs[tx].Flushed? ==>
      forall i :: |db.rows| <= i < |later| ==> !SameKey(db.txs[tx].replacement, later[i])
    ensures WorkSound(db.(rows := later), tx, limits)
  {
    var w := db.txs[tx];
    if w.Named? {
      var i :| 0 <= i < |db.rows| && db.rows[i].familyId == w.family;
      assert later[i].familyId == w.family;
    } else if w.Sweeping? {
      var i :| 0 <= i < w.seen && db.rows[i].familyId == w.family;
      assert later[i].familyId == w.family;
    }
  }

  lemma FamilyConcatSnoc(a: Rows, front: Rows, last: Session, f: string)
    requires Family(a + front, f) == Family(a, f) + Family(front, f)
    ensures Family(a + (front + [last]), f) == Family(a, f) + Family(front + [last], f)
  {
    assert a + (front + [last]) == (a + front) + [last];
    AddToFamily(a + front, last, f);
    AddToFamily(front, last, f);
  }

  lemma {:induction false} FamilyConcat(a: Rows, b: Rows, f: string)
    ensures Family(a + b, f) == Family(a, f) + Family(b, f)
    decreases |b|
  {
    if b == [] {
      assert a + b == a;
    } else {
      var front, last := b[..|b| - 1], b[|b| - 1];
      FamilyConcat(a, front, f);
      FamilyConcatSnoc(a, front, last, f);
      assert b == front + [last];
    }
  }

  lemma FamilyOfParts(rows: Rows, f: string, seen: nat)
    requires seen <= |rows|
    ensures Family(rows, f) == Family(rows[..seen], f) + Family(rows[seen..], f)
  {
    assert rows == rows[..seen] + rows[seen..];
    FamilyConcat(rows[..seen], rows[seen..], f);
  }

  /** A sweep revokes the sessions of its family that it has seen, and touches no other family. */
  lemma SweptFamily(rows: Rows, family: string, now: Time, seen: nat, f: string)
    requires seen <= |rows|
    ensures Family(Sweep(rows, family, now, seen), f)
         == if f == family then RevokeFamily(Family(rows[..seen], f), f, now) + Family(rows[seen..], f)
            else Family(rows, f)
  {
    FamilyOfParts(rows, f, seen);
    RevokeInFamily(rows[..seen], family, now, f);
    FamilyConcat(RevokeFamily(rows[..seen], family, now), rows[seen..], f);
  }

  lemma SweepEvolves(rows: Rows, family: string, now: Time, seen: nat)
    requires seen <= |rows|
    ensures |Sweep(rows, family, now, seen)| == |rows| && Evolves(rows, Sweep(rows, family, now, seen))
  {
  }

  lemma SweptIsLinked(rows: Rows, family: string, now: Time, seen: nat, limits: Limits)
    requires seen <= |rows| && AllLinked(rows, limits)
    ensures AllLinked(Sweep(rows, family, now, seen), limits)
  {
    var later := Sweep(rows, family, now, seen);
    SweepEvolves(rows, family, now, seen);
    forall f ensures Family(later, f) == [] || Linked(Family(later, f), limits) {
      SweptFamily(rows, family, now, seen, f);
      FamilyOfParts(rows, f, seen);
      if f == family && Family(rows, f) != [] {
        SweptIsRevokedOrNot(Family(rows[..seen], f), Family(rows[seen..], f), f, now);
        RevokedIsLinked(Family(rows, f), Family(later, f), now, limits);
      }
    }
  }

  lemma SweptIsRevokedOrNot(a: Rows, b: Rows, f: string, now: Time)
    ensures var c, r := a + b, RevokeFamily(a, f, now) + b;
      |r| == |c| && forall i :: 0 <= i < |c| ==> r[i] == c[i] || r[i] == Revoke(c[i], now)
  {
  }

  lemma RotatedIsLinked(rows: Rows, i: nat, q: Params, limits: Limits)
    requires AllLinked(rows, limits) && i < |rows| && q.idleTtl <= limits.idle
    requires Outcome(rows[i], q).Success? && CanInsert(rows, Outcome(rows[i], q).value.1)
    ensures var (consumed, replacement) := Outcome(rows[i], q).value;
      AllLinked(rows[i := consumed] + [replacement], limits)
  {
    var (consumed, replacement) := Outcome(rows[i], q).value;
    var family := rows[i].familyId;
    var c := Family(rows, family);
    var k := UpdateInFamily(rows, i, consumed);
    UnconsumedIsNewest(c, limits, k);
    assert Related(c[0], c[k]) && Timely(c[k], limits);
    ExtendedIsLinked(c, consumed, replacement, limits);
    var after := rows[i := consumed] + [replacement];
    forall f ensures Family(after, f) == [] || Linked(Family(after, f), limits) {
      AddToFamily(rows[i := consumed], replacement, f);
      if f == family {
        assert Family(after, f) == c[|c| - 1 := consumed] + [replacement];
      } else {
        assert Family(after, f) == Family(rows, f);
      }
    }
  }

  lemma IssuedIsLinked(s: Session, limits: Limits)
    requires Issued(s, limits)
    ensures Linked([s], limits)
  {
    var idleTtl: int :| 0 < idleTtl <= limits.idle && IssuedWith(s, idleTtl, limits.absolute);
    assert [s][0] == s;
  }

  lemma SignedInIsLinked(rows: Rows, s: Session, limits: Limits)
    requires AllLinked(rows, limits) && CanInsert(rows, s) && Family(rows, s.familyId) == [] && Issued(s, limits)
    ensures AllLinked(rows + [s], limits)
  {
    IssuedIsLinked(s, limits);
    forall f ensures Family(rows + [s], f) == [] || Linked(Family(rows + [s], f), limits) {
      AddToFamily(rows, s, f);
      assert f == s.familyId ==> Family(rows + [s], f) == [s];
    }
    AddedKeysAreDistinct(rows, s);
  }

  // ----- every statement keeps the invariant -----

  lemma EndKeepsInv(db: Db, tx: TxId, limits: Limits)
    requires Inv(db, limits)
    ensures Inv(End(db, tx), limits)
  {
    forall other | other in End(db, tx).txs ensures WorkSound(End(db, tx), other, limits) {
      assert WorkSound(db, other, limits);
    }
  }

  lemma NoteKeepsInv(db: Db, tx: TxId, w: Work, limits: Limits)
    requires Inv(db, limits) && WorkSound(Note(db, tx, w), tx, limits)
    requires w.Flushed? ==> NoPendingClash(db, w.replacement)
    ensures Inv(Note(db, tx, w), limits)
  {
    forall other | other in Note(db, tx, w).txs ensures WorkSound(Note(db, tx, w), other, limits) {
      if other != tx { assert WorkSound(db, other, limits); }
    }
  }

  lemma LockKeepsInv(db: Db, tx: TxId, i: nat, limits: Limits)
    requires Inv(db, limits) && i !in db.locks
    ensures Inv(db.(locks := db.locks[i := tx]), limits)
  {
    var after := db.(locks := db.locks[i := tx]);
    forall other | other in after.txs ensures WorkSound(after, other, limits) {
      assert WorkSound(db, other, limits);
    }
  }

  lemma FindKeepsInv(db: Db, op: Op, limits: Limits)
    requires Inv(db, limits) && Enabled(db, op, limits) && op.Find?
    ensures Inv(Apply(db, op, limits), limits)
  {
    var found := FindDigest(db.rows, op.q.presented);
    if found.Some? {
      LockKeepsInv(db, op.tx, found.value, limits);
      NoteKeepsInv(db.(locks := db.locks[found.value := op.tx]), op.tx, Found(found.value, op.q), limits);
    }
  }

  lemma DecideKeepsInv(db: Db, op: Op, limits: Limits)
    requires Inv(db, limits) && Enabled(db, op, limits) && op.Decide?
    ensures Inv(Apply(db, op, limits), limits)
  {
    var w := db.txs[op.tx];
    assert WorkSound(db, op.tx, limits);
    match Outcome(db.rows[w.i], w.q)
    case Failure(Replay(family)) =>
      assert db.rows[w.i].familyId == family;
      NoteKeepsInv(db, op.tx, Named(family, w.q.now), limits);
    case Failure(_) => EndKeepsInv(db, op.tx, limits);
    case Success((consumed, replacement)) =>
      if CanInsert(db.rows[w.i := consumed], replacement) {
        SameKeysSameInsert(db.rows, w.i, consumed, replacement);
        NoteKeepsInv(db, op.tx, Flushed(w.i, w.q, consumed, replacement), limits);
      } else {
        EndKeepsInv(db, op.tx, limits);
      }
  }

  lemma SameKeysSameInsert(rows: Rows, i: nat, s: Session, other: Session)
    requires i < |rows| && s.sessionId == rows[i].sessionId && s.digest == rows[i].digest
    ensures CanInsert(rows[i := s], other) <==> CanInsert(rows, other)
  {
    var after := rows[i := s];
    assert forall k :: 0 <= k < |rows| ==> after[k].sessionId == rows[k].sessionId && after[k].digest == rows[k].digest;
  }

  lemma CommitKeepsInv(db: Db, tx: TxId, limits: Limits)
    requires Inv(db, limits) && Enabled(db, Commit(tx), limits)
    ensures Inv(Apply(db, Commit(tx), limits), limits)
  {
    var w := db.txs[tx];
    assert WorkSound(db, tx, limits);
    var later := Committed(db.rows, w);
    if w.Flushed? {
      RotatedIsLinked(db.rows, w.i, w.q, limits);
    } else {
      SweptIsLinked(db.rows, w.family, w.now, w.seen, limits);
      SweepEvolves(db.rows, w.family, w.now, w.seen);
    }
    EndKeepsInv(db, tx, limits);
    forall other | other in End(db, tx).txs ensures WorkSound(End(db.(rows := later), tx), other, limits) {
      OthersSurvive(db, tx, other, limits);
    }
  }

  lemma OthersSurvive(db: Db, tx: TxId, other: TxId, limits: Limits)
    requires Inv(db, limits) && Enabled(db, Commit(tx), limits) && other in db.txs && other != tx
    ensures WorkSound(db.(rows := Committed(db.rows, db.txs[tx])), other, limits)
  {
    var w := db.txs[tx];
    assert WorkSound(db, other, limits);
    if w.Sweeping? {
      SweepEvolves(db.rows, w.family, w.now, w.seen);
      SweepSparesLocked(db, tx, other);
    } else {
      assert WorkSound(db, tx, limits);
      RotationSparesLocked(db, tx, other);
    }
    WorkSurvives(db, Committed(db.rows, w), other, limits);
  }

  lemma SweepSparesLocked(db: Db, tx: TxId, other: TxId)
    requires tx in db.txs && db.txs[tx].Sweeping? && db.txs[tx].seen <= |db.rows| && Swept(db, tx) && other != tx
    ensures var w := db.txs[tx];
      forall i :: 0 <= i < |db.rows| && i in db.locks && db.locks[i] == other ==>
        Sweep(db.rows, w.family, w.now, w.seen)[i] == db.rows[i]
  {
    var w := db.txs[tx];
    forall i | 0 <= i < |db.rows| && i in db.locks && db.locks[i] == other
      ensures Sweep(db.rows, w.family, w.now, w.seen)[i] == db.rows[i]
    {
      assert !ToSweep(db.rows, w, i);
    }
  }

  lemma RotationSparesLocked(db: Db, tx: TxId, other: TxId)
    requires tx in db.txs && other in db.txs && other != tx && db.txs[tx].Flushed? && NoClashes(db.txs)
    requires var w := db.txs[tx];
      && Owns(db, tx, w.i, w.q) && Outcome(db.rows[w.i], w.q) == Success((w.consumed, w.replacement))
    ensures var later := Committed(db.rows, db.txs[tx]);
      && Evolves(db.rows, later) && |later| == |db.rows| + 1
      && (forall i :: 0 <= i < |db.rows| && i in db.locks && db.locks[i] == other ==> later[i] == db.rows[i])
      && (db.txs[other].Flushed? ==> !SameKey(db.txs[other].replacement, later[|db.rows|]))
  {
  }

  lemma SignInKeepsInv(db: Db, op: Op, limits: Limits)
    requires Inv(db, limits) && Enabled(db, op, limits) && op.SignIn?
    ensures Inv(Apply(db, op, limits), limits)
  {
    if CanInsert(db.rows, op.s) {
      SignedInIsLinked(db.rows, op.s, limits);
      forall other | other in db.txs ensures WorkSound(db.(rows := db.rows + [op.s]), other, limits) {
        assert WorkSound(db, other, limits);
        WorkSurvives(db, db.rows + [op.s], other, limits);
      }
    }
  }

  /** Every statement of every transaction keeps all families linked. */
  lemma StatementKeepsInv(db: Db, op: Op, limits: Limits)
    requires Inv(db, limits) && Enabled(db, op, limits)
    ensures Inv(Apply(db, op, limits), limits)
  {
    match op
    case SignIn(_) => SignInKeepsInv(db, op, limits);
    case Find(_, _) => FindKeepsInv(db, op, limits);
    case Decide(_) => DecideKeepsInv(db, op, limits);
    case FindFamily(tx, digest, now) =>
      var found := FindDigest(db.rows, digest);
      if found.Some? { NoteKeepsInv(db, tx, Named(db.rows[found.value].familyId, now), limits); }
    case Snapshot(tx) =>
      assert WorkSound(db, tx, limits);
      NoteKeepsInv(db, tx, Sweeping(db.txs[tx].family, db.txs[tx].now, |db.rows|), limits);
    case LockRow(tx, i) => LockKeepsInv(db, tx, i, limits);
    case Commit(tx) => CommitKeepsInv(db, tx, limits);
    case Abort(tx) => EndKeepsInv(db, tx, limits);
  }

  // ----- whole runs -----

  ghost predicate IsRun(states: seq<Db>, ops: seq<Op>, limits: Limits) {
    && |states| == |ops| + 1
    && states[0] == EMPTY
    && (forall i :: 0 <= i < |ops| ==> Steps(states, ops, limits, i))
  }

  ghost predicate Steps(states: seq<Db>, ops: seq<Op>, limits: Limits, i: nat)
    requires i < |ops| < |states|
  {
    Enabled(states[i], ops[i], limits) && states[i + 1] == Apply(states[i], ops[i], limits)
  }

  lemma {:induction false} RunsKeepInv(states: seq<Db>, ops: seq<Op>, limits: Limits, k: nat)
    requires IsRun(states, ops, limits) && k < |states|
    ensures Inv(states[k], limits)
  {
    if k > 0 {
      RunsKeepInv(states, ops, limits, k - 1);
      assert Steps(states, ops, limits, k - 1);
      StatementKeepsInv(states[k - 1], ops[k - 1], limits);
    }
  }

  /** However the statements interleave, at most one session of a family can ever be used: its newest. */
  lemma AtMostOneActive(states: seq<Db>, ops: seq<Op>, limits: Limits, k: nat, f: string,
                        i: nat, j: nat, atI: Time, atJ: Time)
    requires IsRun(states, ops, limits) && k < |states|
    requires i < |Family(states[k].rows, f)| && j < |Family(states[k].rows, f)|
    requires IsActive(Family(states[k].rows, f)[i], atI) && IsActive(Family(states[k].rows, f)[j], atJ)
    ensures i == j == |Family(states[k].rows, f)| - 1
  {
    RunsKeepInv(states, ops, limits, k);
    UnconsumedIsNewest(Family(states[k].rows, f), limits, i);
    UnconsumedIsNewest(Family(states[k].rows, f), limits, j);
  }

  /** A committed rotation is the atomic rotation of the store at the moment of the commit. */
  lemma RotationsAreAtomic(db: Db, tx: TxId, limits: Limits)
    requires Inv(db, limits) && Enabled(db, Commit(tx), limits) && db.txs[tx].Flushed?
    ensures var q := db.txs[tx].q;
      RotateByDigest(db.rows, q.presented, q.newId, q.newDigest, q.now, q.idleTtl)
        == Success((Apply(db, Commit(tx), limits).rows, Status.Rotated(db.txs[tx].replacement)))
  {
    assert WorkSound(db, tx, limits);
    var w := db.txs[tx];
    assert FindDigest(db.rows, w.q.presented) == Some(w.i);
    SameKeysSameInsert(db.rows, w.i, w.consumed, w.replacement);
  }

  // ----- what a sweep misses -----

  /** The sessions of its family that joined after the UPDATE had started. */
  function Late(db: Db, tx: TxId): Rows
    requires tx in db.txs && db.txs[tx].Sweeping? && db.txs[tx].seen <= |db.rows|
  {
    Family(db.rows[db.txs[tx].seen..], db.txs[tx].family)
  }

  ghost predicate AllRevoked(c: Rows) {
    forall k :: 0 <= k < |c| ==> c[k].revokedAt.Some?
  }

  ghost predicate CommitsSweep(db: Db, op: Op, f: string) {
    && op.Commit? && op.tx in db.txs && db.txs[op.tx].Sweeping?
    && db.txs[op.tx].seen <= |db.rows| && db.txs[op.tx].family == f
  }

  lemma SweepOfFamily(db: Db, op: Op, f: string, limits: Limits)
    requires Inv(db, limits) && Enabled(db, op, limits) && CommitsSweep(db, op, f)
    ensures var w := db.txs[op.tx];
      && Family(db.rows, f) == Family(db.rows[..w.seen], f) + Late(db, op.tx)
      && Family(Apply(db, op, limits).rows, f) == RevokeFamily(Family(db.rows[..w.seen], f), f, w.now) + Late(db, op.tx)
      && Family(db.rows[..w.seen], f) != []
  {
    var w := db.txs[op.tx];
    assert WorkSound(db, op.tx, limits);
    FamilyOfParts(db.rows, f, w.seen);
    SweptFamily(db.rows, f, w.now, w.seen, f);
    var i :| 0 <= i < w.seen && db.rows[i].familyId == f;
    var k := MemberOfFamily(db.rows[..w.seen], i);
  }

  lemma {:induction false} FamilyIsOfFamily(rows: Rows, f: string)
    ensures forall k :: 0 <= k < |Family(rows, f)| ==> Family(rows, f)[k].familyId == f
  {
    if rows != [] { FamilyIsOfFamily(rows[..|rows| - 1], f); }
  }

  /**
   A replay or logout leaves no unrevoked session of the family exactly if every session that joined after its
   UPDATE had started has been revoked by somebody else in the meantime.
   */
  lemma RevocationIsComplete(db: Db, op: Op, f: string, limits: Limits)
    requires Inv(db, limits) && Enabled(db, op, limits) && CommitsSweep(db, op, f)
    ensures AllRevoked(Family(Apply(db, op, limits).rows, f)) <==> AllRevoked(Late(db, op.tx))
  {
    SweepOfFamily(db, op, f, limits);
    var seen := Family(db.rows[..db.txs[op.tx].seen], f);
    FamilyIsOfFamily(db.rows[..db.txs[op.tx].seen], f);
    RevokedThenLate(seen, Late(db, op.tx), f, db.txs[op.tx].now);
  }

  lemma RevokedThenLate(seen: Rows, late: Rows, f: string, now: Time)
    requires forall k :: 0 <= k < |seen| ==> seen[k].familyId == f
    ensures AllRevoked(RevokeFamily(seen, f, now) + late) <==> AllRevoked(late)
  {
    var all := RevokeFamily(seen, f, now) + late;
    if AllRevoked(all) {
      forall k | 0 <= k < |late| ensures late[k].revokedAt.Some? { assert all[|seen| + k] == late[k]; }
    }
  }

  /** It is the atomic revocation of the store under the same condition. */
  lemma SweepsAreAtomicExactly(db: Db, op: Op, f: string, limits: Limits)
    requires Inv(db, limits) && Enabled(db, op, limits) && CommitsSweep(db, op, f)
    ensures Apply(db, op, limits).rows == RevokeFamily(db.rows, f, db.txs[op.tx].now) <==> AllRevoked(Late(db, op.tx))
  {
    var w := db.txs[op.tx];
    var late := db.rows[w.seen..];
    assert db.rows == db.rows[..w.seen] + late;
    assert RevokeFamily(db.rows, f, w.now) == RevokeFamily(db.rows[..w.seen], f, w.now) + RevokeFamily(late, f, w.now);
    NothingToRevoke(late, f, w.now);
    if Apply(db, op, limits).rows == RevokeFamily(db.rows, f, w.now) {
      assert RevokeFamily(late, f, w.now) == Apply(db, op, limits).rows[w.seen..] == late;
    }
  }

  lemma RevokesNothingSnoc(rows: Rows, s: Session, f: string, now: Time)
    ensures RevokeFamily(rows + [s], f, now) == rows + [s]
       <==> RevokeFamily(rows, f, now) == rows && (s.familyId == f ==> s.revokedAt.Some?)
  {
    var longer, after := rows + [s], RevokeFamily(rows + [s], f, now);
    assert after == RevokeFamily(rows, f, now) + [if s.familyId == f then Revoke(s, now) else s];
    if after == longer {
      assert RevokeFamily(rows, f, now) == after[..|rows|] == rows;
      assert after[|rows|] == s;
    }
  }

  lemma {:induction false} NothingToRevoke(rows: Rows, f: string, now: Time)
    ensures RevokeFamily(rows, f, now) == rows <==> AllRevoked(Family(rows, f))
  {
    if rows != [] {
      var n := |rows| - 1;
      NothingToRevoke(rows[..n], f, now);
      RevokesNothingSnoc(rows[..n], rows[n], f, now);
      assert rows == rows[..n] + [rows[n]];
      RevokedSnoc(Family(rows[..n], f), rows[n]);
      assert Family(rows, f)
          == if rows[n].familyId == f then Family(rows[..n], f) + [rows[n]] else Family(rows[..n], f);
    }
  }

  lemma RevokedSnoc(c: Rows, s: Session)
    ensures AllRevoked(c + [s]) <==> AllRevoked(c) && s.revokedAt.Some?
  {
    if AllRevoked(c + [s]) {
      assert (c + [s])[|c|] == s;
      forall k | 0 <= k < |c| ensures c[k].revokedAt.Some? { assert (c + [s])[k] == c[k]; }
    }
  }

  /** The sweep would change the family, but a rotation of it has committed since the UPDATE started. */
  ghost predicate Misses(db: Db, op: Op, f: string) {
    CommitsSweep(db, op, f) && !AllRevoked(Family(db.rows, f)) && Late(db, op.tx) != []
  }

  lemma SweepIsUniformExactly(db: Db, op: Op, f: string, limits: Limits)
    requires Inv(db, limits) && Enabled(db, op, limits) && CommitsSweep(db, op, f)
    requires Uniform(Family(db.rows, f))
    ensures Uniform(Family(Apply(db, op, limits).rows, f)) <==> !Misses(db, op, f)
  {
    SweepOfFamily(db, op, f, limits);
    var w := db.txs[op.tx];
    FamilyIsOfFamily(db.rows[..w.seen], f);
    UniformThenLate(Family(db.rows[..w.seen], f), Late(db, op.tx), f, w.now);
  }

  lemma UniformThenLate(seen: Rows, late: Rows, f: string, now: Time)
    requires seen != [] && Uniform(seen + late) && forall k :: 0 <= k < |seen| ==> seen[k].familyId == f
    ensures Uniform(RevokeFamily(seen, f, now) + late) <==> AllRevoked(seen + late) || late == []
  {
    var before, after := seen + late, RevokeFamily(seen, f, now) + late;
    assert before[0] == seen[0] && after[0] == Revoke(seen[0], now);
    forall k | 0 <= k < |after|
      ensures after[k] == if k < |seen| then Revoke(before[k], now) else before[k]
    {
    }
    assert forall k :: 0 <= k < |before| ==> before[k].revokedAt == before[0].revokedAt;
    if late != [] {
      assert after[|seen|] == before[|seen|];
      assert before[|seen|].revokedAt == before[0].revokedAt;
    }
  }

  // ----- uniform revocation over a run -----

  /** No other statement makes the revocation of a family uneven. */
  lemma OthersKeepUniform(db: Db, op: Op, f: string, limits: Limits)
    requires Inv(db, limits) && Enabled(db, op, limits) && !CommitsSweep(db, op, f)
    requires Uniform(Family(db.rows, f))
    ensures Uniform(Family(Apply(db, op, limits).rows, f))
  {
    if op.SignIn? {
      AddToFamily(db.rows, op.s, f);
    } else if op.Commit? {
      var w := db.txs[op.tx];
      assert WorkSound(db, op.tx, limits);
      if w.Sweeping? {
        SweptFamily(db.rows, w.family, w.now, w.seen, f);
        assert Family(Apply(db, op, limits).rows, f) == Family(db.rows, f);
      } else {
        RotationKeepsUniform(db.rows, w.i, w.q, f);
      }
    }
  }

  lemma RotationKeepsUniform(rows: Rows, i: nat, q: Params, f: string)
    requires i < |rows| && Outcome(rows[i], q).Success? && Uniform(Family(rows, f))
    ensures var (consumed, replacement) := Outcome(rows[i], q).value;
      Uniform(Family(rows[i := consumed] + [replacement], f))
  {
    var (consumed, replacement) := Outcome(rows[i], q).value;
    var k := UpdateInFamily(rows, i, consumed);
    AddToFamily(rows[i := consumed], replacement, f);
    if f == consumed.familyId { ExtendedIsUniform(Family(rows, f), k, consumed, replacement); }
  }

  lemma StepIsUniformExactly(states: seq<Db>, ops: seq<Op>, limits: Limits, j: nat, f: string)
    requires IsRun(states, ops, limits) && j < |ops| && Uniform(Family(states[j].rows, f))
    ensures Uniform(Family(states[j + 1].rows, f)) <==> !Misses(states[j], ops[j], f)
  {
    RunsKeepInv(states, ops, limits, j);
    var db, op, after := states[j], ops[j], states[j + 1];
    assert Steps(states, ops, limits, j);
    assert after == Apply(db, op, limits);
    if CommitsSweep(db, op, f) {
      SweepIsUniformExactly(db, op, f, limits);
    } else {
      OthersKeepUniform(db, op, f, limits);
    }
  }

  ghost predicate UniformUpTo(states: seq<Db>, f: string, n: nat)
    requires n < |states|
  {
    forall k :: 0 <= k <= n ==> Uniform(Family(states[k].rows, f))
  }

  ghost predicate NoneMisses(states: seq<Db>, ops: seq<Op>, f: string, n: nat)
    requires n <= |ops| < |states|
  {
    forall j :: 0 <= j < n ==> !Misses(states[j], ops[j], f)
  }

  /**
   The exact condition. Over a run the sessions of a family always carry one revocation time or none, if and
   only if no replay or logout commits on the unrevoked family after a rotation of it has committed since the
   UPDATE started.
   */
  lemma {:induction false} UniformRevocationExactly(states: seq<Db>, ops: seq<Op>, limits: Limits, f: string, n: nat)
    requires IsRun(states, ops, limits) && n < |states|
    ensures UniformUpTo(states, f, n) <==> NoneMisses(states, ops, f, n)
  {
    if n == 0 {
      assert Family(states[0].rows, f) == [];
    } else {
      UniformRevocationExactly(states, ops, limits, f, n - 1);
      if UniformUpTo(states, f, n - 1) {
        assert Uniform(Family(states[n - 1].rows, f));
        StepIsUniformExactly(states, ops, limits, n - 1, f);
      }
      UniformSnoc(states, ops, f, n);
    }
  }

  lemma UniformSnoc(states: seq<Db>, ops: seq<Op>, f: string, n: nat)
    requires 0 < n <= |ops| < |states|
    ensures UniformUpTo(states, f, n) <==> UniformUpTo(states, f, n - 1) && Uniform(Family(states[n].rows, f))
    ensures NoneMisses(states, ops, f, n)
       <==> NoneMisses(states, ops, f, n - 1) && !Misses(states[n - 1], ops[n - 1], f)
  {
  }

  /** A family that exists is joined only by the replacement of a committed rotation. */
  lemma OnlyRotationsJoin(db: Db, op: Op, f: string, limits: Limits)
    requires Inv(db, limits) && Enabled(db, op, limits) && Family(db.rows, f) != []
    requires |Family(Apply(db, op, limits).rows, f)| != |Family(db.rows, f)|
    ensures op.Commit? && db.txs[op.tx].Flushed? && db.txs[op.tx].replacement.familyId == f
  {
    if op.SignIn? {
      AddToFamily(db.rows, op.s, f);
    } else if op.Commit? && db.txs[op.tx].Sweeping? {
      var w := db.txs[op.tx];
      SweptFamily(db.rows, w.family, w.now, w.seen, f);
      FamilyOfParts(db.rows, f, w.seen);
    } else if op.Commit? {
      var w := db.txs[op.tx];
      assert WorkSound(db, op.tx, limits);
      var k := UpdateInFamily(db.rows, w.i, w.consumed);
      AddToFamily(db.rows[w.i := w.consumed], w.replacement, f);
    }
  }

  // ----- a revoked family stays revoked -----

  lemma NoRotationIsPending(db: Db, tx: TxId, f: string, limits: Limits)
    requires Inv(db, limits) && tx in db.txs && db.txs[tx].Flushed? && AllRevoked(Family(db.rows, f))
    ensures db.rows[db.txs[tx].i].familyId != f
  {
    assert WorkSound(db, tx, limits);
    var i := db.txs[tx].i;
    if db.rows[i].familyId == f { var k := MemberOfFamily(db.rows, i); }
  }

  lemma CommitLeavesRevoked(db: Db, tx: TxId, f: string, limits: Limits)
    requires Inv(db, limits) && Enabled(db, Commit(tx), limits) && AllRevoked(Family(db.rows, f))
    ensures Family(Committed(db.rows, db.txs[tx]), f) == Family(db.rows, f)
  {
    var w := db.txs[tx];
    assert WorkSound(db, tx, limits);
    if w.Flushed? {
      NoRotationIsPending(db, tx, f, limits);
      var k := UpdateInFamily(db.rows, w.i, w.consumed);
      AddToFamily(db.rows[w.i := w.consumed], w.replacement, f);
    } else {
      SweptFamily(db.rows, w.family, w.now, w.seen, f);
      if w.family == f { SweepOfRevokedFamily(db.rows, f, w.now, w.seen); }
    }
  }

  lemma SweepOfRevokedFamily(rows: Rows, f: string, now: Time, seen: nat)
    requires seen <= |rows| && AllRevoked(Family(rows, f))
    ensures RevokeFamily(Family(rows[..seen], f), f, now) + Family(rows[seen..], f) == Family(rows, f)
  {
    FamilyOfParts(rows, f, seen);
    var first := Family(rows[..seen], f);
    assert forall k :: 0 <= k < |first| ==> Family(rows, f)[k] == first[k];
    assert RevokeFamily(first, f, now) == first;
  }

  /** Once all sessions of a family are revoked, no statement changes the family: nothing joins, no time moves. */
  lemma RevokedFamilyIsFrozen(db: Db, op: Op, f: string, limits: Limits)
    requires Inv(db, limits) && Enabled(db, op, limits)
    requires Family(db.rows, f) != [] && AllRevoked(Family(db.rows, f))
    ensures Family(Apply(db, op, limits).rows, f) == Family(db.rows, f)
  {
    if op.SignIn? {
      AddToFamily(db.rows, op.s, f);
    } else if op.Commit? {
      CommitLeavesRevoked(db, op.tx, f, limits);
    }
  }

  lemma {:induction false} RevokedForever(states: seq<Db>, ops: seq<Op>, limits: Limits, i: nat, j: nat, f: string)
    requires IsRun(states, ops, limits) && i <= j < |states|
    requires Family(states[i].rows, f) != [] && AllRevoked(Family(states[i].rows, f))
    ensures Family(states[j].rows, f) == Family(states[i].rows, f)
    decreases j
  {
    if i < j {
      RevokedForever(states, ops, limits, i, j - 1, f);
      RunsKeepInv(states, ops, limits, j - 1);
      FrozenStep(states, ops, limits, j - 1, f);
    }
  }

  lemma FrozenStep(states: seq<Db>, ops: seq<Op>, limits: Limits, i: nat, f: string)
    requires IsRun(states, ops, limits) && i < |ops| && Inv(states[i], limits)
    requires Family(states[i].rows, f) != [] && AllRevoked(Family(states[i].rows, f))
    ensures Family(states[i + 1].rows, f) == Family(states[i].rows, f)
  {
    var db, op, after := states[i], ops[i], states[i + 1];
    assert Steps(states, ops, limits, i);
    RevokedFamilyIsFrozen(db, op, f, limits);
    assert after == Apply(db, op, limits);
  }

  lemma SweptFamilyExists(db: Db, op: Op, f: string, limits: Limits)
    requires Inv(db, limits) && Enabled(db, op, limits) && CommitsSweep(db, op, f)
    ensures Family(Apply(db, op, limits).rows, f) != []
  {
    SweepOfFamily(db, op, f, limits);
  }

  /**
   After a replay or logout that was not overtaken, no statement of anybody ever changes a session of the
   family, rotates one or adds one, and none of them can be used again. A replay that was overtaken does not
   achieve this: then, and only then, some session of the family is unrevoked when it has committed.
   */
  lemma CompleteRevocationIsFinal(states: seq<Db>, ops: seq<Op>, limits: Limits, i: nat, j: nat, f: string,
                                  k: nat, at: Time)
    requires IsRun(states, ops, limits) && i < |ops| && i + 1 <= j < |states| && CommitsSweep(states[i], ops[i], f)
    ensures AllRevoked(Family(states[i + 1].rows, f)) <==> AllRevoked(Late(states[i], ops[i].tx))
    ensures AllRevoked(Late(states[i], ops[i].tx)) ==> Family(states[j].rows, f) == Family(states[i + 1].rows, f)
    ensures AllRevoked(Late(states[i], ops[i].tx)) && k < |Family(states[j].rows, f)| ==>
      !IsActive(Family(states[j].rows, f)[k], at)
  {
    RunsKeepInv(states, ops, limits, i);
    var db, op, after := states[i], ops[i], states[i + 1];
    assert Steps(states, ops, limits, i);
    assert after == Apply(db, op, limits);
    RevocationIsComplete(db, op, f, limits);
    SweptFamilyExists(db, op, f, limits);
    if AllRevoked(Late(db, op.tx)) { RevokedForever(states, ops, limits, i + 1, j, f); }
  }

  // ----- it happens -----

  const LIMITS := Limits(10, 100)

  function Fresh(sessionId: string, digest: string, at: Time): Session {
    Session(sessionId, "f", "u", "t", digest, at, at + 10, 100, None, None)
  }

  function Consumed(s: Session, at: Time): Session {
    s.(consumedAt := Some(at))
  }

  const FIRST := Params("d0", "s1", "d1", 1, 10)
  const SECOND := Params("d1", "s2", "d2", 2, 10)
  const REPLAY := Params("d0", "s3", "d3", 3, 10)

  const S0 := Fresh("s0", "d0", 0)
  const S1 := Fresh("s1", "d1", 1)
  const S2 := Fresh("s2", "d2", 2)

  const BEFORE: Rows := [Consumed(S0, 1), S1]
  const AFTER: Rows := [Consumed(S0, 1), Consumed(S1, 2), S2]
  const END: Rows := [Revoke(Consumed(S0, 1), 3), Revoke(Consumed(S1, 2), 3), S2]

  /**
   A rotation, then a second one during which the first token is replayed. The UPDATE of the replay starts
   before the second rotation commits and goes on after it.
   */
  const OPS: seq<Op> := [
    SignIn(S0),
    Find(1, FIRST), Decide(1), Commit(1),
    Find(2, SECOND),
    Find(3, REPLAY), Decide(3), Snapshot(3),
    Decide(2), Commit(2),
    LockRow(3, 1), Commit(3)]

  const STATES: seq<Db> := [
    EMPTY,
    Db([S0], map[], map[]),
    Db([S0], map[0 := 1], map[1 := Found(0, FIRST)]),
    Db([S0], map[0 := 1], map[1 := Flushed(0, FIRST, Consumed(S0, 1), S1)]),
    Db(BEFORE, map[], map[]),
    Db(BEFORE, map[1 := 2], map[2 := Found(1, SECOND)]),
    Db(BEFORE, map[0 := 3, 1 := 2], map[2 := Found(1, SECOND), 3 := Found(0, REPLAY)]),
    Db(BEFORE, map[0 := 3, 1 := 2], map[2 := Found(1, SECOND), 3 := Named("f", 3)]),
    Db(BEFORE, map[0 := 3, 1 := 2], map[2 := Found(1, SECOND), 3 := Sweeping("f", 3, 2)]),
    Db(BEFORE, map[0 := 3, 1 := 2],
       map[2 := Flushed(1, SECOND, Consumed(S1, 2), S2), 3 := Sweeping("f", 3, 2)]),
    Db(AFTER, map[0 := 3], map[3 := Sweeping("f", 3, 2)]),
    Db(AFTER, map[0 := 3, 1 := 3], map[3 := Sweeping("f", 3, 2)]),
    Db(END, map[], map[])]

  lemma NamesAreNotBlank()
    ensures !Blank("f") && !Blank("u") && !Blank("t")
    ensures !Blank("s0") && !Blank("s1") && !Blank("s2") && !Blank("s3")
    ensures !Blank("d0") && !Blank("d1") && !Blank("d2") && !Blank("d3")
  {
    assert !IsSpace("f"[0]) && !IsSpace("u"[0]) && !IsSpace("t"[0]) && !IsSpace("s"[0]) && !IsSpace("d"[0]);
    assert "s0"[0] == "s1"[0] == "s2"[0] == "s3"[0] == 's' && "d0"[0] == "d1"[0] == "d2"[0] == "d3"[0] == 'd';
  }

  lemma NamesDiffer()
    ensures "s0" != "s1" && "s0" != "s2" && "s1" != "s2" && "d0" != "d1" && "d0" != "d2" && "d1" != "d2"
  {
    assert "s0"[1] == '0' && "s1"[1] == '1' && "s2"[1] == '2' && "d0"[1] == '0' && "d1"[1] == '1' && "d2"[1] == '2';
  }

  lemma SignsIn()
    ensures Enabled(STATES[0], OPS[0], LIMITS) && Apply(STATES[0], OPS[0], LIMITS) == STATES[1]
  {
    NamesAreNotBlank();
    assert IssuedWith(S0, 10, 100);
  }

  lemma RotatesFirst(i: nat)
    requires 1 <= i <= 3
    ensures Enabled(STATES[i], OPS[i], LIMITS) && Apply(STATES[i], OPS[i], LIMITS) == STATES[i + 1]
  {
    NamesAreNotBlank();
    NamesDiffer();
    assert FindDigest([S0], "d0") == Some(0);
    assert Outcome(S0, FIRST) == Success((Consumed(S0, 1), S1));
    assert [S0][0 := Consumed(S0, 1)] + [S1] == BEFORE;
  }

  lemma FindsInBefore()
    ensures FindDigest(BEFORE, "d0") == Some(0) && FindDigest(BEFORE, "d1") == Some(1)
  {
    NamesDiffer();
    assert BEFORE[..1] == [Consumed(S0, 1)];
  }

  lemma Interleaves(i: nat)
    requires 4 <= i <= 7
    ensures Enabled(STATES[i], OPS[i], LIMITS) && Apply(STATES[i], OPS[i], LIMITS) == STATES[i + 1]
  {
    FindsInBefore();
    assert Outcome(Consumed(S0, 1), REPLAY) == Failure(Replay("f"));
  }

  lemma RotatesSecond(i: nat)
    requires 8 <= i <= 9
    ensures Enabled(STATES[i], OPS[i], LIMITS) && Apply(STATES[i], OPS[i], LIMITS) == STATES[i + 1]
  {
    NamesAreNotBlank();
    NamesDiffer();
    assert Outcome(S1, SECOND) == Success((Consumed(S1, 2), S2));
    assert CanInsert(BEFORE[1 := Consumed(S1, 2)], S2);
    assert BEFORE[1 := Consumed(S1, 2)] + [S2] == AFTER;
  }

  lemma SweepsTooEarly(i: nat)
    requires 10 <= i <= 11
    ensures Enabled(STATES[i], OPS[i], LIMITS) && Apply(STATES[i], OPS[i], LIMITS) == STATES[i + 1]
  {
    assert Sweep(AFTER, "f", 3, 2) == END;
  }

  lemma {:induction false} OneFamily(rows: Rows, f: string)
    requires forall k :: 0 <= k < |rows| ==> rows[k].familyId == f
    ensures Family(rows, f) == rows
  {
    if rows != [] {
      OneFamily(rows[..|rows| - 1], f);
      assert rows == rows[..|rows| - 1] + [rows[|rows| - 1]];
    }
  }

  lemma WitnessSteps(i: nat)
    requires i < |OPS|
    ensures Enabled(STATES[i], OPS[i], LIMITS) && Apply(STATES[i], OPS[i], LIMITS) == STATES[i + 1]
  {
    if i == 0 {
      SignsIn();
    } else if i <= 3 {
      RotatesFirst(i);
    } else if i <= 7 {
      Interleaves(i);
    } else if i <= 9 {
      RotatesSecond(i);
    } else {
      SweepsTooEarly(i);
    }
  }

  lemma WitnessIsRun()
    ensures IsRun(STATES, OPS, LIMITS)
  {
    forall i | 0 <= i < |OPS| ensures Steps(STATES, OPS, LIMITS, i) { WitnessSteps(i); }
  }

  lemma LateReplacement()
    ensures Family(AFTER[2..], "f") == [S2]
    ensures Family(AFTER, "f") == AFTER && !AllRevoked(AFTER)
  {
    OneFamily(AFTER, "f");
    assert AFTER[2..] == [S2];
    OneFamily([S2], "f");
    assert AFTER[2].revokedAt.None?;
  }

  lemma WitnessMisses()
    ensures Misses(STATES[11], OPS[11], "f")
  {
    LateReplacement();
    var db := STATES[11];
    assert OPS[11] == Commit(3) && db.txs[3] == Sweeping("f", 3, 2) && db.rows == AFTER;
  }

  /**
   The condition can fail: in this run the replay commits, two sessions of the family are revoked, and the
   third, the replacement of the concurrent rotation, can still be used.
   */
  lemma ReplayMissesConcurrentReplacement()
    ensures IsRun(STATES, OPS, LIMITS)
    ensures Misses(STATES[11], OPS[11], "f")
    ensures Family(STATES[12].rows, "f") == END
    ensures END[0].revokedAt == END[1].revokedAt == Some(3) && IsActive(END[2], 3)
  {
    WitnessIsRun();
    WitnessMisses();
    OneFamily(END, "f");
  }
}
