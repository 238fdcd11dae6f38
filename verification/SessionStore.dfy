/**
 The table of refresh sessions and its atomic operations (modules/identity/infrastructure/repository.py:83-97,
 167-232, 281-303). Rows are listed in insertion order; lookups go by the unique digest or session id.
 */
module SessionStore {
  import opened Common
  import opened RefreshSession

  type Rows = seq<Session>

  datatype Status = Rotated(session: Session) | Unusable | ReplayRevoked

  datatype StoreError = BadArgument | UniqueViolation

  /** SELECT .. WHERE token_digest = digest: the position of the row. */
  function FindDigest(rows: Rows, digest: string): (r: Option<nat>)
    ensures r.Some? ==> r.value < |rows| && rows[r.value].digest == digest
    ensures r.None? ==> forall i :: 0 <= i < |rows| ==> rows[i].digest != digest
  {
    if rows == [] then None
    else if rows[|rows| - 1].digest == digest then Some(|rows| - 1)
    else FindDigest(rows[..|rows| - 1], digest)
  }

  function FindSession(rows: Rows, sessionId: string): (r: Option<Session>)
    ensures r.Some? ==> r.value in rows && r.value.sessionId == sessionId
    ensures r.None? ==> forall i :: 0 <= i < |rows| ==> rows[i].sessionId != sessionId
  {
    if rows == [] then None
    else if rows[|rows| - 1].sessionId == sessionId then Some(rows[|rows| - 1])
    else FindSession(rows[..|rows| - 1], sessionId)
  }

  /** UPDATE .. SET revoked_at = now WHERE family_id = family AND revoked_at IS NULL */
  function RevokeFamily(rows: Rows, family: string, now: Time): Rows {
    seq(|rows|, i requires 0 <= i < |rows| => if rows[i].familyId == family then Revoke(rows[i], now) else rows[i])
  }

  /** The primary key and the unique digest. */
  predicate CanInsert(rows: Rows, s: Session) {
    forall i :: 0 <= i < |rows| ==> rows[i].sessionId != s.sessionId && rows[i].digest != s.digest
  }

  /** `add_refresh_session` and the flush behind it. */
  function Add(rows: Rows, s: Session): Result<Rows, StoreError> {
    if CanInsert(rows, s) then Success(rows + [s]) else Failure(UniqueViolation)
  }

  /** `rotate_refresh_session` and the flush behind it: the table afterwards and the reported status. */
  function RotateByDigest(rows: Rows, presented: string, newId: string, newDigest: string, now: Time, idleTtl: int)
    : Result<(Rows, Status), StoreError>
  {
    var found := FindDigest(rows, presented);
    if found.None? then Success((rows, Unusable))
    else
      var current := rows[found.value];
      match Rotate(current, presented, newId, newDigest, now, idleTtl)
      case Failure(Replay(family)) => Success((RevokeFamily(rows, family, now), ReplayRevoked))
      case Failure(Invalid) => Success((rows, Unusable))
      case Failure(BadValue) => Failure(BadArgument)
      case Success((consumed, replacement)) =>
        var added := Add(rows[found.value := consumed], replacement);
        if added.Failure? then Failure(added.error) else Success((added.value, Rotated(replacement)))
  }

  /** `revoke_refresh_family_by_digest` */
  function RevokeByDigest(rows: Rows, digest: string, now: Time): (Rows, bool) {
    var found := FindDigest(rows, digest);
    if found.None? then (rows, false) else (RevokeFamily(rows, rows[found.value].familyId, now), true)
  }

  class Store {
    var rows: Rows

    constructor ()
      ensures rows == []
    {
      rows := [];
    }

    method AddRefreshSession(s: Session) returns (error: Option<StoreError>)
      modifies this
      ensures error == if Add(old(rows), s).Success? then None else Some(Add(old(rows), s).error)
      ensures rows == if error.None? then Add(old(rows), s).value else old(rows)
    {
      if !CanInsert(rows, s) { return Some(UniqueViolation); }
      rows := rows + [s];
      error := None;
    }

    /** When it fails, what it has changed is left for the caller's transaction to roll back. */
    method RotateRefreshSession(presented: string, newId: string, newDigest: string, now: Time, idleTtl: int)
      returns (r: Result<Status, StoreError>)
      modifies this
      ensures match RotateByDigest(old(rows), presented, newId, newDigest, now, idleTtl)
        case Success((after, status)) => rows == after && r == Success(status)
        case Failure(error) => r == Failure(error)
    {
      var found := FindDigest(rows, presented);
      if found.None? { return Success(Unusable); }
      var current := rows[found.value];
      match Rotate(current, presented, newId, newDigest, now, idleTtl)
      case Failure(Replay(family)) =>
        rows := RevokeFamily(rows, family, now);
        r := Success(ReplayRevoked);
      case Failure(Invalid) =>
        r := Success(Unusable);
      case Failure(BadValue) =>
        r := Failure(BadArgument);
      case Success((consumed, replacement)) =>
        rows := rows[found.value := consumed];
        var error := AddRefreshSession(replacement);
        r := if error.Some? then Failure(error.value) else Success(Rotated(replacement));
    }

    method RevokeRefreshFamilyByDigest(digest: string, now: Time) returns (known: bool)
      modifies this
      ensures (rows, known) == RevokeByDigest(old(rows), digest, now)
    {
      var found := FindDigest(rows, digest);
      if found.None? { return false; }
      rows := RevokeFamily(rows, rows[found.value].familyId, now);
      known := true;
    }
  }
}
