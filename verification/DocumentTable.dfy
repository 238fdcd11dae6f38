/**
 The document tables and the statements of `SqlAlchemyDocumentRepository`
 (modules/documents/infrastructure/repository.py:34-87), and why they implement the pure aggregate.
 Rows are listed in the order in which they were committed; the queries do not depend on that order.
 */
module DocumentTable {
  import opened Common
  import opened DocumentModel

  /** Everything about a version except its number. */
  datatype Prepared = Prepared(
    id: Id,
    documentId: Id,
    name: string,
    fileUrl: string,
    pdfUrl: string,
    format: Format,
    fileHash: string,
    pdfHash: string,
    uploadedAt: Stamp,
    expiresAt: Option<Stamp>,
    pageCount: int,
    parserVersion: string,
    durationMs: int)

  datatype RepositoryError =
    | WrongTarget
    | NotFound
    | DuplicateContent
    | NoFirstVersion
    | Invalid(fault: VersionFault)
    | VersionConflict
    | OtherConflict

  function Numbered(p: Prepared, version: int): Version {
    Version(p.id, p.documentId, p.name, p.fileUrl, p.pdfUrl, p.format, p.fileHash, p.pdfHash, version,
            p.uploadedAt, p.expiresAt, p.pageCount, p.parserVersion, p.durationMs)
  }

  function ToVersion(p: Prepared, version: int): Result<Version, RepositoryError> {
    var fault := Fault(Numbered(p, version));
    if fault.Some? then Failure(Invalid(fault.value)) else Success(Numbered(p, version))
  }

  /** The rows of one document. */
  function RowsOf(rows: seq<Version>, d: Id): seq<Version> {
    if rows == [] then []
    else
      var row := rows[|rows| - 1];
      RowsOf(rows[..|rows| - 1], d) + if row.documentId == d then [row] else []
  }

  /** SELECT .. WHERE document_id = d AND file_hash = hash */
  predicate HashKnown(rows: seq<Version>, d: Id, hash: string) {
    exists i :: 0 <= i < |rows| && rows[i].documentId == d && rows[i].fileHash == hash
  }

  predicate IdKnown(rows: seq<Version>, id: Id) {
    exists i :: 0 <= i < |rows| && rows[i].id == id
  }

  predicate NumberKnown(rows: seq<Version>, d: Id, version: int) {
    exists i :: 0 <= i < |rows| && rows[i].documentId == d && rows[i].version == version
  }

  /** SELECT max(version) WHERE document_id = d */
  function MaxVersion(rows: seq<Version>, d: Id): Option<int> {
    if rows == [] then None
    else
      var row := rows[|rows| - 1];
      var earlier := MaxVersion(rows[..|rows| - 1], d);
      if row.documentId != d then earlier
      else if earlier.None? || row.version > earlier.value then Some(row.version)
      else earlier
  }

  /** The unique constraint that an INSERT of the row violates, as the repository translates it. */
  function InsertFault(rows: seq<Version>, v: Version): Option<RepositoryError> {
    if IdKnown(rows, v.id) then Some(OtherConflict)
    else if HashKnown(rows, v.documentId, v.fileHash) then Some(DuplicateContent)
    else if NumberKnown(rows, v.documentId, v.version) then Some(VersionConflict)
    else None
  }

  datatype Tables = Tables(documents: map<Id, Stamp>, rows: seq<Version>)

  function CreateOutcome(t: Tables, p: Prepared): Result<Version, RepositoryError> {
    var v := ToVersion(p, 1);
    if v.Failure? then v
    else if p.documentId in t.documents then Failure(OtherConflict)
    else
      var fault := InsertFault(t.rows, v.value);
      if fault.Some? then Failure(fault.value) else v
  }

  function AppendOutcome(t: Tables, d: Id, p: Prepared): Result<Version, RepositoryError> {
    if p.documentId != d then Failure(WrongTarget)
    else if d !in t.documents then Failure(NotFound)
    else if HashKnown(t.rows, d, p.fileHash) then Failure(DuplicateContent)
    else
      var latest := MaxVersion(t.rows, d);
      if latest.None? then Failure(NoFirstVersion)
      else
        var v := ToVersion(p, latest.value + 1);
        if v.Failure? then v
        else
          var fault := InsertFault(t.rows, v.value);
          if fault.Some? then Failure(fault.value) else v
  }

  function WithCreated(t: Tables, v: Version): Tables {
    Tables(t.documents[v.documentId := v.uploadedAt], t.rows + [v])
  }

  function WithAppended(t: Tables, v: Version): Tables {
    t.(rows := t.rows + [v])
  }

  // ----- the invariant of the tables -----

  ghost predicate DistinctIds(rows: seq<Version>) {
    forall i, j :: 0 <= i < j < |rows| ==> rows[i].id != rows[j].id
  }

  /** Every document has a valid, non-empty history, and every row belongs to a document. */
  ghost predicate Inv(t: Tables) {
    && (forall d :: d in t.documents ==> RowsOf(t.rows, d) != [] && ValidHistory(d, RowsOf(t.rows, d)))
    && (forall i :: 0 <= i < |t.rows| ==> t.rows[i].documentId in t.documents)
    && DistinctIds(t.rows)
  }

  lemma RowsOfSnoc(rows: seq<Version>, v: Version, d: Id)
    ensures RowsOf(rows + [v], d) == if v.documentId == d then RowsOf(rows, d) + [v] else RowsOf(rows, d)
  {
    assert (rows + [v])[..|rows|] == rows;
  }

  lemma {:induction false} RowsOfMembers(rows: seq<Version>, d: Id)
    ensures forall r :: r in RowsOf(rows, d) <==> r in rows && r.documentId == d
  {
    if rows != [] {
      var n := |rows| - 1;
      RowsOfMembers(rows[..n], d);
      assert rows == rows[..n] + [rows[n]];
    }
  }

  /** The largest version number of a valid history is how many versions it has. */
  lemma {:induction false} MaxVersionIsCount(rows: seq<Version>, d: Id)
    requires ValidHistory(d, RowsOf(rows, d))
    ensures MaxVersion(rows, d) == if RowsOf(rows, d) == [] then None else Some(|RowsOf(rows, d)|)
  {
    if rows != [] {
      var n := |rows| - 1;
      var all, fewer := RowsOf(rows, d), RowsOf(rows[..n], d);
      assert fewer == all[..|fewer|];
      assert rows[n].documentId == d ==> all[|fewer|] == rows[n];
      MaxVersionIsCount(rows[..n], d);
    }
  }

  lemma HashKnownInHistory(rows: seq<Version>, d: Id, hash: string)
    ensures HashKnown(rows, d, hash)
       <==> HasHash(RowsOf(rows, d), hash)
  {
    RowsOfMembers(rows, d);
    var history := RowsOf(rows, d);
    if i :| 0 <= i < |rows| && rows[i].documentId == d && rows[i].fileHash == hash {
      assert rows[i] in history;
      var k :| 0 <= k < |history| && history[k] == rows[i];
    }
    if i :| 0 <= i < |history| && history[i].fileHash == hash {
      assert history[i] in history;
      var k :| 0 <= k < |rows| && rows[k] == history[i];
      assert rows[k].documentId == d;
    }
  }

  lemma NumberKnownInHistory(rows: seq<Version>, d: Id, version: int)
    requires ValidHistory(d, RowsOf(rows, d))
    ensures NumberKnown(rows, d, version) ==> 1 <= version <= |RowsOf(rows, d)|
  {
    RowsOfMembers(rows, d);
    if i :| 0 <= i < |rows| && rows[i].documentId == d && rows[i].version == version {
      assert rows[i] in RowsOf(rows, d);
    }
  }

  ghost predicate AppendsLikeTheAggregate(t: Tables, d: Id, p: Prepared, outcome: Result<Version, RepositoryError>) {
    var history := RowsOf(t.rows, d);
    var next := Numbered(p, |history| + 1);
    var accepted := Fault(next).None? && ValidHistory(d, history + [next]) && !IdKnown(t.rows, p.id);
    var duplicate := HasHash(history, p.fileHash);
    && (outcome.Success? <==> accepted)
    && (outcome.Success? ==> outcome.value == next)
    && (outcome == Failure(DuplicateContent) <==> duplicate)
    && outcome != Failure(VersionConflict)
    && outcome != Failure(NoFirstVersion)
  }

  /**
   Refinement. On tables that satisfy the invariant, `append` is `Document.append`: it succeeds exactly
   when the prepared facts make a valid version n + 1 whose addition the aggregate accepts (and the row id
   is new), and it then inserts that version. The version-sequence conflict and the missing first version
   never occur; content already in the history is always reported as a duplicate.
   */
  lemma AppendRefinesAggregate(t: Tables, d: Id, p: Prepared)
    requires Inv(t) && d in t.documents && p.documentId == d
    ensures AppendsLikeTheAggregate(t, d, p, AppendOutcome(t, d, p))
  {
    var history := RowsOf(t.rows, d);
    var next := Numbered(p, |history| + 1);
    MaxVersionIsCount(t.rows, d);
    HashKnownInHistory(t.rows, d, p.fileHash);
    NumberKnownInHistory(t.rows, d, |history| + 1);
    AppendAccepts(d, history, next);
  }

  /** What an append reports, case by case, in the order of its checks. */
  lemma AppendErrorsExactly(t: Tables, d: Id, p: Prepared)
    requires Inv(t)
    ensures var outcome := AppendOutcome(t, d, p);
      && (outcome == Failure(WrongTarget) <==> p.documentId != d)
      && (outcome == Failure(NotFound) <==> p.documentId == d && d !in t.documents)
      && (outcome == Failure(DuplicateContent) <==>
            p.documentId == d && d in t.documents && HasHash(RowsOf(t.rows, d), p.fileHash))
      && (outcome == Failure(OtherConflict) <==>
            && p.documentId == d && d in t.documents && !HasHash(RowsOf(t.rows, d), p.fileHash)
            && Fault(Numbered(p, |RowsOf(t.rows, d)| + 1)).None? && IdKnown(t.rows, p.id))
      && outcome != Failure(VersionConflict) && outcome != Failure(NoFirstVersion)
  {
    if p.documentId == d && d in t.documents {
      MaxVersionIsCount(t.rows, d);
      HashKnownInHistory(t.rows, d, p.fileHash);
      NumberKnownInHistory(t.rows, d, |RowsOf(t.rows, d)| + 1);
    }
  }

  /** The numbered version has the facts unchanged. */
  lemma NumberedKeepsFacts(p: Prepared, n: int)
    ensures var v := Numbered(p, n);
      && v.version == n && v.id == p.id && v.documentId == p.documentId && v.name == p.name
      && v.fileUrl == p.fileUrl && v.fileHash == p.fileHash && v.pdfUrl == p.pdfUrl && v.pdfHash == p.pdfHash
      && v.format == p.format && v.uploadedAt == p.uploadedAt && v.expiresAt == p.expiresAt
      && v.pageCount == p.pageCount && v.parserVersion == p.parserVersion && v.durationMs == p.durationMs
  {
  }

  /** Adding a row changes the history of its own document and of no other. */
  lemma HistoriesAreSeparate(rows: seq<Version>, v: Version)
    ensures forall d :: RowsOf(rows + [v], d) == if d == v.documentId then RowsOf(rows, d) + [v] else RowsOf(rows, d)
  {
    forall d ensures RowsOf(rows + [v], d) == if d == v.documentId then RowsOf(rows, d) + [v] else RowsOf(rows, d) {
      RowsOfSnoc(rows, v, d);
    }
  }

  lemma AddRowKeepsInv(t: Tables, documents: map<Id, Stamp>, v: Version)
    requires Inv(t) && documents.Keys == t.documents.Keys + {v.documentId}
    requires !IdKnown(t.rows, v.id)
    requires ValidHistory(v.documentId, RowsOf(t.rows, v.documentId) + [v])
    ensures Inv(Tables(documents, t.rows + [v]))
  {
    HistoriesAreSeparate(t.rows, v);
    var rows := t.rows + [v];
    forall i, j | 0 <= i < j < |rows| ensures rows[i].id != rows[j].id {
      if j == |t.rows| { assert t.rows[i].id != v.id; }
    }
  }

  /** A successful append keeps the invariant. */
  lemma AppendKeepsInv(t: Tables, d: Id, p: Prepared)
    requires Inv(t) && AppendOutcome(t, d, p).Success?
    ensures Inv(WithAppended(t, AppendOutcome(t, d, p).value))
  {
    AppendRefinesAggregate(t, d, p);
    AddRowKeepsInv(t, t.documents, AppendOutcome(t, d, p).value);
  }

  lemma SomeRow(rows: seq<Version>, d: Id)
    requires RowsOf(rows, d) != []
    ensures exists i :: 0 <= i < |rows| && rows[i].documentId == d
  {
    RowsOfMembers(rows, d);
    assert RowsOf(rows, d)[0] in RowsOf(rows, d);
  }

  lemma NoRowsWithoutDocument(t: Tables, d: Id)
    requires Inv(t) && d !in t.documents
    ensures RowsOf(t.rows, d) == []
  {
    if RowsOf(t.rows, d) != [] { SomeRow(t.rows, d); }
  }

  /** Creation succeeds exactly for valid first versions of new documents. */
  lemma CreateAccepts(t: Tables, p: Prepared)
    requires Inv(t)
    ensures CreateOutcome(t, p).Success?
       <==> Fault(Numbered(p, 1)).None? && p.documentId !in t.documents && !IdKnown(t.rows, p.id)
  {
    if p.documentId !in t.documents {
      NoRowsWithoutDocument(t, p.documentId);
      HashKnownInHistory(t.rows, p.documentId, p.fileHash);
      NumberKnownInHistory(t.rows, p.documentId, 1);
    }
  }

  /** What a creation reports, case by case. */
  lemma CreateErrorsExactly(t: Tables, p: Prepared)
    requires Inv(t)
    ensures var outcome := CreateOutcome(t, p);
      && (outcome == Failure(OtherConflict) <==>
            Fault(Numbered(p, 1)).None? && (p.documentId in t.documents || IdKnown(t.rows, p.id)))
      && (outcome.Failure? && outcome != Failure(OtherConflict) ==>
            Fault(Numbered(p, 1)).Some? && outcome == Failure(Invalid(Fault(Numbered(p, 1)).value)))
  {
    CreateAccepts(t, p);
    if p.documentId !in t.documents {
      NoRowsWithoutDocument(t, p.documentId);
      HashKnownInHistory(t.rows, p.documentId, p.fileHash);
      NumberKnownInHistory(t.rows, p.documentId, 1);
    }
  }

  /** A successful creation keeps the invariant and starts a history of one version. */
  lemma CreateKeepsInv(t: Tables, p: Prepared)
    requires Inv(t) && CreateOutcome(t, p).Success?
    ensures Inv(WithCreated(t, CreateOutcome(t, p).value))
    ensures RowsOf(WithCreated(t, CreateOutcome(t, p).value).rows, p.documentId) == [Numbered(p, 1)]
    ensures WithCreated(t, CreateOutcome(t, p).value).documents == t.documents[p.documentId := p.uploadedAt]
  {
    NoRowsWithoutDocument(t, p.documentId);
    HistoriesAreSeparate(t.rows, CreateOutcome(t, p).value);
    AddRowKeepsInv(t, WithCreated(t, CreateOutcome(t, p).value).documents, CreateOutcome(t, p).value);
  }
}
