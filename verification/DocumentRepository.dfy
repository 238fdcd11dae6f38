/** `SqlAlchemyDocumentRepository.create` and `append`, updating the tables in place. */
module DocumentRepository {
  import opened Common
  import opened DocumentModel
  import opened DocumentTable

  class Repository {
    var documents: map<Id, Stamp>
    var rows: seq<Version>

    constructor ()
      ensures View() == Tables(map[], []) && Inv(View())
    {
      documents, rows := map[], [];
    }

    function View(): Tables
      reads this
    {
      Tables(documents, rows)
    }

    method Create(p: Prepared) returns (r: Result<Version, RepositoryError>)
      requires Inv(View())
      modifies this
      ensures r == CreateOutcome(old(View()), p)
      ensures View() == if r.Success? then WithCreated(old(View()), r.value) else old(View())
      ensures Inv(View())
    {
      r := ToVersion(p, 1);
      if r.Failure? { return; }
      var version := r.value;
      if version.documentId in documents { return Failure(OtherConflict); }
      var fault := InsertFault(rows, version);
      if fault.Some? { return Failure(fault.value); }
      CreateKeepsInv(View(), p);
      documents := documents[version.documentId := version.uploadedAt];
      rows := rows + [version];
    }

    method Append(d: Id, p: Prepared) returns (r: Result<Version, RepositoryError>)
      requires Inv(View())
      modifies this
      ensures r == AppendOutcome(old(View()), d, p)
      ensures View() == if r.Success? then WithAppended(old(View()), r.value) else old(View())
      ensures Inv(View())
    {
      if p.documentId != d { return Failure(WrongTarget); }
      if d !in documents { return Failure(NotFound); }
      if HashKnown(rows, d, p.fileHash) { return Failure(DuplicateContent); }
      var latest := MaxVersion(rows, d);
      if latest.None? { return Failure(NoFirstVersion); }
      r := ToVersion(p, latest.value + 1);
      if r.Failure? { return; }
      var fault := InsertFault(rows, r.value);
      if fault.Some? { return Failure(fault.value); }
      AppendKeepsInv(View(), d, p);
      rows := rows + [r.value];
    }
  }
}
