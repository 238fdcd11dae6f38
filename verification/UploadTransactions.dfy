/**
 Concurrent uploads, interleaved at every stat and put of the object store and at every statement of the
 repository (modules/documents/application/upload.py:63-110, infrastructure/object_store.py:52-75,
 infrastructure/repository.py:34-87). The object store has no locks: two uploads may both find an object
 missing and both put it. What the stores and the clock answer is whatever happens; `Upload` says the rest.
 */
module UploadTransactions {
  import opened Common
  import opened DocumentModel
  import opened DocumentTable
  import opened DocumentUpload
  import Documents = DocumentTransactions

  type TxId = nat

  // How far an upload has got.
  datatype Phase =
    | Accepted(u: Upload, staged: Staged)                        // checked, nothing stored
    | SourceMissing(u: Upload, staged: Staged)                   // stat found no source object
    | SourceStored(u: Upload, staged: Staged, fileUrl: string)   // of a document that is not a PDF
    | PdfMissing(u: Upload, staged: Staged, fileUrl: string)     // stat found no normalized PDF
    | Ready(u: Upload, p: Prepared)                              // both stored, repository not called yet
    | Recording(u: Upload, p: Prepared)                          // its transaction has begun

  datatype System = System(objects: Objects, db: Documents.Db, uploads: map<TxId, Phase>)

  const EMPTY := System(map[], Documents.EMPTY, map[])

  datatype Op =
    | Accept(tx: TxId, u: Upload)
    | Stat(tx: TxId)
    | Put(tx: TxId)
    | FailPut(tx: TxId, stored: bool)
    | GiveUp(tx: TxId)
    | Record(statement: Documents.Op)

  predicate Storing(phase: Phase) {
    phase.SourceMissing? || phase.PdfMissing?
  }

  predicate Asking(phase: Phase) {
    phase.Accepted? || phase.SourceStored?
  }

  /** The statement calls the repository as `handle` does. */
  predicate Begins(phase: Phase, statement: Documents.Op) {
    && phase.Ready?
    && match statement
      case SelectForUpdate(_, d, p) => phase.u.documentId == Some(d) && p == phase.p
      case Create(_, p) => phase.u.documentId == None && p == phase.p
      case _ => false
  }

  predicate Continues(phase: Phase, statement: Documents.Op) {
    phase.Recording? && !statement.SelectForUpdate? && !statement.Create?
  }

  ghost predicate Enabled(cfg: Config, y: System, op: Op) {
    match op
    case Accept(tx, u) => tx !in y.uploads && Rejection(cfg, u).None?
    case Stat(tx) => tx in y.uploads && Asking(y.uploads[tx])
    case Put(tx) => tx in y.uploads && Storing(y.uploads[tx])
    case FailPut(tx, _) => tx in y.uploads && Storing(y.uploads[tx])
    case GiveUp(tx) => tx in y.uploads && !y.uploads[tx].Recording?
    case Record(statement) =>
      && statement.tx in y.uploads
      && (Begins(y.uploads[statement.tx], statement) || Continues(y.uploads[statement.tx], statement))
      && Documents.Enabled(y.db, statement)
  }

  /** What the phase is about to store or to look for. */
  function Content(phase: Phase): Bytes
    requires Asking(phase) || Storing(phase)
  {
    if phase.Accepted? || phase.SourceMissing? then phase.staged.content else CanonicalPdf(phase.u, phase.staged)
  }

  function Key(cfg: Config, phase: Phase): string
    requires Asking(phase) || Storing(phase)
    requires IsSha256(cfg.digest(Content(phase)))
  {
    KeyOf(cfg.digest(Content(phase)))
  }

  /** The object is there: on to the next one, or to the repository. */
  function Advance(cfg: Config, phase: Phase): (r: Phase)
    requires Asking(phase) || Storing(phase)
    requires IsSha256(cfg.digest(Content(phase))) && phase.u.format.Success? && phase.u.pages.Success?
    ensures r.u == phase.u && (r.Ready? || r.SourceStored?)
  {
    var url := Uri(cfg.bucket, Key(cfg, phase));
    var pdfHash := cfg.digest(CanonicalPdf(phase.u, phase.staged));
    if phase.SourceStored? || phase.PdfMissing? then
      Ready(phase.u, Facts(phase.u, phase.staged, phase.fileUrl, url, pdfHash))
    else if phase.u.format.value == Pdf then
      Ready(phase.u, Facts(phase.u, phase.staged, url, url, pdfHash))
    else SourceStored(phase.u, phase.staged, url)
  }

  function Missing(phase: Phase): Phase
    requires Asking(phase)
  {
    if phase.Accepted? then SourceMissing(phase.u, phase.staged) else PdfMissing(phase.u, phase.staged, phase.fileUrl)
  }

  /** What stat makes of a phase; a stored object of another size is an error. */
  function Asked(cfg: Config, objects: Objects, phase: Phase): Option<Phase>
    requires Asking(phase) && IsSha256(cfg.digest(Content(phase)))
    requires phase.u.format.Success? && phase.u.pages.Success?
  {
    if Key(cfg, phase) !in objects then Some(Missing(phase))
    else if |objects[Key(cfg, phase)]| != |Content(phase)| then None
    else Some(Advance(cfg, phase))
  }

  /** Digests are 64 digits, and uploads in progress have passed the checks. */
  ghost predicate WellKept(cfg: Config, y: System) {
    && Hexadecimal(cfg.digest)
    && forall tx :: tx in y.uploads ==> Rejection(cfg, y.uploads[tx].u).None?
  }

  ghost function AfterStat(cfg: Config, y: System, tx: TxId): (after: System)
    requires WellKept(cfg, y) && tx in y.uploads && Asking(y.uploads[tx])
    ensures WellKept(cfg, after)
  {
    var asked := Asked(cfg, y.objects, y.uploads[tx]);
    y.(uploads := if asked.Some? then y.uploads[tx := asked.value] else y.uploads - {tx})
  }

  ghost function AfterPut(cfg: Config, y: System, tx: TxId): (after: System)
    requires WellKept(cfg, y) && tx in y.uploads && Storing(y.uploads[tx])
    ensures WellKept(cfg, after)
  {
    var phase := y.uploads[tx];
    y.(objects := y.objects[Key(cfg, phase) := Content(phase)], uploads := y.uploads[tx := Advance(cfg, phase)])
  }

  ghost function Apply(cfg: Config, y: System, op: Op): System
    requires WellKept(cfg, y) && Enabled(cfg, y, op)
  {
    match op
    case Accept(tx, u) => y.(uploads := y.uploads[tx := Accepted(u, Stage(cfg, u.source).value)])
    case Stat(tx) => AfterStat(cfg, y, tx)
    case Put(tx) => AfterPut(cfg, y, tx)
    case FailPut(tx, stored) =>
      var phase := y.uploads[tx];
      y.(objects := if stored then y.objects[Key(cfg, phase) := Content(phase)] else y.objects,
         uploads := y.uploads - {tx})
    case GiveUp(tx) => y.(uploads := y.uploads - {tx})
    case Record(statement) =>
      var phase := y.uploads[statement.tx];
      var db := Documents.Apply(y.db, statement);
      y.(db := db,
         uploads := if statement.tx in db.txs then y.uploads[statement.tx := Recording(phase.u, phase.p)]
                    else y.uploads - {statement.tx})
  }

  // ----- the invariant -----

  ghost predicate PreparedSound(cfg: Config, objects: Objects, u: Upload, p: Prepared) {
    && Backed(cfg, objects, p.fileUrl, p.fileHash)
    && Backed(cfg, objects, p.pdfUrl, p.pdfHash)
    && ExpiryIsItsOnlyFault(u, p)
  }

  ghost predicate PhaseSound(cfg: Config, objects: Objects, phase: Phase) {
    && Rejection(cfg, phase.u).None?
    && match phase
      case Ready(u, p) => PreparedSound(cfg, objects, u, p)
      case Recording(u, p) => PreparedSound(cfg, objects, u, p)
      case Accepted(u, staged) => IsStaged(cfg, u, staged)
      case SourceMissing(u, staged) => IsStaged(cfg, u, staged)
      case SourceStored(u, staged, url) => SourceSound(cfg, objects, u, staged, url)
      case PdfMissing(u, staged, url) => SourceSound(cfg, objects, u, staged, url)
  }

  ghost predicate IsStaged(cfg: Config, u: Upload, staged: Staged) {
    Stage(cfg, u.source) == Success(staged)
  }

  ghost predicate SourceSound(cfg: Config, objects: Objects, u: Upload, staged: Staged, url: string) {
    && IsStaged(cfg, u, staged)
    && u.format.Success? && u.format.value != Pdf
    && Backed(cfg, objects, url, staged.sha256)
  }

  ghost predicate RowsBacked(cfg: Config, objects: Objects, rows: seq<Version>) {
    forall i :: 0 <= i < |rows| ==> RowBacked(cfg, objects, rows[i])
  }

  ghost predicate PhasesSound(cfg: Config, y: System) {
    forall tx :: tx in y.uploads ==> PhaseSound(cfg, y.objects, y.uploads[tx])
  }

  /** Every open transaction records what its upload has prepared. */
  ghost predicate Recorded(y: System) {
    forall tx :: tx in y.db.txs ==>
      tx in y.uploads && y.uploads[tx].Recording? && y.db.txs[tx].p == y.uploads[tx].p
  }

  ghost predicate Inv(cfg: Config, y: System) {
    && WellKept(cfg, y)
    && Addressed(cfg.digest, y.objects)
    && Documents.Inv(y.db)
    && RowsBacked(cfg, y.objects, y.db.t.rows)
    && PhasesSound(cfg, y)
    && Recorded(y)
  }

  // ----- the object store only ever gains -----

  ghost predicate Keeps(before: Objects, after: Objects) {
    before.Keys <= after.Keys
  }

  lemma StoredUnderItsDigest(cfg: Config, objects: Objects, sha256: string)
    requires Hexadecimal(cfg.digest) && Addressed(cfg.digest, objects)
    requires IsSha256(sha256) && Lower(sha256) == sha256 && KeyOf(sha256) in objects
    ensures cfg.digest(objects[KeyOf(sha256)]) == sha256
  {
    KeysAreInjective(cfg.digest(objects[KeyOf(sha256)]), sha256);
  }

  lemma BackedSurvives(cfg: Config, before: Objects, after: Objects, url: string, sha256: string)
    requires Hexadecimal(cfg.digest) && Addressed(cfg.digest, after) && Keeps(before, after)
    requires Backed(cfg, before, url, sha256)
    ensures Backed(cfg, after, url, sha256)
  {
    StoredUnderItsDigest(cfg, after, sha256);
  }

  lemma PhaseSurvives(cfg: Config, before: Objects, after: Objects, phase: Phase)
    requires Hexadecimal(cfg.digest) && Addressed(cfg.digest, after) && Keeps(before, after)
    requires PhaseSound(cfg, before, phase)
    ensures PhaseSound(cfg, after, phase)
  {
    match phase {
      case Ready(u, p) =>
        BackedSurvives(cfg, before, after, p.fileUrl, p.fileHash);
        BackedSurvives(cfg, before, after, p.pdfUrl, p.pdfHash);
      case Recording(u, p) =>
        BackedSurvives(cfg, before, after, p.fileUrl, p.fileHash);
        BackedSurvives(cfg, before, after, p.pdfUrl, p.pdfHash);
      case SourceStored(u, staged, url) => BackedSurvives(cfg, before, after, url, staged.sha256);
      case PdfMissing(u, staged, url) => BackedSurvives(cfg, before, after, url, staged.sha256);
      case Accepted(_, _) =>
      case SourceMissing(_, _) =>
    }
  }

  lemma RowsSurvive(cfg: Config, before: Objects, after: Objects, rows: seq<Version>)
    requires Hexadecimal(cfg.digest) && Addressed(cfg.digest, after) && Keeps(before, after)
    requires RowsBacked(cfg, before, rows)
    ensures RowsBacked(cfg, after, rows)
  {
    forall i | 0 <= i < |rows| ensures RowBacked(cfg, after, rows[i]) {
      assert RowBacked(cfg, before, rows[i]);
      BackedSurvives(cfg, before, after, rows[i].fileUrl, rows[i].fileHash);
      BackedSurvives(cfg, before, after, rows[i].pdfUrl, rows[i].pdfHash);
    }
  }

  /** Storing an object under the key of its digest disturbs nobody, even where one was put in between. */
  lemma PutKeepsInv(cfg: Config, y: System, content: Bytes)
    requires Inv(cfg, y)
    ensures Inv(cfg, y.(objects := y.objects[KeyOf(cfg.digest(content)) := content]))
  {
    var after := y.objects[KeyOf(cfg.digest(content)) := content];
    assert Addressed(cfg.digest, after);
    RowsSurvive(cfg, y.objects, after, y.db.t.rows);
    forall tx | tx in y.uploads ensures PhaseSound(cfg, after, y.uploads[tx]) {
      PhaseSurvives(cfg, y.objects, after, y.uploads[tx]);
    }
  }

  // ----- phases -----

  lemma AdvanceIsSound(cfg: Config, objects: Objects, phase: Phase)
    requires Hexadecimal(cfg.digest) && Addressed(cfg.digest, objects)
    requires PhaseSound(cfg, objects, phase) && (Asking(phase) || Storing(phase))
    requires Key(cfg, phase) in objects
    ensures PhaseSound(cfg, objects, Advance(cfg, phase))
  {
    var sha256 := cfg.digest(Content(phase));
    var url := Uri(cfg.bucket, Key(cfg, phase));
    StoredUnderItsDigest(cfg, objects, sha256);
    assert Backed(cfg, objects, url, sha256);
    if phase.SourceStored? || phase.PdfMissing? {
      FactsAreSound(cfg, objects, phase.u, phase.staged, phase.fileUrl, url);
    } else if phase.u.format.value == Pdf {
      FactsAreSound(cfg, objects, phase.u, phase.staged, url, url);
    }
  }

  lemma FactsAreSound(cfg: Config, objects: Objects, u: Upload, staged: Staged, fileUrl: string, pdfUrl: string)
    requires Hexadecimal(cfg.digest) && Rejection(cfg, u).None? && IsStaged(cfg, u, staged)
    requires Backed(cfg, objects, fileUrl, staged.sha256)
    requires Backed(cfg, objects, pdfUrl, cfg.digest(CanonicalPdf(u, staged)))
    requires u.format.value == Pdf ==> pdfUrl == fileUrl
    ensures PreparedSound(cfg, objects, u, Facts(u, staged, fileUrl, pdfUrl, cfg.digest(CanonicalPdf(u, staged))))
  {
    var pdfHash := cfg.digest(CanonicalPdf(u, staged));
    BackedUrlIsNotBlank(cfg, objects, fileUrl, staged.sha256);
    BackedUrlIsNotBlank(cfg, objects, pdfUrl, pdfHash);
    forall n: int | n >= 1
      ensures Fault(Numbered(Facts(u, staged, fileUrl, pdfUrl, pdfHash), n))
           == if NaiveExpiring(u) then Some(NaiveExpiry) else None
    {
      FactsAreValid(u, staged, fileUrl, pdfUrl, pdfHash, n);
    }
  }

  lemma MoveKeepsInv(cfg: Config, y: System, tx: TxId, phase: Phase)
    requires Inv(cfg, y) && PhaseSound(cfg, y.objects, phase) && tx in y.uploads && !y.uploads[tx].Recording?
    ensures Inv(cfg, y.(uploads := y.uploads[tx := phase]))
  {
    var after := y.(uploads := y.uploads[tx := phase]);
    forall other | other in after.uploads ensures PhaseSound(cfg, after.objects, after.uploads[other]) {
      if other != tx { assert PhaseSound(cfg, y.objects, y.uploads[other]); }
    }
    assert PhasesSound(cfg, after);
    assert WellKept(cfg, after) && Recorded(after);
  }

  lemma LeaveKeepsInv(cfg: Config, y: System, tx: TxId)
    requires Inv(cfg, y) && tx !in y.db.txs
    ensures Inv(cfg, y.(uploads := y.uploads - {tx}))
  {
    var after := y.(uploads := y.uploads - {tx});
    forall other | other in after.uploads ensures PhaseSound(cfg, after.objects, after.uploads[other]) {
      assert PhaseSound(cfg, y.objects, y.uploads[other]);
    }
    assert PhasesSound(cfg, after);
    assert WellKept(cfg, after) && Recorded(after);
  }

  // ----- statements of the repository -----

  /** What a transaction is about to commit carries the facts of its upload. */
  lemma PendingIsNumbered(t: Tables, w: Documents.Work)
    requires Documents.Pending(w) && Documents.Established(t, w)
    ensures w.v == Numbered(w.p, w.v.version)
  {
  }

  lemma PendingIsBacked(cfg: Config, y: System, tx: TxId)
    requires Inv(cfg, y) && tx in y.db.txs && Documents.Pending(y.db.txs[tx])
    ensures RowBacked(cfg, y.objects, y.db.txs[tx].v)
  {
    assert Documents.Established(y.db.t, y.db.txs[tx]);
    assert PhaseSound(cfg, y.objects, y.uploads[tx]) && y.uploads[tx].Recording?;
    RecordedIsBacked(cfg, y.objects, y.db.t, y.uploads[tx], y.db.txs[tx]);
  }

  lemma RecordedIsBacked(cfg: Config, objects: Objects, t: Tables, phase: Phase, w: Documents.Work)
    requires PhaseSound(cfg, objects, phase) && phase.Recording? && w.p == phase.p
    requires Documents.Pending(w) && Documents.Established(t, w)
    ensures RowBacked(cfg, objects, w.v)
  {
    PendingIsNumbered(t, w);
  }

  lemma RowsGain(cfg: Config, y: System, statement: Documents.Op)
    requires Inv(cfg, y) && Documents.Enabled(y.db, statement)
    ensures RowsBacked(cfg, y.objects, Documents.Apply(y.db, statement).t.rows)
  {
    Documents.OnlyCommitsAddRows(y.db, statement);
    if statement.Commit? { PendingIsBacked(cfg, y, statement.tx); }
  }

  /** A statement concerns its own transaction only. */
  lemma StatementIsLocal(db: Documents.Db, statement: Documents.Op, tx: TxId)
    requires Documents.Enabled(db, statement)
    ensures var after := Documents.Apply(db, statement);
      && (tx != statement.tx ==> (tx in after.txs <==> tx in db.txs) && (tx in db.txs ==> after.txs[tx] == db.txs[tx]))
      && (tx == statement.tx && tx in after.txs ==>
            if statement.SelectForUpdate? || statement.Create? then after.txs[tx].p == statement.p
            else tx in db.txs && after.txs[tx].p == db.txs[tx].p)
  {
  }

  lemma RecordKeepsLinks(y: System, statement: Documents.Op, db: Documents.Db, uploads: map<TxId, Phase>)
    requires Recorded(y) && statement.tx in y.uploads && Documents.Enabled(y.db, statement)
    requires Begins(y.uploads[statement.tx], statement) || Continues(y.uploads[statement.tx], statement)
    requires db == Documents.Apply(y.db, statement)
    requires uploads == if statement.tx in db.txs
      then y.uploads[statement.tx := Recording(y.uploads[statement.tx].u, y.uploads[statement.tx].p)]
      else y.uploads - {statement.tx}
    ensures forall tx :: tx in db.txs ==> tx in uploads && uploads[tx].Recording? && db.txs[tx].p == uploads[tx].p
  {
    forall tx | tx in db.txs ensures tx in uploads && uploads[tx].Recording? && db.txs[tx].p == uploads[tx].p {
      StatementIsLocal(y.db, statement, tx);
    }
  }

  lemma RecordKeepsPhases(cfg: Config, y: System, tx: TxId, uploads: map<TxId, Phase>)
    requires Inv(cfg, y) && tx in y.uploads && (y.uploads[tx].Ready? || y.uploads[tx].Recording?)
    requires uploads == y.uploads[tx := Recording(y.uploads[tx].u, y.uploads[tx].p)] || uploads == y.uploads - {tx}
    ensures forall other :: other in uploads ==>
      PhaseSound(cfg, y.objects, uploads[other]) && Rejection(cfg, uploads[other].u).None?
  {
    assert PhaseSound(cfg, y.objects, y.uploads[tx]);
    forall other | other in uploads
      ensures PhaseSound(cfg, y.objects, uploads[other]) && Rejection(cfg, uploads[other].u).None?
    {
      if other != tx { assert PhaseSound(cfg, y.objects, y.uploads[other]); }
    }
  }

  lemma RecordKeepsInv(cfg: Config, y: System, statement: Documents.Op)
    requires Inv(cfg, y) && Enabled(cfg, y, Record(statement))
    ensures Inv(cfg, Apply(cfg, y, Record(statement)))
  {
    var after := Apply(cfg, y, Record(statement));
    Documents.StatementKeepsInv(y.db, statement);
    RowsGain(cfg, y, statement);
    RecordKeepsLinks(y, statement, after.db, after.uploads);
    RecordKeepsPhases(cfg, y, statement.tx, after.uploads);
  }

  /** Every stat, put and statement of every upload keeps the invariant. */
  lemma OperationKeepsInv(cfg: Config, y: System, op: Op)
    requires Inv(cfg, y) && Enabled(cfg, y, op)
    ensures Inv(cfg, Apply(cfg, y, op))
  {
    match op
    case Accept(tx, u) => AcceptKeepsInv(cfg, y, tx, u);
    case Stat(tx) =>
      var phase := y.uploads[tx];
      assert PhaseSound(cfg, y.objects, phase);
      if Key(cfg, phase) !in y.objects {
        MoveKeepsInv(cfg, y, tx, Missing(phase));
      } else if |y.objects[Key(cfg, phase)]| != |Content(phase)| {
        LeaveKeepsInv(cfg, y, tx);
      } else {
        AdvanceIsSound(cfg, y.objects, phase);
        MoveKeepsInv(cfg, y, tx, Advance(cfg, phase));
      }
    case Put(tx) =>
      var phase := y.uploads[tx];
      PutKeepsInv(cfg, y, Content(phase));
      var stored := y.(objects := y.objects[Key(cfg, phase) := Content(phase)]);
      assert PhaseSound(cfg, stored.objects, stored.uploads[tx]);
      AdvanceIsSound(cfg, stored.objects, phase);
      MoveKeepsInv(cfg, stored, tx, Advance(cfg, phase));
    case FailPut(tx, stored) =>
      PutKeepsInv(cfg, y, Content(y.uploads[tx]));
      LeaveKeepsInv(cfg, if stored then y.(objects := Apply(cfg, y, op).objects) else y, tx);
    case GiveUp(tx) => LeaveKeepsInv(cfg, y, tx);
    case Record(statement) => RecordKeepsInv(cfg, y, statement);
  }

  lemma AcceptKeepsInv(cfg: Config, y: System, tx: TxId, u: Upload)
    requires Inv(cfg, y) && Enabled(cfg, y, Accept(tx, u))
    ensures Inv(cfg, Apply(cfg, y, Accept(tx, u)))
  {
    var after := Apply(cfg, y, Accept(tx, u));
    assert PhaseSound(cfg, y.objects, after.uploads[tx]);
  }

  // ----- an upload on its own -----

  /** The state after stat and, if the object is missing, put, with nothing in between. */
  ghost function Fetched(cfg: Config, y: System, tx: TxId): (after: System)
    requires WellKept(cfg, y) && tx in y.uploads && Asking(y.uploads[tx])
    ensures WellKept(cfg, after)
  {
    var asked := AfterStat(cfg, y, tx);
    if tx in asked.uploads && Storing(asked.uploads[tx]) then AfterPut(cfg, asked, tx) else asked
  }

  // The objects, and how far one upload has got, if it has not failed.
  type Progress = (Objects, Option<Phase>)

  function Seen(y: System, tx: TxId): Progress {
    (y.objects, if tx in y.uploads then Some(y.uploads[tx]) else None)
  }

  /** What `put` of the sequential pipeline makes of a phase. */
  function Fetch(cfg: Config, objects: Objects, phase: Phase): Progress
    requires Asking(phase) && IsSha256(cfg.digest(Content(phase)))
    requires phase.u.format.Success? && phase.u.pages.Success?
  {
    var (after, url) := PutAt(objects, Key(cfg, phase), Uri(cfg.bucket, Key(cfg, phase)), Content(phase), NoFault);
    (after, if url.Failure? then None else Some(Advance(cfg, phase)))
  }

  lemma StorePuts(cfg: Config, objects: Objects, u: Upload, staged: Staged)
    requires Hexadecimal(cfg.digest) && u.format.Success? && u.pages.Success? && u.sourceFault == NoFault
    requires staged.sha256 == cfg.digest(staged.content)
    ensures var key := KeyOf(staged.sha256);
      var (after, url) := PutAt(objects, key, Uri(cfg.bucket, key), staged.content, NoFault);
      Store(cfg, objects, u, staged)
        == if url.Failure? then (after, Failure(url.error)) else StorePdf(cfg, after, u, staged, url.value)
  {
    ContentTypesAreNotBlank(u.format.value);
  }

  lemma StorePdfPuts(cfg: Config, objects: Objects, u: Upload, staged: Staged, fileUrl: string)
    requires Hexadecimal(cfg.digest) && u.format.Success? && u.format.value != Pdf && u.pages.Success?
    requires u.pdfFault == NoFault
    ensures var pdf := CanonicalPdf(u, staged);
      var key := KeyOf(cfg.digest(pdf));
      var (after, url) := PutAt(objects, key, Uri(cfg.bucket, key), pdf, NoFault);
      StorePdf(cfg, objects, u, staged, fileUrl)
        == if url.Failure? then (after, Failure(url.error))
           else (after, Success(Facts(u, staged, fileUrl, url.value, cfg.digest(pdf))))
  {
    ContentTypesAreNotBlank(Pdf);
  }

  lemma MissingAdvances(cfg: Config, phase: Phase)
    requires Asking(phase) && IsSha256(cfg.digest(Content(phase)))
    requires phase.u.format.Success? && phase.u.pages.Success?
    ensures Content(Missing(phase)) == Content(phase)
    ensures Advance(cfg, Missing(phase)) == Advance(cfg, phase)
  {
  }

  function AskThenStore(cfg: Config, objects: Objects, phase: Phase): Progress
    requires Asking(phase) && IsSha256(cfg.digest(Content(phase)))
    requires phase.u.format.Success? && phase.u.pages.Success?
  {
    var asked := Asked(cfg, objects, phase);
    if asked == Some(Missing(phase)) then (objects[Key(cfg, phase) := Content(phase)], Some(Advance(cfg, phase)))
    else (objects, asked)
  }

  lemma AskThenStoreIsFetch(cfg: Config, objects: Objects, phase: Phase)
    requires Asking(phase) && IsSha256(cfg.digest(Content(phase)))
    requires phase.u.format.Success? && phase.u.pages.Success?
    ensures AskThenStore(cfg, objects, phase) == Fetch(cfg, objects, phase)
  {
    assert Storing(Missing(phase)) && !Storing(Advance(cfg, phase));
  }

  lemma FetchedAsks(cfg: Config, y: System, tx: TxId)
    requires WellKept(cfg, y) && tx in y.uploads && Asking(y.uploads[tx])
    ensures Seen(Fetched(cfg, y, tx), tx) == AskThenStore(cfg, y.objects, y.uploads[tx])
  {
    MissingAdvances(cfg, y.uploads[tx]);
  }

  /** Stat and put as two steps do what `put` does in one. */
  lemma FetchedIsPut(cfg: Config, y: System, tx: TxId)
    requires WellKept(cfg, y) && tx in y.uploads && Asking(y.uploads[tx])
    ensures Seen(Fetched(cfg, y, tx), tx) == Fetch(cfg, y.objects, y.uploads[tx])
  {
    FetchedAsks(cfg, y, tx);
    AskThenStoreIsFetch(cfg, y.objects, y.uploads[tx]);
  }

  ghost function ThenPdf(cfg: Config, y: System, tx: TxId): System
    requires WellKept(cfg, y)
  {
    if tx in y.uploads && y.uploads[tx].SourceStored? then Fetched(cfg, y, tx) else y
  }

  /** Both objects, one after the other, with nothing in between. */
  ghost function FetchedBoth(cfg: Config, y: System, tx: TxId): System
    requires WellKept(cfg, y) && tx in y.uploads && y.uploads[tx].Accepted?
  {
    ThenPdf(cfg, Fetched(cfg, y, tx), tx)
  }

  /** The progress that an outcome of the storing stages stands for. */
  function Ended(u: Upload, outcome: (Objects, Result<Prepared, UploadError>)): Progress {
    (outcome.0, if outcome.1.Success? then Some(Ready(u, outcome.1.value)) else None)
  }

  lemma FetchingPdf(cfg: Config, objects: Objects, u: Upload, staged: Staged)
    requires Hexadecimal(cfg.digest) && u.format == Success(Pdf) && u.pages.Success? && u.sourceFault == NoFault
    requires staged.sha256 == cfg.digest(staged.content)
    ensures Fetch(cfg, objects, Accepted(u, staged)) == Ended(u, Store(cfg, objects, u, staged))
  {
    StorePuts(cfg, objects, u, staged);
  }

  lemma SourceFails(cfg: Config, objects: Objects, u: Upload, staged: Staged)
    requires Hexadecimal(cfg.digest) && u.format.Success? && u.pages.Success? && u.sourceFault == NoFault
    requires staged.sha256 == cfg.digest(staged.content)
    requires Fetch(cfg, objects, Accepted(u, staged)).1.None?
    ensures Ended(u, Store(cfg, objects, u, staged)) == Fetch(cfg, objects, Accepted(u, staged))
  {
    StorePuts(cfg, objects, u, staged);
  }

  lemma SourceUrl(cfg: Config, objects: Objects, u: Upload, staged: Staged)
    requires IsSha256(cfg.digest(staged.content)) && u.format.Success? && u.format.value != Pdf && u.pages.Success?
    requires Fetch(cfg, objects, Accepted(u, staged)).1.Some?
    ensures var key := KeyOf(cfg.digest(staged.content));
      var (between, url) := PutAt(objects, key, Uri(cfg.bucket, key), staged.content, NoFault);
      && url.Success?
      && Fetch(cfg, objects, Accepted(u, staged)) == (between, Some(SourceStored(u, staged, url.value)))
  {
  }

  lemma SourceArrives(cfg: Config, objects: Objects, u: Upload, staged: Staged)
    requires Hexadecimal(cfg.digest) && u.format.Success? && u.format.value != Pdf && u.pages.Success?
    requires u.sourceFault == NoFault && staged.sha256 == cfg.digest(staged.content)
    requires Fetch(cfg, objects, Accepted(u, staged)).1.Some?
    ensures var (between, phase) := Fetch(cfg, objects, Accepted(u, staged));
      && phase.value.SourceStored? && phase.value.u == u && phase.value.staged == staged
      && Store(cfg, objects, u, staged) == StorePdf(cfg, between, u, staged, phase.value.fileUrl)
  {
    SourceUrl(cfg, objects, u, staged);
    StorePuts(cfg, objects, u, staged);
  }

  lemma FetchingNormalized(cfg: Config, objects: Objects, u: Upload, staged: Staged, fileUrl: string)
    requires Hexadecimal(cfg.digest) && u.format.Success? && u.format.value != Pdf && u.pages.Success?
    requires u.pdfFault == NoFault
    ensures Fetch(cfg, objects, SourceStored(u, staged, fileUrl))
         == Ended(u, StorePdf(cfg, objects, u, staged, fileUrl))
  {
    StorePdfPuts(cfg, objects, u, staged, fileUrl);
  }

  lemma StoringPdfAlone(cfg: Config, y: System, tx: TxId)
    requires WellKept(cfg, y) && tx in y.uploads && y.uploads[tx].Accepted?
    requires y.uploads[tx].u.format == Success(Pdf) && y.uploads[tx].u.sourceFault == NoFault
    requires y.uploads[tx].staged.sha256 == cfg.digest(y.uploads[tx].staged.content)
    ensures Seen(FetchedBoth(cfg, y, tx), tx)
         == Ended(y.uploads[tx].u, Store(cfg, y.objects, y.uploads[tx].u, y.uploads[tx].staged))
  {
    FetchedIsPut(cfg, y, tx);
    FetchingPdf(cfg, y.objects, y.uploads[tx].u, y.uploads[tx].staged);
  }

  lemma StoringOtherAlone(cfg: Config, y: System, tx: TxId)
    requires WellKept(cfg, y) && tx in y.uploads && y.uploads[tx].Accepted?
    requires y.uploads[tx].u.format.Success? && y.uploads[tx].u.format.value != Pdf
    requires y.uploads[tx].u.sourceFault == y.uploads[tx].u.pdfFault == NoFault
    requires y.uploads[tx].staged.sha256 == cfg.digest(y.uploads[tx].staged.content)
    ensures Seen(FetchedBoth(cfg, y, tx), tx)
         == Ended(y.uploads[tx].u, Store(cfg, y.objects, y.uploads[tx].u, y.uploads[tx].staged))
  {
    var u, staged := y.uploads[tx].u, y.uploads[tx].staged;
    var after := Fetched(cfg, y, tx);
    FetchedIsPut(cfg, y, tx);
    if tx !in after.uploads {
      SourceFails(cfg, y.objects, u, staged);
    } else {
      SourceArrives(cfg, y.objects, u, staged);
      FetchedIsPut(cfg, after, tx);
      FetchingNormalized(cfg, after.objects, u, staged, after.uploads[tx].fileUrl);
    }
  }

  /** The operations `Stat` and, if it leaves something to store, `Put`. */
  ghost function StatThenPut(cfg: Config, y: System, tx: TxId): System
    requires WellKept(cfg, y) && tx in y.uploads && Asking(y.uploads[tx])
  {
    var asked := Apply(cfg, y, Stat(tx));
    if tx in asked.uploads && Storing(asked.uploads[tx]) then Apply(cfg, asked, Put(tx)) else asked
  }

  lemma StatThenPutIsFetched(cfg: Config, y: System, tx: TxId)
    requires WellKept(cfg, y) && tx in y.uploads && Asking(y.uploads[tx])
    ensures StatThenPut(cfg, y, tx) == Fetched(cfg, y, tx)
  {
  }

  /** Stat and put as two operations do what `put` does in one. */
  lemma StatThenPutIsPut(cfg: Config, y: System, tx: TxId)
    requires WellKept(cfg, y) && tx in y.uploads && Asking(y.uploads[tx])
    ensures Seen(StatThenPut(cfg, y, tx), tx) == Fetch(cfg, y.objects, y.uploads[tx])
  {
    StatThenPutIsFetched(cfg, y, tx);
    FetchedIsPut(cfg, y, tx);
  }

  /** The operations for the source and, if it is not a PDF, for its normalized PDF, with nothing in between. */
  ghost function StoreAlone(cfg: Config, y: System, tx: TxId): System
    requires WellKept(cfg, y) && tx in y.uploads && y.uploads[tx].Accepted?
  {
    StatThenPutIsFetched(cfg, y, tx);
    var between := StatThenPut(cfg, y, tx);
    if tx in between.uploads && between.uploads[tx].SourceStored? then StatThenPut(cfg, between, tx) else between
  }

  lemma StoreAloneIsFetched(cfg: Config, y: System, tx: TxId)
    requires WellKept(cfg, y) && tx in y.uploads && y.uploads[tx].Accepted?
    ensures StoreAlone(cfg, y, tx) == FetchedBoth(cfg, y, tx)
  {
    StatThenPutIsFetched(cfg, y, tx);
    var between := Fetched(cfg, y, tx);
    if tx in between.uploads && between.uploads[tx].SourceStored? { StatThenPutIsFetched(cfg, between, tx); }
  }

  /**
   With no other upload and no fault in between, stats and puts of an upload lead to exactly what the storing
   stages of the pipeline compute.
   */
  lemma StoringAloneIsStore(cfg: Config, y: System, tx: TxId)
    requires WellKept(cfg, y) && tx in y.uploads && y.uploads[tx].Accepted?
    requires y.uploads[tx].u.sourceFault == y.uploads[tx].u.pdfFault == NoFault
    requires y.uploads[tx].staged.sha256 == cfg.digest(y.uploads[tx].staged.content)
    ensures Seen(StoreAlone(cfg, y, tx), tx)
         == Ended(y.uploads[tx].u, Store(cfg, y.objects, y.uploads[tx].u, y.uploads[tx].staged))
  {
    StoreAloneIsFetched(cfg, y, tx);
    if y.uploads[tx].u.format.value == Pdf {
      StoringPdfAlone(cfg, y, tx);
    } else {
      StoringOtherAlone(cfg, y, tx);
    }
  }

  // ----- whole runs -----

  ghost predicate Steps(cfg: Config, states: seq<System>, ops: seq<Op>, i: nat)
    requires i < |ops| < |states|
  {
    WellKept(cfg, states[i]) && Enabled(cfg, states[i], ops[i]) && states[i + 1] == Apply(cfg, states[i], ops[i])
  }

  ghost predicate IsRun(cfg: Config, states: seq<System>, ops: seq<Op>) {
    && |states| == |ops| + 1
    && states[0] == EMPTY
    && (forall i :: 0 <= i < |ops| ==> Steps(cfg, states, ops, i))
  }

  lemma {:induction false} RunsKeepInv(cfg: Config, states: seq<System>, ops: seq<Op>, k: nat)
    requires Hexadecimal(cfg.digest) && IsRun(cfg, states, ops) && k < |states|
    ensures Inv(cfg, states[k])
  {
    if k > 0 {
      RunsKeepInv(cfg, states, ops, k - 1);
      StepKeepsInv(cfg, states, ops, k - 1);
    }
  }

  lemma StepKeepsInv(cfg: Config, states: seq<System>, ops: seq<Op>, i: nat)
    requires IsRun(cfg, states, ops) && i < |ops| && Inv(cfg, states[i])
    ensures Inv(cfg, states[i + 1])
  {
    var y, op, after := states[i], ops[i], states[i + 1];
    assert Steps(cfg, states, ops, i);
    OperationKeepsInv(cfg, y, op);
    assert after == Apply(cfg, y, op);
  }

  /**
   Referential integrity under concurrency. In every state of every interleaving of any number of uploads,
   each document's versions are a valid history, and the two URLs of every committed version name stored
   objects with the recorded digests.
   */
  lemma EveryRunKeepsIntegrity(cfg: Config, states: seq<System>, ops: seq<Op>, k: nat)
    requires Hexadecimal(cfg.digest) && IsRun(cfg, states, ops) && k < |states|
    ensures Integrity(cfg, World(states[k].objects, states[k].db.t))
  {
    RunsKeepInv(cfg, states, ops, k);
  }

  lemma OperationLosesNothing(cfg: Config, y: System, op: Op)
    requires WellKept(cfg, y) && Enabled(cfg, y, op)
    ensures Keeps(y.objects, Apply(cfg, y, op).objects)
    ensures y.db.t.rows <= Apply(cfg, y, op).db.t.rows
  {
    if op.Record? { Documents.OnlyCommitsAddRows(y.db, op.statement); }
  }

  /** Every upload on its way in any run is acceptable; none has an unsafe verdict. */
  lemma UploadsOnTheirWayAreSafe(cfg: Config, states: seq<System>, ops: seq<Op>, k: nat, tx: TxId)
    requires Hexadecimal(cfg.digest) && IsRun(cfg, states, ops) && k < |states| && tx in states[k].uploads
    ensures Acceptable(cfg, states[k].uploads[tx].u) && states[k].uploads[tx].u.unsafe.None?
  {
    RunsKeepInv(cfg, states, ops, k);
    AcceptableExactly(cfg, states[k].uploads[tx].u);
  }

  /** Nothing that has been stored or committed is ever removed. */
  lemma {:induction false} NothingIsLost(cfg: Config, states: seq<System>, ops: seq<Op>, i: nat, j: nat)
    requires IsRun(cfg, states, ops) && i <= j < |states|
    ensures Keeps(states[i].objects, states[j].objects)
    ensures states[i].db.t.rows <= states[j].db.t.rows
    decreases j
  {
    if i < j {
      NothingIsLost(cfg, states, ops, i, j - 1);
      StepLosesNothing(cfg, states, ops, j - 1);
    }
  }

  lemma StepLosesNothing(cfg: Config, states: seq<System>, ops: seq<Op>, i: nat)
    requires IsRun(cfg, states, ops) && i < |ops|
    ensures Keeps(states[i].objects, states[i + 1].objects)
    ensures states[i].db.t.rows <= states[i + 1].db.t.rows
  {
    var y, op, after := states[i], ops[i], states[i + 1];
    assert Steps(cfg, states, ops, i);
    OperationLosesNothing(cfg, y, op);
    assert after == Apply(cfg, y, op);
  }

  /** The statements that make a version out of prepared facts. */
  predicate Validates(statement: Documents.Op) {
    statement.Create? || statement.SelectMax?
  }

  function Reported(db: Documents.Db, statement: Documents.Op): Option<VersionFault> {
    var raised := Documents.Raised(db, statement);
    if raised.Some? && raised.value.Invalid? then Some(raised.value.fault) else None
  }

  lemma VersionFaults(u: Upload, p: Prepared, n: int)
    requires ExpiryIsItsOnlyFault(u, p) && n >= 1
    ensures ToVersion(p, n)
         == if NaiveExpiring(u) then Failure(Invalid(NaiveExpiry)) else Success(Numbered(p, n))
  {
    assert Fault(Numbered(p, n)) == if NaiveExpiring(u) then Some(NaiveExpiry) else None;
  }

  lemma CreateReports(db: Documents.Db, statement: Documents.Op, u: Upload)
    requires statement.Create? && ExpiryIsItsOnlyFault(u, statement.p)
    ensures Reported(db, statement) == if NaiveExpiring(u) then Some(NaiveExpiry) else None
  {
    VersionFaults(u, statement.p, 1);
  }

  lemma SelectMaxReports(db: Documents.Db, statement: Documents.Op, u: Upload)
    requires Documents.Inv(db) && Documents.Enabled(db, statement) && statement.SelectMax?
    requires ExpiryIsItsOnlyFault(u, db.txs[statement.tx].p)
    ensures Reported(db, statement) == if NaiveExpiring(u) then Some(NaiveExpiry) else None
  {
    var w := db.txs[statement.tx];
    assert Documents.Established(db.t, w);
    MaxVersionIsCount(db.t.rows, w.d);
    VersionFaults(u, w.p, |RowsOf(db.t.rows, w.d)| + 1);
  }

  /**
   However uploads interleave, a statement reports an invalid version exactly if it is the one that makes the
   version and the upload has a naive expiry, and that is then the fault it reports.
   */
  lemma InvalidExactlyForNaiveExpiry(cfg: Config, states: seq<System>, ops: seq<Op>, k: nat)
    requires Hexadecimal(cfg.digest) && IsRun(cfg, states, ops) && k < |ops| && ops[k].Record?
    ensures ops[k].statement.tx in states[k].uploads
    ensures Reported(states[k].db, ops[k].statement)
         == if Validates(ops[k].statement) && NaiveExpiring(states[k].uploads[ops[k].statement.tx].u)
            then Some(NaiveExpiry) else None
  {
    RunsKeepInv(cfg, states, ops, k);
    assert Steps(cfg, states, ops, k);
    StatementReports(cfg, states[k], ops[k].statement);
  }

  lemma StatementReports(cfg: Config, y: System, statement: Documents.Op)
    requires Inv(cfg, y) && Enabled(cfg, y, Record(statement))
    ensures Reported(y.db, statement)
         == if Validates(statement) && NaiveExpiring(y.uploads[statement.tx].u) then Some(NaiveExpiry) else None
  {
    RecordingIsNaiveAtMost(cfg, y, statement.tx);
    if statement.Create? {
      CreateReports(y.db, statement, y.uploads[statement.tx].u);
    } else if statement.SelectMax? {
      SelectMaxReports(y.db, statement, y.uploads[statement.tx].u);
    } else {
      OthersReportNothing(y.db, statement);
    }
  }

  lemma RecordingIsNaiveAtMost(cfg: Config, y: System, tx: TxId)
    requires Inv(cfg, y) && tx in y.uploads && (y.uploads[tx].Ready? || y.uploads[tx].Recording?)
    ensures ExpiryIsItsOnlyFault(y.uploads[tx].u, y.uploads[tx].p)
    ensures tx in y.db.txs ==> y.db.txs[tx].p == y.uploads[tx].p
  {
    assert PhaseSound(cfg, y.objects, y.uploads[tx]);
  }

  lemma OthersReportNothing(db: Documents.Db, statement: Documents.Op)
    requires !Validates(statement)
    ensures Reported(db, statement) == None
  {
  }
}
