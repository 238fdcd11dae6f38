/**
 Ingestion of one upload: staging, hashing, content-addressed storage, recording
 (modules/documents/application/upload.py, infrastructure/file_processing.py, infrastructure/object_store.py).
 What foreign systems answer - the format detector, the scanner, the converter, the PDF reader, the clock,
 the id generator, and whether the object store and the database fail - is part of the `Upload`.
 */
module DocumentUpload {
  import opened Common
  import opened DocumentModel
  import opened DocumentTable
  import DocumentRepository

  const MAX_DOCUMENT_NAME_LENGTH := 255
  const READ_CHUNK_BYTES: nat := 1024 * 1024
  const PARSER_VERSION := "document-metadata-v1"
  const OBJECT_PREFIX := "documents"

  type Digest = Bytes -> string

  // An error raised by a foreign system.
  type Code = nat

  datatype UploadError =
    | InvalidDocument
    | TooLarge
    | TooManyPages
    | Storage
    | BadArgument
    | Foreign(code: Code)
    | Repository(error: RepositoryError)
    | Database

  // How the object store misbehaves during one put.
  datatype StoreFault = NoFault | StatFails | PutFails(stored: bool)

  // What is read, until the first empty chunk or, if there is none, a failure; otherwise the end of the file.
  datatype Source = Source(basename: string, chunks: seq<Bytes>, failure: Option<Code>)

  datatype Upload = Upload(
    documentId: Option<Id>,
    expiresAt: Option<Stamp>,
    source: Source,
    format: Result<Format, Code>,
    unsafe: Option<Code>,
    converted: Result<Bytes, Code>,
    pages: Result<int, Code>,
    elapsedNs: int,
    sourceFault: StoreFault,
    pdfFault: StoreFault,
    newDocumentId: Id,
    newId: Id,
    now: int,
    databaseFails: bool)

  type Objects = map<string, Bytes>

  datatype World = World(objects: Objects, tables: Tables)

  datatype Config = Config(bucket: string, maxBytes: nat, digest: Digest)

  /** The digest function is unknown, but it yields 64 lower-case hexadecimal digits. */
  ghost predicate Hexadecimal(digest: Digest) {
    forall content: Bytes :: IsSha256(digest(content)) && Lower(digest(content)) == digest(content)
  }

  // ----- staging -----

  datatype Staged = Staged(name: string, content: Bytes, sha256: string)

  function ConcatReads(chunks: seq<Bytes>): Bytes {
    if chunks == [] || chunks[0] == [] then [] else chunks[0] + ConcatReads(chunks[1..])
  }

  /** The failure is met if nothing ends the reading before it. */
  predicate Fails(source: Source) {
    source.failure.Some? && [] !in source.chunks
  }

  /** The checks in their order: the name, the size of what could be read, the reading, the emptiness. */
  function Stage(cfg: Config, source: Source): (r: Result<Staged, UploadError>)
    ensures r.Failure? ==> !r.error.Repository?
  {
    var name := Strip(source.basename);
    var content := ConcatReads(source.chunks);
    if name == "" || |name| > MAX_DOCUMENT_NAME_LENGTH then Failure(InvalidDocument)
    else if |content| > cfg.maxBytes then Failure(TooLarge)
    else if Fails(source) then Failure(Foreign(source.failure.value))
    else if content == [] then Failure(InvalidDocument)
    else Success(Staged(name, content, cfg.digest(content)))
  }

  /**
   `StreamingUploadStager.stage`: copies and hashes chunk by chunk, giving up as soon as too much was read or a
   read fails.
   */
  method StageUpload(cfg: Config, source: Source) returns (r: Result<Staged, UploadError>)
    ensures r == Stage(cfg, source)
  {
    var name := Strip(source.basename);
    if name == "" || |name| > MAX_DOCUMENT_NAME_LENGTH { return Failure(InvalidDocument); }
    var chunks := source.chunks;
    var file: Bytes, hashed: Bytes, total := [], [], 0;
    var i := 0;
    while i < |chunks| && chunks[i] != []
      invariant 0 <= i <= |chunks| && [] !in chunks[..i]
      invariant file == hashed && total == |file| <= cfg.maxBytes
      invariant ConcatReads(chunks) == file + ConcatReads(chunks[i..])
    {
      var chunk := chunks[i];
      total := total + |chunk|;
      assert chunks[i..][0] == chunk && chunks[i..][1..] == chunks[i + 1..];
      assert ConcatReads(chunks) == (file + chunk) + ConcatReads(chunks[i + 1..]);
      if total > cfg.maxBytes { return Failure(TooLarge); }
      hashed := hashed + chunk;
      file := file + chunk;
      assert chunks[..i + 1] == chunks[..i] + [chunk];
      i := i + 1;
    }
    assert ConcatReads(chunks) == file;
    if i == |chunks| {
      assert chunks[..i] == chunks;
      if source.failure.Some? { return Failure(Foreign(source.failure.value)); }
    } else {
      assert chunks[i] == [] && [] in chunks;
    }
    if total == 0 { return Failure(InvalidDocument); }
    r := Success(Staged(name, file, cfg.digest(hashed)));
  }

  /** The hashing loop of `_read_pdf_metadata`: reading in blocks of any size feeds the whole file. */
  method HashFile(cfg: Config, file: Bytes, block: nat) returns (sha256: string)
    requires block >= 1
    ensures sha256 == cfg.digest(file)
  {
    var hashed: Bytes, pos := [], 0;
    while pos < |file|
      invariant 0 <= pos <= |file| && hashed == file[..pos]
    {
      var next := if pos + block <= |file| then pos + block else |file|;
      hashed := hashed + file[pos..next];
      pos := next;
    }
    assert file[..pos] == file;
    sha256 := cfg.digest(hashed);
  }

  // ----- content-addressed storage -----

  function LowerDigit(c: char): char {
    if 'A' <= c <= 'F' then c - 'A' + 'a' else c
  }

  function Lower(s: string): string {
    seq(|s|, i requires 0 <= i < |s| => LowerDigit(s[i]))
  }

  function KeyOf(sha256: string): string
    requires IsSha256(sha256)
  {
    OBJECT_PREFIX + "/sha256/" + sha256[..2] + "/" + Lower(sha256)
  }

  function Uri(bucket: string, key: string): string {
    "minio://" + bucket + "/" + key
  }

  function ContentType(format: Format): string {
    match format
    case Pdf => "application/pdf"
    case Docx => "application/vnd.openxmlformats-officedocument.wordprocessingml.document"
    case Pptx => "application/vnd.openxmlformats-officedocument.presentationml.presentation"
  }

  /** Stat a key and put what is missing there: the objects afterwards, and the URL or the error. */
  function PutAt(objects: Objects, key: string, url: string, content: Bytes, fault: StoreFault)
    : (r: (Objects, Result<string, UploadError>))
    ensures r.1.Failure? ==> r.1.error == Storage
  {
    if fault.StatFails? then (objects, Failure(Storage))
    else if key in objects then
      if |objects[key]| != |content| then (objects, Failure(Storage)) else (objects, Success(url))
    else if fault.PutFails? then
      (if fault.stored then objects[key := content] else objects, Failure(Storage))
    else (objects[key := content], Success(url))
  }

  /** `MinioDocumentBlobStore.put` */
  function PutObject(bucket: string, objects: Objects, sha256: string, content: Bytes, contentType: string,
                     fault: StoreFault)
    : (r: (Objects, Result<string, UploadError>))
    ensures r.1.Failure? ==> !r.1.error.Repository?
  {
    if Blank(contentType) || !IsSha256(sha256) then (objects, Failure(BadArgument))
    else PutAt(objects, KeyOf(sha256), Uri(bucket, KeyOf(sha256)), content, fault)
  }

  /** Every stored object lies under the key of its own digest. */
  ghost predicate Addressed(digest: Digest, objects: Objects) {
    forall key :: key in objects ==> IsSha256(digest(objects[key])) && key == KeyOf(digest(objects[key]))
  }

  lemma KeysAreInjective(a: string, b: string)
    requires IsSha256(a) && IsSha256(b) && KeyOf(a) == KeyOf(b)
    requires Lower(a) == a && Lower(b) == b
    ensures a == b
  {
    var n := |KeyOf(a)| - |a|;
    assert KeyOf(a)[n..] == a && KeyOf(b)[n..] == b;
  }

  /** The URL names a stored object whose bytes have the recorded digest. */
  ghost predicate Backed(cfg: Config, objects: Objects, url: string, sha256: string) {
    && IsSha256(sha256)
    && url == Uri(cfg.bucket, KeyOf(sha256))
    && KeyOf(sha256) in objects
    && cfg.digest(objects[KeyOf(sha256)]) == sha256
  }

  /** Objects are never replaced or removed. */
  ghost predicate Grows(before: Objects, after: Objects) {
    forall key :: key in before ==> key in after && after[key] == before[key]
  }

  /** A put, failed or not, keeps the store addressed by content; a successful one backs its URL. */
  lemma PutBacksItsUrl(cfg: Config, objects: Objects, content: Bytes, contentType: string, fault: StoreFault)
    requires Hexadecimal(cfg.digest) && Addressed(cfg.digest, objects)
    ensures var (after, url) := PutObject(cfg.bucket, objects, cfg.digest(content), content, contentType, fault);
      && Addressed(cfg.digest, after) && Grows(objects, after)
      && (url.Success? ==> Backed(cfg, after, url.value, cfg.digest(content)))
  {
    var sha256 := cfg.digest(content);
    var key := KeyOf(sha256);
    if key in objects {
      KeysAreInjective(cfg.digest(objects[key]), sha256);
    }
  }

  // ----- the pipeline -----

  /** The first check that refuses an upload before anything is stored. */
  function Rejection(cfg: Config, u: Upload): (r: Option<UploadError>)
    ensures r.Some? ==> !r.value.Repository?
    ensures r.None? ==>
      && u.format.Success? && u.pages.Success? && 1 <= u.pages.value <= MAX_DOCUMENT_PAGES
      && Stage(cfg, u.source).Success?
  {
    var staged := Stage(cfg, u.source);
    if staged.Failure? then Some(staged.error)
    else if u.format.Failure? then Some(Foreign(u.format.error))
    else if u.unsafe.Some? then Some(Foreign(u.unsafe.value))
    else if u.format.value != Pdf && u.converted.Failure? then Some(Foreign(u.converted.error))
    else if u.pages.Failure? then Some(Foreign(u.pages.error))
    else if u.pages.value > MAX_DOCUMENT_PAGES then Some(TooManyPages)
    else if u.pages.value < 1 then Some(InvalidDocument)
    else None
  }

  /** Everything `handle` does before it calls the repository. */
  function Prepare(cfg: Config, objects: Objects, u: Upload): (r: (Objects, Result<Prepared, UploadError>))
    ensures r.1.Failure? ==> !r.1.error.Repository?
    ensures r.1.Success? && u.documentId.Some? ==> r.1.value.documentId == u.documentId.value
  {
    var rejection := Rejection(cfg, u);
    if rejection.Some? then (objects, Failure(rejection.value))
    else Store(cfg, objects, u, Stage(cfg, u.source).value)
  }

  function CanonicalPdf(u: Upload, staged: Staged): Bytes {
    if u.format == Success(Pdf) || u.converted.Failure? then staged.content else u.converted.value
  }

  function Store(cfg: Config, objects: Objects, u: Upload, staged: Staged)
    : (r: (Objects, Result<Prepared, UploadError>))
    requires u.format.Success? && u.pages.Success?
    ensures r.1.Failure? ==> !r.1.error.Repository?
    ensures r.1.Success? && u.documentId.Some? ==> r.1.value.documentId == u.documentId.value
  {
    var (objects1, source) :=
      PutObject(cfg.bucket, objects, staged.sha256, staged.content, ContentType(u.format.value), u.sourceFault);
    if source.Failure? then (objects1, Failure(source.error)) else StorePdf(cfg, objects1, u, staged, source.value)
  }

  /** The canonical PDF, once the source is stored: a PDF source is its own, another one's is put as well. */
  function StorePdf(cfg: Config, objects: Objects, u: Upload, staged: Staged, fileUrl: string)
    : (r: (Objects, Result<Prepared, UploadError>))
    requires u.format.Success? && u.pages.Success?
    ensures r.1.Failure? ==> !r.1.error.Repository?
    ensures r.1.Success? && u.documentId.Some? ==> r.1.value.documentId == u.documentId.value
  {
    var pdf := CanonicalPdf(u, staged);
    var (after, pdfUrl) :=
      if u.format.value == Pdf then (objects, Success(fileUrl))
      else PutObject(cfg.bucket, objects, cfg.digest(pdf), pdf, ContentType(Pdf), u.pdfFault);
    if pdfUrl.Failure? then (after, Failure(pdfUrl.error))
    else (after, Success(Facts(u, staged, fileUrl, pdfUrl.value, cfg.digest(pdf))))
  }

  function Facts(u: Upload, staged: Staged, fileUrl: string, pdfUrl: string, pdfHash: string): Prepared
    requires u.format.Success? && u.pages.Success?
  {
    Prepared(
      u.newId,
      if u.documentId.Some? then u.documentId.value else u.newDocumentId,
      staged.name, fileUrl, pdfUrl, u.format.value, staged.sha256, pdfHash,
      Stamp(u.now, true), u.expiresAt, u.pages.value, PARSER_VERSION,
      if u.elapsedNs < 0 then 0 else u.elapsedNs / 1_000_000)
  }

  function Record(tables: Tables, u: Upload, p: Prepared): Result<Version, UploadError> {
    var outcome :=
      if u.documentId.None? then CreateOutcome(tables, p) else AppendOutcome(tables, u.documentId.value, p);
    if outcome.Failure? then Failure(Repository(outcome.error))
    else if u.databaseFails then Failure(Database)
    else Success(outcome.value)
  }

  function Ingest(cfg: Config, w: World, u: Upload): (World, Result<Version, UploadError>) {
    var (objects, prepared) := Prepare(cfg, w.objects, u);
    if prepared.Failure? then (World(objects, w.tables), Failure(prepared.error))
    else
      var r := Record(w.tables, u, prepared.value);
      (World(objects, Recorded(w.tables, u, r)), r)
  }

  // ----- referential integrity -----

  ghost predicate RowBacked(cfg: Config, objects: Objects, v: Version) {
    Backed(cfg, objects, v.fileUrl, v.fileHash) && Backed(cfg, objects, v.pdfUrl, v.pdfHash)
  }

  /** Every committed version points at stored bytes with the digests it records. */
  ghost predicate Integrity(cfg: Config, w: World) {
    && Inv(w.tables)
    && Addressed(cfg.digest, w.objects)
    && (forall i :: 0 <= i < |w.tables.rows| ==> RowBacked(cfg, w.objects, w.tables.rows[i]))
  }

  /** However far it got, the pipeline left a sound store, and what it prepared is backed by it. */
  ghost predicate SoundResult(cfg: Config, before: Objects, after: Objects, prepared: Result<Prepared, UploadError>) {
    && Addressed(cfg.digest, after) && Grows(before, after)
    && (prepared.Success? ==>
          && Backed(cfg, after, prepared.value.fileUrl, prepared.value.fileHash)
          && Backed(cfg, after, prepared.value.pdfUrl, prepared.value.pdfHash))
  }

  lemma StoreIsSound(cfg: Config, objects: Objects, u: Upload, staged: Staged)
    requires Hexadecimal(cfg.digest) && Addressed(cfg.digest, objects)
    requires u.format.Success? && u.pages.Success? && staged.sha256 == cfg.digest(staged.content)
    ensures var (after, prepared) := Store(cfg, objects, u, staged); SoundResult(cfg, objects, after, prepared)
    ensures var prepared := Store(cfg, objects, u, staged).1;
      prepared.Success? && u.format.value == Pdf ==>
        prepared.value.pdfUrl == prepared.value.fileUrl && prepared.value.pdfHash == prepared.value.fileHash
  {
    PutBacksItsUrl(cfg, objects, staged.content, ContentType(u.format.value), u.sourceFault);
    var (objects1, source) :=
      PutObject(cfg.bucket, objects, staged.sha256, staged.content, ContentType(u.format.value), u.sourceFault);
    PutBacksItsUrl(cfg, objects1, CanonicalPdf(u, staged), ContentType(Pdf), u.pdfFault);
  }

  lemma FactsAreValid(u: Upload, staged: Staged, fileUrl: string, pdfUrl: string, pdfHash: string, n: int)
    requires u.format.Success? && u.pages.Success? && 1 <= u.pages.value <= MAX_DOCUMENT_PAGES && n >= 1
    requires !Blank(staged.name) && !Blank(fileUrl) && !Blank(pdfUrl)
    requires IsSha256(staged.sha256) && IsSha256(pdfHash)
    requires u.format.value == Pdf ==> pdfUrl == fileUrl && pdfHash == staged.sha256
    ensures Fault(Numbered(Facts(u, staged, fileUrl, pdfUrl, pdfHash), n))
         == if u.expiresAt.Some? && !u.expiresAt.value.aware then Some(NaiveExpiry) else None
  {
    assert !IsSpace(PARSER_VERSION[0]);
  }

  lemma BackedUrlIsNotBlank(cfg: Config, objects: Objects, url: string, sha256: string)
    requires Backed(cfg, objects, url, sha256)
    ensures !Blank(url)
  {
    assert !IsSpace(url[0]);
  }

  /**
   What reaches the repository is valid, whatever number it is given: the prepared facts pass every check
   of `DocumentVersion`, including the rule for PDF sources, unless the caller passed an expiry without a
   timezone, and then that is the fault.
   */
  lemma PreparedIsValid(cfg: Config, objects: Objects, u: Upload, n: int)
    requires Hexadecimal(cfg.digest) && Addressed(cfg.digest, objects) && n >= 1
    ensures var prepared := Prepare(cfg, objects, u).1;
      prepared.Success? ==>
        Fault(Numbered(prepared.value, n))
        == if u.expiresAt.Some? && !u.expiresAt.value.aware then Some(NaiveExpiry) else None
  {
    if Prepare(cfg, objects, u).1.Failure? { return; }
    var staged := Stage(cfg, u.source).value;
    var (after, prepared) := Store(cfg, objects, u, staged);
    StoreIsSound(cfg, objects, u, staged);
    var p := prepared.value;
    BackedUrlIsNotBlank(cfg, after, p.fileUrl, p.fileHash);
    BackedUrlIsNotBlank(cfg, after, p.pdfUrl, p.pdfHash);
    FactsAreValid(u, staged, p.fileUrl, p.pdfUrl, p.pdfHash, n);
  }

  lemma PrepareIsSound(cfg: Config, objects: Objects, u: Upload)
    requires Hexadecimal(cfg.digest) && Addressed(cfg.digest, objects)
    ensures var (after, prepared) := Prepare(cfg, objects, u); SoundResult(cfg, objects, after, prepared)
  {
    if Rejection(cfg, u).None? {
      StoreIsSound(cfg, objects, u, Stage(cfg, u.source).value);
    }
  }

  /** The tables after a recording. */
  function Recorded(tables: Tables, u: Upload, r: Result<Version, UploadError>): Tables {
    if r.Failure? then tables
    else if u.documentId.None? then WithCreated(tables, r.value)
    else WithAppended(tables, r.value)
  }

  lemma RecordKeepsTables(tables: Tables, u: Upload, p: Prepared)
    requires Inv(tables)
    ensures Inv(Recorded(tables, u, Record(tables, u, p)))
  {
    if u.documentId.None? {
      if CreateOutcome(tables, p).Success? { CreateKeepsInv(tables, p); }
    } else {
      if AppendOutcome(tables, u.documentId.value, p).Success? { AppendKeepsInv(tables, u.documentId.value, p); }
    }
  }

  lemma RecordedIsBacked(cfg: Config, objects: Objects, tables: Tables, u: Upload, p: Prepared)
    requires Record(tables, u, p).Success?
    requires Backed(cfg, objects, p.fileUrl, p.fileHash) && Backed(cfg, objects, p.pdfUrl, p.pdfHash)
    ensures RowBacked(cfg, objects, Record(tables, u, p).value)
  {
    var v := Record(tables, u, p).value;
    assert v == Numbered(p, v.version);
  }

  lemma RowsStayBacked(cfg: Config, before: Objects, after: Objects, v: Version)
    requires RowBacked(cfg, before, v) && Grows(before, after)
    ensures RowBacked(cfg, after, v)
  {
  }

  lemma BackingSurvives(cfg: Config, w: World, objects: Objects)
    requires Integrity(cfg, w) && Addressed(cfg.digest, objects) && Grows(w.objects, objects)
    ensures Integrity(cfg, World(objects, w.tables))
  {
    forall i | 0 <= i < |w.tables.rows| ensures RowBacked(cfg, objects, w.tables.rows[i]) {
      RowsStayBacked(cfg, w.objects, objects, w.tables.rows[i]);
    }
  }

  lemma RecordingKeepsIntegrity(cfg: Config, w: World, u: Upload, p: Prepared)
    requires Integrity(cfg, w)
    requires Backed(cfg, w.objects, p.fileUrl, p.fileHash) && Backed(cfg, w.objects, p.pdfUrl, p.pdfHash)
    ensures var r := Record(w.tables, u, p);
      && Integrity(cfg, World(w.objects, Recorded(w.tables, u, r)))
      && Recorded(w.tables, u, r).rows == w.tables.rows + (if r.Success? then [r.value] else [])
  {
    RecordKeepsTables(w.tables, u, p);
    if Record(w.tables, u, p).Success? { RecordedIsBacked(cfg, w.objects, w.tables, u, p); }
  }

  /** One ingestion, failing at whatever stage or not at all, keeps integrity and never loses an object or a row. */
  lemma IngestKeepsIntegrity(cfg: Config, w: World, u: Upload)
    requires Hexadecimal(cfg.digest) && Integrity(cfg, w)
    ensures var (after, r) := Ingest(cfg, w, u);
      && Integrity(cfg, after) && Grows(w.objects, after.objects)
      && after.tables.rows == w.tables.rows + (if r.Success? then [r.value] else [])
  {
    PrepareIsSound(cfg, w.objects, u);
    var (objects, prepared) := Prepare(cfg, w.objects, u);
    BackingSurvives(cfg, w, objects);
    if prepared.Success? { RecordingKeepsIntegrity(cfg, World(objects, w.tables), u, prepared.value); }
  }

  /** The worlds after each of a sequence of uploads. */
  function IngestAll(cfg: Config, w: World, uploads: seq<Upload>): World
    decreases |uploads|
  {
    if uploads == [] then w else IngestAll(cfg, Ingest(cfg, w, uploads[0]).0, uploads[1..])
  }

  /** Over any sequence of uploads with any failures, every committed version stays backed by its objects. */
  lemma {:induction false} UploadsKeepIntegrity(cfg: Config, w: World, uploads: seq<Upload>)
    requires Hexadecimal(cfg.digest) && Integrity(cfg, w)
    ensures Integrity(cfg, IngestAll(cfg, w, uploads))
    ensures w.tables.rows <= IngestAll(cfg, w, uploads).tables.rows
    ensures Grows(w.objects, IngestAll(cfg, w, uploads).objects)
    decreases |uploads|
  {
    if uploads != [] {
      IngestKeepsIntegrity(cfg, w, uploads[0]);
      UploadsKeepIntegrity(cfg, Ingest(cfg, w, uploads[0]).0, uploads[1..]);
    }
  }

  // ----- which uploads succeed, and with what -----

  lemma {:induction false} ReadsAreConcatenated(a: seq<Bytes>, b: seq<Bytes>)
    requires [] !in a
    ensures ConcatReads(a + b) == ConcatReads(a) + ConcatReads(b)
    ensures ConcatReads([[]] + b) == []
  {
    if a == [] {
      assert a + b == b;
    } else {
      ReadsAreConcatenated(a[1..], b);
      assert (a + b)[1..] == a[1..] + b && a[0] in a;
    }
  }

  /** The file: everything read up to the first empty chunk. */
  lemma FileEndsAtTheFirstEmptyRead(a: seq<Bytes>, last: Bytes, b: seq<Bytes>)
    requires [] !in a && last != []
    ensures ConcatReads(a + [last]) == ConcatReads(a) + last
    ensures ConcatReads(a + ([[]] + b)) == ConcatReads(a)
  {
    ReadsAreConcatenated(a, [last]);
    ReadsAreConcatenated(a, [[]] + b);
    ReadsAreConcatenated([], b);
    assert [last][1..] == [] && ConcatReads([last]) == last;
  }

  /** What an upload must be like to get anything stored, said of its own fields. */
  ghost predicate Acceptable(cfg: Config, u: Upload) {
    && 1 <= |Strip(u.source.basename)| <= 255
    && 1 <= |ConcatReads(u.source.chunks)| <= cfg.maxBytes
    && (u.source.failure.Some? ==> [] in u.source.chunks)
    && u.format.Success?
    && u.unsafe.None?
    && (u.format.value == Docx || u.format.value == Pptx ==> u.converted.Success?)
    && u.pages.Success? && 1 <= u.pages.value <= 500
  }

  lemma AcceptableExactly(cfg: Config, u: Upload)
    ensures Rejection(cfg, u).None? <==> Acceptable(cfg, u)
  {
  }

  /** An upload that is not acceptable - say, because the scanner found it unsafe - fails and stores nothing. */
  lemma UnacceptableUploadsChangeNothing(cfg: Config, w: World, u: Upload)
    requires !Acceptable(cfg, u)
    ensures Ingest(cfg, w, u).0 == w && Ingest(cfg, w, u).1.Failure?
  {
    AcceptableExactly(cfg, u);
  }

  /** A put works unless the stat fails, the object there has another size, or a put that is needed fails. */
  predicate PutWorks(objects: Objects, key: string, content: Bytes, fault: StoreFault) {
    && fault != StatFails
    && (key in objects ==> |objects[key]| == |content|)
    && (key !in objects ==> !fault.PutFails?)
  }

  lemma PutSucceedsExactly(bucket: string, objects: Objects, sha256: string, content: Bytes, contentType: string,
                           fault: StoreFault)
    requires IsSha256(sha256) && !Blank(contentType)
    ensures var (after, r) := PutObject(bucket, objects, sha256, content, contentType, fault);
      && (r.Success? <==> PutWorks(objects, KeyOf(sha256), content, fault))
      && (r.Success? ==> r.value == Uri(bucket, KeyOf(sha256)) && KeyOf(sha256) in after)
      && (KeyOf(sha256) !in objects && r.Success? ==> after == objects[KeyOf(sha256) := content])
      && (KeyOf(sha256) in objects || fault == StatFails || fault == PutFails(false) ==> after == objects)
  {
  }

  /** The form of a URL: the digest in small letters, under its first two digits. */
  lemma UrlForm(bucket: string, sha256: string)
    requires IsSha256(sha256) && Lower(sha256) == sha256
    ensures Uri(bucket, KeyOf(sha256)) == "minio://" + bucket + "/documents/sha256/" + sha256[..2] + "/" + sha256
  {
    assert OBJECT_PREFIX + "/sha256/" == "documents/sha256/";
    var rest := sha256[..2] + "/" + sha256;
    assert KeyOf(sha256) == "documents/sha256/" + rest;
    assert "/" + ("documents/sha256/" + rest) == "/documents/sha256/" + rest;
  }

  function FileOf(u: Upload): Bytes {
    ConcatReads(u.source.chunks)
  }

  /** A PDF is its own canonical PDF; anything else is what it was converted to. */
  function PdfOf(u: Upload): Bytes {
    if u.format == Success(Pdf) || u.converted.Failure? then FileOf(u) else u.converted.value
  }

  function TargetOf(u: Upload): Id {
    if u.documentId.Some? then u.documentId.value else u.newDocumentId
  }

  ghost predicate FactsOf(cfg: Config, u: Upload, p: Prepared) {
    && p.id == u.newId && p.documentId == TargetOf(u)
    && p.name == Strip(u.source.basename)
    && u.format == Success(p.format) && u.pages == Success(p.pageCount)
    && p.fileHash == cfg.digest(FileOf(u)) && p.pdfHash == cfg.digest(PdfOf(u))
    && p.uploadedAt == Stamp(u.now, true) && p.expiresAt == u.expiresAt
    && p.parserVersion == "document-metadata-v1"
    && (u.elapsedNs < 0 ==> p.durationMs == 0)
    && (u.elapsedNs >= 0 ==> p.durationMs * 1_000_000 <= u.elapsedNs < (p.durationMs + 1) * 1_000_000)
  }

  lemma FactsHold(cfg: Config, u: Upload, staged: Staged, fileUrl: string, pdfUrl: string)
    requires u.format.Success? && u.pages.Success? && Stage(cfg, u.source) == Success(staged)
    ensures FactsOf(cfg, u, Facts(u, staged, fileUrl, pdfUrl, cfg.digest(CanonicalPdf(u, staged))))
  {
  }

  lemma StoredFacts(cfg: Config, objects: Objects, u: Upload, staged: Staged)
    requires u.format.Success? && u.pages.Success?
    ensures var r := Store(cfg, objects, u, staged).1;
      r.Success? ==>
        r.value == Facts(u, staged, r.value.fileUrl, r.value.pdfUrl, cfg.digest(CanonicalPdf(u, staged)))
  {
  }

  lemma PreparedFacts(cfg: Config, objects: Objects, u: Upload)
    ensures var prepared := Prepare(cfg, objects, u).1;
      prepared.Success? ==> FactsOf(cfg, u, prepared.value)
  {
    if Rejection(cfg, u).None? {
      var staged := Stage(cfg, u.source).value;
      var r := Store(cfg, objects, u, staged).1;
      StoredFacts(cfg, objects, u, staged);
      if r.Success? { FactsHold(cfg, u, staged, r.value.fileUrl, r.value.pdfUrl); }
    }
  }

  lemma AcceptedNumber(tables: Tables, u: Upload, p: Prepared)
    requires Inv(tables) && Record(tables, u, p).Success? && (u.documentId.Some? ==> p.documentId == u.documentId.value)
    ensures Record(tables, u, p).value
         == Numbered(p, if u.documentId.None? then 1 else |RowsOf(tables.rows, u.documentId.value)| + 1)
  {
    if u.documentId.Some? { AppendRefinesAggregate(tables, u.documentId.value, p); }
  }

  /** The version an upload returns is made of its own facts, and is the next of its document. */
  lemma ReturnedVersion(cfg: Config, w: World, u: Upload)
    requires Inv(w.tables) && Ingest(cfg, w, u).1.Success?
    ensures Prepare(cfg, w.objects, u).1.Success?
    ensures var p := Prepare(cfg, w.objects, u).1.value;
      && FactsOf(cfg, u, p)
      && Ingest(cfg, w, u).1.value
         == Numbered(p, if u.documentId.None? then 1 else |RowsOf(w.tables.rows, u.documentId.value)| + 1)
  {
    PreparedFacts(cfg, w.objects, u);
    AcceptedNumber(w.tables, u, Prepare(cfg, w.objects, u).1.value);
  }

  /** The objects once the source has been put. */
  function WithSource(cfg: Config, objects: Objects, u: Upload): Objects
    requires IsSha256(cfg.digest(FileOf(u)))
  {
    if KeyOf(cfg.digest(FileOf(u))) in objects then objects else objects[KeyOf(cfg.digest(FileOf(u))) := FileOf(u)]
  }

  /** Both puts work; a PDF needs only one. */
  ghost predicate Storable(cfg: Config, objects: Objects, u: Upload)
    requires Hexadecimal(cfg.digest)
  {
    && PutWorks(objects, KeyOf(cfg.digest(FileOf(u))), FileOf(u), u.sourceFault)
    && (u.format != Success(Pdf) ==>
          PutWorks(WithSource(cfg, objects, u), KeyOf(cfg.digest(PdfOf(u))), PdfOf(u), u.pdfFault))
  }

  lemma ContentTypesAreNotBlank(format: Format)
    ensures !Blank(ContentType(format))
  {
    var name := ContentType(format);
    assert name[|name| - 1] == if format == Pdf then 'f' else if format == Docx then 't' else 'n';
  }

  lemma SourcePutExactly(cfg: Config, objects: Objects, u: Upload, staged: Staged)
    requires Hexadecimal(cfg.digest) && u.format.Success? && u.pages.Success?
    requires staged.content == FileOf(u) && staged.sha256 == cfg.digest(FileOf(u))
    ensures var works := PutWorks(objects, KeyOf(staged.sha256), FileOf(u), u.sourceFault);
      var url := Uri(cfg.bucket, KeyOf(staged.sha256));
      Store(cfg, objects, u, staged).1.Success? ==
        (works && StorePdf(cfg, WithSource(cfg, objects, u), u, staged, url).1.Success?)
  {
    ContentTypesAreNotBlank(u.format.value);
    PutSucceedsExactly(cfg.bucket, objects, staged.sha256, staged.content, ContentType(u.format.value), u.sourceFault);
  }

  lemma PdfPutExactly(cfg: Config, objects: Objects, u: Upload, staged: Staged, fileUrl: string)
    requires Hexadecimal(cfg.digest) && u.format.Success? && u.pages.Success? && staged.content == FileOf(u)
    ensures StorePdf(cfg, objects, u, staged, fileUrl).1.Success?
       <==> u.format.value == Pdf || PutWorks(objects, KeyOf(cfg.digest(PdfOf(u))), PdfOf(u), u.pdfFault)
  {
    ContentTypesAreNotBlank(Pdf);
    assert CanonicalPdf(u, staged) == PdfOf(u);
    PutSucceedsExactly(cfg.bucket, objects, cfg.digest(PdfOf(u)), PdfOf(u), ContentType(Pdf), u.pdfFault);
  }

  lemma PreparedExactly(cfg: Config, objects: Objects, u: Upload)
    requires Hexadecimal(cfg.digest)
    ensures Prepare(cfg, objects, u).1.Success? <==> Acceptable(cfg, u) && Storable(cfg, objects, u)
  {
    AcceptableExactly(cfg, u);
    if Rejection(cfg, u).None? {
      var staged := Stage(cfg, u.source).value;
      SourcePutExactly(cfg, objects, u, staged);
      PdfPutExactly(cfg, WithSource(cfg, objects, u), u, staged, Uri(cfg.bucket, KeyOf(staged.sha256)));
    }
  }

  /** The repository takes the upload: a new document, or new content of a known one; a new row id; a sound expiry. */
  ghost predicate Recordable(cfg: Config, t: Tables, u: Upload) {
    && !IdKnown(t.rows, u.newId)
    && (u.expiresAt.Some? ==> u.expiresAt.value.aware)
    && (u.documentId.None? ==> u.newDocumentId !in t.documents)
    && (u.documentId.Some? ==>
          u.documentId.value in t.documents
          && !HasHash(RowsOf(t.rows, u.documentId.value), cfg.digest(FileOf(u))))
    && !u.databaseFails
  }

  lemma RecordedExactly(cfg: Config, t: Tables, u: Upload, p: Prepared)
    requires Inv(t) && FactsOf(cfg, u, p) && ExpiryIsItsOnlyFault(u, p)
    ensures Record(t, u, p).Success? <==> Recordable(cfg, t, u)
  {
    if u.documentId.None? {
      CreateAccepts(t, p);
      assert Fault(Numbered(p, 1)).None? <==> !NaiveExpiring(u);
    } else if u.documentId.value in t.documents {
      var history := RowsOf(t.rows, u.documentId.value);
      AppendRefinesAggregate(t, u.documentId.value, p);
      AppendAccepts(u.documentId.value, history, Numbered(p, |history| + 1));
      assert Fault(Numbered(p, |history| + 1)).None? <==> !NaiveExpiring(u);
    }
  }

  /** Exactly which uploads succeed. */
  lemma IngestSucceedsExactly(cfg: Config, w: World, u: Upload)
    requires Hexadecimal(cfg.digest) && Integrity(cfg, w)
    ensures Ingest(cfg, w, u).1.Success?
       <==> Acceptable(cfg, u) && Storable(cfg, w.objects, u) && Recordable(cfg, w.tables, u)
  {
    PreparedExactly(cfg, w.objects, u);
    var prepared := Prepare(cfg, w.objects, u).1;
    if prepared.Success? {
      PreparedFacts(cfg, w.objects, u);
      PreparedHasOneFault(cfg, w.objects, u);
      RecordedExactly(cfg, w.tables, u, prepared.value);
    }
  }

  // ----- an expiry without a timezone -----

  predicate NaiveExpiring(u: Upload) {
    u.expiresAt.Some? && !u.expiresAt.value.aware
  }

  predicate ReportsInvalid(r: Result<Version, UploadError>) {
    r.Failure? && r.error.Repository? && r.error.error.Invalid?
  }

  /** Nothing stops the prepared facts before they are made a version. */
  predicate ReachesValidation(tables: Tables, u: Upload, p: Prepared) {
    u.documentId.Some? ==>
      u.documentId.value in tables.documents && !HashKnown(tables.rows, u.documentId.value, p.fileHash)
  }

  ghost predicate ExpiryIsItsOnlyFault(u: Upload, p: Prepared) {
    && (forall n: int :: n >= 1 ==> Fault(Numbered(p, n)) == if NaiveExpiring(u) then Some(NaiveExpiry) else None)
    && (u.documentId.Some? ==> p.documentId == u.documentId.value)
  }

  lemma PreparedHasOneFault(cfg: Config, objects: Objects, u: Upload)
    requires Hexadecimal(cfg.digest) && Addressed(cfg.digest, objects)
    ensures var prepared := Prepare(cfg, objects, u).1;
      prepared.Success? ==> ExpiryIsItsOnlyFault(u, prepared.value)
  {
    forall n: int | n >= 1
      ensures var prepared := Prepare(cfg, objects, u).1;
        prepared.Success? ==>
          Fault(Numbered(prepared.value, n)) == if NaiveExpiring(u) then Some(NaiveExpiry) else None
    {
      PreparedIsValid(cfg, objects, u, n);
    }
  }

  lemma RecordReportsExpiry(tables: Tables, u: Upload, p: Prepared)
    requires Inv(tables) && ExpiryIsItsOnlyFault(u, p)
    ensures ReportsInvalid(Record(tables, u, p)) <==> NaiveExpiring(u) && ReachesValidation(tables, u, p)
    ensures ReportsInvalid(Record(tables, u, p)) ==> Record(tables, u, p).error.error == Invalid(NaiveExpiry)
  {
    assert Fault(Numbered(p, 1)) == if NaiveExpiring(u) then Some(NaiveExpiry) else None;
    if u.documentId.Some? && u.documentId.value in tables.documents {
      var n := |RowsOf(tables.rows, u.documentId.value)| + 1;
      MaxVersionIsCount(tables.rows, u.documentId.value);
      assert Fault(Numbered(p, n)) == if NaiveExpiring(u) then Some(NaiveExpiry) else None;
    }
  }

  /**
   An upload ends with an invalid version exactly when it gets that far and its `expires_at` has no timezone.
   By then its objects are stored, and no row will ever name them on its behalf.
   */
  lemma InvalidExactlyForNaiveExpiry(cfg: Config, w: World, u: Upload)
    requires Hexadecimal(cfg.digest) && Integrity(cfg, w)
    ensures var prepared := Prepare(cfg, w.objects, u).1;
      var (after, r) := Ingest(cfg, w, u);
      && (ReportsInvalid(r) <==>
            prepared.Success? && NaiveExpiring(u) && ReachesValidation(w.tables, u, prepared.value))
      && (ReportsInvalid(r) ==>
            && r.error.error == Invalid(NaiveExpiry)
            && after.tables == w.tables
            && Backed(cfg, after.objects, prepared.value.fileUrl, prepared.value.fileHash))
  {
    var prepared := Prepare(cfg, w.objects, u).1;
    PrepareIsSound(cfg, w.objects, u);
    if prepared.Success? {
      PreparedHasOneFault(cfg, w.objects, u);
      RecordReportsExpiry(w.tables, u, prepared.value);
    }
  }

  /** It happens: the first upload of all, a PDF of one byte. */
  lemma NaiveExpiryLeavesAnOrphan(cfg: Config) returns (u: Upload)
    requires Hexadecimal(cfg.digest) && cfg.maxBytes >= 1
    ensures NaiveExpiring(u)
    ensures var (after, r) := Ingest(cfg, World(map[], Tables(map[], [])), u);
      && r == Failure(Repository(Invalid(NaiveExpiry)))
      && after.tables.rows == [] && after.objects != map[]
  {
    u := Upload(None, Some(Stamp(0, false)), Source("a", [[0]], None), Success(Pdf), None, Success([]), Success(1), 0,
                NoFault, NoFault, 1, 2, 0, false);
    var w := World(map[], Tables(map[], []));
    var content: Bytes := [0];
    assert ConcatReads([content]) == content + ConcatReads([content][1..]) == content;
    assert !Blank("a") && Strip("a") == "a" by { assert !IsSpace("a"[0]); }
    assert Stage(cfg, u.source) == Success(Staged("a", content, cfg.digest(content)));
    assert !Blank(ContentType(Pdf)) by { assert !IsSpace(ContentType(Pdf)[0]); }
    PrepareIsSound(cfg, w.objects, u);
    InvalidExactlyForNaiveExpiry(cfg, w, u);
  }

  // ----- the handler -----

  class BlobStore {
    const bucket: string
    var objects: Objects

    constructor (bucket: string)
      ensures this.bucket == bucket && objects == map[]
    {
      this.bucket, objects := bucket, map[];
    }

    method Put(sha256: string, content: Bytes, contentType: string, fault: StoreFault)
      returns (r: Result<string, UploadError>)
      modifies this
      ensures (objects, r) == PutObject(bucket, old(objects), sha256, content, contentType, fault)
    {
      if Blank(contentType) || !IsSha256(sha256) { return Failure(BadArgument); }
      var key := KeyOf(sha256);
      if fault.StatFails? { return Failure(Storage); }
      if key in objects {
        if |objects[key]| != |content| { return Failure(Storage); }
        return Success(Uri(bucket, key));
      }
      if fault.PutFails? {
        if fault.stored { objects := objects[key := content]; }
        return Failure(Storage);
      }
      objects := objects[key := content];
      r := Success(Uri(bucket, key));
    }
  }

  class UploadDocumentHandler {
    const cfg: Config
    const blobs: BlobStore
    const repository: DocumentRepository.Repository

    constructor (cfg: Config, blobs: BlobStore, repository: DocumentRepository.Repository)
      ensures this.cfg == cfg && this.blobs == blobs && this.repository == repository
    {
      this.cfg, this.blobs, this.repository := cfg, blobs, repository;
    }

    ghost function View(): World
      reads blobs, repository
    {
      World(blobs.objects, repository.View())
    }

    /** Stages 4 to 6 of `handle`: the source object, the canonical PDF object, the prepared facts. */
    method StoreObjects(u: Upload, staged: Staged) returns (r: Result<Prepared, UploadError>)
      requires cfg.bucket == blobs.bucket && u.format.Success? && u.pages.Success?
      modifies blobs
      ensures (blobs.objects, r) == Store(cfg, old(blobs.objects), u, staged)
    {
      var format := u.format.value;
      var pdf := CanonicalPdf(u, staged);
      var pdfHash := HashFile(cfg, pdf, READ_CHUNK_BYTES);
      var source := blobs.Put(staged.sha256, staged.content, ContentType(format), u.sourceFault);
      if source.Failure? { return Failure(source.error); }
      var normalized := source;
      if format != Pdf {
        normalized := blobs.Put(pdfHash, pdf, ContentType(Pdf), u.pdfFault);
        if normalized.Failure? { return Failure(normalized.error); }
      }
      r := Success(Facts(u, staged, source.value, normalized.value, pdfHash));
    }

    /** The repository call in its own transaction; when the database fails, nothing of it remains. */
    method RecordVersion(u: Upload, p: Prepared) returns (r: Result<Version, UploadError>)
      requires Inv(repository.View())
      modifies repository
      ensures r == Record(old(repository.View()), u, p)
      ensures repository.View() == Recorded(old(repository.View()), u, r)
      ensures Inv(repository.View())
    {
      ghost var before := repository.View();
      var documents, rows := repository.documents, repository.rows;
      var recorded: Result<Version, RepositoryError>;
      if u.documentId.None? {
        recorded := repository.Create(p);
      } else {
        recorded := repository.Append(u.documentId.value, p);
      }
      if recorded.Failure? { return Failure(Repository(recorded.error)); }
      if u.databaseFails {
        repository.documents, repository.rows := documents, rows;
        assert repository.View() == before;
        return Failure(Database);
      }
      r := Success(recorded.value);
    }

    method Handle(u: Upload) returns (r: Result<Version, UploadError>)
      requires cfg.bucket == blobs.bucket && Inv(repository.View())
      modifies blobs, repository
      ensures (View(), r) == Ingest(cfg, old(View()), u)
      ensures Inv(repository.View())
      ensures u.unsafe.Some? ==> r.Failure? && View() == old(View())
      ensures !Acceptable(cfg, u) ==> r.Failure? && View() == old(View())
    {
      AcceptableExactly(cfg, u);
      var staged := StageUpload(cfg, u.source);
      if staged.Failure? { return Failure(staged.error); }
      if u.format.Failure? { return Failure(Foreign(u.format.error)); }
      if u.unsafe.Some? { return Failure(Foreign(u.unsafe.value)); }
      if u.format.value != Pdf && u.converted.Failure? { return Failure(Foreign(u.converted.error)); }
      if u.pages.Failure? { return Failure(Foreign(u.pages.error)); }
      if u.pages.value > MAX_DOCUMENT_PAGES { return Failure(TooManyPages); }
      if u.pages.value < 1 { return Failure(InvalidDocument); }
      var prepared := StoreObjects(u, staged.value);
      if prepared.Failure? { return Failure(prepared.error); }
      r := RecordVersion(u, prepared.value);
    }
  }
}
