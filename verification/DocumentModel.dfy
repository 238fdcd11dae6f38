/** The pure document aggregate (modules/documents/domain/models.py). */
module DocumentModel {
  import opened Common

  const MAX_DOCUMENT_PAGES := 500
  const SHA256_HEX_LENGTH := 64

  type Id = nat

  /** A Python datetime: an instant, and whether it carries a timezone. */
  datatype Stamp = Stamp(instant: int, aware: bool)

  datatype Format = Pdf | Docx | Pptx

  datatype Version = Version(
    id: Id,
    documentId: Id,
    name: string,
    fileUrl: string,
    pdfUrl: string,
    format: Format,
    fileHash: string,
    pdfHash: string,
    version: int,
    uploadedAt: Stamp,
    expiresAt: Option<Stamp>,
    pageCount: int,
    parserVersion: string,
    durationMs: int)

  datatype VersionFault =
    | BlankName | BlankUrl | BadHash | BadNumber | BadPageCount | BlankParser | NegativeDuration
    | NaiveUpload | NaiveExpiry | PdfNotItsOwn

  predicate IsHexDigit(c: char) {
    '0' <= c <= '9' || 'a' <= c <= 'f' || 'A' <= c <= 'F'
  }

  predicate IsSha256(value: string) {
    |value| == SHA256_HEX_LENGTH && forall i :: 0 <= i < |value| ==> IsHexDigit(value[i])
  }

  /** `DocumentVersion.__post_init__`: the first check that fails. */
  function Fault(v: Version): Option<VersionFault> {
    if Blank(v.name) then Some(BlankName)
    else if Blank(v.fileUrl) || Blank(v.pdfUrl) then Some(BlankUrl)
    else if !IsSha256(v.fileHash) || !IsSha256(v.pdfHash) then Some(BadHash)
    else if v.version < 1 then Some(BadNumber)
    else if !(1 <= v.pageCount <= MAX_DOCUMENT_PAGES) then Some(BadPageCount)
    else if Blank(v.parserVersion) then Some(BlankParser)
    else if v.durationMs < 0 then Some(NegativeDuration)
    else if !v.uploadedAt.aware then Some(NaiveUpload)
    else if v.expiresAt.Some? && !v.expiresAt.value.aware then Some(NaiveExpiry)
    else if v.format == Pdf && (v.pdfUrl != v.fileUrl || v.pdfHash != v.fileHash) then Some(PdfNotItsOwn)
    else None
  }

  ghost predicate HasText(s: string) {
    exists i :: 0 <= i < |s| && !IsSpace(s[i])
  }

  lemma BlankHasNoText(s: string)
    ensures Blank(s) <==> !HasText(s)
  {
  }

  /** Which versions are valid, rule by rule. */
  lemma ValidVersionsExactly(v: Version)
    ensures Fault(v) == None <==>
      && HasText(v.name) && HasText(v.fileUrl) && HasText(v.pdfUrl) && HasText(v.parserVersion)
      && IsSha256(v.fileHash) && IsSha256(v.pdfHash)
      && v.version >= 1 && 1 <= v.pageCount <= 500 && v.durationMs >= 0
      && v.uploadedAt.aware && (v.expiresAt.Some? ==> v.expiresAt.value.aware)
      && (v.format == Pdf ==> v.pdfUrl == v.fileUrl && v.pdfHash == v.fileHash)
  {
    BlankHasNoText(v.name);
    BlankHasNoText(v.fileUrl);
    BlankHasNoText(v.pdfUrl);
    BlankHasNoText(v.parserVersion);
  }

  /** A digest is 64 hexadecimal digits. */
  lemma DigestsAreSixtyFourDigits(value: string)
    ensures IsSha256(value) <==>
      |value| == 64 && forall i :: 0 <= i < 64 ==>
        '0' <= value[i] <= '9' || 'a' <= value[i] <= 'f' || 'A' <= value[i] <= 'F'
  {
  }

  datatype DocumentFault = NoVersions | WrongDocument | NotContiguous | DuplicateHash

  /** The history of one document: its versions are 1, 2, .., n and no two have the same content. */
  ghost predicate ValidHistory(documentId: Id, versions: seq<Version>) {
    && (forall i :: 0 <= i < |versions| ==> versions[i].documentId == documentId && versions[i].version == i + 1)
    && (forall i, j :: 0 <= i < j < |versions| ==> versions[i].fileHash != versions[j].fileHash)
  }

  predicate HasHash(versions: seq<Version>, hash: string) {
    exists i :: 0 <= i < |versions| && versions[i].fileHash == hash
  }

  /** What is wrong with the version at position k, given that all earlier ones are in order. */
  function FaultAt(documentId: Id, versions: seq<Version>, k: nat): Option<DocumentFault>
    requires k < |versions|
  {
    if versions[k].documentId != documentId then Some(WrongDocument)
    else if versions[k].version != k + 1 then Some(NotContiguous)
    else if HasHash(versions[..k], versions[k].fileHash) then Some(DuplicateHash)
    else None
  }

  datatype Document = Document(id: Id, versions: seq<Version>)

  /**
   `Document.__post_init__`. It accepts exactly the non-empty valid histories; otherwise it reports the
   fault of the first version that is out of order.
   */
  method CheckDocument(id: Id, versions: seq<Version>) returns (r: Result<Document, DocumentFault>)
    ensures r.Success? <==> versions != [] && ValidHistory(id, versions)
    ensures r.Success? ==> r.value == Document(id, versions)
    ensures r == Failure(NoVersions) <==> versions == []
    ensures r.Failure? && versions != [] ==> exists k ::
      0 <= k < |versions| && ValidHistory(id, versions[..k]) && FaultAt(id, versions, k) == Some(r.error)
  {
    if versions == [] { return Failure(NoVersions); }
    var expected := 1;
    var hashes: set<string> := {};
    for i := 0 to |versions|
      invariant expected == i + 1
      invariant ValidHistory(id, versions[..i])
      invariant forall h :: h in hashes <==> HasHash(versions[..i], h)
    {
      var version := versions[i];
      if version.documentId != id {
        assert FaultAt(id, versions, i) == Some(WrongDocument);
        return Failure(WrongDocument);
      }
      if version.version != expected {
        assert FaultAt(id, versions, i) == Some(NotContiguous);
        return Failure(NotContiguous);
      }
      if version.fileHash in hashes {
        assert FaultAt(id, versions, i) == Some(DuplicateHash);
        return Failure(DuplicateHash);
      }
      assert versions[..i + 1] == versions[..i] + [version];
      hashes := hashes + {version.fileHash};
      expected := expected + 1;
    }
    assert versions[..|versions|] == versions;
    r := Success(Document(id, versions));
  }

  /** `Document.append` succeeds on a valid document exactly for the next version of new content. */
  lemma AppendAccepts(id: Id, versions: seq<Version>, v: Version)
    requires ValidHistory(id, versions)
    ensures ValidHistory(id, versions + [v])
       <==> && v.documentId == id && v.version == |versions| + 1
            && !HasHash(versions, v.fileHash)
  {
    var longer := versions + [v];
    assert longer[|versions|] == v;
    assert forall i :: 0 <= i < |versions| ==> longer[i] == versions[i];
  }
}
