/**
 * `convertToDirectDownloadUrl` (background.js): rewrites a Google Drive,
 * Docs, Sheets or Slides URL into a direct-download or export URL, choosing
 * the export format from the extension of the desired file name.
 */
module Resolver {
  import opened Wrappers
  import opened Text
  import opened Naming

  // ----- the four recognised shapes, tried in this order -----------------------

  /** `drive.google.com`, written around its dots. */
  const DriveHost := "drive" + "." + "google" + "." + "com"
  /** `docs.google.com`, written around its dots. */
  const DocsHost := "docs" + "." + "google" + "." + "com"

  /** `drive.google.com/file/d/` */
  const DrivePattern := DriveHost + "/file/d/"
  /** `docs.google.com/document/d/` */
  const DocsPattern := DocsHost + "/document/d/"
  /** `docs.google.com/spreadsheets/d/` */
  const SheetsPattern := DocsHost + "/spreadsheets/d/"
  /** `docs.google.com/presentation/d/` */
  const SlidesPattern := DocsHost + "/presentation/d/"

  /** The id after `pat`, as `url.match(/pat([a-zA-Z0-9_-]+)/)` captures it. */
  function IdAfter(url: string, pat: string): Option<string> {
    Capture(url, pat, IsIdChar)
  }

  /** `pat` followed by an id character occurs nowhere in `url`. */
  ghost predicate NoShape(url: string, pat: string) {
    forall p: nat :: !MatchAt(url, pat, IsIdChar, p)
  }

  // ----- export formats ---------------------------------------------------------

  /** The three structured-document kinds that are exported rather than downloaded. */
  datatype DocKind = Document | Spreadsheet | Presentation

  /** The format used when the name's extension is not one the kind can export. */
  function DefaultFormat(k: DocKind): string {
    match k
    case Document => "pdf"
    case Spreadsheet => "xlsx"
    case Presentation => "pptx"
  }

  /** Extensions that select an export format of the same name. */
  function NamedFormats(k: DocKind): set<string> {
    match k
    case Document => {"docx", "txt", "rtf", "odt"}
    case Spreadsheet => {"csv", "ods", "pdf"}
    case Presentation => {"pdf", "odp"}
  }

  /**
   * The export format for a kind and a desired name: the lower-cased
   * extension when the kind can export it (a document named `.doc` gets
   * `docx`), the kind's default otherwise.
   */
  function ExportFormat(k: DocKind, fileName: string): (fmt: string)
    ensures var e := ToLower(GetFileExtension(fileName));
      && (e in NamedFormats(k) ==> fmt == e)
      && (k == Document && e == "doc" ==> fmt == "docx")
      && (e !in NamedFormats(k) && !(k == Document && e == "doc") ==> fmt == DefaultFormat(k))
    ensures '.' !in fmt && '=' !in fmt && '/' !in fmt
  {
    var e := ToLower(GetFileExtension(fileName));
    match k
    case Document =>
      if e == "docx" || e == "doc" then "docx"
      else if e == "txt" then "txt"
      else if e == "rtf" then "rtf"
      else if e == "odt" then "odt"
      else "pdf"
    case Spreadsheet =>
      if e == "csv" then "csv"
      else if e == "ods" then "ods"
      else if e == "pdf" then "pdf"
      else "xlsx"
    case Presentation =>
      if e == "pdf" then "pdf"
      else if e == "odp" then "odp"
      else "pptx"
  }

  /** The extension is compared without regard to ASCII case. */
  lemma ExportFormatIgnoresCase(k: DocKind, name1: string, name2: string)
    requires ToLower(GetFileExtension(name1)) == ToLower(GetFileExtension(name2))
    ensures ExportFormat(k, name1) == ExportFormat(k, name2)
  {
  }

  // ----- the URLs produced ----------------------------------------------------------

  /** `https://drive.google.com/uc?export=download&id=<id>&confirm=t` */
  function DriveDownloadUrl(id: string): string {
    "https://" + DriveHost + "/uc?export=download&id=" + id + "&confirm=t"
  }

  /** `https://docs.google.com/document/d/<id>/export?format=<fmt>` */
  function DocsExportUrl(id: string, fmt: string): string {
    "https://" + DocsPattern + id + "/export?format=" + fmt
  }

  /** `https://docs.google.com/spreadsheets/d/<id>/export?format=<fmt>` */
  function SheetsExportUrl(id: string, fmt: string): string {
    "https://" + SheetsPattern + id + "/export?format=" + fmt
  }

  /** `https://docs.google.com/presentation/d/<id>/export/<fmt>` */
  function SlidesExportUrl(id: string, fmt: string): string {
    "https://" + SlidesPattern + id + "/export/" + fmt
  }

  /** `convertToDirectDownloadUrl`: the first shape that matches decides; no match returns the URL. */
  function ConvertToDirectDownloadUrl(url: string, fileName: string): (r: string)
  {
    match IdAfter(url, DrivePattern)
    case Some(id) => DriveDownloadUrl(id)
    case None =>
      match IdAfter(url, DocsPattern)
      case Some(id) => DocsExportUrl(id, ExportFormat(Document, fileName))
      case None =>
        match IdAfter(url, SheetsPattern)
        case Some(id) => SheetsExportUrl(id, ExportFormat(Spreadsheet, fileName))
        case None =>
          match IdAfter(url, SlidesPattern)
          case Some(id) => SlidesExportUrl(id, ExportFormat(Presentation, fileName))
          case None => url
  }
}

/**
 * Properties of `convertToDirectDownloadUrl`: what each recognised shape
 * becomes, that unrecognised URLs pass through, and that resolving a
 * resolved URL again with the same name changes nothing.
 */
module ResolverProofs {
  import opened Wrappers
  import opened Text
  import opened Naming
  import opened Resolver

  // ----- locating matches in concrete URLs -----------------------------------

  /** One mismatching character rules out an occurrence. */
  lemma MismatchBlocks(s: string, pat: string, p: nat, k: nat)
    requires k < |pat| && (p + k < |s| ==> s[p + k] != pat[k])
    ensures !OccursAt(s, pat, p)
  {
    if p + |pat| <= |s| {
      assert s[p..p + |pat|][k] == s[p + k];
    }
  }

  /** In `a + (b.c.d) + e` with dot-free parts, the only dots are the host's two. */
  lemma HostDots(a: string, b: string, c: string, d: string, e: string)
    requires '.' !in a && '.' !in b && '.' !in c && '.' !in d && '.' !in e
    ensures var s := a + (b + "." + c + "." + d) + e;
      forall i :: 0 <= i < |s| && s[i] == '.' ==> i == |a| + |b| || i == |a| + |b| + 1 + |c|
  {
  }

  /** Occurrences of the Drive pattern in a Drive download URL can only start at 8 or 15. */
  lemma DriveUrlDriveAnchors(id: string)
    requires IsId(id)
    ensures forall p: nat :: OccursAt(DriveDownloadUrl(id), DrivePattern, p) ==> p == 8 || p == 15
  {
    assert '.' !in id;
    HostDots("https://", "drive", "google", "com", "/uc?export=download&id=" + id + "&confirm=t");
    OccurrencesAlignWith(DriveDownloadUrl(id), DrivePattern, 5, {13, 20});
  }

  /** Occurrences of a docs-host pattern in a Drive download URL can only start at 9 or 16. */
  lemma DriveUrlDocsAnchors(id: string, pat: string)
    requires IsId(id) && IsDocsHostPattern(pat)
    ensures forall p: nat :: OccursAt(DriveDownloadUrl(id), pat, p) ==> p == 9 || p == 16
  {
    assert '.' !in id;
    HostDots("https://", "drive", "google", "com", "/uc?export=download&id=" + id + "&confirm=t");
    assert pat[4] == '.';
    OccurrencesAlignWith(DriveDownloadUrl(id), pat, 4, {13, 20});
  }

  /** Every shape is absent from a Drive download URL. */
  lemma DriveDownloadUrlHasNoShape(id: string)
    requires IsId(id)
    ensures NoShape(DriveDownloadUrl(id), DrivePattern)
    ensures forall pat :: IsDocsHostPattern(pat) ==> NoShape(DriveDownloadUrl(id), pat)
  {
    DriveUrlNoDrive(id);
    forall pat | IsDocsHostPattern(pat) ensures NoShape(DriveDownloadUrl(id), pat) {
      DriveUrlNoDocs(id, pat);
    }
  }

  /** The Drive shape is absent from a Drive download URL. */
  lemma DriveUrlNoDrive(id: string)
    requires IsId(id)
    ensures NoShape(DriveDownloadUrl(id), DrivePattern)
  {
    var s := DriveDownloadUrl(id);
    DriveUrlDriveAnchors(id);
    assert s[25] != DrivePattern[17] && s[15] != DrivePattern[0];
  }

  /** No docs-host shape occurs in a Drive download URL. */
  lemma DriveUrlNoDocs(id: string, pat: string)
    requires IsId(id) && IsDocsHostPattern(pat)
    ensures NoShape(DriveDownloadUrl(id), pat)
  {
    var s := DriveDownloadUrl(id);
    DriveUrlDocsAnchors(id, pat);
    assert s[9] != pat[0] && s[16] != pat[0];
  }

  /** The three patterns on the `docs.google.com` host. */
  predicate IsDocsHostPattern(pat: string) {
    pat == DocsPattern || pat == SheetsPattern || pat == SlidesPattern
  }

  /** The path word after the docs host: `/document/d/`, `/spreadsheets/d/` or `/presentation/d/`. */
  function DocsWord(pat: string): (w: string)
    requires IsDocsHostPattern(pat)
    ensures pat == DocsHost + w && '.' !in w && |w| > 1
  {
    if pat == DocsPattern then "/document/d/"
    else if pat == SheetsPattern then "/spreadsheets/d/"
    else "/presentation/d/"
  }

  /** Where a pattern can start in `https://<docs pattern><id><tail>`. */
  lemma DocsUrlAnchors(pat: string, id: string, tail: string)
    requires IsDocsHostPattern(pat) && IsId(id) && '.' !in tail
    ensures forall p: nat :: OccursAt("https://" + pat + id + tail, DrivePattern, p) ==> p == 7 || p == 14
    ensures forall q, p: nat :: IsDocsHostPattern(q) && OccursAt("https://" + pat + id + tail, q, p) ==> p == 8 || p == 15
  {
    var s := "https://" + pat + id + tail;
    var w := DocsWord(pat);
    assert '.' !in id;
    assert s == "https://" + ("docs" + "." + "google" + "." + "com") + (w + id + tail);
    HostDots("https://", "docs", "google", "com", w + id + tail);
    OccurrencesAlignWith(s, DrivePattern, 5, {12, 19});
    forall q | IsDocsHostPattern(q) ensures forall p: nat :: OccursAt(s, q, p) ==> p == 8 || p == 15 {
      assert q[4] == '.';
      OccurrencesAlignWith(s, q, 4, {12, 19});
    }
  }

  /** The Drive shape is absent from `https://<docs pattern><id><tail>`. */
  lemma DocsHostNoDrive(pat: string, id: string, tail: string)
    requires IsDocsHostPattern(pat) && IsId(id) && '.' !in tail
    ensures NoShape("https://" + pat + id + tail, DrivePattern)
  {
    var s := "https://" + pat + id + tail;
    DocsUrlAnchors(pat, id, tail);
    assert s[7] != DrivePattern[0] && s[14] != DrivePattern[0];
  }

  /** In `https://<pat><id><tail>`, docs-host pattern `q` captures the id when it is `pat`, and nothing otherwise. */
  lemma DocsHostCapture(pat: string, q: string, id: string, tail: string)
    requires IsDocsHostPattern(pat) && IsDocsHostPattern(q) && IsId(id)
    requires tail != [] && tail[0] == '/' && '.' !in tail
    ensures IdAfter("https://" + pat + id + tail, q) == if q == pat then Some(id) else None
  {
    if q == pat {
      CaptureAfterPrefix("https://", pat, IsIdChar, id, tail);
    } else {
      OtherDocsPatternAbsent(pat, q, id, tail);
    }
  }

  /** A docs-host pattern other than the one written does not occur. */
  lemma OtherDocsPatternAbsent(pat: string, q: string, id: string, tail: string)
    requires IsDocsHostPattern(pat) && IsDocsHostPattern(q) && IsId(id) && q != pat
    requires '.' !in tail
    ensures IdAfter("https://" + pat + id + tail, q) == None
  {
    var s := "https://" + pat + id + tail;
    DocsUrlAnchors(pat, id, tail);
    DocsPatternsDifferAt16(pat, q);
    assert s[24] == pat[16];
    MismatchBlocks(s, q, 8, 16);
    MismatchBlocks(s, q, 15, 0);
  }

  /** The three docs-host patterns are distinct. */
  lemma DocsPatternsDistinct()
    ensures DocsPattern != SheetsPattern && DocsPattern != SlidesPattern && SheetsPattern != SlidesPattern
  {
    assert DocsPattern[16] == 'd' && SheetsPattern[16] == 's' && SlidesPattern[16] == 'p';
  }

  /** The three docs-host patterns are told apart by their 17th character. */
  lemma DocsPatternsDifferAt16(p: string, q: string)
    requires IsDocsHostPattern(p) && IsDocsHostPattern(q) && p != q
    ensures |p| > 16 && |q| > 16 && p[16] != q[16]
  {
  }

  /**
   * In `https://<pattern><id><tail>` with a dot-free tail starting with `/`,
   * the Drive shape is absent and the only docs-host shape is the one written.
   */
  lemma DocsHostShapes(pat: string, id: string, tail: string)
    requires IsDocsHostPattern(pat)
    requires IsId(id)
    requires tail != [] && tail[0] == '/' && '.' !in tail
    ensures NoShape("https://" + pat + id + tail, DrivePattern)
    ensures forall q :: IsDocsHostPattern(q) ==>
      IdAfter("https://" + pat + id + tail, q) == if q == pat then Some(id) else None
  {
    DocsHostNoDrive(pat, id, tail);
    forall q | IsDocsHostPattern(q)
      ensures IdAfter("https://" + pat + id + tail, q) == if q == pat then Some(id) else None
    {
      DocsHostCapture(pat, q, id, tail);
    }
  }

  // ----- what each shape becomes ------------------------------------------------

  /** A Drive `file/d/ID` URL becomes the `uc?export=download` URL for ID. */
  lemma DriveFileUrlResolves(id: string, rest: string, name: string)
    requires IsId(id)
    requires rest == [] || !IsIdChar(rest[0])
    ensures ConvertToDirectDownloadUrl("https://" + DrivePattern + id + rest, name)
            == DriveDownloadUrl(id)
  {
    CaptureAfterPrefix("https://", DrivePattern, IsIdChar, id, rest);
  }

  /** A Docs `document/d/ID` URL, with no Drive shape in it, becomes the export URL in the name's format. */
  lemma DocsDocumentUrlResolves(id: string, rest: string, name: string)
    requires IsId(id)
    requires rest == [] || !IsIdChar(rest[0])
    requires NoShape("https://" + DocsPattern + id + rest, DrivePattern)
    ensures ConvertToDirectDownloadUrl("https://" + DocsPattern + id + rest, name)
            == DocsExportUrl(id, ExportFormat(Document, name))
  {
    CaptureAfterPrefix("https://", DocsPattern, IsIdChar, id, rest);
  }

  /** A Sheets URL, with no earlier shape in it, becomes the `?format=` export URL. */
  lemma SheetsUrlResolves(id: string, rest: string, name: string)
    requires IsId(id)
    requires rest == [] || !IsIdChar(rest[0])
    requires NoShape("https://" + SheetsPattern + id + rest, DrivePattern)
    requires NoShape("https://" + SheetsPattern + id + rest, DocsPattern)
    ensures ConvertToDirectDownloadUrl("https://" + SheetsPattern + id + rest, name)
            == SheetsExportUrl(id, ExportFormat(Spreadsheet, name))
  {
    CaptureAfterPrefix("https://", SheetsPattern, IsIdChar, id, rest);
  }

  /** A Slides URL, with no earlier shape in it, becomes the path-form `/export/<fmt>` URL. */
  lemma SlidesUrlResolves(id: string, rest: string, name: string)
    requires IsId(id)
    requires rest == [] || !IsIdChar(rest[0])
    requires NoShape("https://" + SlidesPattern + id + rest, DrivePattern)
    requires NoShape("https://" + SlidesPattern + id + rest, DocsPattern)
    requires NoShape("https://" + SlidesPattern + id + rest, SheetsPattern)
    ensures ConvertToDirectDownloadUrl("https://" + SlidesPattern + id + rest, name)
            == SlidesExportUrl(id, ExportFormat(Presentation, name))
  {
    CaptureAfterPrefix("https://", SlidesPattern, IsIdChar, id, rest);
  }

  /** A URL with none of the four shapes is returned unchanged, whatever the name. */
  lemma UnrecognisedUrlUnchanged(url: string, name: string)
    requires NoShape(url, DrivePattern) && NoShape(url, DocsPattern)
    requires NoShape(url, SheetsPattern) && NoShape(url, SlidesPattern)
    ensures ConvertToDirectDownloadUrl(url, name) == url
  {
  }

  /** The document scenario's URL, spelled out. */
  lemma EssayUrlSpelled()
    ensures "https://docs.google.com/document/d/ABC123/edit" == "https://" + DocsPattern + "ABC123" + "/edit"
    ensures DocsExportUrl("ABC123", "docx") == "https://docs.google.com/document/d/ABC123/export?format=docx"
    ensures DocsExportUrl("ABC123", "pdf") == "https://docs.google.com/document/d/ABC123/export?format=pdf"
  {
    EssayPrefix();
    EssayExportUrl("docx");
    EssayExportUrl("pdf");
    assert "https://docs.google.com/document/d/ABC123/export?format=" + "docx" == "https://docs.google.com/document/d/ABC123/export?format=docx";
    assert "https://docs.google.com/document/d/ABC123/export?format=" + "pdf" == "https://docs.google.com/document/d/ABC123/export?format=pdf";
  }

  /** The scheme and the Docs pattern, spelled out. */
  lemma EssayPrefix()
    ensures "https://" + DocsPattern == "https://docs.google.com/document/d/"
    ensures "https://docs.google.com/document/d/ABC123/edit" == "https://" + DocsPattern + "ABC123" + "/edit"
  {
    DocsPatternSpelled();
    assert "https://docs.google.com/document/d/" + "ABC123" + "/edit" == "https://docs.google.com/document/d/ABC123/edit";
  }

  /** The Docs pattern, spelled out. */
  lemma DocsPatternSpelled()
    ensures "https://" + DocsPattern == "https://docs.google.com/document/d/"
  {
    assert DocsHost == "docs.google.com";
    assert DocsPattern == "docs.google.com/document/d/";
  }

  /** The scenario's export URL for format `fmt`, spelled out up to the format. */
  lemma EssayExportUrl(fmt: string)
    ensures DocsExportUrl("ABC123", fmt) == "https://docs.google.com/document/d/ABC123/export?format=" + fmt
  {
    EssayPrefix();
    assert "https://docs.google.com/document/d/" + "ABC123" + "/export?format=" == "https://docs.google.com/document/d/ABC123/export?format=";
  }

  /** The document scenario's formats: `Essay.docx` asks for docx, `Essay` has no extension. */
  lemma EssayFormats()
    ensures ExportFormat(Document, "Essay.docx") == "docx"
    ensures ExportFormat(Document, "Essay") == "pdf"
  {
    assert GetFileExtension("Essay.docx") == "docx";
    assert GetFileExtension("Essay") == "";
  }

  /** The document scenario: `Essay.docx` exports docx, `Essay` falls back to pdf. */
  lemma EssayScenario()
    ensures ConvertToDirectDownloadUrl("https://docs.google.com/document/d/ABC123/edit", "Essay.docx")
            == "https://docs.google.com/document/d/ABC123/export?format=docx"
    ensures ConvertToDirectDownloadUrl("https://docs.google.com/document/d/ABC123/edit", "Essay")
            == "https://docs.google.com/document/d/ABC123/export?format=pdf"
  {
    EssayUrlSpelled();
    EssayFormats();
    assert IsId("ABC123");
    DocsHostNoDrive(DocsPattern, "ABC123", "/edit");
    DocsDocumentUrlResolves("ABC123", "/edit", "Essay.docx");
    DocsDocumentUrlResolves("ABC123", "/edit", "Essay");
    DocsHostNoDrive(DocsPattern, "ABC123", "/edit");
  }

  // ----- idempotence ---------------------------------------------------------

  /** A Drive download URL resolves to itself. */
  lemma DriveOutputFixed(id: string, name: string)
    requires IsId(id)
    ensures ConvertToDirectDownloadUrl(DriveDownloadUrl(id), name) == DriveDownloadUrl(id)
  {
    var r := DriveDownloadUrl(id);
    DriveDownloadUrlHasNoShape(id);
    assert IsDocsHostPattern(DocsPattern) && IsDocsHostPattern(SheetsPattern) && IsDocsHostPattern(SlidesPattern);
    assert IdAfter(r, DrivePattern) == None;
    assert IdAfter(r, DocsPattern) == None;
    assert IdAfter(r, SheetsPattern) == None;
    assert IdAfter(r, SlidesPattern) == None;
  }

  /**
   * Which patterns capture an id in `https://<docs-host pattern><id><path><fmt>`,
   * the path starting with `/` and neither part holding a dot: that pattern
   * only, with that id.
   */
  lemma DocsHostIds(url: string, pat: string, id: string, path: string, fmt: string)
    requires IsDocsHostPattern(pat) && IsId(id)
    requires path != [] && path[0] == '/' && '.' !in path && '.' !in fmt
    requires url == "https://" + pat + id + path + fmt
    ensures IdAfter(url, DrivePattern) == None
    ensures IdAfter(url, DocsPattern) == if pat == DocsPattern then Some(id) else None
    ensures IdAfter(url, SheetsPattern) == if pat == SheetsPattern then Some(id) else None
    ensures IdAfter(url, SlidesPattern) == if pat == SlidesPattern then Some(id) else None
  {
    var tail := path + fmt;
    assert url == "https://" + pat + id + tail;
    DocsHostShapes(pat, id, tail);
    assert IsDocsHostPattern(DocsPattern) && IsDocsHostPattern(SheetsPattern) && IsDocsHostPattern(SlidesPattern);
  }

  /** A Docs export URL resolves to itself under the name that produced it. */
  lemma DocsOutputFixed(id: string, name: string)
    requires IsId(id)
    ensures var r := DocsExportUrl(id, ExportFormat(Document, name));
      ConvertToDirectDownloadUrl(r, name) == r
  {
    var fmt := ExportFormat(Document, name);
    var r := DocsExportUrl(id, fmt);
    DocsHostIds(r, DocsPattern, id, "/export?format=", fmt);
  }

  /** A Sheets export URL resolves to itself under the name that produced it. */
  lemma SheetsOutputFixed(id: string, name: string)
    requires IsId(id)
    ensures var r := SheetsExportUrl(id, ExportFormat(Spreadsheet, name));
      ConvertToDirectDownloadUrl(r, name) == r
  {
    var fmt := ExportFormat(Spreadsheet, name);
    var r := SheetsExportUrl(id, fmt);
    DocsPatternsDistinct();
    DocsHostIds(r, SheetsPattern, id, "/export?format=", fmt);
  }

  /** A Slides export URL resolves to itself under the name that produced it. */
  lemma SlidesOutputFixed(id: string, name: string)
    requires IsId(id)
    ensures var r := SlidesExportUrl(id, ExportFormat(Presentation, name));
      ConvertToDirectDownloadUrl(r, name) == r
  {
    var fmt := ExportFormat(Presentation, name);
    var r := SlidesExportUrl(id, fmt);
    DocsPatternsDistinct();
    DocsHostIds(r, SlidesPattern, id, "/export/", fmt);
  }

  /** Resolving any output again with the same name returns the same output. */
  lemma ConvertIdempotent(url: string, name: string)
    ensures ConvertToDirectDownloadUrl(ConvertToDirectDownloadUrl(url, name), name)
            == ConvertToDirectDownloadUrl(url, name)
  {
    match IdAfter(url, DrivePattern)
    case Some(id) =>
      DriveOutputFixed(id, name);
    case None =>
      match IdAfter(url, DocsPattern)
      case Some(id) =>
        DocsOutputFixed(id, name);
      case None =>
        match IdAfter(url, SheetsPattern)
        case Some(id) =>
          SheetsOutputFixed(id, name);
        case None =>
          match IdAfter(url, SlidesPattern)
          case Some(id) =>
            SlidesOutputFixed(id, name);
          case None =>
  }
}
