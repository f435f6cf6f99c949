/**
 * The two detection passes of `scanForFiles` (content.js) over an abstract
 * scope. A link is an element id, its `href` attribute and texts, and the
 * precomputed outcome of each `closest(...)` test the script makes; a
 * container is a `[data-attachment-id]` element with its text and the links
 * inside it, in document order.
 *
 * Pass A looks at the first file link of each attachment container; Pass B
 * at every file link of the scope. Both skip a URL already found in this
 * scan or already detected before it, and both skip URLs the ledger records
 * for the current classroom: Pass A checks the raw `href` only, Pass B both
 * the raw and the normalised form.
 */
module Scanner {
  import opened Wrappers
  import opened Seqs
  import opened Text
  import opened Urls
  import opened Ledger

  // ----- the scanned scope -----------------------------------------------------

  /** A link element with its attributes and the answers of the `closest` tests on it. */
  datatype Link = Link(
    element: nat,                // identity of the element node
    href: Option<string>,        // `getAttribute('href')`
    text: string,                // `textContent`
    ariaLabel: Option<string>,   // `getAttribute('aria-label')`
    spanText: Option<string>,    // `textContent` of its first `span`, if it has one
    inDataAttachment: bool,      // inside `[data-attachment-id]`
    inAttachmentClass: bool,     // inside `[class*="attachment"]`
    inFileAttachmentClass: bool, // inside `[class*="file-attachment"]`
    inAttachmentLabel: bool,     // inside `[aria-label*="attachment"]`
    inFileLabel: bool,           // inside `[aria-label*="file"]`
    inPost: bool)                // inside `[class*="post"]`

  /** A `[data-attachment-id]` element: its `textContent` and the links inside it. */
  datatype Container = Container(text: string, links: seq<Link>)

  /** The scanned scope: its attachment containers and its links, each in document order. */
  datatype Scope = Scope(containers: seq<Container>, links: seq<Link>)

  /** An entry of `detectedFiles`. The id stands for the script's timestamp-and-random token. */
  datatype DetectedFile = DetectedFile(id: nat, url: string, name: string, element: nat, classroomId: string)

  /** What both passes read: earlier entries, the ledger, the key of the page URL, the current classroom and the next fresh id. */
  datatype Context = Context(detected: seq<DetectedFile>, history: History, pageKey: string, classroomId: string, nextId: nat)

  function UrlOf(f: DetectedFile): string {
    f.url
  }

  /** The URLs of a list of entries, in order. */
  function FileUrls(fs: seq<DetectedFile>): (urls: seq<string>)
    ensures |urls| == |fs| && forall i :: 0 <= i < |fs| ==> urls[i] == fs[i].url
  {
    Map(fs, UrlOf)
  }

  // ----- which links are file links ----------------------------------------------

  /** The attribute test `a[href*="drive.google.com"], a[href*="docs.google.com"], a[href*="drive/userdata"]`. */
  predicate IsFileHref(href: string) {
    Contains(href, "drive.google.com") || Contains(href, "docs.google.com") || Contains(href, "drive/userdata")
  }

  predicate IsFileLink(l: Link) {
    l.href.Some? && IsFileHref(l.href.value)
  }

  /** `container.querySelector(<file link selector>)`: the first file link in document order. */
  function FirstFileLink(links: seq<Link>): (r: Option<Link>)
    ensures r.None? <==> forall k :: 0 <= k < |links| ==> !IsFileLink(links[k])
    ensures r.Some? ==> exists k :: 0 <= k < |links| && links[k] == r.value && IsFileLink(r.value)
                                && forall j :: 0 <= j < k ==> !IsFileLink(links[j])
  {
    if links == [] then None
    else if IsFileLink(links[0]) then Some(links[0])
    else
      var r := FirstFileLink(links[1..]);
      assert forall k :: 0 < k < |links| ==> links[k] == links[1..][k - 1];
      r
  }

  /** `scanScope.querySelectorAll(<file link selector>)`: every file link, in document order. */
  function FileLinks(scope: Scope): (links: seq<Link>)
    ensures forall k :: 0 <= k < |links| ==> IsFileLink(links[k])
  {
    Filter(scope.links, IsFileLink)
  }

  // ----- Pass B classification ---------------------------------------------------

  /** The href names a file: it has one of the file-id segments, or is a user-data link. */
  predicate HasFileId(href: string) {
    || Contains(href, "/file/d/")
    || Contains(href, "/document/d/")
    || Contains(href, "/spreadsheets/d/")
    || Contains(href, "/presentation/d/")
    || Contains(href, "drive/userdata")
  }

  /** Inside any of the five attachment-like containers. */
  predicate InAttachmentContainer(l: Link) {
    l.inDataAttachment || l.inAttachmentClass || l.inFileAttachmentClass || l.inAttachmentLabel || l.inFileLabel
  }

  /** A hyperlink in the text of a post: inside a post, outside attachment containers, and without a file id. */
  predicate InAnnouncementText(l: Link, href: string) {
    l.inPost && !l.inDataAttachment && !l.inAttachmentClass && !HasFileId(href)
  }

  /** Pass B keeps a link that is not announcement text and is in an attachment container or has a file id. */
  predicate Classified(l: Link, href: string) {
    !InAnnouncementText(l, href) && (InAttachmentContainer(l) || HasFileId(href))
  }

  // ----- names ---------------------------------------------------------------------

  /** `a || b` on strings: the empty string is falsy. */
  function Or(a: string, b: string): (r: string)
    ensures r == a || r == b
    ensures r != [] <==> a != [] || b != []
    ensures a != [] ==> r == a
  {
    if a != [] then a else b
  }

  /** The alternatives of the file-name pattern's extension group, in the pattern's order. */
  const NameExtensions: seq<string> :=
    ["pdf", "doc", "docx", "ppt", "pptx", "xls", "xlsx", "zip", "rar", "txt", "jpg", "jpeg", "png", "gif", "mp4", "mp3"]

  /** `\.(alt)` matches at `q` for alternative `j`, ignoring case. */
  predicate ExtensionMatchesAt(s: string, q: nat, j: nat)
    requires j < |NameExtensions|
  {
    q + 1 + |NameExtensions[j]| <= |s| && s[q] == '.' && ToLower(s[q + 1..q + 1 + |NameExtensions[j]|]) == NameExtensions[j]
  }

  /** The first alternative, from `j` on, that `\.(alt)` matches at `q`: the order the regex engine tries them in. */
  function ExtensionAt(s: string, q: nat, j: nat): (r: Option<nat>)
    requires j <= |NameExtensions|
    ensures r.Some? ==> j <= r.value < |NameExtensions|
    decreases |NameExtensions| - j
  {
    if j == |NameExtensions| then None
    else if ExtensionMatchesAt(s, q, j) then Some(j)
    else ExtensionAt(s, q, j + 1)
  }

  /** The alternative found matches and none before it does; when none is found, no alternative matches. */
  lemma {:induction false} ExtensionAtFirst(s: string, q: nat, j: nat)
    requires j <= |NameExtensions|
    ensures var r := ExtensionAt(s, q, j);
      && (r.Some? ==> ExtensionMatchesAt(s, q, r.value) && forall i :: j <= i < r.value ==> !ExtensionMatchesAt(s, q, i))
      && (r.None? ==> forall i :: j <= i < |NameExtensions| ==> !ExtensionMatchesAt(s, q, i))
    decreases |NameExtensions| - j
  {
    if j == |NameExtensions| {
      assert ExtensionAt(s, q, j) == None;
    } else if ExtensionMatchesAt(s, q, j) {
      assert ExtensionAt(s, q, j) == Some(j);
    } else {
      ExtensionAtFirst(s, q, j + 1);
      var r := ExtensionAt(s, q, j + 1);
      assert ExtensionAt(s, q, j) == r;
      var bound := if r.Some? then r.value else |NameExtensions|;
      forall i | j <= i < bound ensures !ExtensionMatchesAt(s, q, i) {
        if i > j {
          assert j + 1 <= i;
        }
      }
    }
  }

  /**
   * `[^\/]+` starting at `p`, backtracking from the end `e` downwards: the
   * first end (largest, as the quantifier is greedy) after which some
   * extension matches, and the text matched up to the end of that extension.
   */
  function BacktrackFrom(s: string, p: nat, e: nat): (r: Option<string>)
    requires p <= e <= |s|
    ensures r.Some? ==> KnownFileName(r.value) && IsSlice(s, r.value)
    decreases e
  {
    if e == p then None
    else
      match ExtensionAt(s, e, 0)
      case Some(j) =>
        ExtensionAtFirst(s, e, 0);
        MatchIsKnownName(s, p, e, j);
        Some(s[p..e + 1 + |NameExtensions[j]|])
      case None => BacktrackFrom(s, p, e - 1)
  }

  /** The text from `p` to the end of an extension matched at `e` is a known file name. */
  lemma MatchIsKnownName(s: string, p: nat, e: nat, j: nat)
    requires p < e && j < |NameExtensions| && ExtensionMatchesAt(s, e, j)
    ensures KnownFileName(s[p..e + 1 + |NameExtensions[j]|]) && IsSlice(s, s[p..e + 1 + |NameExtensions[j]|])
  {
    var x := NameExtensions[j];
    var m := s[p..e + 1 + |x|];
    assert m[|m| - |x|..] == s[e + 1..e + 1 + |x|];
    assert m[|m| - |x| - 1] == s[e];
    assert |x| + 1 < |m|;
  }

  /** At least one character, a dot, and one of the extensions in any case: what the file-name pattern captures. */
  predicate KnownFileName(name: string) {
    exists j :: 0 <= j < |NameExtensions| && |NameExtensions[j]| + 1 < |name|
      && name[|name| - |NameExtensions[j]| - 1] == '.'
      && ToLower(name[|name| - |NameExtensions[j]|..]) == NameExtensions[j]
  }

  /** Every alternative has three or four letters, so a captured name has at least five characters. */
  lemma KnownFileNamesAreLong(r: Option<string>)
    requires r.Some? ==> KnownFileName(r.value)
    ensures r.Some? ==> |r.value| >= 5
  {
    assert forall j :: 0 <= j < |NameExtensions| ==> |NameExtensions[j]| >= 3;
  }

  /** `t` is a contiguous part of `s`. */
  predicate IsSlice(s: string, t: string) {
    exists i, j :: 0 <= i <= j <= |s| && s[i..j] == t
  }

  /** The regex scan: the leftmost start from `p` on at which the pattern matches. */
  function UrlNameFrom(s: string, p: nat): (r: Option<string>)
    requires p <= |s|
    ensures r.Some? ==> KnownFileName(r.value) && IsSlice(s, r.value)
    decreases |s| - p
  {
    if p == |s| then None
    else
      match BacktrackFrom(s, p, p + |Run(s, p, NotSlash)|)
      case Some(m) => Some(m)
      case None => UrlNameFrom(s, p + 1)
  }

  /** `href.match(/([^\/]+\.(pdf|doc|docx|...|mp3))/i)?.[1]`: a file name with a known extension in the URL. */
  function UrlName(href: string): (r: Option<string>)
    ensures r.Some? ==> KnownFileName(r.value) && IsSlice(href, r.value)
  {
    UrlNameFrom(href, 0)
  }

  /**
   * The name of a Pass A entry: the trimmed link text, else the aria label,
   * else the trimmed container text, else the trimmed span text, else
   * `Attachment`; a name shorter than three UTF-16 code units is replaced by the
   * file name in the URL, or by `Attachment`.
   */
  function AttachmentName(l: Link, c: Container, href: string): (name: string)
    ensures Utf16Length(name) >= 3
    ensures Utf16Length(Trim(l.text)) >= 3 ==> name == Trim(l.text)
    ensures name == Trim(l.text) || Some(name) == l.ariaLabel || name == Trim(c.text)
         || name == Trim(l.spanText.GetOr([])) || Some(name) == UrlName(href) || name == "Attachment"
  {
    KnownFileNamesAreLong(UrlName(href));
    var first := TextName(l, c);
    if Utf16Length(first) < 3 then UrlName(href).GetOr("Attachment") else first
  }

  /**
   * The first non-empty of the trimmed link text, the aria label, the
   * trimmed container text and the trimmed span text, else `Attachment`.
   */
  function TextName(l: Link, c: Container): (name: string)
    ensures name != []
    ensures Trim(l.text) != [] ==> name == Trim(l.text)
    ensures name == Trim(l.text) || Some(name) == l.ariaLabel || name == Trim(c.text)
         || name == Trim(l.spanText.GetOr([])) || name == "Attachment"
  {
    Or(Or(Or(Or(Trim(l.text), l.ariaLabel.GetOr([])), Trim(c.text)), Trim(l.spanText.GetOr([]))), "Attachment")
  }

  /**
   * The name of a Pass B entry at position `index` among the file links:
   * the trimmed link text, else the aria label, else the trimmed span text,
   * else `File <index+1>`; a name shorter than three UTF-16 code units is replaced
   * by the file name in the URL, or by `File_<index+1>`.
   */
  function LinkName(l: Link, index: nat, href: string): (name: string)
    ensures Utf16Length(name) >= 3
    ensures Utf16Length(Trim(l.text)) >= 3 ==> name == Trim(l.text)
    ensures name == Trim(l.text) || Some(name) == l.ariaLabel || name == Trim(l.spanText.GetOr([]))
         || Some(name) == UrlName(href) || name == "File " + Decimal(index + 1) || name == "File_" + Decimal(index + 1)
  {
    KnownFileNamesAreLong(UrlName(href));
    var first := LinkText(l, index);
    if Utf16Length(first) < 3 then UrlName(href).GetOr("File_" + Decimal(index + 1)) else first
  }

  /**
   * The first non-empty of the trimmed link text, the aria label and the
   * trimmed span text, else `File <index+1>`.
   */
  function LinkText(l: Link, index: nat): (name: string)
    ensures name != []
    ensures Trim(l.text) != [] ==> name == Trim(l.text)
    ensures name == Trim(l.text) || Some(name) == l.ariaLabel || name == Trim(l.spanText.GetOr([]))
         || name == "File " + Decimal(index + 1)
  {
    Or(Or(Or(Trim(l.text), l.ariaLabel.GetOr([])), Trim(l.spanText.GetOr([]))), "File " + Decimal(index + 1))
  }

  // ----- the passes ------------------------------------------------------------------

  /** The URL was found earlier in this scan or detected before it. */
  predicate Seen(ctx: Context, found: seq<DetectedFile>, href: string) {
    href in FileUrls(found) || href in FileUrls(ctx.detected)
  }

  /** A new entry, its id the next fresh token. */
  function NewEntry(ctx: Context, found: seq<DetectedFile>, href: string, name: string, l: Link): DetectedFile {
    DetectedFile(ctx.nextId + |found|, href, name, l.element, ctx.classroomId)
  }

  /** Pass A skips a URL whose raw form the ledger records under the key of the page URL. */
  predicate DownloadedRaw(ctx: Context, href: string) {
    ctx.pageKey != [] && Has(ctx.history, ctx.pageKey, href)
  }

  /** Pass B skips a URL whose raw or normalised form the ledger records under the current classroom. */
  predicate DownloadedEither(ctx: Context, href: string) {
    ctx.classroomId != [] && (Has(ctx.history, ctx.classroomId, href) || Has(ctx.history, ctx.classroomId, NormalizeFileUrl(href)))
  }

  /** Pass A on one container. */
  function PassAStep(c: Container, ctx: Context, found: seq<DetectedFile>): seq<DetectedFile> {
    match FirstFileLink(c.links)
    case None => found
    case Some(l) =>
      var href := l.href.GetOr([]);
      if href == [] || Seen(ctx, found, href) || DownloadedRaw(ctx, href) then found
      else found + [NewEntry(ctx, found, href, AttachmentName(l, c, href), l)]
  }

  /** Pass A over the first `n` containers, after the entries `start`. */
  function PassA(containers: seq<Container>, ctx: Context, start: seq<DetectedFile>, n: nat): seq<DetectedFile>
    requires n <= |containers|
  {
    if n == 0 then start else PassAStep(containers[n - 1], ctx, PassA(containers, ctx, start, n - 1))
  }

  /** Pass B on the file link at position `index`. */
  function PassBStep(l: Link, index: nat, ctx: Context, found: seq<DetectedFile>): seq<DetectedFile> {
    var href := l.href.GetOr([]);
    if href == [] || Seen(ctx, found, href) || !Classified(l, href) || DownloadedEither(ctx, href) then found
    else found + [NewEntry(ctx, found, href, LinkName(l, index, href), l)]
  }

  /** Pass B over the first `n` file links, after the entries `start`. */
  function PassB(links: seq<Link>, ctx: Context, start: seq<DetectedFile>, n: nat): seq<DetectedFile>
    requires n <= |links|
  {
    if n == 0 then start else PassBStep(links[n - 1], n - 1, ctx, PassB(links, ctx, start, n - 1))
  }

  /** `newFiles` of a scan: Pass A over every container, then Pass B over every file link. */
  function NewFiles(scope: Scope, ctx: Context): seq<DetectedFile> {
    var a := PassA(scope.containers, ctx, [], |scope.containers|);
    PassB(FileLinks(scope), ctx, a, |FileLinks(scope)|)
  }
}
