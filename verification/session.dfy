/**
 * The content script's state and the transitions that change it
 * (content.js): the reaction to a location change (`clearFilesForNewPage`),
 * a scan (`scanForFiles`), the download request built from the selection,
 * and the reaction to the worker's response (`downloadSelectedFiles`).
 *
 * `window.location.href`, the scanned scope and the set of elements still in
 * the document are inputs; `chrome.storage.local` is the `stored` field.
 * Each transition runs to completion: the interleavings its `await`s allow
 * are not modelled.
 */
module Session {
  import opened Wrappers
  import opened Seqs
  import opened Urls
  import opened Ledger
  import opened Scanner
  import opened Orchestrator

  /** The script's variables, and what storage holds under the ledger's key. */
  datatype State = State(
    detected: seq<DetectedFile>,     // `detectedFiles`
    selected: set<nat>,              // `selectedFileIds`
    scanning: bool,                  // `isScanning`
    pageUrl: string,                 // `currentPageUrl`
    classroomId: Option<string>,     // `currentClassroomId`; `None` is `null`
    history: History,                // `downloadedFilesByClassroom`
    stored: Option<Stored>,          // `chrome.storage.local`'s `downloadedFilesByClassroom`
    nextId: nat)                     // the next fresh entry id

  function IdOf(f: DetectedFile): nat {
    f.id
  }

  /** The ids of a list of entries, in order. */
  function FileIds(fs: seq<DetectedFile>): (ids: seq<nat>)
    ensures |ids| == |fs| && forall i :: 0 <= i < |fs| ==> ids[i] == fs[i].id
  {
    Map(fs, IdOf)
  }

  /**
   * What every transition keeps: the ledger's sets are duplicate-free, no
   * two entries share a URL or an id, and every id was issued before
   * `nextId`.
   */
  predicate Valid(s: State) {
    && ValidHistory(s.history)
    && NoDups(FileUrls(s.detected))
    && NoDups(FileIds(s.detected))
    && forall i :: 0 <= i < |s.detected| ==> s.detected[i].id < s.nextId
  }

  /** `loadDownloadedFilesHistory`. */
  function LoadHistory(s: State): State
  {
    s.(history := Load(s.stored, s.history))
  }

  /** `saveDownloadedFilesHistory`. */
  function SaveHistory(s: State): State
  {
    s.(stored := Some(Save(s.history)))
  }

  /**
   * `clearFilesForNewPage` at `location`. A different classroom key reloads
   * the ledger, drops the entries of the old classroom, clears the
   * selection and moves to the new key and URL; the same key at a different
   * URL only moves the URL; the same URL changes nothing.
   */
  function LocationChanged(s: State, location: string): (r: State)
    ensures r.pageUrl == location && r.classroomId == Some(GetClassroomKey(location))
  {
    var newKey := GetClassroomKey(location);
    if Some(newKey) != s.classroomId then
      var previous := s.classroomId;
      LoadHistory(s).(
        detected := Filter(s.detected, (f: DetectedFile) => Some(f.classroomId) != previous),
        selected := {},
        classroomId := Some(newKey),
        pageUrl := location)
    else if location != s.pageUrl then s.(pageUrl := location)
    else s
  }

  /**
   * `scanForFiles` with the page at `location`, over `scope`, with `live`
   * the elements still in the document. A scan in progress makes it return
   * at once; that guard only matters while the page's own `await` is
   * pending. Here a scan is one step that ends with `scanning` false and no
   * other operation sets it, so from the page's initial state (`scanning`
   * false) the guard never fires. Otherwise: reload the ledger, recompute the classroom from the
   * current page URL, react to the location change, run both passes, keep
   * the old entries of the current classroom whose element is still in the
   * document, and append the new ones.
   */
  function Scan(s: State, location: string, scope: Scope, live: set<nat>): (r: State)
    ensures s.scanning ==> r == s
    ensures !s.scanning ==> !r.scanning && r.pageUrl == location && r.classroomId == Some(GetClassroomKey(location))
  {
    if s.scanning then s
    else
      var loaded := LoadHistory(s);
      var recomputed := loaded.(classroomId := Some(GetClassroomKey(loaded.pageUrl)));
      var moved := LocationChanged(recomputed, location);
      var id := GetClassroomKey(location);
      assert moved.classroomId == Some(id);
      var ctx := Context(moved.detected, moved.history, GetClassroomKey(moved.pageUrl), id, moved.nextId);
      var found := NewFiles(scope, ctx);
      var kept := Kept(moved.detected, id, live);
      moved.(detected := kept + found, nextId := moved.nextId + |found|, scanning := false)
  }

  /** The old entries a scan keeps: those of classroom `id`, then those whose element is in `live`. */
  function Kept(detected: seq<DetectedFile>, id: string, live: set<nat>): (kept: seq<DetectedFile>)
    ensures IsSubseq(kept, detected)
    ensures forall f :: f in kept <==> f in detected && f.classroomId == id && f.element in live
  {
    var ofClass := Filter(detected, (f: DetectedFile) => f.classroomId == id);
    var r := Filter(ofClass, (f: DetectedFile) => f.element in live);
    SubseqTrans(r, ofClass, detected);
    r
  }

  /** The message the page sends: the selected files' URLs and names, and whether to zip. */
  datatype Request = Request(files: seq<DetectedFile>, zip: bool)

  function RequestOf(f: DetectedFile): FileRequest {
    FileRequest(f.url, f.name)
  }

  /** The `files` of the message. */
  function Requests(files: seq<DetectedFile>): (reqs: seq<FileRequest>)
    ensures |reqs| == |files| && forall i :: 0 <= i < |files| ==> reqs[i] == FileRequest(files[i].url, files[i].name)
  {
    Map(files, RequestOf)
  }

  /**
   * The request `downloadSelectedFiles` sends: the selected entries in list
   * order, zipped unless the option box exists and is unchecked; none when
   * nothing is selected.
   */
  function DownloadSelected(s: State, zipOption: Option<bool>): (r: Option<Request>)
    ensures r.Some? <==> exists f :: f in s.detected && f.id in s.selected
    ensures r.Some? ==> r.value.zip == zipOption.GetOr(true)
    ensures r.Some? ==> forall f :: f in r.value.files <==> f in s.detected && f.id in s.selected
    ensures r.Some? ==> IsSubseq(r.value.files, s.detected)
  {
    var files := Filter(s.detected, (f: DetectedFile) => f.id in s.selected);
    if |files| == 0 then None else Some(Request(files, zipOption.GetOr(true)))
  }

  /**
   * The response callback. A channel error or a failure changes nothing. A
   * success records every requested file under the current classroom when
   * it is truthy, saves the ledger, and clears the selection.
   */
  function OnDownloadResponse(s: State, files: seq<DetectedFile>, reply: Option<Outcome>): (r: State)
    requires ValidHistory(s.history)
    ensures reply.None? || reply.value.Failed? ==> r == s
    ensures reply.Some? && reply.value.Succeeded? ==>
      && r.selected == {} && r.detected == s.detected && ValidHistory(r.history)
      && forall k, u :: Has(s.history, k, u) ==> Has(r.history, k, u)
    ensures reply.Some? && reply.value.Succeeded? && s.classroomId.Some? && s.classroomId.value != [] ==>
      && (forall f :: f in files ==> Has(r.history, s.classroomId.value, f.url) && Has(r.history, s.classroomId.value, NormalizeFileUrl(f.url)))
      && r.stored == Some(Save(r.history))
  {
    match reply
    case None => s
    case Some(Failed(_)) => s
    case Some(Succeeded(_, _)) =>
      var recorded :=
        if s.classroomId.Some? && s.classroomId.value != [] then
          var id := s.classroomId.value;
          var h := Record(s.history, id, FileUrls(files));
          RecordContents(s.history, id, FileUrls(files));
          assert forall k, u :: Has(s.history, k, u) ==> Has(h, k, u) by {
            forall k, u | Has(s.history, k, u) ensures Has(h, k, u) {
              RecordOnlyGrows(s.history, id, FileUrls(files), k, u);
            }
          }
          SaveHistory(s.(history := h))
        else s;
      recorded.(selected := {})
  }

  /** A whole download: the request built from the selection, the worker's run on it, and the response handled. */
  function Download(s: State, zipOption: Option<bool>, env: Env): (r: State)
    requires ValidHistory(s.history)
  {
    match DownloadSelected(s, zipOption)
    case None => s
    case Some(req) =>
      var run := HandleDownloadRequest(Requests(req.files), req.zip, env);
      OnDownloadResponse(s, req.files, Some(run.outcome))
  }
}
