/**
 * The background worker's download request (background.js): resolve each
 * requested file, then either hand every file to the browser's download
 * manager one by one (Individual mode) or fetch them through the page,
 * bundle them into one ZIP archive and hand that over (Bundled mode).
 *
 * The browser and the page are oracles: the download manager answers the
 * `k`-th submission of a request, the page answers the `k`-th fetch, and
 * the archive builder turns the collected entries into a data URL or fails.
 * The delay between items only orders them, so it is not modelled.
 */
module Orchestrator {
  import opened Wrappers
  import opened Text
  import opened Naming
  import opened Resolver
  import opened Seqs

  // ----- requests, transfers and responses ---------------------------------

  /** One file the page asks for: its link and the desired name. */
  datatype FileRequest = FileRequest(url: string, name: string)

  /** One call to the download manager: the URL and the file name it saves under. */
  datatype Transfer = Transfer(url: string, filename: string)

  /** The download manager's answer: a download id, or the `lastError` message. */
  datatype Submission = Accepted(downloadId: nat) | Refused(error: string)

  /** An entry of the response's `files` list. */
  datatype DownloadRecord = DownloadRecord(id: nat, name: string)

  /** The response's message: `Downloaded <n> file(s)` or `Created ZIP with <n> file(s)`. */
  datatype Message = Downloaded(count: nat) | ZipCreated(count: nat)

  /** The response sent back to the page: `{success: true, files, message}` or `{success: false, error}`. */
  datatype Outcome = Succeeded(files: seq<DownloadRecord>, message: Message) | Failed(error: string)

  /** The page's answer to a `fetchFileBlob` message: a channel error, or a reply object. */
  datatype FetchReply = ChannelError(message: string) | Reply(error: Option<string>, blobData: Option<string>)

  /** A file placed in the archive, under its sanitised name, with its base64 content. */
  datatype ArchiveEntry = ArchiveEntry(name: string, data: string)

  /** The active tab: its id and its URL, when the tab exposes one. */
  datatype Tab = Tab(id: nat, url: Option<string>)

  /** The `k`-th submission of a request and the download manager's answer to it. */
  type Platform = (nat, Transfer) -> Submission

  /**
   * Everything outside the worker: the download manager, whether the
   * archive library loaded, the active tab, the page's fetch replies to
   * the `k`-th request, whether a base64 text decodes, the archive builder
   * (`generateAsync` plus the data-URL reader, given the files the archive
   * object holds) and the ISO timestamp of now.
   */
  datatype Env = Env(
    platform: Platform,
    archiveLibrary: bool,
    activeTab: Option<Tab>,
    fetch: (nat, string) -> FetchReply,
    decodes: string -> bool,
    buildArchive: map<string, string> -> Option<string>,
    now: string)

  /** What a request did: the URLs fetched, the transfers submitted, and the response. */
  datatype Run = Run(fetched: seq<string>, transfers: seq<Transfer>, outcome: Outcome)

  // ----- one file's transfer -----------------------------------------------

  /**
   * The transfer for one file: the resolved URL, and the sanitised name
   * with a suffix inferred from the resolved URL when it has no extension.
   */
  function PlanTransfer(f: FileRequest): Transfer
  {
    var direct := ConvertToDirectDownloadUrl(f.url, f.name);
    Transfer(direct, RepairName(f.name, direct))
  }

  // ----- Individual mode (downloadFilesIndividually) -------------------------

  /** The transfers of a request, one per file, in input order. */
  function Plans(files: seq<FileRequest>): (plans: seq<Transfer>)
    ensures |plans| == |files| && forall k :: 0 <= k < |files| ==> plans[k] == PlanTransfer(files[k])
  {
    Map(files, PlanTransfer)
  }

  /** The record for file `k` when the download manager accepts its transfer. */
  function RecordFor(files: seq<FileRequest>, plans: seq<Transfer>, platform: Platform, k: nat): seq<DownloadRecord>
    requires |plans| == |files| && k < |files|
  {
    match platform(k, plans[k])
    case Accepted(id) => [DownloadRecord(id, files[k].name)]
    case Refused(_) => []
  }

  /** Reference definition: the records of the accepted transfers among the first `n` files, in input order. */
  function DeliveredUpTo(files: seq<FileRequest>, plans: seq<Transfer>, platform: Platform, n: nat): (r: seq<DownloadRecord>)
    requires |plans| == |files| && n <= |files|
    ensures |r| <= n
  {
    if n == 0 then [] else DeliveredUpTo(files, plans, platform, n - 1) + RecordFor(files, plans, platform, n - 1)
  }

  /** The records of a whole request. */
  function Delivered(files: seq<FileRequest>, platform: Platform): (r: seq<DownloadRecord>)
    ensures |r| <= |files|
  {
    DeliveredUpTo(files, Plans(files), platform, |files|)
  }

  /**
   * The loop of `downloadFilesIndividually` from item `i` on: submit each
   * transfer, keep the record when accepted, carry on either way.
   */
  function IndividualLoop(files: seq<FileRequest>, plans: seq<Transfer>, platform: Platform, i: nat,
                          transfers: seq<Transfer>, records: seq<DownloadRecord>): (r: (seq<Transfer>, seq<DownloadRecord>))
    requires |plans| == |files| && i <= |files|
    requires transfers == plans[..i]
    requires records == DeliveredUpTo(files, plans, platform, i)
    ensures r.0 == plans
    ensures r.1 == DeliveredUpTo(files, plans, platform, |files|)
    decreases |files| - i
  {
    if i == |files| then
      assert plans[..i] == plans;
      (transfers, records)
    else
      assert plans[..i + 1] == plans[..i] + [plans[i]];
      IndividualLoop(files, plans, platform, i + 1, transfers + [plans[i]], records + RecordFor(files, plans, platform, i))
  }

  /** `downloadFilesIndividually`: one transfer per file in order; always a success. */
  function DownloadIndividually(files: seq<FileRequest>, platform: Platform): (run: Run)
    ensures run.fetched == []
    ensures run.transfers == Plans(files)
    ensures run.outcome == Succeeded(Delivered(files, platform), Downloaded(|Delivered(files, platform)|))
  {
    var plans := Plans(files);
    var (transfers, records) := IndividualLoop(files, plans, platform, 0, [], []);
    Run([], transfers, Succeeded(records, Downloaded(|records|)))
  }

  // ----- Bundled mode (downloadAndZipFiles) -----------------------------------

  /** The blob data a fetch reply yields, if any: an error field wins, empty data counts as none. */
  function BlobOf(reply: FetchReply): (b: Option<string>)
    ensures b.Some? ==> b.value != [] && reply.Reply? && reply.blobData == b
    ensures b.Some? <==> reply.Reply? && (reply.error.None? || reply.error.value == []) && reply.blobData.Some? && reply.blobData.value != []
  {
    match reply
    case ChannelError(_) => None
    case Reply(err, data) =>
      if err.Some? && err.value != [] then None
      else if data.Some? && data.value != [] then data
      else None
  }

  /** The name each file goes into the archive under: its sanitised name. */
  function ArchiveNames(files: seq<FileRequest>): (names: seq<string>)
    ensures |names| == |files| && forall k :: 0 <= k < |files| ==> names[k] == SanitizeFileName(files[k].name)
  {
    Map(files, (f: FileRequest) => SanitizeFileName(f.name))
  }

  /** The archive entry for file `k`, named `names[k]`, when its fetch yields decodable data. */
  function EntryFor(names: seq<string>, urls: seq<string>, env: Env, k: nat): seq<ArchiveEntry>
    requires |urls| == |names| && k < |names|
  {
    match BlobOf(env.fetch(k, urls[k]))
    case Some(data) => if env.decodes(data) then [ArchiveEntry(names[k], data)] else []
    case None => []
  }

  /** Reference definition: the entries added to the archive from the first `n` files, in input order. */
  function CollectedUpTo(names: seq<string>, urls: seq<string>, env: Env, n: nat): (r: seq<ArchiveEntry>)
    requires |urls| == |names| && n <= |names|
    ensures |r| <= n
  {
    if n == 0 then [] else CollectedUpTo(names, urls, env, n - 1) + EntryFor(names, urls, env, n - 1)
  }

  /** The entries a whole request adds to the archive. */
  function Collected(files: seq<FileRequest>, env: Env): (r: seq<ArchiveEntry>)
    ensures |r| <= |files|
  {
    CollectedUpTo(ArchiveNames(files), FetchUrls(Plans(files)), env, |files|)
  }

  /**
   * The files the archive object holds after the `zip.file` calls
   * `entries`, in call order: a map from name to data, in which a call
   * under a name already present replaces the earlier data.
   */
  function ZipFolder(entries: seq<ArchiveEntry>): (folder: map<string, string>)
    decreases |entries|
  {
    if entries == [] then map[]
    else
      var last := entries[|entries| - 1];
      ZipFolder(entries[..|entries| - 1])[last.name := last.data]
  }

  /** The URLs requested from the page: each file's resolved URL. */
  function FetchUrls(plans: seq<Transfer>): (urls: seq<string>)
    ensures |urls| == |plans| && forall k :: 0 <= k < |plans| ==> urls[k] == plans[k].url
  {
    Map(plans, (t: Transfer) => t.url)
  }

  /**
   * The fetch loop from item `i` on: request each resolved URL, add what
   * decodes, carry on either way. `urls` are the resolved URLs of the files
   * and `names` their archive names.
   */
  function FetchLoop(names: seq<string>, urls: seq<string>, env: Env, i: nat,
                     fetched: seq<string>, entries: seq<ArchiveEntry>): (r: (seq<string>, seq<ArchiveEntry>))
    requires |urls| == |names| && i <= |names|
    requires fetched == urls[..i]
    requires entries == CollectedUpTo(names, urls, env, i)
    ensures r.0 == urls
    ensures r.1 == CollectedUpTo(names, urls, env, |names|)
    decreases |names| - i
  {
    if i == |names| then
      assert urls[..i] == urls;
      (fetched, entries)
    else
      assert urls[..i + 1] == urls[..i] + [urls[i]];
      FetchLoop(names, urls, env, i + 1, fetched + [urls[i]], entries + EntryFor(names, urls, env, i))
  }

  /** `Classroom_Files_<date>.zip`, the date being the ISO timestamp up to its `T`. */
  function ArchiveName(now: string): (name: string)
    ensures name == "Classroom_Files_" + BeforeFirst(now, 'T') + ".zip"
    ensures 'T' !in name[16..|name| - 4]
  {
    "Classroom_Files_" + BeforeFirst(now, 'T') + ".zip"
  }

  /** The tab is present and its URL names the Classroom host. */
  predicate OnClassroomTab(tab: Option<Tab>) {
    tab.Some? && tab.value.url.Some? && Contains(tab.value.url.value, "classroom.google.com")
  }

  /**
   * `downloadAndZipFiles`. Without the archive library, off a Classroom tab,
   * with nothing fetched or when the archive cannot be built, it falls back
   * to Individual mode on the same list. Otherwise it submits one transfer
   * for the archive; its refusal is returned without `await` from inside
   * the `try`, so the fallback `catch` never sees it and the request fails.
   */
  function DownloadBundled(files: seq<FileRequest>, env: Env): (run: Run)
  {
    if !env.archiveLibrary then DownloadIndividually(files, env.platform)
    else if !OnClassroomTab(env.activeTab) then DownloadIndividually(files, env.platform)
    else
      var urls := FetchUrls(Plans(files));
      var (fetched, entries) := FetchLoop(ArchiveNames(files), urls, env, 0, [], []);
      if |entries| == 0 then Fallback(fetched, files, env)
      else
        match env.buildArchive(ZipFolder(entries))
        case None => Fallback(fetched, files, env)
        case Some(dataUrl) => SubmitArchive(fetched, files, dataUrl, env)
  }

  /**
   * The archive's own download: one transfer of the data URL under the
   * dated name; acceptance answers with its record and a message counting
   * the requested files, refusal with the error.
   */
  function SubmitArchive(fetched: seq<string>, files: seq<FileRequest>, dataUrl: string, env: Env): (run: Run)
  {
    var zip := Transfer(dataUrl, ArchiveName(env.now));
    match env.platform(0, zip)
    case Accepted(id) => Run(fetched, [zip], Succeeded([DownloadRecord(id, zip.filename)], ZipCreated(|files|)))
    case Refused(e) => Run(fetched, [zip], Failed(e))
  }

  /** The `catch` of Bundled mode: the fetches made so far, then Individual mode. */
  function Fallback(fetched: seq<string>, files: seq<FileRequest>, env: Env): (run: Run)
  {
    var individual := DownloadIndividually(files, env.platform);
    Run(fetched, individual.transfers, individual.outcome)
  }

  /** `handleDownloadRequest`: Bundled mode when the request asks for a ZIP, Individual mode otherwise. */
  function HandleDownloadRequest(files: seq<FileRequest>, zip: bool, env: Env): (run: Run)
  {
    if zip then DownloadBundled(files, env) else DownloadIndividually(files, env.platform)
  }
}
