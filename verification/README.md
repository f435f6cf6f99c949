# Bulk File Downloader for Google Classroom — a Dafny model of its core

The extension has two halves. The content script (`content.js`) runs on a
Google Classroom page. It scans the page for Drive/Docs attachments and keeps
the list of detected files. It forgets the files of a classroom the user has
left. It sends the user's selection to the background worker and, after a
successful download, records the downloaded URLs in a per-classroom ledger
kept in extension storage. A later scan adds no new entry for a file whose
URL the ledger holds (the link pass checks the raw and the normalised URL, the
attachment-container pass only the raw one). Files already listed stay listed
after they are downloaded.

The background worker (`background.js`) turns each Drive/Docs/Sheets/Slides
link into a direct download or export URL. It derives a safe file name
(illegal characters replaced, whitespace collapsed, an extension inferred from
the export format). It then either submits one download per file or fetches
every file through the page, bundles them into one ZIP archive and submits
that, falling back to individual downloads whenever the archive cannot be
built.

The model is a set of pure functions over immutable datatypes:

| module | what it models |
|---|---|
| `Wrappers`, `Seqs`, `Text` | option type, sequence helpers, and the string operations the source uses: `includes`, regex captures, `trim`, `\s`, ASCII lower-casing, `lastIndexOf`, `split`, `.length` in UTF-16 code units |
| `Naming` | `getFileExtension`, `sanitizeFileName`, and the extension repair of the individual-download loop |
| `Resolver` (+ `ResolverProofs`) | `convertToDirectDownloadUrl` and its per-kind export-format choice |
| `Orchestrator` (+ `OrchestratorProofs`) | `handleDownloadRequest`, `downloadFilesIndividually`, `downloadAndZipFiles` |
| `Urls` (+ `UrlsProofs`) | `new URL(...)` for absolute http(s) URLs, `normalizeFileUrl`, `getClassroomKey` |
| `Ledger` | the per-classroom download ledger: its load/save round trip and how a successful download records URLs |
| `Scanner` (+ `ScannerProofs`) | the two detection passes of `scanForFiles` |
| `Session` (+ `SessionProofs`) | the content script's state: `clearFilesForNewPage`, `scanForFiles`, `downloadSelectedFiles` |

Platform calls are parameters of the model:
- `chrome.downloads.download` is a function from a transfer to an accepted
  download id or a refusal.
- The page-side fetch of a file is a function from a URL to a reply.
- ZIP generation is a function from the files the archive object holds (a
  map from name to data) to an optional data URL.
- The active tab, the current time and the set of DOM elements still in the
  document are plain inputs.

A JavaScript `Set` is modelled as a duplicate-free sequence in insertion
order.

Where the code and the extension's written description differ, the model
follows the code:
- The description says both detection passes skip a file whose raw or
  normalised URL is in the ledger. In the code, the attachment-container pass
  checks only the raw URL, and only under the page's own classroom key
  (content.js:245-255). `ScannerProofs.PassAMissesNormalisedRecord` exhibits
  the consequence.
- The description says a rejected transfer fails the batch. In the code,
  `downloadFilesIndividually` catches each rejection, skips that file and
  still reports success (background.js:101-112). The only failure that reaches
  the content script is the refusal of the archive's own download
  (background.js:218-234). `OrchestratorProofs.OnlyArchiveRefusalFails`
  states this.
- The description speaks of downloaded files leaving the list. In the code, a
  successful download records the URLs and clears the selection, but the
  detected entries stay (content.js:809). `Session.OnDownloadResponse` states
  that `detected` is unchanged.
- The bundled result's message counts every requested file, not the number of
  files that went into the archive (background.js:230).
- Each usable file is added with `zip.file(name, blob)` under its sanitised
  name (background.js:187), and JSZip keeps one file per name: a later call
  under a name already present replaces the earlier data. Two selected files
  whose sanitised names agree therefore leave one file in the archive, holding
  the data of the later one, while the message still counts both.
  `OrchestratorProofs.SameNameReplaced` and
  `OrchestratorProofs.ZipMessageOvercounts` state this.

## Model

| member | source | states |
|---|---|---|
| Naming.GetFileExtension | background.js:323-329 | the extension is the text after the last dot and contains no dot; it is empty exactly when the name has no dot or ends with one |
| Naming.ReplaceIllegal | background.js:335 | same length; each of `< > : " / \ \| ? *` becomes `_` and every other character is kept in place |
| Naming.CollapseWhitespace | background.js:336 | the result has only single plain spaces as whitespace and the same words (maximal non-whitespace runs) in the same order as the input; it is empty only for empty input, and starts and ends with whitespace iff the input does; together these determine the result |
| Naming.SingleSpacedUnique | background.js:336 | two single-spaced strings with the same words that agree on being empty and on starting and ending with whitespace are equal |
| Text.WordsAreRuns | background.js:336 | the words used above are non-empty and free of whitespace, and laid end to end they are the input without its whitespace |
| Naming.CollapseCharacterised | background.js:336 | any string with those properties is the collapse of the input, so the contract pins the result down |
| Naming.CollapseSingleSpaced | background.js:336 | a string that is already single-spaced is left unchanged |
| Naming.SanitizeFileName | background.js:332-338 | the result has no illegal character, is single-spaced and trimmed, and has the same words in the same order as the input with illegal ones replaced; these determine the result |
| Naming.SanitizeCharacterised | background.js:332-338 | any sanitized string with the words of the name (illegal characters replaced) is the sanitized name |
| Naming.SanitizeFixesSanitized | background.js:332-338 | a name that is already sanitized is returned unchanged |
| Naming.SanitizeIdempotent | background.js:332-338 | sanitizing twice is sanitizing once |
| Naming.SanitizeKeepsCharacter | background.js:332-338 | a legal, non-whitespace character other than `_` occurs in the sanitized name iff it occurs in the original |
| Naming.InferredSuffix | background.js:72-82 | empty iff no `format=` marker occurs in the URL; otherwise the suffix of the first marker in the order docx, pdf, xlsx, pptx, csv |
| Naming.RepairName | background.js:66-83 | the sanitized name is a prefix of the result; a name that has an extension is kept as is; the name grows iff it has no extension and the URL carries a format marker |
| Naming.RepairedNameHasMarkerExtension | background.js:72-82 | with no extension and first marker `j`, the result is the sanitized name plus that marker's suffix, and its extension is the marker's format |
| Naming.NoEqualsNoSuffix | background.js:72-82 | a URL without `=` never adds a suffix |
| Naming.MarkerInFormatUrl | background.js:72-82 | in an export URL ending `format=<fmt>`, a marker occurs iff it matches at the `format=` position |
| Resolver.ExportFormat | background.js:263-276 | a lower-cased extension the kind allows is kept, `doc` becomes `docx` for documents, anything else gives the kind's default (pdf, xlsx, pptx); the result has no `.`, `=` or `/` |
| Resolver.ExportFormatIgnoresCase | background.js:264 | two names whose extensions agree up to case get the same format |
| ResolverProofs.DriveFileUrlResolves | background.js:251-257 | a `drive.google.com/file/d/<id>` URL becomes the `uc?export=download&id=<id>&confirm=t` URL |
| ResolverProofs.DocsDocumentUrlResolves | background.js:260-279 | a document URL becomes `/document/d/<id>/export?format=<fmt>` with the format chosen from the name |
| ResolverProofs.SheetsUrlResolves | background.js:282-298 | a spreadsheet URL becomes `/spreadsheets/d/<id>/export?format=<fmt>` |
| ResolverProofs.SlidesUrlResolves | background.js:301-315 | a presentation URL becomes `/presentation/d/<id>/export/<fmt>` |
| ResolverProofs.UnrecognisedUrlUnchanged | background.js:317-319 | a URL matching none of the four shapes is returned unchanged |
| ResolverProofs.EssayScenario | background.js:260-279 | `…/document/d/ABC123/edit` with name `Essay.docx` becomes `…/ABC123/export?format=docx`; with a bare name it becomes the pdf export |
| ResolverProofs.DriveOutputFixed | background.js:251-257 | converting a direct Drive URL again leaves it unchanged |
| ResolverProofs.DocsOutputFixed | background.js:260-279 | converting a document export URL again leaves it unchanged |
| ResolverProofs.SheetsOutputFixed | background.js:282-298 | converting a spreadsheet export URL again leaves it unchanged |
| ResolverProofs.SlidesOutputFixed | background.js:301-315 | converting a presentation export URL again leaves it unchanged |
| ResolverProofs.ConvertIdempotent | background.js:246-320 | converting any URL twice gives the same result as converting it once |
| Orchestrator.DownloadIndividually | background.js:46-113 | one planned transfer per file, nothing fetched, and always a success whose message counts the accepted downloads |
| Orchestrator.BlobOf | background.js:160-175 | a reply yields blob data iff it has no error and non-empty blob data, and then it is that data |
| Orchestrator.ArchiveNames | background.js:187 | each archive entry is named by the sanitized file name |
| Orchestrator.ArchiveName | background.js:216 | the archive is `Classroom_Files_<date>.zip` with the date the part of the ISO time before `T` |
| Orchestrator.FetchLoop | background.js:145-194 | the loop fetches every converted URL, in order, and collects exactly the entries of the files whose fetch succeeded |
| OrchestratorProofs.DeliveredRecords | background.js:101-105 | every accepted transfer is recorded with the file's name, and every record comes from an accepted transfer |
| OrchestratorProofs.DeliveredComplete | background.js:101-105 | all files are recorded iff the platform accepted every transfer |
| OrchestratorProofs.IndividualOutcome | background.js:46-113 | transfers planned in file order, success with at most one record per file, all recorded iff all accepted |
| OrchestratorProofs.ArchiveContents | background.js:145-194 | every file whose fetch returned usable data adds an entry carrying that data under the sanitized name, and every entry added comes from such a file; which entries the archive finally holds is stated by the rows below |
| OrchestratorProofs.FolderHoldsLastOf | background.js:187 | after a sequence of `zip.file` calls the archive holds a name iff some call used it, and then the data of the last such call |
| OrchestratorProofs.FolderNoLarger | background.js:187 | the archive never holds more files than there were `zip.file` calls |
| OrchestratorProofs.LastUsableIsLast | background.js:145-194 | the reference choice of file for a name is a usable file of that name, and no later file of that name is usable; with none, no file of that name is usable |
| OrchestratorProofs.LastUsableNoEarlier | background.js:145-194 | once a file of a name is usable, the chosen file for that name is that file or a later one |
| OrchestratorProofs.FolderHoldsLastUsable | background.js:145-194 | after the first n files the archive holds a name iff one of them of that name was usable, and then the data of the last such file |
| OrchestratorProofs.FolderSmaller | background.js:145-194 | two usable files of one name leave fewer files in the archive than `zip.file` calls |
| OrchestratorProofs.ArchiveHoldsLastOfName | background.js:145-194 | for a whole request the archive holds each sanitized name iff some file of that name was usable, with the data of the last such file |
| OrchestratorProofs.SameNameReplaced | background.js:187 | with two usable files of one sanitized name the archive holds that name with the data of the second or a later file, and fewer files than were added |
| OrchestratorProofs.ZipMessageOvercounts | background.js:187-230 | in that case an accepted archive is reported as `ZipCreated` with the number of requested files, more than the archive holds |
| OrchestratorProofs.BundledFallsBack | background.js:116-240 | when the archive cannot be built (no ZIP library, not on a Classroom tab, nothing fetched, generation failed) the run equals the individual download |
| OrchestratorProofs.BundledArchive | background.js:197-234 | otherwise exactly one transfer, the archive, is submitted; acceptance gives one record and a ZIP message, refusal gives the failure |
| OrchestratorProofs.BundledFetches | background.js:145-194 | the bundled run fetches the converted URL of every file, in order |
| OrchestratorProofs.OnlyArchiveRefusalFails | background.js:28-43 | a request fails iff the ZIP option is on, the archive is built and its download is refused |
| OrchestratorProofs.PlannedName | background.js:61-83 | each transfer uses the converted URL; its file name extends the sanitized name and equals it when that name has an extension |
| OrchestratorProofs.SlidesExportGetsNoSuffix | background.js:72-82 | a presentation export URL never adds a suffix to the name |
| OrchestratorProofs.DocsExportGetsPdfSuffix | background.js:260-279 | a document with a bare name is exported as pdf and saved as `<name>.pdf` |
| OrchestratorProofs.NoExtensionDefaultFormat | background.js:263-276 | a name with no extension gets the kind's default format |
| OrchestratorProofs.SlidesNameStaysBare | background.js:301-315 | a presentation with a bare name is exported as pptx but saved with no extension |
| Urls.Parse | content.js:111 | a successful parse is well formed: http(s), non-empty host, a path starting with `/`, query and fragment in their shape |
| UrlsProofs.ParseHref | content.js:111 | parsing a well-formed URL's `href` gives back the URL |
| UrlsProofs.NormalizeDropsQueryAndFragment | content.js:130-140 | the normalised URL parses to the same URL with query and fragment removed |
| UrlsProofs.NormalizeIdempotent | content.js:130-140 | normalising twice is normalising once, parsable or not |
| UrlsProofs.NormalizeIgnoresQueryAndFragment | content.js:130-140 | two URLs differing only in query and fragment normalise to the same origin plus path |
| UrlsProofs.ClassroomKeyOfCoursePath | content.js:113-118 | a path `/c/<id>[/...]` gives the key `<id>` |
| UrlsProofs.ClassroomKeySharedByCoursePages | content.js:113-118 | two pages of one course share a key whatever follows the id |
| UrlsProofs.ClassroomKeyWithoutCourse | content.js:119-121 | a path with no `/c/<id>` gives the path itself as key |
| UrlsProofs.ClassroomKeyNonEmpty | content.js:109-127 | the key is empty only for an empty URL |
| Ledger.SetOf | content.js:44-46 | building a set from a stored array gives a duplicate-free list with the same members |
| Ledger.Load | content.js:38-59 | with nothing stored the ledger is unchanged; otherwise it has the stored keys with the stored members, and it stays duplicate-free |
| Ledger.Save | content.js:62-66 | the stored arrays have the ledger's keys and list each set's members in order |
| Ledger.LoadSave | content.js:38-66 | loading what was saved gives back the ledger |
| Ledger.Record | content.js:782-807 | the key is added if missing; the classroom's set gains exactly the raw and normalised URL of each file; other classrooms are untouched and no set loses a member |
| Ledger.RecordContents | content.js:787-796 | each file's raw and normalised URL is recorded, and nothing else is added |
| Ledger.RecordOnlyGrows | content.js:782-807 | a URL recorded before is still recorded after |
| Scanner.FirstFileLink | content.js:230 | the first link of the container whose href names a Drive/Docs file, or none iff there is no such link |
| Scanner.TextName | content.js:261-265 | the trimmed link text when non-empty, otherwise the aria label, the trimmed container text, the span text or `Attachment` |
| Scanner.AttachmentName | content.js:261-276 | a name whose JavaScript `.length` (UTF-16 code units) is at least three; the trimmed link text when it is long enough, otherwise one of the fallbacks |
| Scanner.LinkName | content.js:352-366 | a name whose `.length` is at least three; the trimmed link text when long enough, otherwise aria label, span text, a known file name from the URL, or `File <n>` / `File_<n>` |
| Text.Utf16Length | content.js:268 | `.length` counts UTF-16 code units: between the number of characters and twice it, and equal to it exactly when no character lies above U+FFFF |
| ScannerProofs.EmojiLinkTextKept | content.js:352-366 | link text of an emoji and a digit (two characters, three code units) passes the length test and is the name |
| ScannerProofs.EmojiAttachmentTextKept | content.js:261-276 | the same for an attachment's link text |
| Scanner.UrlName | content.js:268-270 | a name found in the URL is a slice of it ending in one of the known extensions, compared case-insensitively |
| Scanner.ExtensionAtFirst | content.js:269 | the extension matched at a dot is the first one in the alternation order that matches there |
| ScannerProofs.ClassifiedCases | content.js:304-335 | a link with a file-id URL is always taken; any other is taken iff it is in an attachment container and not plain announcement text |
| ScannerProofs.PassAAppends | content.js:229-288 | the attachment-container pass only appends fresh entries: consecutive ids, the page's classroom, non-empty URLs not already detected or recorded raw, no duplicate URLs |
| ScannerProofs.PassAComplete | content.js:229-288 | every container's first file link with a non-empty, undetected, unrecorded URL ends up detected |
| ScannerProofs.PassAInContainerOrder | content.js:229-288 | the new entries come one per container, in container order, each from that container's first file link |
| ScannerProofs.PassBAppends | content.js:292-378 | the file-link pass only appends fresh entries whose raw and normalised URLs are both unrecorded |
| ScannerProofs.PassBSources | content.js:292-378 | every entry of the file-link pass comes from a classified file link with that URL |
| ScannerProofs.PassBInLinkOrder | content.js:292-378 | the new entries come one per link, in document order |
| ScannerProofs.PassBComplete | content.js:292-378 | every classified file link with a non-empty, undetected URL that is unrecorded in both forms ends up detected |
| ScannerProofs.NewFilesFresh | content.js:229-378 | a scan's new entries list the container pass first, have consecutive fresh ids, the current classroom, and no duplicate or already-detected URL |
| ScannerProofs.PassAMissesNormalisedRecord | content.js:245-255 | a link recorded only under its normalised URL is offered again by the container pass but not by the file-link pass |
| ScannerProofs.NormalizeChangesQueried | content.js:130-140 | a URL with a query string differs from its normalised form |
| ScannerProofs.UrlNameShortensDocx | content.js:268-270 | for a URL that is `<stem>.docx` the regex alternation picks `doc` first, giving `<stem>.doc` |
| Session.LocationChanged | content.js:143-180 | the page URL becomes the new location and the classroom key its key |
| Session.Scan | content.js:183-188 | a scan already in progress changes nothing; otherwise the scan ends not scanning, at the new location and key |
| Session.Kept | content.js:382-390 | the kept entries are, in order, exactly those of the current classroom whose element is still in the document |
| Session.Requests | content.js:757-763 | one request per entry, carrying its URL and name |
| Session.DownloadSelected | content.js:736-745 | a request exists iff some detected entry is selected; it holds exactly the selected entries, in list order (a subsequence of the list); the ZIP option defaults to on |
| Session.OnDownloadResponse | content.js:764-821 | a failed or missing reply changes nothing; success clears the selection, keeps the entries, only grows the ledger, and for a known classroom records each file's raw and normalised URL and saves |
| SessionProofs.LocationChangedCases | content.js:143-180 | a new classroom reloads the ledger, drops the old classroom's entries and the selection; the same classroom only updates the URL |
| SessionProofs.LocationChangedIdempotent | content.js:143-180 | reacting twice to the same location is reacting once |
| SessionProofs.LocationChangedValid | content.js:143-180 | a location change keeps entry URLs and ids distinct and the ledger duplicate-free |
| SessionProofs.ScanShape | content.js:183-405 | after a scan the list is the kept old entries followed by the new ones; ids advance by the number found |
| SessionProofs.ScanKeepsValid | content.js:183-405 | a scan keeps entry URLs and ids distinct, all ids issued, and the ledger duplicate-free |
| SessionProofs.ScanSplit | content.js:382-393 | after a scan every entry belongs to the current classroom; old entries still in the document come first, then fresh ones |
| SessionProofs.SelectionOutlivesEntries | content.js:382-393 | within one classroom a selected entry whose element left the document is dropped while its id stays selected |
| SessionProofs.IndividualDownloadRecordsAll | content.js:775-813 | an individual download of a non-empty selection records every selected file, raw and normalised, saves the ledger and clears the selection |
| SessionProofs.DownloadChangesNothingOnlyOnArchiveRefusal | content.js:764-821 | the state is untouched when the archive's download is refused; otherwise the selection is cleared |
| SessionProofs.DownloadOnlyGrowsLedger | content.js:782-807 | a download never removes a recorded URL and keeps the ledger duplicate-free |
| SessionProofs.DownloadSavesLedger | content.js:803 | after a download that changes anything, storage holds exactly the ledger in memory |
| SessionProofs.SaveThenLoad | content.js:38-75 | reloading right after saving changes nothing |

## Left out

- The floating panel, its rendering and toggle state, `popup.js`, click and mutation observers, and the URL-change polling are left out: they are UI and event wiring, and the model's transitions are called directly.
- `fetchFileBlobForZip` and the page's `fetch` are a parameter of the model (a function from URL to reply), because they are network I/O.
- `atob`, `Blob`, `JSZip.generateAsync` and `FileReader` are one parameter that turns the files the archive object holds into an optional data URL, because they are foreign code. Of JSZip's own behaviour only the replacement of a file by a later one of the same name is modelled (`Orchestrator.ZipFolder`).
- `chrome.downloads.download`, `chrome.tabs.query`, `chrome.runtime.lastError` and `chrome.storage.local` are parameters or fields of the state, because they are browser APIs.
- The 300 ms delays and the one-second initial delay are left out, because timing does not change any result.
- Entry ids built from `Date.now()`, the entry count and `Math.random()` are modelled as a counter (`nextId`) that yields consecutive fresh numbers; the string form and the randomness are not modelled.
- Interleavings allowed by `await` inside `scanForFiles` and `clearFilesForNewPage` are left out: each transition runs to completion. The archive download's promise being returned without `await` (so its rejection escapes the `catch`) is modelled as its effect: refusal fails the request.
- DOM queries are precomputed inputs: each link carries its `href`, text, aria label, span text and booleans for the `closest(...)` checks; each container carries its links in document order.
- `new URL(...)` is modelled for absolute URLs that start with exactly `http://` or `https://` and have a non-empty host; the model treats every other input as a parse failure, the `catch` branch of the source. Relative hrefs do fail in the source as well, because no base URL is passed. Other inputs do not all fail in the source; see the next line.
- `Urls.Parse`: does not model the canonicalisation of the WHATWG URL Standard, so on some inputs it gives a different answer from `new URL`. Schemes in upper or mixed case (`HTTPS://…`) and other schemes (`ftp:`, `mailto:`, `file:`) parse in the source but fail here. The host keeps its case, its userinfo and a default port (`:443`, `:80`), while the source lower-cases the host and leaves userinfo and default ports out of `origin`. Dot segments in the path are not resolved. Percent-encoding is not applied. Backslashes are not read as `/`. Surrounding whitespace and embedded tabs and newlines are not stripped. `normalizeFileUrl` and `getClassroomKey` inherit these differences for such inputs. The URLs the page reads from Google Classroom links are already in canonical `https://host/path` form.
- `toLowerCase` is modelled for ASCII letters only; every extension the source compares is ASCII.
- Console logging, `alert` texts and the number rendering inside messages are left out; messages are a datatype carrying the count.
- `Resolver.ConvertToDirectDownloadUrl` carries no contract of its own: its body follows the four regex captures at any position in the URL, and its behaviour is stated in the `ResolverProofs` lemmas below.
- ResolverProofs.DriveFileUrlResolves: states the conversion for URLs of the form `https://drive.google.com/file/d/<id><rest>` only, not for every string in which the pattern occurs elsewhere.
- ResolverProofs.DocsDocumentUrlResolves: states the conversion for URLs of the form `https://docs.google.com/document/d/<id><rest>` only.
- ResolverProofs.SheetsUrlResolves: states the conversion for URLs of the form `https://docs.google.com/spreadsheets/d/<id><rest>` only.
- ResolverProofs.SlidesUrlResolves: states the conversion for URLs of the form `https://docs.google.com/presentation/d/<id><rest>` only.
- `Scanner.AttachmentName`: states which candidate the name is and the first-choice case, not the full left-to-right fallback order of the `||` chain.
- `Scanner.LinkName`: states which candidate the name is and the first-choice case, not the full fallback order.
- `Scanner.UrlName`: states that a found name is a slice of the URL ending in a known extension, not that it is the regex's leftmost match; `ScannerProofs.UrlNameShortensDocx` shows one consequence of the exact matching order.
- `Session.OnDownloadResponse`, `Session.Download` and the ledger operations require a ledger whose sets are duplicate-free (`ValidHistory`), which a JavaScript `Set` always is.
