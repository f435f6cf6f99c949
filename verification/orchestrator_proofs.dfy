/**
 * Properties of the download request: what Individual mode records, when
 * Bundled mode falls back, the one failure that reaches the page, and the
 * file names the transfers carry.
 */
module OrchestratorProofs {
  import opened Wrappers
  import opened Text
  import opened Naming
  import opened Resolver
  import opened ResolverProofs
  import opened Orchestrator

  // ----- Individual mode -----------------------------------------------------

  /** Records of the first `n` files come first, whatever happens to later files. */
  lemma {:induction false} DeliveredPrefix(files: seq<FileRequest>, plans: seq<Transfer>, platform: Platform, n: nat, m: nat)
    requires |plans| == |files| && n <= m <= |files|
    ensures var short := DeliveredUpTo(files, plans, platform, n);
      |short| <= |DeliveredUpTo(files, plans, platform, m)| && DeliveredUpTo(files, plans, platform, m)[..|short|] == short
    decreases m
  {
    if n < m {
      DeliveredPrefix(files, plans, platform, n, m - 1);
      var short := DeliveredUpTo(files, plans, platform, n);
      var mid := DeliveredUpTo(files, plans, platform, m - 1);
      assert (mid + RecordFor(files, plans, platform, m - 1))[..|short|] == mid[..|short|];
    }
  }

  /**
   * A file's record is present exactly when its transfer was accepted, and
   * every record comes from an accepted transfer of a file of the request:
   * one refusal does not stop the files after it.
   */
  lemma {:induction false} DeliveredRecords(files: seq<FileRequest>, plans: seq<Transfer>, platform: Platform, n: nat)
    requires |plans| == |files| && n <= |files|
    ensures forall k :: 0 <= k < n && platform(k, plans[k]).Accepted? ==>
      DownloadRecord(platform(k, plans[k]).downloadId, files[k].name) in DeliveredUpTo(files, plans, platform, n)
    ensures forall r :: r in DeliveredUpTo(files, plans, platform, n) ==>
      exists k :: 0 <= k < n && platform(k, plans[k]) == Accepted(r.id) && r.name == files[k].name
  {
    if n > 0 {
      DeliveredRecords(files, plans, platform, n - 1);
    }
  }

  /** Every file is recorded exactly when every transfer is accepted. */
  lemma {:induction false} DeliveredComplete(files: seq<FileRequest>, plans: seq<Transfer>, platform: Platform, n: nat)
    requires |plans| == |files| && n <= |files|
    ensures |DeliveredUpTo(files, plans, platform, n)| == n <==> forall k :: 0 <= k < n ==> platform(k, plans[k]).Accepted?
  {
    if n > 0 {
      DeliveredComplete(files, plans, platform, n - 1);
      if !platform(n - 1, plans[n - 1]).Accepted? {
        assert |DeliveredUpTo(files, plans, platform, n)| < n;
      }
    }
  }

  /**
   * Individual mode: one transfer per file in input order, a success even
   * when every transfer was refused, the message counting the records.
   */
  lemma IndividualOutcome(files: seq<FileRequest>, platform: Platform)
    ensures var run := DownloadIndividually(files, platform);
      && |run.transfers| == |files|
      && (forall k :: 0 <= k < |files| ==> run.transfers[k] == PlanTransfer(files[k]))
      && run.outcome.Succeeded?
      && |run.outcome.files| <= |files|
      && run.outcome.message == Downloaded(|run.outcome.files|)
      && (|run.outcome.files| == |files| <==> forall k :: 0 <= k < |files| ==> platform(k, PlanTransfer(files[k])).Accepted?)
  {
    DeliveredComplete(files, Plans(files), platform, |files|);
  }

  // ----- Bundled mode ----------------------------------------------------------

  /** The usable blob of the `k`-th fetch, if it decodes. */
  function Usable(urls: seq<string>, env: Env, k: nat): Option<string>
    requires k < |urls|
  {
    match BlobOf(env.fetch(k, urls[k]))
    case Some(data) => if env.decodes(data) then Some(data) else None
    case None => None
  }

  /** File `k` contributes one entry, under its archive name, exactly when its fetch is usable. */
  lemma EntryForUsable(names: seq<string>, urls: seq<string>, env: Env, k: nat)
    requires |urls| == |names| && k < |names|
    ensures EntryFor(names, urls, env, k) ==
      if Usable(urls, env, k).Some? then [ArchiveEntry(names[k], Usable(urls, env, k).value)] else []
  {
  }

  /** Every archive entry is the entry of one of the files, and every file's entry is in the archive. */
  lemma CollectedEntries(names: seq<string>, urls: seq<string>, env: Env, n: nat)
    requires |urls| == |names| && n <= |names|
    ensures forall e :: e in CollectedUpTo(names, urls, env, n) ==>
      exists k :: 0 <= k < n && e in EntryFor(names, urls, env, k)
    ensures forall k, e :: 0 <= k < n && e in EntryFor(names, urls, env, k) ==> e in CollectedUpTo(names, urls, env, n)
  {
    CollectedSound(names, urls, env, n);
    CollectedComplete(names, urls, env, n);
  }

  /** `e` is the entry of one of the first `n` files. */
  ghost predicate FromSomeFile(names: seq<string>, urls: seq<string>, env: Env, n: nat, e: ArchiveEntry)
    requires |urls| == |names| && n <= |names|
  {
    exists k :: 0 <= k < n && e in EntryFor(names, urls, env, k)
  }

  /** Every collected entry comes from one of the files. */
  lemma {:induction false} CollectedSound(names: seq<string>, urls: seq<string>, env: Env, n: nat)
    requires |urls| == |names| && n <= |names|
    ensures forall e :: e in CollectedUpTo(names, urls, env, n) ==> FromSomeFile(names, urls, env, n, e)
  {
    if n > 0 {
      CollectedSound(names, urls, env, n - 1);
      var prev := CollectedUpTo(names, urls, env, n - 1);
      var last := EntryFor(names, urls, env, n - 1);
      assert CollectedUpTo(names, urls, env, n) == prev + last;
      forall e | e in prev + last ensures FromSomeFile(names, urls, env, n, e) {
        if e in prev {
          var k :| 0 <= k < n - 1 && e in EntryFor(names, urls, env, k);
        } else {
          assert e in EntryFor(names, urls, env, n - 1);
        }
      }
    }
  }

  /** Every file's entry is collected. */
  lemma {:induction false} CollectedComplete(names: seq<string>, urls: seq<string>, env: Env, n: nat)
    requires |urls| == |names| && n <= |names|
    ensures forall k, e :: 0 <= k < n && e in EntryFor(names, urls, env, k) ==> e in CollectedUpTo(names, urls, env, n)
  {
    if n > 0 {
      CollectedComplete(names, urls, env, n - 1);
      var prev := CollectedUpTo(names, urls, env, n - 1);
      var last := EntryFor(names, urls, env, n - 1);
      assert CollectedUpTo(names, urls, env, n) == prev + last;
    }
  }

  /** A file whose fetch is usable has its entry collected. */
  lemma UsableCollected(names: seq<string>, urls: seq<string>, env: Env, k: nat)
    requires |urls| == |names| && k < |names| && Usable(urls, env, k).Some?
    ensures ArchiveEntry(names[k], Usable(urls, env, k).value) in CollectedUpTo(names, urls, env, |names|)
  {
    EntryForUsable(names, urls, env, k);
    CollectedComplete(names, urls, env, |names|);
  }

  /** A collected entry is the usable data of some file, under that file's name. */
  lemma CollectedUsable(names: seq<string>, urls: seq<string>, env: Env, e: ArchiveEntry)
    requires |urls| == |names| && e in CollectedUpTo(names, urls, env, |names|)
    ensures exists k :: 0 <= k < |names| && Usable(urls, env, k) == Some(e.data) && e.name == names[k]
  {
    CollectedSound(names, urls, env, |names|);
    assert FromSomeFile(names, urls, env, |names|, e);
    var k :| 0 <= k < |names| && e in EntryFor(names, urls, env, k);
    EntryForUsable(names, urls, env, k);
  }

  /** A file whose fetch is usable is in the archive under its sanitised name. */
  lemma ArchiveHasFile(files: seq<FileRequest>, env: Env, k: nat)
    requires k < |files| && Usable(FetchUrls(Plans(files)), env, k).Some?
    ensures ArchiveEntry(SanitizeFileName(files[k].name), Usable(FetchUrls(Plans(files)), env, k).value) in Collected(files, env)
  {
    UsableCollected(ArchiveNames(files), FetchUrls(Plans(files)), env, k);
  }

  /** An archive entry is the usable data of some file, under that file's sanitised name. */
  lemma ArchiveEntryOfFile(files: seq<FileRequest>, env: Env, e: ArchiveEntry)
    requires e in Collected(files, env)
    ensures exists k :: 0 <= k < |files| && Usable(FetchUrls(Plans(files)), env, k) == Some(e.data) && e.name == SanitizeFileName(files[k].name)
  {
    var names := ArchiveNames(files);
    CollectedUsable(names, FetchUrls(Plans(files)), env, e);
    var k :| 0 <= k < |names| && Usable(FetchUrls(Plans(files)), env, k) == Some(e.data) && e.name == names[k];
    assert e.name == SanitizeFileName(files[k].name);
  }

  /**
   * The entries added to the archive (the `zip.file` calls) carry, under its
   * sanitised name, the data of every file whose fetch is usable, and
   * nothing else. Which of them the archive finally holds is stated by
   * `ArchiveHoldsLastOfName` below.
   */
  lemma ArchiveContents(files: seq<FileRequest>, env: Env)
    ensures var urls := FetchUrls(Plans(files));
      forall k :: 0 <= k < |files| && Usable(urls, env, k).Some? ==>
        ArchiveEntry(SanitizeFileName(files[k].name), Usable(urls, env, k).value) in Collected(files, env)
    ensures var urls := FetchUrls(Plans(files));
      forall e :: e in Collected(files, env) ==>
        exists k :: 0 <= k < |files| && Usable(urls, env, k) == Some(e.data) && e.name == SanitizeFileName(files[k].name)
  {
    forall k | 0 <= k < |files| && Usable(FetchUrls(Plans(files)), env, k).Some? {
      ArchiveHasFile(files, env, k);
    }
    forall e | e in Collected(files, env) {
      ArchiveEntryOfFile(files, env, e);
    }
  }

  // ----- what the archive object holds -----------------------------------------

  /**
   * Reference definition: the last of the first `n` files whose archive name
   * is `name` and whose fetch is usable.
   */
  function LastUsable(names: seq<string>, urls: seq<string>, env: Env, n: nat, name: string): (r: Option<nat>)
    requires |urls| == |names| && n <= |names|
    ensures r.Some? ==> r.value < n
  {
    if n == 0 then None
    else if names[n - 1] == name && Usable(urls, env, n - 1).Some? then Some(n - 1)
    else LastUsable(names, urls, env, n - 1, name)
  }

  /** The file `LastUsable` picks is usable and of that name, and no later file of that name is usable. */
  lemma {:induction false} LastUsableIsLast(names: seq<string>, urls: seq<string>, env: Env, n: nat, name: string)
    requires |urls| == |names| && n <= |names|
    ensures var r := LastUsable(names, urls, env, n, name);
      && (r.Some? ==> names[r.value] == name && Usable(urls, env, r.value).Some?)
      && (r.Some? ==> forall j :: r.value < j < n && names[j] == name ==> Usable(urls, env, j).None?)
      && (r.None? ==> forall j :: 0 <= j < n && names[j] == name ==> Usable(urls, env, j).None?)
    decreases n
  {
    if n > 0 && !(names[n - 1] == name && Usable(urls, env, n - 1).Some?) {
      LastUsableIsLast(names, urls, env, n - 1, name);
    }
  }

  /** One more `zip.file` call adds its name, or replaces the data under it. */
  lemma ZipFolderSnoc(entries: seq<ArchiveEntry>, e: ArchiveEntry)
    ensures ZipFolder(entries + [e]) == ZipFolder(entries)[e.name := e.data]
  {
    assert (entries + [e])[..|entries|] == entries;
  }

  /** The data of the last of `entries` added under `name`, if any. */
  function LastOf(entries: seq<ArchiveEntry>, name: string): Option<string>
    decreases |entries|
  {
    if entries == [] then None
    else if entries[|entries| - 1].name == name then Some(entries[|entries| - 1].data)
    else LastOf(entries[..|entries| - 1], name)
  }

  /** The archive object holds, under each name, the data of the last call with that name. */
  lemma {:induction false} FolderHoldsLastOf(entries: seq<ArchiveEntry>, name: string)
    ensures name in ZipFolder(entries) <==> LastOf(entries, name).Some?
    ensures name in ZipFolder(entries) ==> ZipFolder(entries)[name] == LastOf(entries, name).value
    decreases |entries|
  {
    if entries != [] {
      FolderHoldsLastOf(entries[..|entries| - 1], name);
    }
  }

  /** File `n - 1` is the last entry under `name` if it is usable and of that name; otherwise the earlier files decide. */
  lemma LastOfStep(names: seq<string>, urls: seq<string>, env: Env, n: nat, name: string)
    requires |urls| == |names| && 0 < n <= |names|
    ensures var u := Usable(urls, env, n - 1);
      LastOf(CollectedUpTo(names, urls, env, n), name) ==
        if u.Some? && names[n - 1] == name then u else LastOf(CollectedUpTo(names, urls, env, n - 1), name)
  {
    var prev := CollectedUpTo(names, urls, env, n - 1);
    var u := Usable(urls, env, n - 1);
    EntryForUsable(names, urls, env, n - 1);
    if u.Some? {
      var e := ArchiveEntry(names[n - 1], u.value);
      assert CollectedUpTo(names, urls, env, n) == prev + [e];
      assert (prev + [e])[..|prev|] == prev;
    } else {
      assert CollectedUpTo(names, urls, env, n) == prev + [] == prev;
    }
  }

  /** The last entry under `name` among the first `n` files is the last usable file of that name. */
  lemma {:induction false} LastOfCollected(names: seq<string>, urls: seq<string>, env: Env, n: nat, name: string)
    requires |urls| == |names| && n <= |names|
    ensures var k := LastUsable(names, urls, env, n, name);
      LastOf(CollectedUpTo(names, urls, env, n), name) ==
        if k.Some? then Usable(urls, env, k.value) else None
    decreases n
  {
    if n > 0 {
      LastOfStep(names, urls, env, n, name);
      if !(Usable(urls, env, n - 1).Some? && names[n - 1] == name) {
        LastOfCollected(names, urls, env, n - 1, name);
      }
    }
  }

  /**
   * After the first `n` files the archive object holds `name` exactly when
   * one of them of that name was usable, and then it holds the data of the
   * last such file.
   */
  lemma FolderHoldsLastUsable(names: seq<string>, urls: seq<string>, env: Env, n: nat, name: string)
    requires |urls| == |names| && n <= |names|
    ensures var folder := ZipFolder(CollectedUpTo(names, urls, env, n));
      var k := LastUsable(names, urls, env, n, name);
      && (name in folder <==> k.Some?)
      && (k.Some? ==> Some(folder[name]) == Usable(urls, env, k.value))
  {
    FolderHoldsLastOf(CollectedUpTo(names, urls, env, n), name);
    LastOfCollected(names, urls, env, n, name);
  }

  /** The archive object never holds more files than there were `zip.file` calls. */
  lemma {:induction false} FolderNoLarger(entries: seq<ArchiveEntry>)
    ensures |ZipFolder(entries).Keys| <= |entries|
    decreases |entries|
  {
    if entries != [] {
      var prev := entries[..|entries| - 1];
      var last := entries[|entries| - 1];
      FolderNoLarger(prev);
      assert ZipFolder(entries) == ZipFolder(prev)[last.name := last.data];
      assert ZipFolder(entries).Keys == ZipFolder(prev).Keys + {last.name};
    }
  }

  /** File `n - 1` either adds its usable data under its name to the archive object or leaves it as it was. */
  lemma FolderStep(names: seq<string>, urls: seq<string>, env: Env, n: nat)
    requires |urls| == |names| && 0 < n <= |names|
    ensures var prev := CollectedUpTo(names, urls, env, n - 1);
      var u := Usable(urls, env, n - 1);
      && (u.Some? ==> |CollectedUpTo(names, urls, env, n)| == |prev| + 1)
      && ZipFolder(CollectedUpTo(names, urls, env, n)) ==
         if u.Some? then ZipFolder(prev)[names[n - 1] := u.value] else ZipFolder(prev)
  {
    var prev := CollectedUpTo(names, urls, env, n - 1);
    var u := Usable(urls, env, n - 1);
    EntryForUsable(names, urls, env, n - 1);
    if u.Some? {
      ZipFolderSnoc(prev, ArchiveEntry(names[n - 1], u.value));
    } else {
      assert CollectedUpTo(names, urls, env, n) == prev + [] == prev;
    }
  }

  /** Some `zip.file` call among `entries` replaced an earlier one: fewer files remain than calls were made. */
  predicate Overwritten(entries: seq<ArchiveEntry>) {
    |ZipFolder(entries).Keys| < |entries|
  }

  /** The second of two usable files of one name adds no new name to the archive object. */
  lemma FolderSmallerAtSecond(names: seq<string>, urls: seq<string>, env: Env, i: nat, j: nat)
    requires |urls| == |names| && i < j < |names|
    requires names[i] == names[j] && Usable(urls, env, i).Some? && Usable(urls, env, j).Some?
    ensures Overwritten(CollectedUpTo(names, urls, env, j + 1))
  {
    var prev := CollectedUpTo(names, urls, env, j);
    LastUsableIsLast(names, urls, env, j, names[j]);
    FolderHoldsLastUsable(names, urls, env, j, names[j]);
    assert names[j] in ZipFolder(prev).Keys;
    FolderNoLarger(prev);
    FolderStep(names, urls, env, j + 1);
    assert ZipFolder(CollectedUpTo(names, urls, env, j + 1)).Keys == ZipFolder(prev).Keys;
  }

  /** A later file keeps the archive object's name count below the number of calls. */
  lemma FolderSmallerStep(names: seq<string>, urls: seq<string>, env: Env, n: nat)
    requires |urls| == |names| && 0 < n <= |names|
    requires Overwritten(CollectedUpTo(names, urls, env, n - 1))
    ensures Overwritten(CollectedUpTo(names, urls, env, n))
  {
    var prev := CollectedUpTo(names, urls, env, n - 1);
    FolderStep(names, urls, env, n);
    if Usable(urls, env, n - 1).Some? {
      assert ZipFolder(CollectedUpTo(names, urls, env, n)).Keys == ZipFolder(prev).Keys + {names[n - 1]};
    }
  }

  /** A usable file `j` among the first `n` means the last usable file of its name is `j` or later. */
  lemma {:induction false} LastUsableNoEarlier(names: seq<string>, urls: seq<string>, env: Env, n: nat, j: nat)
    requires |urls| == |names| && j < n <= |names| && Usable(urls, env, j).Some?
    ensures var r := LastUsable(names, urls, env, n, names[j]); r.Some? && j <= r.value
    decreases n
  {
    if n - 1 != j && !(names[n - 1] == names[j] && Usable(urls, env, n - 1).Some?) {
      LastUsableNoEarlier(names, urls, env, n - 1, j);
    }
  }

  /** Two usable files of one name among the first `n` leave fewer names than calls. */
  lemma {:induction false} FolderSmaller(names: seq<string>, urls: seq<string>, env: Env, n: nat, i: nat, j: nat)
    requires |urls| == |names| && i < j < n <= |names|
    requires names[i] == names[j] && Usable(urls, env, i).Some? && Usable(urls, env, j).Some?
    ensures Overwritten(CollectedUpTo(names, urls, env, n))
    decreases n
  {
    if n - 1 == j {
      FolderSmallerAtSecond(names, urls, env, i, j);
    } else {
      FolderSmaller(names, urls, env, n - 1, i, j);
      FolderSmallerStep(names, urls, env, n);
    }
  }

  /**
   * The archive holds a name exactly when some file of that sanitised name
   * had a usable fetch, and then it holds the data of the last such file.
   */
  lemma ArchiveHoldsLastOfName(files: seq<FileRequest>, env: Env, name: string)
    ensures var folder := ZipFolder(Collected(files, env));
      var k := LastUsable(ArchiveNames(files), FetchUrls(Plans(files)), env, |files|, name);
      && (name in folder <==> k.Some?)
      && (k.Some? ==> Some(folder[name]) == Usable(FetchUrls(Plans(files)), env, k.value))
  {
    FolderHoldsLastUsable(ArchiveNames(files), FetchUrls(Plans(files)), env, |files|, name);
  }

  /**
   * Two usable files with one sanitised name leave a single archive file:
   * its data comes from a file no earlier than the second, so the first is
   * lost, and the archive holds fewer files than were added.
   */
  lemma SameNameReplaced(files: seq<FileRequest>, env: Env, i: nat, j: nat)
    requires i < j < |files|
    requires SanitizeFileName(files[i].name) == SanitizeFileName(files[j].name)
    requires Usable(FetchUrls(Plans(files)), env, i).Some? && Usable(FetchUrls(Plans(files)), env, j).Some?
    ensures var name := SanitizeFileName(files[j].name);
      var folder := ZipFolder(Collected(files, env));
      && name in folder
      && exists k :: j <= k < |files| && SanitizeFileName(files[k].name) == name
                     && Some(folder[name]) == Usable(FetchUrls(Plans(files)), env, k)
    ensures Overwritten(Collected(files, env))
  {
    var names := ArchiveNames(files);
    var urls := FetchUrls(Plans(files));
    var name := SanitizeFileName(files[j].name);
    LastUsableNoEarlier(names, urls, env, |files|, j);
    LastUsableIsLast(names, urls, env, |files|, name);
    FolderHoldsLastUsable(names, urls, env, |files|, name);
    var k := LastUsable(names, urls, env, |files|, name).value;
    assert j <= k < |files| && SanitizeFileName(files[k].name) == name;
    FolderSmaller(names, urls, env, |files|, i, j);
  }

  /**
   * With two usable files of one sanitised name, an accepted archive is
   * reported as `ZipCreated(files.length)`, more files than it holds.
   */
  lemma ZipMessageOvercounts(files: seq<FileRequest>, env: Env, i: nat, j: nat)
    requires i < j < |files|
    requires SanitizeFileName(files[i].name) == SanitizeFileName(files[j].name)
    requires Usable(FetchUrls(Plans(files)), env, i).Some? && Usable(FetchUrls(Plans(files)), env, j).Some?
    requires BuildsArchive(files, env) && env.platform(0, ArchiveTransfer(files, env)).Accepted?
    ensures DownloadBundled(files, env).outcome.Succeeded?
    ensures DownloadBundled(files, env).outcome.message == ZipCreated(|files|)
    ensures |files| > |ZipFolder(Collected(files, env)).Keys|
  {
    BundledArchive(files, env);
    SameNameReplaced(files, env, i, j);
  }

  /** The conditions under which Bundled mode builds and submits an archive. */
  predicate BuildsArchive(files: seq<FileRequest>, env: Env) {
    && env.archiveLibrary
    && OnClassroomTab(env.activeTab)
    && |Collected(files, env)| > 0
    && env.buildArchive(ZipFolder(Collected(files, env))).Some?
  }

  /** The archive transfer, when one is built. */
  function ArchiveTransfer(files: seq<FileRequest>, env: Env): Transfer
    requires BuildsArchive(files, env)
  {
    Transfer(env.buildArchive(ZipFolder(Collected(files, env))).value, ArchiveName(env.now))
  }

  /**
   * Without the library, off a Classroom tab, with nothing added or with no
   * archive built, Bundled mode submits and answers exactly what Individual
   * mode does on the same list.
   */
  lemma BundledFallsBack(files: seq<FileRequest>, env: Env)
    requires !BuildsArchive(files, env)
    ensures DownloadBundled(files, env).transfers == DownloadIndividually(files, env.platform).transfers
    ensures DownloadBundled(files, env).outcome == DownloadIndividually(files, env.platform).outcome
  {
    if env.archiveLibrary && OnClassroomTab(env.activeTab) {
      BundledFetches(files, env);
      assert DownloadBundled(files, env) == Fallback(FetchUrls(Plans(files)), files, env);
    }
  }

  /**
   * Otherwise exactly one transfer is made, named after the date, and the
   * message counts the requested files, not the entries added; the fetches
   * are the files' resolved URLs in input order.
   */
  lemma BundledArchive(files: seq<FileRequest>, env: Env)
    requires BuildsArchive(files, env)
    ensures var run := DownloadBundled(files, env);
      && run.fetched == FetchUrls(Plans(files))
      && run.transfers == [ArchiveTransfer(files, env)]
      && run.transfers[0].filename == "Classroom_Files_" + BeforeFirst(env.now, 'T') + ".zip"
      && match env.platform(0, ArchiveTransfer(files, env))
         case Accepted(id) => run.outcome == Succeeded([DownloadRecord(id, ArchiveTransfer(files, env).filename)], ZipCreated(|files|))
         case Refused(e) => run.outcome == Failed(e)
  {
    BundledFetches(files, env);
    assert DownloadBundled(files, env) == SubmitArchive(FetchUrls(Plans(files)), files, ArchiveTransfer(files, env).url, env);
  }

  /** The fetch loop, started on the whole list, fetches every resolved URL and collects `Collected`. */
  lemma BundledFetches(files: seq<FileRequest>, env: Env)
    ensures var urls := FetchUrls(Plans(files));
      FetchLoop(ArchiveNames(files), urls, env, 0, [], []) == (urls, Collected(files, env))
  {
    var urls := FetchUrls(Plans(files));
    assert urls[..0] == [];
  }

  /**
   * The only failure a request can answer with is the download manager
   * refusing the archive: Individual mode always succeeds, and every other
   * Bundled failure falls back.
   */
  lemma OnlyArchiveRefusalFails(files: seq<FileRequest>, zip: bool, env: Env)
    ensures HandleDownloadRequest(files, zip, env).outcome.Failed?
            <==> zip && BuildsArchive(files, env) && env.platform(0, ArchiveTransfer(files, env)).Refused?
  {
    if !zip {
      IndividualOutcome(files, env.platform);
    } else if !BuildsArchive(files, env) {
      BundledFallsBack(files, env);
      IndividualOutcome(files, env.platform);
    } else {
      BundledArchive(files, env);
    }
  }

  // ----- the file names transfers carry ---------------------------------------

  /** The planned file name is the sanitised name, possibly extended by an inferred suffix. */
  lemma PlannedName(f: FileRequest)
    ensures var base := SanitizeFileName(f.name);
      && PlanTransfer(f).url == ConvertToDirectDownloadUrl(f.url, f.name)
      && |base| <= |PlanTransfer(f).filename| && PlanTransfer(f).filename[..|base|] == base
      && (GetFileExtension(base) != [] ==> PlanTransfer(f).filename == base)
  {
  }

  /** A Slides export URL has no `=`, so the name gets no suffix, whatever the format. */
  lemma SlidesExportGetsNoSuffix(id: string, fmt: string, name: string)
    requires IsId(id) && '=' !in fmt
    ensures RepairName(name, SlidesExportUrl(id, fmt)) == SanitizeFileName(name)
  {
    assert '=' !in id;
    NoEqualsNoSuffix(name, SlidesExportUrl(id, fmt));
  }

  /** The first marker of a pdf Docs export URL is `format=pdf`. */
  lemma DocsPdfUrlMarker(id: string)
    requires IsId(id)
    ensures FirstMarkerIs(DocsExportUrl(id, "pdf"), 1)
  {
    var pre := "https://" + DocsPattern + id + "/export?";
    assert '=' !in id;
    assert DocsExportUrl(id, "pdf") == pre + "format=" + "pdf";
    MarkerInFormatUrl(pre, "pdf", 0);
    MarkerInFormatUrl(pre, "pdf", 1);
  }

  /** A Docs export URL for a name without extension asks for pdf, and the name gets `.pdf`. */
  lemma DocsExportGetsPdfSuffix(id: string, name: string)
    requires IsId(id)
    requires GetFileExtension(name) == [] && GetFileExtension(SanitizeFileName(name)) == []
    ensures ExportFormat(Document, name) == "pdf"
    ensures RepairName(name, DocsExportUrl(id, "pdf")) == SanitizeFileName(name) + ".pdf"
  {
    NoExtensionDefaultFormat(Document, name);
    DocsPdfRepair(id, name);
  }

  /** A name without extension gets the kind's default format. */
  lemma NoExtensionDefaultFormat(k: DocKind, name: string)
    requires GetFileExtension(name) == []
    ensures ExportFormat(k, name) == DefaultFormat(k)
  {
    assert ToLower([]) == [];
    assert [] !in NamedFormats(k);
  }

  /** The pdf export URL gives a name without extension the `.pdf` suffix. */
  lemma DocsPdfRepair(id: string, name: string)
    requires IsId(id)
    requires GetFileExtension(SanitizeFileName(name)) == []
    ensures RepairName(name, DocsExportUrl(id, "pdf")) == SanitizeFileName(name) + ".pdf"
  {
    DocsPdfUrlMarker(id);
    RepairedNameAppends(name, DocsExportUrl(id, "pdf"), 1);
    assert FormatMarkers[1].suffix == ".pdf";
  }

  /** A Slides URL for a name without extension exports pptx, yet the name stays without extension. */
  lemma SlidesNameStaysBare(id: string, name: string)
    requires IsId(id)
    requires GetFileExtension(name) == [] && GetFileExtension(SanitizeFileName(name)) == []
    ensures ExportFormat(Presentation, name) == "pptx"
    ensures GetFileExtension(RepairName(name, SlidesExportUrl(id, "pptx"))) == []
  {
    assert ToLower([]) == [];
    SlidesExportGetsNoSuffix(id, "pptx", name);
  }
}
