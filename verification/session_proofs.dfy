/**
 * Properties of the content script's transitions: what a location change
 * does in each of its three cases, that a scan keeps the entry list
 * well-formed and confined to the current classroom, that the selection
 * outlives the entries a scan drops, and what a download records.
 */
module SessionProofs {
  import opened Wrappers
  import opened Seqs
  import opened Urls
  import opened Ledger
  import opened Scanner
  import opened ScannerProofs
  import opened Orchestrator
  import opened OrchestratorProofs
  import opened Session

  // ----- location changes ------------------------------------------------------

  /**
   * A new classroom key reloads the ledger, keeps only the entries not of
   * the old classroom, in order, and clears the selection; the same key
   * moves the URL and nothing else.
   */
  lemma LocationChangedCases(s: State, location: string)
    ensures var r := LocationChanged(s, location);
      Some(GetClassroomKey(location)) != s.classroomId ==>
        && r.selected == {}
        && r.history == Load(s.stored, s.history)
        && IsSubseq(r.detected, s.detected)
        && (forall f :: f in r.detected <==> f in s.detected && Some(f.classroomId) != s.classroomId)
        && r.nextId == s.nextId && r.stored == s.stored && r.scanning == s.scanning
    ensures Some(GetClassroomKey(location)) == s.classroomId ==> LocationChanged(s, location) == s.(pageUrl := location)
  {
  }

  /** Reacting twice to the same location is reacting once. */
  lemma LocationChangedIdempotent(s: State, location: string)
    ensures LocationChanged(LocationChanged(s, location), location) == LocationChanged(s, location)
  {
  }

  /** The ids and URLs of a list are distinct, and every id was issued before `nextId`. */
  predicate Distinct(fs: seq<DetectedFile>, nextId: nat) {
    && NoDups(FileUrls(fs))
    && NoDups(FileIds(fs))
    && forall i :: 0 <= i < |fs| ==> fs[i].id < nextId
  }

  /** An order-preserving selection of a well-formed list is well-formed. */
  lemma SubseqDistinct(a: seq<DetectedFile>, b: seq<DetectedFile>, nextId: nat)
    requires IsSubseq(a, b) && Distinct(b, nextId)
    ensures Distinct(a, nextId)
  {
    SubseqMap(a, b, UrlOf);
    SubseqNoDups(FileUrls(a), FileUrls(b));
    SubseqMap(a, b, IdOf);
    SubseqNoDups(FileIds(a), FileIds(b));
    SubseqMembers(a, b);
  }

  /** A location change keeps the state valid. */
  lemma LocationChangedValid(s: State, location: string)
    requires Valid(s)
    ensures Valid(LocationChanged(s, location))
  {
    var r := LocationChanged(s, location);
    if Some(GetClassroomKey(location)) != s.classroomId {
      LocationChangedCases(s, location);
      SubseqDistinct(r.detected, s.detected, s.nextId);
    }
  }

  // ----- scans -----------------------------------------------------------------

  /** Appending entries with fresh consecutive ids and new, distinct URLs keeps a list well-formed. */
  lemma AppendDistinct(kept: seq<DetectedFile>, found: seq<DetectedFile>, nextId: nat)
    requires Distinct(kept, nextId)
    requires NoDups(FileUrls(found))
    requires forall i :: 0 <= i < |found| ==> found[i].id == nextId + i && found[i].url !in FileUrls(kept)
    ensures Distinct(kept + found, nextId + |found|)
  {
    var all := kept + found;
    forall i, j | 0 <= i < j < |all| ensures all[i].url != all[j].url && all[i].id != all[j].id {
      if j < |kept| {
        assert FileUrls(kept)[i] != FileUrls(kept)[j];
        assert FileIds(kept)[i] != FileIds(kept)[j];
      } else if i >= |kept| {
        assert FileUrls(found)[i - |kept|] != FileUrls(found)[j - |kept|];
      } else {
        assert all[i].url == FileUrls(kept)[i];
      }
    }
  }

  /** The state a scan starts from after reloading and reacting to the location. */
  function Moved(s: State, location: string): State {
    var loaded := LoadHistory(s);
    LocationChanged(loaded.(classroomId := Some(GetClassroomKey(loaded.pageUrl))), location)
  }

  /** The context both passes of a scan run in. */
  function ScanContext(s: State, location: string): Context {
    var moved := Moved(s, location);
    Context(moved.detected, moved.history, GetClassroomKey(moved.pageUrl), GetClassroomKey(location), moved.nextId)
  }

  /** A scan's result: the kept old entries followed by the new ones. */
  lemma ScanShape(s: State, location: string, scope: Scope, live: set<nat>)
    requires !s.scanning
    ensures var r := Scan(s, location, scope, live);
      var moved := Moved(s, location);
      && r.detected == Kept(moved.detected, GetClassroomKey(location), live) + NewFiles(scope, ScanContext(s, location))
      && r.nextId == moved.nextId + |NewFiles(scope, ScanContext(s, location))|
      && r.selected == moved.selected && r.history == moved.history
  {
  }

  /** The state before the passes is valid, with the same ids in use. */
  lemma MovedValid(s: State, location: string)
    requires Valid(s)
    ensures Valid(Moved(s, location)) && Moved(s, location).nextId == s.nextId
    ensures IsSubseq(Moved(s, location).detected, s.detected)
  {
    var loaded := LoadHistory(s);
    var recomputed := loaded.(classroomId := Some(GetClassroomKey(loaded.pageUrl)));
    assert Valid(recomputed);
    LocationChangedValid(recomputed, location);
    LocationChangedCases(recomputed, location);
    if Some(GetClassroomKey(location)) == recomputed.classroomId {
      assert Moved(s, location).detected == s.detected;
      SubseqRefl(s.detected);
    }
  }

  /** Every sequence is a subsequence of itself. */
  lemma {:induction false} SubseqRefl<T>(a: seq<T>)
    ensures IsSubseq(a, a)
    decreases |a|
  {
    if a != [] {
      SubseqRefl(a[1..]);
    }
  }

  /** URLs missing from a list are missing from every selection of it. */
  lemma FreshForSubseq(kept: seq<DetectedFile>, all: seq<DetectedFile>, found: seq<DetectedFile>)
    requires IsSubseq(kept, all)
    requires forall i :: 0 <= i < |found| ==> found[i].url !in FileUrls(all)
    ensures forall i :: 0 <= i < |found| ==> found[i].url !in FileUrls(kept)
  {
    SubseqMap(kept, all, UrlOf);
    SubseqMembers(FileUrls(kept), FileUrls(all));
  }

  /** A scan keeps the state valid. */
  lemma ScanKeepsValid(s: State, location: string, scope: Scope, live: set<nat>)
    requires Valid(s) && !s.scanning
    ensures Valid(Scan(s, location, scope, live))
  {
    var moved := Moved(s, location);
    var ctx := ScanContext(s, location);
    var kept := Kept(moved.detected, GetClassroomKey(location), live);
    var found := NewFiles(scope, ctx);
    ScanShape(s, location, scope, live);
    MovedValid(s, location);
    SubseqDistinct(kept, moved.detected, moved.nextId);
    NewFilesFresh(scope, ctx);
    FreshForSubseq(kept, moved.detected, found);
    AppendDistinct(kept, found, moved.nextId);
  }

  /**
   * After a scan every entry belongs to the classroom of `location`, and the
   * list is an order-preserving selection of the old entries, those still in
   * the document, followed by entries with ids not issued before the scan.
   */
  lemma ScanSplit(s: State, location: string, scope: Scope, live: set<nat>)
    requires Valid(s) && !s.scanning
    ensures var r := Scan(s, location, scope, live);
      && (forall i :: 0 <= i < |r.detected| ==> r.detected[i].classroomId == GetClassroomKey(location))
      && exists k :: 0 <= k <= |r.detected|
           && IsSubseq(r.detected[..k], s.detected)
           && (forall i :: 0 <= i < k ==> r.detected[i].element in live)
           && (forall i :: k <= i < |r.detected| ==> r.detected[i].id >= s.nextId)
  {
    var moved := Moved(s, location);
    var key := GetClassroomKey(location);
    var kept := Kept(moved.detected, key, live);
    var found := NewFiles(scope, ScanContext(s, location));
    ScanShape(s, location, scope, live);
    MovedValid(s, location);
    SubseqTrans(kept, moved.detected, s.detected);
    NewFilesFresh(scope, ScanContext(s, location));
    JoinSplit(kept, found, s.detected, key, live, s.nextId);
  }

  /** A selection of old live entries of one classroom, then fresh entries of it. */
  lemma JoinSplit(kept: seq<DetectedFile>, found: seq<DetectedFile>, previous: seq<DetectedFile>, key: string, live: set<nat>, nextId: nat)
    requires IsSubseq(kept, previous)
    requires forall f :: f in kept ==> f.classroomId == key && f.element in live
    requires forall i :: 0 <= i < |found| ==> found[i].classroomId == key && found[i].id >= nextId
    ensures var all := kept + found;
      && (forall i :: 0 <= i < |all| ==> all[i].classroomId == key)
      && exists k :: 0 <= k <= |all|
           && IsSubseq(all[..k], previous)
           && (forall i :: 0 <= i < k ==> all[i].element in live)
           && (forall i :: k <= i < |all| ==> all[i].id >= nextId)
  {
    var all := kept + found;
    assert all[..|kept|] == kept;
    forall i | 0 <= i < |all| ensures all[i].classroomId == key {
      if i < |kept| {
        assert all[i] in kept;
      } else {
        assert all[i] == found[i - |kept|];
      }
    }
    forall i | 0 <= i < |kept| ensures all[i].element in live {
      assert all[i] in kept;
    }
    forall i | |kept| <= i < |all| ensures all[i].id >= nextId {
      assert all[i] == found[i - |kept|];
    }
  }

  /**
   * The selection is not pruned with the entries: when the classroom stays
   * the same, a selected entry whose element left the document is dropped
   * from the list while its id stays selected.
   */
  lemma SelectionOutlivesEntries(s: State, location: string, scope: Scope, live: set<nat>, f: DetectedFile)
    requires Valid(s) && !s.scanning
    requires GetClassroomKey(location) == GetClassroomKey(s.pageUrl)
    requires f in s.detected && f.id in s.selected && f.element !in live
    ensures var r := Scan(s, location, scope, live);
      r.selected == s.selected && f.id in r.selected && f.id !in FileIds(r.detected)
  {
    var ctx := ScanContext(s, location);
    var kept := Kept(s.detected, GetClassroomKey(location), live);
    var found := NewFiles(scope, ctx);
    ScanShape(s, location, scope, live);
    MovedSameClassroom(s, location);
    NewFilesFresh(scope, ctx);
    var i0 :| 0 <= i0 < |s.detected| && s.detected[i0] == f;
    IdGone(kept, found, s.detected, f, s.nextId);
  }

  /** A location in the same classroom leaves the entries, the selection and the ids as they are. */
  lemma MovedSameClassroom(s: State, location: string)
    requires GetClassroomKey(location) == GetClassroomKey(s.pageUrl)
    ensures Moved(s, location).detected == s.detected
    ensures Moved(s, location).selected == s.selected && Moved(s, location).nextId == s.nextId
  {
  }

  /**
   * An entry missing from an order-preserving selection of the list, with
   * new entries numbered from `nextId` on, leaves its id unused.
   */
  lemma IdGone(kept: seq<DetectedFile>, found: seq<DetectedFile>, detected: seq<DetectedFile>, f: DetectedFile, nextId: nat)
    requires f in detected && f !in kept && f.id < nextId && NoDups(FileIds(detected))
    requires forall g :: g in kept ==> g in detected
    requires forall i :: 0 <= i < |found| ==> found[i].id >= nextId
    ensures f.id !in FileIds(kept + found)
  {
    var all := kept + found;
    forall i | 0 <= i < |all| ensures all[i].id != f.id {
      if i < |kept| {
        var g := kept[i];
        assert g in detected;
        var a :| 0 <= a < |detected| && detected[a] == g;
        var b :| 0 <= b < |detected| && detected[b] == f;
        assert FileIds(detected)[a] == g.id && FileIds(detected)[b] == f.id;
      } else {
        assert all[i] == found[i - |kept|];
      }
    }
  }

  // ----- downloads -------------------------------------------------------------

  /**
   * Individual mode records every requested file, raw and normalised, under
   * the current classroom, however many transfers the download manager
   * refused; the selection is cleared and the ledger is saved.
   */
  lemma IndividualDownloadRecordsAll(s: State, env: Env)
    requires ValidHistory(s.history)
    requires s.classroomId.Some? && s.classroomId.value != []
    requires exists f :: f in s.detected && f.id in s.selected
    ensures var r := Download(s, Some(false), env);
      var id := s.classroomId.value;
      && r.selected == {} && r.stored == Some(Save(r.history))
      && forall f :: f in s.detected && f.id in s.selected ==>
           Has(r.history, id, f.url) && Has(r.history, id, NormalizeFileUrl(f.url))
  {
    var req := DownloadSelected(s, Some(false)).value;
    IndividualOutcome(Requests(req.files), env.platform);
  }

  /**
   * The one way a download changes nothing although files are selected:
   * Bundled mode built an archive and the download manager refused it.
   */
  lemma DownloadChangesNothingOnlyOnArchiveRefusal(s: State, zipOption: Option<bool>, env: Env)
    requires ValidHistory(s.history)
    requires DownloadSelected(s, zipOption).Some?
    ensures var files := Requests(DownloadSelected(s, zipOption).value.files);
      var zip := zipOption.GetOr(true);
      (zip && BuildsArchive(files, env) && env.platform(0, ArchiveTransfer(files, env)).Refused?) ==>
        Download(s, zipOption, env) == s
    ensures var files := Requests(DownloadSelected(s, zipOption).value.files);
      var zip := zipOption.GetOr(true);
      !(zip && BuildsArchive(files, env) && env.platform(0, ArchiveTransfer(files, env)).Refused?) ==>
        Download(s, zipOption, env).selected == {}
  {
    var req := DownloadSelected(s, zipOption).value;
    var files := Requests(req.files);
    OnlyArchiveRefusalFails(files, req.zip, env);
    var run := HandleDownloadRequest(files, req.zip, env);
    assert Download(s, zipOption, env) == OnDownloadResponse(s, req.files, Some(run.outcome));
  }

  /** A download never removes a URL from the ledger. */
  lemma DownloadOnlyGrowsLedger(s: State, zipOption: Option<bool>, env: Env, k: string, u: string)
    requires ValidHistory(s.history)
    requires Has(s.history, k, u)
    ensures Has(Download(s, zipOption, env).history, k, u)
    ensures ValidHistory(Download(s, zipOption, env).history)
  {
  }

  /** What a download saves loads back as the ledger it saved. */
  lemma DownloadSavesLedger(s: State, zipOption: Option<bool>, env: Env, current: History)
    requires ValidHistory(s.history)
    requires s.classroomId.Some? && s.classroomId.value != []
    requires Download(s, zipOption, env) != s
    ensures var r := Download(s, zipOption, env);
      r.stored.Some? && Load(r.stored, current) == r.history
  {
    var r := Download(s, zipOption, env);
    LoadSave(r.history, current);
  }

  /** Saving the ledger and loading it again leaves the state as it was. */
  lemma SaveThenLoad(s: State)
    requires ValidHistory(s.history)
    ensures LoadHistory(SaveHistory(s)) == SaveHistory(s)
  {
    LoadSave(s.history, s.history);
  }
}
