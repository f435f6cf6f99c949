/**
 * Properties of the two detection passes: what they append, that no URL is
 * found twice, which ledger test each applies, and that every link Pass B
 * accepts ends up among the new entries.
 */
module ScannerProofs {
  import opened Wrappers
  import opened Seqs
  import opened Text
  import opened Urls
  import opened UrlsProofs
  import opened Ledger
  import opened Scanner

  /**
   * `r` is `start` followed by new entries, each with the next fresh id, the
   * current classroom, a URL not detected before the scan, and not a URL
   * already in `start` nor another new one.
   */
  ghost predicate Appends(ctx: Context, start: seq<DetectedFile>, r: seq<DetectedFile>) {
    && |start| <= |r| && r[..|start|] == start
    && (forall i :: |start| <= i < |r| ==>
          r[i].id == ctx.nextId + i && r[i].classroomId == ctx.classroomId
          && r[i].url != [] && r[i].url !in FileUrls(ctx.detected))
    && (NoDups(FileUrls(start)) ==> NoDups(FileUrls(r)))
  }

  /** Appending an entry whose URL is not yet in the list keeps the URLs distinct. */
  lemma AppendFreshUrl(found: seq<DetectedFile>, e: DetectedFile)
    requires NoDups(FileUrls(found)) && e.url !in FileUrls(found)
    ensures NoDups(FileUrls(found + [e]))
  {
    var urls := FileUrls(found + [e]);
    forall i, j | 0 <= i < j < |urls| ensures urls[i] != urls[j] {
      if j == |found| {
        assert urls[i] == FileUrls(found)[i];
      } else {
        assert urls[i] == FileUrls(found)[i] && urls[j] == FileUrls(found)[j];
      }
    }
  }

  /** One step of either pass: nothing, or one entry that was not seen. */
  lemma AppendsStep(ctx: Context, start: seq<DetectedFile>, found: seq<DetectedFile>, href: string, name: string, l: Link)
    requires Appends(ctx, start, found)
    requires href != [] && !Seen(ctx, found, href)
    ensures Appends(ctx, start, found + [NewEntry(ctx, found, href, name, l)])
  {
    var e := NewEntry(ctx, found, href, name, l);
    var r := found + [e];
    assert r[..|found|] == found;
    assert r[..|start|] == start by {
      assert r[..|start|] == found[..|start|];
    }
    forall i | |start| <= i < |r|
      ensures r[i].id == ctx.nextId + i && r[i].classroomId == ctx.classroomId
          && r[i].url != [] && r[i].url !in FileUrls(ctx.detected)
    {
      if i < |found| {
        assert r[i] == found[i];
      }
    }
    if NoDups(FileUrls(start)) {
      AppendFreshUrl(found, e);
    }
  }

  /** Appending preserves itself when started from an earlier result. */
  lemma AppendsRefl(ctx: Context, start: seq<DetectedFile>)
    ensures Appends(ctx, start, start)
  {
    assert start[..|start|] == start;
  }

  // ----- Pass A -------------------------------------------------------------------

  /**
   * Pass A appends fresh entries after `start`, each with a URL whose raw
   * form the ledger does not hold for the page key.
   */
  lemma {:induction false} PassAAppends(containers: seq<Container>, ctx: Context, start: seq<DetectedFile>, n: nat)
    requires n <= |containers|
    ensures var r := PassA(containers, ctx, start, n);
      && Appends(ctx, start, r)
      && forall i :: |start| <= i < |r| ==> !DownloadedRaw(ctx, r[i].url)
  {
    if n == 0 {
      AppendsRefl(ctx, start);
    } else {
      PassAAppends(containers, ctx, start, n - 1);
      PassAStepAppends(containers[n - 1], ctx, start, PassA(containers, ctx, start, n - 1));
    }
  }

  /** One Pass A step keeps `Appends` and the ledger test. */
  lemma PassAStepAppends(c: Container, ctx: Context, start: seq<DetectedFile>, found: seq<DetectedFile>)
    requires Appends(ctx, start, found)
    requires forall i :: |start| <= i < |found| ==> !DownloadedRaw(ctx, found[i].url)
    ensures var r := PassAStep(c, ctx, found);
      && Appends(ctx, start, r)
      && forall i :: |start| <= i < |r| ==> !DownloadedRaw(ctx, r[i].url)
  {
    match FirstFileLink(c.links)
    case None =>
    case Some(l) =>
      var href := l.href.GetOr([]);
      if !(href == [] || Seen(ctx, found, href) || DownloadedRaw(ctx, href)) {
        AppendsStep(ctx, start, found, href, AttachmentName(l, c, href), l);
        var r := found + [NewEntry(ctx, found, href, AttachmentName(l, c, href), l)];
        forall i | |start| <= i < |r| ensures !DownloadedRaw(ctx, r[i].url) {
          if i < |found| {
            assert r[i] == found[i];
          }
        }
      }
  }

  /**
   * Every container whose first file link has a URL that is not yet
   * detected and whose raw form the ledger lacks contributes that URL.
   */
  lemma {:induction false} PassAComplete(containers: seq<Container>, ctx: Context, start: seq<DetectedFile>, n: nat)
    requires n <= |containers|
    ensures forall k :: 0 <= k < n && FirstFileLink(containers[k].links).Some? ==>
      var href := FirstFileLink(containers[k].links).value.href.GetOr([]);
      href != [] && !DownloadedRaw(ctx, href) && href !in FileUrls(ctx.detected)
      ==> href in FileUrls(PassA(containers, ctx, start, n))
  {
    if n > 0 {
      PassAComplete(containers, ctx, start, n - 1);
      PassACompleteStep(containers, ctx, start, n);
    }
  }

  /** The induction step of `PassAComplete`: the container at `n - 1` is covered and nothing earlier is lost. */
  lemma PassACompleteStep(containers: seq<Container>, ctx: Context, start: seq<DetectedFile>, n: nat)
    requires 0 < n <= |containers|
    requires forall j :: 0 <= j < n - 1 && FirstFileLink(containers[j].links).Some? ==>
      var href := FirstFileLink(containers[j].links).value.href.GetOr([]);
      href != [] && !DownloadedRaw(ctx, href) && href !in FileUrls(ctx.detected)
      ==> href in FileUrls(PassA(containers, ctx, start, n - 1))
    ensures forall j :: 0 <= j < n && FirstFileLink(containers[j].links).Some? ==>
      var href := FirstFileLink(containers[j].links).value.href.GetOr([]);
      href != [] && !DownloadedRaw(ctx, href) && href !in FileUrls(ctx.detected)
      ==> href in FileUrls(PassA(containers, ctx, start, n))
  {
    PassAStepKeeps(containers[n - 1], ctx, PassA(containers, ctx, start, n - 1));
  }

  /** A Pass A step keeps every URL found so far and adds the container's link when it qualifies. */
  lemma PassAStepKeeps(c: Container, ctx: Context, found: seq<DetectedFile>)
    ensures forall u :: u in FileUrls(found) ==> u in FileUrls(PassAStep(c, ctx, found))
    ensures FirstFileLink(c.links).Some? ==> var href := FirstFileLink(c.links).value.href.GetOr([]);
      href != [] && !DownloadedRaw(ctx, href) && href !in FileUrls(ctx.detected)
      ==> href in FileUrls(PassAStep(c, ctx, found))
  {
    var r := PassAStep(c, ctx, found);
    UrlsKept(found, r);
    match FirstFileLink(c.links)
    case None =>
    case Some(l) =>
      var href := l.href.GetOr([]);
      if !(href == [] || Seen(ctx, found, href) || DownloadedRaw(ctx, href)) {
        assert FileUrls(r)[|found|] == href;
      }
  }

  /** Appending entries keeps the URLs already there. */
  lemma UrlsKept(found: seq<DetectedFile>, r: seq<DetectedFile>)
    requires |found| <= |r| && r[..|found|] == found
    ensures forall u :: u in FileUrls(found) ==> u in FileUrls(r)
  {
    forall u | u in FileUrls(found) ensures u in FileUrls(r) {
      var i :| 0 <= i < |found| && FileUrls(found)[i] == u;
      assert r[i] == found[i];
    }
  }

  /** The container a Pass A entry comes from: its first file link has the entry's URL and element. */
  ghost predicate FromContainer(containers: seq<Container>, k: nat, e: DetectedFile)
    requires k < |containers|
  {
    && FirstFileLink(containers[k].links).Some?
    && FirstFileLink(containers[k].links).value.href == Some(e.url)
    && FirstFileLink(containers[k].links).value.element == e.element
  }

  /**
   * The entries of `r` after `start` come, one for one, from the containers
   * at the strictly increasing positions `idx`, all before `n`.
   */
  ghost predicate ContainersInOrder(containers: seq<Container>, start: seq<DetectedFile>, r: seq<DetectedFile>, idx: seq<nat>, n: nat)
  {
    && |start| + |idx| == |r|
    && n <= |containers|
    && (forall t :: 0 <= t < |idx| ==> idx[t] < n && FromContainer(containers, idx[t], r[|start| + t]))
    && (forall s, t :: 0 <= s < t < |idx| ==> idx[s] < idx[t])
  }

  /**
   * Pass A adds its entries in container (document) order: they come, one
   * for one, from containers at strictly increasing positions.
   */
  lemma PassAInContainerOrder(containers: seq<Container>, ctx: Context, start: seq<DetectedFile>, n: nat)
    requires n <= |containers|
    ensures exists idx: seq<nat> :: ContainersInOrder(containers, start, PassA(containers, ctx, start, n), idx, n)
  {
    var idx := PassAContainerPositions(containers, ctx, start, n);
  }

  /** The container positions witnessing `PassAInContainerOrder`, built by induction on `n`. */
  lemma {:induction false} PassAContainerPositions(containers: seq<Container>, ctx: Context, start: seq<DetectedFile>, n: nat)
    returns (idx: seq<nat>)
    requires n <= |containers|
    ensures ContainersInOrder(containers, start, PassA(containers, ctx, start, n), idx, n)
  {
    if n == 0 {
      idx := [];
    } else {
      var prior := PassAContainerPositions(containers, ctx, start, n - 1);
      idx := PassAStepInOrder(containers, n, ctx, start, prior);
    }
  }

  /** One Pass A step adds at most an entry, from the container it visits. */
  lemma PassAStepInOrder(containers: seq<Container>, n: nat, ctx: Context, start: seq<DetectedFile>, idx: seq<nat>)
    returns (idx': seq<nat>)
    requires 0 < n <= |containers|
    requires ContainersInOrder(containers, start, PassA(containers, ctx, start, n - 1), idx, n - 1)
    ensures ContainersInOrder(containers, start, PassA(containers, ctx, start, n), idx', n)
  {
    var k := n - 1;
    var found := PassA(containers, ctx, start, k);
    var r := PassA(containers, ctx, start, n);
    if |r| != |found| {
      var e := r[|found|];
      assert r == found + [e];
      assert FromContainer(containers, k, e);
      ContainerAppendInOrder(containers, k, start, found, idx, e);
      idx' := idx + [k];
    } else {
      assert r == found;
      idx' := idx;
    }
  }

  /** An entry from container `k` appended after entries from earlier containers keeps the order. */
  lemma ContainerAppendInOrder(containers: seq<Container>, k: nat, start: seq<DetectedFile>, found: seq<DetectedFile>, idx: seq<nat>, e: DetectedFile)
    requires k < |containers|
    requires ContainersInOrder(containers, start, found, idx, k)
    requires FromContainer(containers, k, e)
    ensures ContainersInOrder(containers, start, found + [e], idx + [k], k + 1)
  {
    var r := found + [e];
    var idx' := idx + [k];
    forall t | 0 <= t < |idx'| ensures idx'[t] < k + 1 && FromContainer(containers, idx'[t], r[|start| + t]) {
      if t < |idx| {
        assert r[|start| + t] == found[|start| + t];
      }
    }
  }

  // ----- Pass B -------------------------------------------------------------------

  /**
   * Pass B appends fresh entries after `start`, each with a URL that neither
   * in raw nor in normalised form is in the ledger for the current classroom.
   */
  lemma {:induction false} PassBAppends(links: seq<Link>, ctx: Context, start: seq<DetectedFile>, n: nat)
    requires n <= |links|
    ensures var r := PassB(links, ctx, start, n);
      && Appends(ctx, start, r)
      && forall i :: |start| <= i < |r| ==> !DownloadedEither(ctx, r[i].url)
  {
    if n == 0 {
      AppendsRefl(ctx, start);
    } else {
      PassBAppends(links, ctx, start, n - 1);
      PassBStepAppends(links[n - 1], n - 1, ctx, start, PassB(links, ctx, start, n - 1));
    }
  }

  /** One Pass B step keeps `Appends` and the ledger test. */
  lemma PassBStepAppends(l: Link, index: nat, ctx: Context, start: seq<DetectedFile>, found: seq<DetectedFile>)
    requires Appends(ctx, start, found)
    requires forall i :: |start| <= i < |found| ==> !DownloadedEither(ctx, found[i].url)
    ensures var r := PassBStep(l, index, ctx, found);
      && Appends(ctx, start, r)
      && forall i :: |start| <= i < |r| ==> !DownloadedEither(ctx, r[i].url)
  {
    var href := l.href.GetOr([]);
    if !(href == [] || Seen(ctx, found, href) || !Classified(l, href) || DownloadedEither(ctx, href)) {
      AppendsStep(ctx, start, found, href, LinkName(l, index, href), l);
      var r := found + [NewEntry(ctx, found, href, LinkName(l, index, href), l)];
      forall i | |start| <= i < |r| ensures !DownloadedEither(ctx, r[i].url) {
        if i < |found| {
          assert r[i] == found[i];
        }
      }
    }
  }

  /** The link a Pass B entry comes from: `k`-th among the file links, classified, with the entry's URL and element. */
  ghost predicate FromLink(links: seq<Link>, k: nat, e: DetectedFile)
    requires k < |links|
  {
    links[k].href == Some(e.url) && Classified(links[k], e.url) && e.element == links[k].element
  }

  /** The entry comes from one of the first `n` file links. */
  ghost predicate FromSomeLink(links: seq<Link>, n: nat, e: DetectedFile)
    requires n <= |links|
  {
    exists k: nat :: k < n && FromLink(links, k, e)
  }

  /** Every entry after `start` comes from one of the first `n` file links. */
  ghost predicate Sourced(links: seq<Link>, start: seq<DetectedFile>, found: seq<DetectedFile>, n: nat)
    requires n <= |links|
  {
    |start| <= |found| && forall i :: |start| <= i < |found| ==> FromSomeLink(links, n, found[i])
  }

  /** Each entry Pass B adds comes from one of the file links it has visited. */
  lemma {:induction false} PassBSources(links: seq<Link>, ctx: Context, start: seq<DetectedFile>, n: nat)
    requires n <= |links|
    ensures Sourced(links, start, PassB(links, ctx, start, n), n)
  {
    if n > 0 {
      var found := PassB(links, ctx, start, n - 1);
      PassBSources(links, ctx, start, n - 1);
      PassBStepSources(links, n - 1, ctx, start, found);
    }
  }

  /** One Pass B step adds only an entry from the link it visits. */
  lemma PassBStepSources(links: seq<Link>, k: nat, ctx: Context, start: seq<DetectedFile>, found: seq<DetectedFile>)
    requires k < |links|
    requires Sourced(links, start, found, k)
    ensures Sourced(links, start, PassBStep(links[k], k, ctx, found), k + 1)
  {
    var l := links[k];
    var href := l.href.GetOr([]);
    var r := PassBStep(l, k, ctx, found);
    assert |start| <= |r|;
    forall i | |start| <= i < |r| ensures FromSomeLink(links, k + 1, r[i]) {
      if i < |found| {
        assert r[i] == found[i];
        assert FromSomeLink(links, k, found[i]);
        var j: nat :| j < k && FromLink(links, j, found[i]);
        assert j < k + 1 && FromLink(links, j, r[i]);
      } else {
        assert FromLink(links, k, r[i]);
      }
    }
  }

  /**
   * The entries of `r` after `start` come, one for one, from the file links
   * at the strictly increasing positions `idx`, all before `n`.
   */
  ghost predicate LinksInOrder(links: seq<Link>, start: seq<DetectedFile>, r: seq<DetectedFile>, idx: seq<nat>, n: nat)
  {
    && |start| + |idx| == |r|
    && n <= |links|
    && (forall t :: 0 <= t < |idx| ==> idx[t] < n && FromLink(links, idx[t], r[|start| + t]))
    && (forall s, t :: 0 <= s < t < |idx| ==> idx[s] < idx[t])
  }

  /**
   * Pass B adds its entries in file-link (document) order: they come, one
   * for one, from file links at strictly increasing positions.
   */
  lemma PassBInLinkOrder(links: seq<Link>, ctx: Context, start: seq<DetectedFile>, n: nat)
    requires n <= |links|
    ensures exists idx: seq<nat> :: LinksInOrder(links, start, PassB(links, ctx, start, n), idx, n)
  {
    var idx := PassBLinkPositions(links, ctx, start, n);
  }

  /** The link positions witnessing `PassBInLinkOrder`, built by induction on `n`. */
  lemma {:induction false} PassBLinkPositions(links: seq<Link>, ctx: Context, start: seq<DetectedFile>, n: nat)
    returns (idx: seq<nat>)
    requires n <= |links|
    ensures LinksInOrder(links, start, PassB(links, ctx, start, n), idx, n)
  {
    if n == 0 {
      idx := [];
    } else {
      var prior := PassBLinkPositions(links, ctx, start, n - 1);
      idx := PassBStepInOrder(links, n, ctx, start, prior);
    }
  }

  /** Step `n` of Pass B adds at most an entry, from the link it visits. */
  lemma PassBStepInOrder(links: seq<Link>, n: nat, ctx: Context, start: seq<DetectedFile>, idx: seq<nat>)
    returns (idx': seq<nat>)
    requires 0 < n <= |links|
    requires LinksInOrder(links, start, PassB(links, ctx, start, n - 1), idx, n - 1)
    ensures LinksInOrder(links, start, PassB(links, ctx, start, n), idx', n)
  {
    var k := n - 1;
    var found := PassB(links, ctx, start, k);
    var r := PassB(links, ctx, start, n);
    assert r == PassBStep(links[k], k, ctx, found);
    if |r| != |found| {
      var e := r[|found|];
      assert r == found + [e];
      assert FromLink(links, k, e);
      LinkAppendInOrder(links, k, start, found, idx, e);
      idx' := idx + [k];
    } else {
      assert r == found;
      idx' := idx;
    }
  }

  /** An entry from file link `k` appended after entries from earlier links keeps the order. */
  lemma LinkAppendInOrder(links: seq<Link>, k: nat, start: seq<DetectedFile>, found: seq<DetectedFile>, idx: seq<nat>, e: DetectedFile)
    requires k < |links|
    requires LinksInOrder(links, start, found, idx, k)
    requires FromLink(links, k, e)
    ensures LinksInOrder(links, start, found + [e], idx + [k], k + 1)
  {
    var r := found + [e];
    var idx' := idx + [k];
    forall t | 0 <= t < |idx'| ensures idx'[t] < k + 1 && FromLink(links, idx'[t], r[|start| + t]) {
      if t < |idx| {
        assert r[|start| + t] == found[|start| + t];
      }
    }
  }

  /**
   * Every file link that Pass B classifies as an attachment, whose URL is
   * neither detected before the scan nor in the ledger in raw or normalised
   * form, has its URL among the entries after the pass.
   */
  lemma {:induction false} PassBComplete(links: seq<Link>, ctx: Context, start: seq<DetectedFile>, n: nat)
    requires n <= |links|
    ensures forall k :: 0 <= k < n ==> var href := links[k].href.GetOr([]);
      href != [] && Classified(links[k], href) && !DownloadedEither(ctx, href) && href !in FileUrls(ctx.detected)
      ==> href in FileUrls(PassB(links, ctx, start, n))
  {
    if n > 0 {
      PassBComplete(links, ctx, start, n - 1);
      PassBCompleteStep(links, ctx, start, n);
    }
  }

  /** The induction step of `PassBComplete`: the link at `n - 1` is covered and nothing earlier is lost. */
  lemma PassBCompleteStep(links: seq<Link>, ctx: Context, start: seq<DetectedFile>, n: nat)
    requires 0 < n <= |links|
    requires forall j :: 0 <= j < n - 1 ==> var href := links[j].href.GetOr([]);
      href != [] && Classified(links[j], href) && !DownloadedEither(ctx, href) && href !in FileUrls(ctx.detected)
      ==> href in FileUrls(PassB(links, ctx, start, n - 1))
    ensures forall j :: 0 <= j < n ==> var href := links[j].href.GetOr([]);
      href != [] && Classified(links[j], href) && !DownloadedEither(ctx, href) && href !in FileUrls(ctx.detected)
      ==> href in FileUrls(PassB(links, ctx, start, n))
  {
    PassBStepKeeps(links[n - 1], n - 1, ctx, PassB(links, ctx, start, n - 1));
  }

  /** A Pass B step keeps every URL found so far and adds the link's URL when it qualifies. */
  lemma PassBStepKeeps(l: Link, index: nat, ctx: Context, found: seq<DetectedFile>)
    ensures forall u :: u in FileUrls(found) ==> u in FileUrls(PassBStep(l, index, ctx, found))
    ensures var href := l.href.GetOr([]);
      href != [] && Classified(l, href) && !DownloadedEither(ctx, href) && href !in FileUrls(ctx.detected)
      ==> href in FileUrls(PassBStep(l, index, ctx, found))
  {
    var r := PassBStep(l, index, ctx, found);
    UrlsKept(found, r);
    var href := l.href.GetOr([]);
    if !(href == [] || Seen(ctx, found, href) || !Classified(l, href) || DownloadedEither(ctx, href)) {
      assert FileUrls(r)[|found|] == href;
    }
  }

  /**
   * The classification, stated as the two conditions: a link with a file id
   * is always kept; one without is kept exactly when it is in an attachment
   * container and is either outside posts or inside a `[data-attachment-id]`
   * or `attachment` container.
   */
  lemma ClassifiedCases(l: Link, href: string)
    ensures HasFileId(href) ==> Classified(l, href)
    ensures !HasFileId(href) ==>
      (Classified(l, href) <==> InAttachmentContainer(l) && (!l.inPost || l.inDataAttachment || l.inAttachmentClass))
  {
  }

  // ----- both passes -----------------------------------------------------------

  /**
   * The new entries of a scan: Pass A's entries first, then Pass B's; fresh
   * ids in order; all in the current classroom; URLs distinct from each
   * other and from every entry detected before the scan.
   */
  lemma NewFilesFresh(scope: Scope, ctx: Context)
    ensures var a := PassA(scope.containers, ctx, [], |scope.containers|);
      var r := NewFiles(scope, ctx);
      && |a| <= |r| && r[..|a|] == a
      && NoDups(FileUrls(r))
      && forall i :: 0 <= i < |r| ==>
           r[i].id == ctx.nextId + i && r[i].classroomId == ctx.classroomId && r[i].url !in FileUrls(ctx.detected)
  {
    var a := PassA(scope.containers, ctx, [], |scope.containers|);
    PassAAppends(scope.containers, ctx, [], |scope.containers|);
    PassBAppends(FileLinks(scope), ctx, a, |FileLinks(scope)|);
    AppendsTrans(ctx, [], a, NewFiles(scope, ctx));
  }

  /** Appending in two rounds is appending. */
  lemma AppendsTrans(ctx: Context, s0: seq<DetectedFile>, s1: seq<DetectedFile>, s2: seq<DetectedFile>)
    requires Appends(ctx, s0, s1) && Appends(ctx, s1, s2)
    ensures Appends(ctx, s0, s2)
  {
    assert s2[..|s0|] == s1[..|s0|] by {
      assert s2[..|s1|] == s1;
    }
    forall i | |s0| <= i < |s2|
      ensures s2[i].id == ctx.nextId + i && s2[i].classroomId == ctx.classroomId
          && s2[i].url != [] && s2[i].url !in FileUrls(ctx.detected)
    {
      if i < |s1| {
        assert s2[i] == s1[i];
      }
    }
  }

  // ----- the two ledger tests ----------------------------------------------------

  /**
   * Pass A tests the ledger with the raw `href` only, Pass B with the raw and
   * the normalised form: a file whose normalised URL the ledger holds, linked
   * with a query string, is detected again by Pass A and skipped by Pass B.
   */
  lemma PassAMissesNormalisedRecord(u: Url, l: Link, c: Container, index: nat, ctx: Context)
    requires WellFormed(u) && u.query != []
    requires l.href == Some(u.Href()) && FirstFileLink(c.links) == Some(l) && Classified(l, u.Href())
    requires ctx.detected == [] && ctx.pageKey == ctx.classroomId && ctx.classroomId != []
    requires ctx.history == map[ctx.classroomId := [NormalizeFileUrl(u.Href())]]
    ensures Has(ctx.history, ctx.classroomId, NormalizeFileUrl(u.Href()))
    ensures PassAStep(c, ctx, []) == [NewEntry(ctx, [], u.Href(), AttachmentName(l, c, u.Href()), l)]
    ensures PassBStep(l, index, ctx, []) == []
  {
    var href := u.Href();
    var n := NormalizeFileUrl(href);
    NormalizeChangesQueried(u);
    assert ctx.history[ctx.classroomId] == [n];
    assert !Has(ctx.history, ctx.classroomId, href);
    assert FileUrls([]) == [];
    assert !Seen(ctx, [], href);
    assert !DownloadedRaw(ctx, href);
    assert DownloadedEither(ctx, href);
  }

  /** Normalising a URL with a query changes it. */
  lemma NormalizeChangesQueried(u: Url)
    requires WellFormed(u) && u.query != []
    ensures NormalizeFileUrl(u.Href()) != u.Href()
  {
    ParseHref(u);
    assert |u.Href()| == |u.Origin()| + |u.pathname| + |u.query| + |u.fragment|;
  }

  // ----- the file-name pattern -----------------------------------------------------

  /**
   * The pattern tries `doc` before `docx`, so the name taken from a URL
   * ending in a `.docx` file name loses its last letter.
   */
  lemma UrlNameShortensDocx(stem: string)
    requires stem != [] && forall k :: 0 <= k < |stem| ==> stem[k] != '/'
    ensures UrlName(stem + ".docx") == Some(stem + ".doc")
  {
    var s := stem + ".docx";
    var n := |stem|;
    DocxRun(stem);
    assert s[n + 1] == 'd' && s[n + 2] == 'o' && s[n + 3] == 'c' && s[n + 4] == 'x';
    DocxBacktrack(s, n);
    assert s[n..] == ".docx";
    DocFirst(s, n);
    assert BacktrackFrom(s, 0, |s|) == Some(s[0..n + 4]);
    assert s[0..n + 4] == stem + ".doc";
    UrlNameAtStart(s);
  }

  /** A name without slashes followed by `.docx` is one run of `[^\/]`. */
  lemma DocxRun(stem: string)
    requires forall k :: 0 <= k < |stem| ==> stem[k] != '/'
    ensures Run(stem + ".docx", 0, NotSlash) == stem + ".docx"
  {
    DocxNoSlash(stem, stem + ".docx");
    RunWithoutSlash(stem + ".docx");
  }

  /** Appending `.docx` adds no slash. */
  lemma DocxNoSlash(stem: string, s: string)
    requires forall k :: 0 <= k < |stem| ==> stem[k] != '/'
    requires s == stem + ".docx"
    ensures forall k :: 0 <= k < |s| ==> s[k] != '/'
  {
    var suffix := ".docx";
    assert forall d :: 0 <= d < |suffix| ==> suffix[d] != '/' by {
      assert suffix == ['.', 'd', 'o', 'c', 'x'];
    }
    forall k | 0 <= k < |s| ensures s[k] != '/' {
      if k < |stem| {
        assert s[k] == stem[k];
      } else {
        assert s[k] == suffix[k - |stem|];
      }
    }
  }

  /** A text without slashes is one run of `[^\/]`. */
  lemma RunWithoutSlash(s: string)
    requires forall k :: 0 <= k < |s| ==> s[k] != '/'
    ensures Run(s, 0, NotSlash) == s
  {
    RunUnique(s, 0, NotSlash, s);
  }

  /** A match found from the first character is the name. */
  lemma UrlNameAtStart(s: string)
    requires s != [] && Run(s, 0, NotSlash) == s
    requires BacktrackFrom(s, 0, |s|).Some?
    ensures UrlName(s) == BacktrackFrom(s, 0, |s|)
  {
  }

  /** At a `.docx` suffix the first alternative that matches is `doc`. */
  lemma DocFirst(s: string, n: nat)
    requires 0 < n && n + 5 == |s| && s[n..] == ".docx"
    ensures ExtensionAt(s, n, 0) == Some(1)
    ensures BacktrackFrom(s, 0, n) == Some(s[0..n + 4])
  {
    DocFirstAlternative(s, n);
    BacktrackHitDoc(s, 0, n);
  }

  /** `doc` is the first alternative that matches at the dot of a `.docx` suffix. */
  lemma DocFirstAlternative(s: string, n: nat)
    requires n + 5 == |s| && s[n..] == ".docx"
    ensures ExtensionAt(s, n, 0) == Some(1)
  {
    assert s[n] == '.';
    assert s[n + 1..n + 4] == "doc";
    assert ToLower("doc") == "doc";
    assert !ExtensionMatchesAt(s, n, 0);
    assert ExtensionMatchesAt(s, n, 1);
  }

  /** Backtracking stops at the first end where an alternative matches, here `doc`. */
  lemma BacktrackHitDoc(s: string, p: nat, e: nat)
    requires p < e <= |s|
    requires ExtensionAt(s, e, 0) == Some(1)
    ensures e + 4 <= |s|
    ensures BacktrackFrom(s, p, e) == Some(s[p..e + 4])
  {
    ExtensionAtFirst(s, e, 0);
    assert NameExtensions[1] == "doc";
  }

  /** Without a dot at `q`, no alternative from `j` on matches there. */
  lemma {:induction false} NoExtensionFrom(s: string, q: nat, j: nat)
    requires j <= |NameExtensions|
    requires q >= |s| || s[q] != '.'
    ensures ExtensionAt(s, q, j) == None
    decreases |NameExtensions| - j
  {
    if j < |NameExtensions| {
      NoExtensionFrom(s, q, j + 1);
    }
  }

  /** Backtracking from the end of a name ending in a dot and four letters passes over the five ends after the dot. */
  lemma DocxBacktrack(s: string, n: nat)
    requires |s| == n + 5 && s[n + 1] != '.' && s[n + 2] != '.' && s[n + 3] != '.' && s[n + 4] != '.'
    ensures BacktrackFrom(s, 0, n + 5) == BacktrackFrom(s, 0, n)
  {
    NoDotStep(s, 0, n + 5);
    NoDotStep(s, 0, n + 4);
    NoDotStep(s, 0, n + 3);
    NoDotStep(s, 0, n + 2);
    NoDotStep(s, 0, n + 1);
  }

  /** An end not followed by a dot moves the backtracking one end down. */
  lemma NoDotStep(s: string, p: nat, e: nat)
    requires p < e <= |s| && (e == |s| || s[e] != '.')
    ensures BacktrackFrom(s, p, e) == BacktrackFrom(s, p, e - 1)
  {
    NoExtensionFrom(s, e, 0);
  }

  /**
   * The three-character test counts UTF-16 code units: link text of an
   * emoji and a digit is two characters but three code units, so it is kept
   * as the name.
   */
  lemma EmojiLinkTextKept(l: Link, index: nat, href: string)
    requires Trim(l.text) == "\U{1F600}1"
    ensures LinkName(l, index, href) == Trim(l.text)
  {
    assert Utf16Length(Trim(l.text)) == 3;
  }

  /** The same for an attachment's link text. */
  lemma EmojiAttachmentTextKept(l: Link, c: Container, href: string)
    requires Trim(l.text) == "\U{1F600}1"
    ensures AttachmentName(l, c, href) == Trim(l.text)
  {
    assert Utf16Length(Trim(l.text)) == 3;
  }
}
