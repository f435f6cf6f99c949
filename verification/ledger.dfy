/**
 * The download ledger of the content script: for each classroom key, the
 * set of file URLs already downloaded there. In memory each set is a
 * JavaScript `Set` (insertion-ordered, without duplicates); in storage it is
 * an array. Loading converts arrays to sets, saving converts back.
 */
module Ledger {
  import opened Wrappers
  import opened Seqs
  import opened Urls

  /** The in-memory ledger: classroom key to the URLs of its `Set`, in insertion order. */
  type History = map<string, seq<string>>

  /** The stored form: classroom key to an array of URLs. */
  type Stored = map<string, seq<string>>

  /** Every set of the ledger is duplicate-free, as a `Set` is. */
  predicate ValidHistory(h: History) {
    forall key :: key in h ==> NoDups(h[key])
  }

  /** `Set.prototype.add`: a new element goes to the end, a present one changes nothing. */
  function SetAdd(elems: seq<string>, x: string): (r: seq<string>)
    requires NoDups(elems)
    ensures NoDups(r)
    ensures x in r && forall y :: y in r <==> y in elems || y == x
    ensures |elems| <= |r| && r[..|elems|] == elems
  {
    if x in elems then elems else elems + [x]
  }

  /** `new Set(array)`: the elements in order of first occurrence. */
  function SetOf(arr: seq<string>): (r: seq<string>)
    ensures NoDups(r)
    ensures forall y :: y in r <==> y in arr
    decreases |arr|
  {
    if arr == [] then []
    else SetAdd(SetOf(arr[..|arr| - 1]), arr[|arr| - 1])
  }

  /** A duplicate-free array becomes a set with the same elements in the same order. */
  lemma {:induction false} SetOfNoDups(arr: seq<string>)
    requires NoDups(arr)
    ensures SetOf(arr) == arr
    decreases |arr|
  {
    if arr != [] {
      var init := arr[..|arr| - 1];
      assert NoDups(init);
      SetOfNoDups(init);
      assert arr[|arr| - 1] !in init;
      assert init + [arr[|arr| - 1]] == arr;
    }
  }

  /**
   * `loadDownloadedFilesHistory`: when storage holds a ledger, the memory
   * becomes exactly its arrays turned into sets; when it holds none, the
   * memory is kept.
   */
  function Load(stored: Option<Stored>, current: History): (r: History)
    ensures ValidHistory(current) ==> ValidHistory(r)
    ensures stored.None? ==> r == current
    ensures stored.Some? ==>
      && r.Keys == stored.value.Keys
      && forall key :: key in r ==> forall u :: u in r[key] <==> u in stored.value[key]
  {
    match stored
    case None => current
    case Some(m) => map key | key in m :: SetOf(m[key])
  }

  /** `saveDownloadedFilesHistory`: every set written out as an array in insertion order. */
  function Save(h: History): (s: Stored)
    ensures s.Keys == h.Keys
    ensures forall key :: key in h ==> |s[key]| == |h[key]| && forall i :: 0 <= i < |h[key]| ==> s[key][i] == h[key][i]
  {
    map key | key in h :: Seqs.Map(h[key], (u: string) => u)
  }

  /** Loading what was saved gives back the same map of sets. */
  lemma LoadSave(h: History, current: History)
    requires ValidHistory(h)
    ensures Load(Some(Save(h)), current) == h
  {
    var s := Save(h);
    forall key | key in h ensures SetOf(s[key]) == h[key] {
      assert s[key] == h[key];
      SetOfNoDups(h[key]);
    }
  }

  /** The set for `key` holds `url`: the `downloadedFilesByClassroom[key].has(url)` test. */
  predicate Has(h: History, key: string, url: string) {
    key in h && url in h[key]
  }

  /** Adding each element of `xs` in order, as repeated `Set.prototype.add`. */
  function AddAll(elems: seq<string>, xs: seq<string>): (r: seq<string>)
    requires NoDups(elems)
    ensures NoDups(r)
    ensures |elems| <= |r| && r[..|elems|] == elems
    ensures forall y :: y in r <==> y in elems || y in xs
    decreases |xs|
  {
    if xs == [] then elems
    else
      var once := SetAdd(elems, xs[0]);
      var r := AddAll(once, xs[1..]);
      assert r[..|elems|] == elems by {
        assert r[..|once|] == once;
        assert once[..|elems|] == elems;
      }
      assert forall y :: y in xs ==> y == xs[0] || y in xs[1..];
      r
  }

  /** The URLs recorded for a list of files: for each, its normalised then its raw URL. */
  function Forms(urls: seq<string>): (f: seq<string>)
    ensures forall u :: u in urls ==> u in f && NormalizeFileUrl(u) in f
    ensures forall y :: y in f ==> exists u :: u in urls && (y == u || y == NormalizeFileUrl(u))
  {
    if urls == [] then []
    else
      var rest := Forms(urls[1..]);
      assert forall u :: u in urls ==> u == urls[0] || u in urls[1..];
      [NormalizeFileUrl(urls[0]), urls[0]] + rest
  }

  /**
   * The recording branch of `downloadSelectedFiles`: create the set for
   * `key` when missing, then add each file's normalised and raw URL.
   */
  function Record(h: History, key: string, urls: seq<string>): (r: History)
    requires ValidHistory(h)
    ensures ValidHistory(r)
    ensures r.Keys == h.Keys + {key}
    ensures forall k :: k in h && k != key ==> r[k] == h[k]
    ensures forall k :: k in h ==> |h[k]| <= |r[k]| && r[k][..|h[k]|] == h[k]
    ensures forall y :: Has(r, key, y) <==> Has(h, key, y) || y in Forms(urls)
  {
    var before := if key in h then h[key] else [];
    h[key := AddAll(before, Forms(urls))]
  }

  /** After recording, the set for `key` holds each file's raw and normalised URL, and only what was there or came from a file. */
  lemma RecordContents(h: History, key: string, urls: seq<string>)
    requires ValidHistory(h)
    ensures forall u :: u in urls ==> Has(Record(h, key, urls), key, u) && Has(Record(h, key, urls), key, NormalizeFileUrl(u))
    ensures forall y :: Has(Record(h, key, urls), key, y) ==>
      Has(h, key, y) || exists u :: u in urls && (y == u || y == NormalizeFileUrl(u))
  {
  }

  /** Recording never removes a URL from any set: the ledger only grows. */
  lemma RecordOnlyGrows(h: History, key: string, urls: seq<string>, k: string, u: string)
    requires ValidHistory(h)
    requires Has(h, k, u)
    ensures Has(Record(h, key, urls), k, u)
  {
    var r := Record(h, key, urls);
    assert r[k][..|h[k]|] == h[k];
    var i :| 0 <= i < |h[k]| && h[k][i] == u;
    assert r[k][i] == u;
  }
}
