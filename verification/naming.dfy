/**
 * File-name helpers of the background worker (background.js): extension
 * lookup, sanitising, and the suffix inference that repairs a name lacking
 * an extension before it is handed to the download facility.
 */
module Naming {
  import opened Wrappers
  import opened Text

  // ----- getFileExtension ------------------------------------------------------

  /**
   * The text after the last dot, or "" when there is no dot or the dot is the
   * last character.
   */
  function GetFileExtension(name: string): (ext: string)
    ensures '.' !in ext
    ensures ext == [] <==> '.' !in name || name[|name| - 1] == '.'
    ensures ext != [] ==> |ext| < |name| && name[|name| - |ext| - 1] == '.' && name[|name| - |ext|..] == ext
  {
    match LastIndexOf(name, '.')
    case None => []
    case Some(i) =>
      if i == |name| - 1 then []
      else
        var ext := name[i + 1..];
        assert forall k :: 0 <= k < |ext| ==> ext[k] == name[i + 1 + k];
        ext
  }

  // ----- sanitizeFileName ------------------------------------------------------

  /** The characters `<>:"/\|?*` that the sanitiser replaces. */
  predicate IsIllegal(c: char) {
    c == '<' || c == '>' || c == ':' || c == '"' || c == '/' || c == '\\' || c == '|' || c == '?' || c == '*'
  }

  /** `.replace(/[<>:"/\\|?*]/g, '_')`. */
  function ReplaceIllegal(s: string): (r: string)
    ensures |r| == |s|
    ensures forall k :: 0 <= k < |r| ==> !IsIllegal(r[k])
    ensures forall k :: 0 <= k < |s| ==> r[k] == (if IsIllegal(s[k]) then '_' else s[k])
  {
    seq(|s|, k requires 0 <= k < |s| => if IsIllegal(s[k]) then '_' else s[k])
  }

  /** Whitespace occurs only as single plain spaces. */
  predicate SingleSpaced(s: string) {
    && (forall k :: 0 <= k < |s| && IsWhitespace(s[k]) ==> s[k] == ' ')
    && (forall k :: 0 <= k < |s| - 1 ==> !(IsWhitespace(s[k]) && IsWhitespace(s[k + 1])))
  }

  /**
   * What `.replace(/\s+/g, ' ')` makes of `s`: `r` is single-spaced, has the
   * same words and the same whitespace-free content as `s`, is empty exactly
   * when `s` is, and starts and ends with whitespace exactly when `s` does.
   * Together these fix `r` uniquely.
   */
  predicate CollapsedFrom(s: string, r: string) {
    && SingleSpaced(r)
    && SameLayout(r, s)
    && RemoveSpace(r) == RemoveSpace(s)
  }

  /** Same words, and the same answer to: empty? starts with whitespace? ends with whitespace? */
  predicate SameLayout(a: string, b: string) {
    && Words(a) == Words(b)
    && (a != [] <==> b != [])
    && (a != [] ==> (IsWhitespace(a[0]) <==> IsWhitespace(b[0])))
    && (a != [] ==> (IsWhitespace(a[|a| - 1]) <==> IsWhitespace(b[|b| - 1])))
  }

  /** A single-spaced string is fixed by its layout: two with the same layout are equal. */
  lemma {:induction false} SingleSpacedUnique(a: string, b: string)
    requires SingleSpaced(a) && SingleSpaced(b)
    requires SameLayout(a, b)
    ensures a == b
    decreases |a|
  {
    if a != [] {
      if IsWhitespace(a[0]) {
        SpaceTails(a, b);
      } else {
        CharTails(a, b);
      }
      assert SingleSpaced(a[1..]) && SingleSpaced(b[1..]);
      SingleSpacedUnique(a[1..], b[1..]);
      HeadTail(a);
      HeadTail(b);
    }
  }

  /** Two single-spaced strings with the same layout that start with a space agree after it. */
  lemma SpaceTails(a: string, b: string)
    requires SingleSpaced(a) && SingleSpaced(b)
    requires SameLayout(a, b)
    requires a != [] && IsWhitespace(a[0])
    ensures a[0] == b[0] && SameLayout(a[1..], b[1..])
  {
    assert Words(a[1..]) == Words(a) && Words(b[1..]) == Words(b);
    if |a| > 1 {
      assert !IsWhitespace(a[1..][0]);
    }
    if |b| > 1 {
      assert !IsWhitespace(b[1..][0]);
    }
  }

  /** Two single-spaced strings with the same layout that start with a non-space agree on it and after it. */
  lemma CharTails(a: string, b: string)
    requires SingleSpaced(a) && SingleSpaced(b)
    requires SameLayout(a, b)
    requires a != [] && !IsWhitespace(a[0])
    ensures a[0] == b[0] && SameLayout(a[1..], b[1..])
  {
    var wa, wb := Words(a[1..]), Words(b[1..]);
    WordsAreRuns(a[1..]);
    WordsAreRuns(b[1..]);
    var joinA := |a| > 1 && !IsWhitespace(a[1]);
    var joinB := |b| > 1 && !IsWhitespace(b[1]);
    if joinA && joinB {
      assert Words(a) == [[a[0]] + wa[0]] + wa[1..];
      assert Words(b) == [[b[0]] + wb[0]] + wb[1..];
      assert Words(a)[1..] == wa[1..] && Words(b)[1..] == wb[1..];
      assert [a[0]] + wa[0] == [b[0]] + wb[0];
      assert wa[0] == ([a[0]] + wa[0])[1..];
      assert wb[0] == ([b[0]] + wb[0])[1..];
      assert wa == [wa[0]] + wa[1..] && wb == [wb[0]] + wb[1..];
    } else if joinA || joinB {
      assert false;
    } else {
      assert [[a[0]]] + wa == [[b[0]]] + wb;
      assert wa == ([[a[0]]] + wa)[1..];
      assert wb == ([[b[0]]] + wb)[1..];
    }
  }

  /** `.replace(/\s+/g, ' ')`: every maximal whitespace run becomes one space. */
  function CollapseWhitespace(s: string): (r: string)
    ensures CollapsedFrom(s, r)
    ensures forall k :: 0 <= k < |r| && !IsWhitespace(r[k]) ==> r[k] in s
    decreases |s|
  {
    if s == [] then []
    else if IsWhitespace(s[0]) then
      var n := LeadingSpace(s);
      var rest := CollapseWhitespace(s[n..]);
      CollapseSpaceStep(s, n, rest);
      [' '] + rest
    else
      var rest := CollapseWhitespace(s[1..]);
      CollapseCharStep(s, rest);
      [s[0]] + rest
  }

  /** A whitespace run at the front becomes one space before the collapsed rest. */
  lemma CollapseSpaceStep(s: string, n: nat, rest: string)
    requires 0 < n <= |s| && forall k :: 0 <= k < n ==> IsWhitespace(s[k])
    requires n == |s| || !IsWhitespace(s[n])
    requires CollapsedFrom(s[n..], rest)
    ensures CollapsedFrom(s, [' '] + rest)
  {
    RemoveSpaceAppend(s[..n], s[n..]);
    RemoveSpaceAllSpace(s[..n]);
    WordsSkipSpace(s, n);
    WordsCons(' ', rest, rest);
    assert s == s[..n] + s[n..];
  }

  /** A non-whitespace character at the front is kept before the collapsed rest. */
  lemma CollapseCharStep(s: string, rest: string)
    requires s != [] && !IsWhitespace(s[0])
    requires CollapsedFrom(s[1..], rest)
    ensures CollapsedFrom(s, [s[0]] + rest)
  {
    WordsCons(s[0], rest, s[1..]);
    assert s == [s[0]] + s[1..];
  }

  /** The collapse is the only string with the promised properties. */
  lemma CollapseCharacterised(s: string, t: string)
    requires CollapsedFrom(s, t)
    ensures t == CollapseWhitespace(s)
  {
    SingleSpacedUnique(t, CollapseWhitespace(s));
  }

  /** A single-spaced string is its own collapse. */
  lemma {:induction false} CollapseSingleSpaced(s: string)
    requires SingleSpaced(s)
    ensures CollapseWhitespace(s) == s
    decreases |s|
  {
    if s != [] {
      assert SingleSpaced(s[1..]);
      CollapseSingleSpaced(s[1..]);
      if IsWhitespace(s[0]) {
        assert LeadingSpace(s) == 1;
        assert CollapseWhitespace(s) == [' '] + CollapseWhitespace(s[1..]);
      } else {
        assert CollapseWhitespace(s) == [s[0]] + CollapseWhitespace(s[1..]);
      }
      HeadTail(s);
    }
  }

  /** A non-empty string is its first character before the rest. */
  lemma HeadTail(s: string)
    requires s != []
    ensures [s[0]] + s[1..] == s
  {
  }

  /** What `sanitizeFileName` guarantees of its output. */
  predicate IsSanitized(s: string) {
    && (forall k :: 0 <= k < |s| ==> !IsIllegal(s[k]))
    && SingleSpaced(s)
    && IsTrimmed(s)
  }

  /**
   * `sanitizeFileName`: replace the illegal characters by `_`, collapse
   * whitespace runs to one space, then trim.
   */
  function SanitizeFileName(name: string): (r: string)
    ensures IsSanitized(r)
    ensures RemoveSpace(r) == RemoveSpace(ReplaceIllegal(name))
    ensures Words(r) == Words(ReplaceIllegal(name))
  {
    var c := CollapseWhitespace(ReplaceIllegal(name));
    TrimKeepsSanitized(c);
    Trim(c)
  }

  /** Trimming a single-spaced string of legal characters yields a sanitised one. */
  lemma TrimKeepsSanitized(c: string)
    requires SingleSpaced(c)
    requires forall k :: 0 <= k < |c| ==> !IsIllegal(c[k])
    ensures IsSanitized(Trim(c))
  {
    var r := Trim(c);
    var a := LeadingSpace(c);
    assert forall k :: 0 <= k < |r| ==> r[k] == c[a + k];
  }

  /**
   * The sanitised name is the only sanitised string with the words of the
   * name after illegal characters are replaced.
   */
  lemma SanitizeCharacterised(name: string, t: string)
    requires IsSanitized(t)
    requires Words(t) == Words(ReplaceIllegal(name))
    ensures t == SanitizeFileName(name)
  {
    var r := SanitizeFileName(name);
    SingleSpacedUnique(t, r);
  }

  /** Sanitising a sanitised name changes nothing. */
  lemma SanitizeFixesSanitized(s: string)
    requires IsSanitized(s)
    ensures SanitizeFileName(s) == s
  {
    assert ReplaceIllegal(s) == s;
    CollapseSingleSpaced(s);
    TrimTrimmed(s);
  }

  /** `sanitizeFileName` is idempotent. */
  lemma SanitizeIdempotent(name: string)
    ensures SanitizeFileName(SanitizeFileName(name)) == SanitizeFileName(name)
  {
    SanitizeFixesSanitized(SanitizeFileName(name));
  }

  /** A legal non-whitespace character is in the sanitised name exactly when it is in the name. */
  lemma SanitizeKeepsCharacter(name: string, c: char)
    requires !IsIllegal(c) && !IsWhitespace(c) && c != '_'
    ensures c in SanitizeFileName(name) <==> c in name
  {
    var r := SanitizeFileName(name);
    var m := ReplaceIllegal(name);
    RemoveSpaceMembers(r, c);
    RemoveSpaceMembers(m, c);
    if c in name {
      var k :| 0 <= k < |name| && name[k] == c;
      assert m[k] == c;
    }
    if c in m {
      var k :| 0 <= k < |m| && m[k] == c;
      assert name[k] == c;
    }
  }

  // ----- extension inference (downloadFilesIndividually) -----------------------

  /** A `format=` marker and the suffix it implies. */
  datatype FormatMarker = FormatMarker(marker: string, suffix: string)

  /** The markers in the order the worker tests them. */
  const FormatMarkers: seq<FormatMarker> := [
    FormatMarker("format=docx", ".docx"),
    FormatMarker("format=pdf", ".pdf"),
    FormatMarker("format=xlsx", ".xlsx"),
    FormatMarker("format=pptx", ".pptx"),
    FormatMarker("format=csv", ".csv")
  ]

  /** The URL contains marker `j`. */
  predicate HasMarker(url: string, j: nat)
    requires j < |FormatMarkers|
  {
    Contains(url, FormatMarkers[j].marker)
  }

  /** Among the markers from index `i` on, marker `j` is the first one the URL contains. */
  predicate FirstMarkerFrom(url: string, i: nat, j: nat) {
    i <= j < |FormatMarkers| && HasMarker(url, j)
    && forall m :: i <= m < j ==> !HasMarker(url, m)
  }

  /** Marker `j` is the first marker, in test order, that the URL contains. */
  predicate FirstMarkerIs(url: string, j: nat) {
    FirstMarkerFrom(url, 0, j)
  }

  /** The suffix chosen from the markers from index `i` on. */
  function SuffixFrom(url: string, i: nat): (r: string)
    requires i <= |FormatMarkers|
    ensures r == [] <==> forall j :: i <= j < |FormatMarkers| ==> !HasMarker(url, j)
    ensures forall j: nat :: FirstMarkerFrom(url, i, j) ==> r == FormatMarkers[j].suffix
    decreases |FormatMarkers| - i
  {
    if i == |FormatMarkers| then []
    else if HasMarker(url, i) then FormatMarkers[i].suffix
    else SuffixFrom(url, i + 1)
  }

  /** The suffix the worker appends to a name without extension: that of the first marker found. */
  function InferredSuffix(directUrl: string): (r: string)
    ensures r == [] <==> forall j :: 0 <= j < |FormatMarkers| ==> !HasMarker(directUrl, j)
    ensures forall j: nat :: FirstMarkerIs(directUrl, j) ==> r == FormatMarkers[j].suffix
  {
    SuffixFrom(directUrl, 0)
  }

  /**
   * The file name the worker submits: the sanitised name, extended only when
   * it has no extension and the URL carries a marker.
   */
  function RepairName(name: string, directUrl: string): (r: string)
    ensures var base := SanitizeFileName(name);
      && |base| <= |r| && r[..|base|] == base
      && (GetFileExtension(base) != [] ==> r == base)
      && (|r| > |base| <==> GetFileExtension(base) == [] && exists j :: 0 <= j < |FormatMarkers| && HasMarker(directUrl, j))
  {
    var base := SanitizeFileName(name);
    if GetFileExtension(base) == [] then base + InferredSuffix(directUrl) else base
  }

  /** Appending `.w` to any name gives it the extension `w`. */
  lemma ExtensionOfAppended(b: string, w: string)
    requires w != [] && '.' !in w
    ensures GetFileExtension(b + "." + w) == w
  {
    var n := b + "." + w;
    assert n[|b|] == '.';
    assert forall k :: |b| < k < |n| ==> n[k] == w[k - |b| - 1];
    assert n[|b| + 1..] == w;
  }

  /** Every marker is `format=<word>` and its suffix `.<word>`, for a word without dots. */
  lemma MarkerShape(j: nat)
    requires j < |FormatMarkers|
    ensures var m := FormatMarkers[j];
      && |m.marker| > 7 && m.marker[6] == '='
      && |m.suffix| > 1 && m.suffix[0] == '.' && '.' !in m.suffix[1..]
  {
    if j == 0 {
    } else if j == 1 {
    } else if j == 2 {
    } else if j == 3 {
    } else {
    }
  }

  /**
   * A name without extension that picks up a marker's suffix ends up with
   * that marker's format as its extension, so a second repair adds nothing.
   */
  lemma RepairedNameHasMarkerExtension(name: string, directUrl: string, j: nat)
    requires GetFileExtension(SanitizeFileName(name)) == []
    requires FirstMarkerIs(directUrl, j)
    ensures RepairName(name, directUrl) == SanitizeFileName(name) + FormatMarkers[j].suffix
    ensures GetFileExtension(RepairName(name, directUrl)) == FormatMarkers[j].suffix[1..]
  {
    RepairedNameAppends(name, directUrl, j);
    SuffixGivesExtension(SanitizeFileName(name), j);
  }

  /** A name without extension gets the first marker's suffix appended. */
  lemma RepairedNameAppends(name: string, directUrl: string, j: nat)
    requires GetFileExtension(SanitizeFileName(name)) == []
    requires FirstMarkerIs(directUrl, j)
    ensures RepairName(name, directUrl) == SanitizeFileName(name) + FormatMarkers[j].suffix
  {
  }

  /** Appending a marker's suffix makes its format the extension. */
  lemma SuffixGivesExtension(b: string, j: nat)
    requires j < |FormatMarkers|
    ensures GetFileExtension(b + FormatMarkers[j].suffix) == FormatMarkers[j].suffix[1..]
  {
    MarkerShape(j);
    DotSuffixIsExtension(b, FormatMarkers[j].suffix);
  }

  /** A suffix `.w`, with no dot in `w`, makes `w` the extension. */
  lemma DotSuffixIsExtension(b: string, sfx: string)
    requires |sfx| > 1 && sfx[0] == '.' && '.' !in sfx[1..]
    ensures GetFileExtension(b + sfx) == sfx[1..]
  {
    assert sfx == "." + sfx[1..];
    ExtensionOfAppended(b, sfx[1..]);
    assert b + sfx == b + "." + sfx[1..];
  }

  /** A URL without `=` carries no marker, so the name is only sanitised. */
  lemma NoEqualsNoSuffix(name: string, directUrl: string)
    requires '=' !in directUrl
    ensures RepairName(name, directUrl) == SanitizeFileName(name)
  {
    forall j | 0 <= j < |FormatMarkers| ensures !HasMarker(directUrl, j) {
      MarkerShape(j);
      AbsentCharBlocks(directUrl, FormatMarkers[j].marker, '=');
    }
  }

  /**
   * In `pre + "format=" + fmt` with `=` nowhere else, a marker is present
   * exactly when it spells the start of `format=<fmt>`.
   */
  lemma MarkerInFormatUrl(pre: string, fmt: string, j: nat)
    requires '=' !in pre && '=' !in fmt && j < |FormatMarkers|
    ensures HasMarker(pre + "format=" + fmt, j) <==> OccursAt("format=" + fmt, FormatMarkers[j].marker, 0)
  {
    var url := pre + "format=" + fmt;
    var m := FormatMarkers[j].marker;
    MarkerShape(j);
    assert forall i :: 0 <= i < |url| && url[i] == '=' ==> i == |pre| + 6;
    OccurrencesAlignWith(url, m, 6, {|pre| + 6});
    if OccursAt("format=" + fmt, m, 0) {
      assert url[|pre|..|pre| + |m|] == ("format=" + fmt)[..|m|];
      assert OccursAt(url, m, |pre|);
    }
    if HasMarker(url, j) {
      var p: nat :| OccursAt(url, m, p);
      assert p == |pre|;
      assert ("format=" + fmt)[..|m|] == url[|pre|..|pre| + |m|];
    }
  }
}
