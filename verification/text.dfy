/**
 * String primitives with JavaScript meaning: `includes`, `lastIndexOf`,
 * `toLowerCase`, `trim`, and the one regular-expression shape the extension
 * uses everywhere, a literal followed by a capture of a character class
 * (`/P([cls]+)/`).
 */
module Text {
  import opened Wrappers

  // ----- substring search --------------------------------------------------

  /** `pat` occurs in `s` starting at index `p`. */
  predicate OccursAt(s: string, pat: string, p: nat) {
    p + |pat| <= |s| && s[p..p + |pat|] == pat
  }

  /** Index of the first occurrence of `pat` at or after `from`. */
  function IndexOfFrom(s: string, pat: string, from: nat): (r: Option<nat>)
    ensures r.Some? ==> from <= r.value && OccursAt(s, pat, r.value)
    ensures r.Some? ==> forall q :: from <= q < r.value ==> !OccursAt(s, pat, q)
    ensures r.None? ==> forall q :: from <= q ==> !OccursAt(s, pat, q)
    decreases |s| - from
  {
    if from + |pat| > |s| then None
    else if s[from..from + |pat|] == pat then Some(from)
    else IndexOfFrom(s, pat, from + 1)
  }

  /** `String.prototype.includes`. */
  function Contains(s: string, pat: string): (b: bool)
    ensures b <==> exists p :: OccursAt(s, pat, p)
  {
    IndexOfFrom(s, pat, 0).Some?
  }

  /**
   * If the only indices of `s` holding `pat[k]` are in `anchors`, every
   * occurrence of `pat` is aligned so that its `k`-th character sits on an anchor.
   */
  lemma OccurrencesAlignWith(s: string, pat: string, k: nat, anchors: set<nat>)
    requires k < |pat|
    requires forall i :: 0 <= i < |s| && s[i] == pat[k] ==> i in anchors
    ensures forall p: nat :: OccursAt(s, pat, p) ==> p + k in anchors
  {
    forall p: nat | OccursAt(s, pat, p) ensures p + k in anchors {
      assert s[p + k] == s[p..p + |pat|][k];
    }
  }

  /** A string none of whose characters is `c` contains no pattern that holds `c`. */
  lemma AbsentCharBlocks(s: string, pat: string, c: char)
    requires c in pat && c !in s
    ensures !Contains(s, pat)
  {
    var k :| 0 <= k < |pat| && pat[k] == c;
    OccurrencesAlignWith(s, pat, k, {});
  }

  // ----- `/P([cls]+)/` -----------------------------------------------------

  /** The regex `P[cls]` matches at `p`: `pat` occurs there and one class character follows. */
  predicate MatchAt(s: string, pat: string, cls: char -> bool, p: nat) {
    OccursAt(s, pat, p) && p + |pat| < |s| && cls(s[p + |pat|])
  }

  /** Leftmost match position at or after `from` (the regex engine's scan). */
  function FirstMatchFrom(s: string, pat: string, cls: char -> bool, from: nat): (r: Option<nat>)
    ensures r.Some? ==> from <= r.value && MatchAt(s, pat, cls, r.value)
    ensures r.Some? ==> forall q :: from <= q < r.value ==> !MatchAt(s, pat, cls, q)
    ensures r.None? ==> forall q :: from <= q ==> !MatchAt(s, pat, cls, q)
    decreases |s| - from
  {
    if from + |pat| >= |s| then None
    else if s[from..from + |pat|] == pat && cls(s[from + |pat|]) then Some(from)
    else FirstMatchFrom(s, pat, cls, from + 1)
  }

  /** The longest run of class characters starting at `i` (a greedy `[cls]+`, or `*`). */
  function Run(s: string, i: nat, cls: char -> bool): (r: string)
    requires i <= |s|
    ensures i + |r| <= |s| && s[i..i + |r|] == r
    ensures forall k :: 0 <= k < |r| ==> cls(r[k])
    ensures i + |r| == |s| || !cls(s[i + |r|])
    decreases |s| - i
  {
    if i < |s| && cls(s[i]) then [s[i]] + Run(s, i + 1, cls) else []
  }

  /** `w` ends where a run must end, so it is the run. */
  lemma {:induction false} RunUnique(s: string, i: nat, cls: char -> bool, w: string)
    requires i + |w| <= |s| && s[i..i + |w|] == w
    requires forall k :: 0 <= k < |w| ==> cls(w[k])
    requires i + |w| == |s| || !cls(s[i + |w|])
    ensures Run(s, i, cls) == w
    decreases |w|
  {
    if w != [] {
      var tail := w[1..];
      assert s[i] == w[0];
      assert s[i + 1..i + 1 + |tail|] == tail;
      RunUnique(s, i + 1, cls, tail);
      assert w == [s[i]] + tail;
    }
  }

  /** The run at the start of `w + t` is `w` when `w` is all class characters and `t` does not start with one. */
  lemma RunOfConcat(w: string, t: string, cls: char -> bool)
    requires forall k :: 0 <= k < |w| ==> cls(w[k])
    requires t == [] || !cls(t[0])
    ensures Run(w + t, 0, cls) == w && (w + t)[|w|..] == t
  {
    var s := w + t;
    assert s[..|w|] == w;
    if t != [] {
      assert s[|w|] == t[0];
    }
    RunUnique(s, 0, cls, w);
  }

  /**
   * `s.match(/P([cls]+)/)[1]`: the class run after the leftmost `pat` that is
   * followed by at least one class character.
   */
  function Capture(s: string, pat: string, cls: char -> bool): (r: Option<string>)
    ensures r.None? <==> forall p :: !MatchAt(s, pat, cls, p)
    ensures r.Some? ==> r.value != [] && forall k :: 0 <= k < |r.value| ==> cls(r.value[k])
    ensures r.Some? ==> exists p :: FirstMatchAt(s, pat, cls, p) && CapturedAt(s, pat, cls, p, r.value)
  {
    match FirstMatchFrom(s, pat, cls, 0)
    case None => None
    case Some(p) =>
      var w := Run(s, p + |pat|, cls);
      assert FirstMatchAt(s, pat, cls, p);
      Some(w)
  }

  /** `p` is the leftmost match position. */
  ghost predicate FirstMatchAt(s: string, pat: string, cls: char -> bool, p: nat) {
    MatchAt(s, pat, cls, p) && forall q: nat :: q < p ==> !MatchAt(s, pat, cls, q)
  }

  /** `w` is the maximal class run right after `pat` at `p`. */
  ghost predicate CapturedAt(s: string, pat: string, cls: char -> bool, p: nat, w: string) {
    p + |pat| + |w| <= |s| && s[p + |pat|..p + |pat| + |w|] == w
    && (p + |pat| + |w| == |s| || !cls(s[p + |pat| + |w|]))
  }

  /** Characterisation of `Capture` from a known leftmost match and run. */
  lemma CaptureIs(s: string, pat: string, cls: char -> bool, p: nat, w: string)
    requires FirstMatchAt(s, pat, cls, p)
    requires CapturedAt(s, pat, cls, p, w)
    requires forall k :: 0 <= k < |w| ==> cls(w[k])
    ensures Capture(s, pat, cls) == Some(w)
  {
    var f := FirstMatchFrom(s, pat, cls, 0);
    assert f == Some(p);
    RunUnique(s, p + |pat|, cls, w);
  }

  /** A pattern right after a prefix that lacks its first character is the leftmost match. */
  lemma CaptureAfterPrefix(pre: string, pat: string, cls: char -> bool, w: string, rest: string)
    requires pat != [] && pat[0] !in pre
    requires w != [] && forall k :: 0 <= k < |w| ==> cls(w[k])
    requires rest == [] || !cls(rest[0])
    ensures Capture(pre + pat + w + rest, pat, cls) == Some(w)
  {
    var s := pre + pat + w + rest;
    var p := |pre|;
    assert s[p..p + |pat|] == pat;
    assert s[p + |pat|] == w[0];
    forall q: nat | q < p ensures !MatchAt(s, pat, cls, q) {
      assert s[q] == pre[q];
    }
    assert s[p + |pat|..p + |pat| + |w|] == w;
    if rest != [] {
      assert s[p + |pat| + |w|] == rest[0];
    }
    CaptureIs(s, pat, cls, p, w);
  }

  // ----- character classes -------------------------------------------------

  /** `[a-zA-Z0-9_-]`. */
  predicate IsIdChar(c: char) {
    ('a' <= c <= 'z') || ('A' <= c <= 'Z') || ('0' <= c <= '9') || c == '_' || c == '-'
  }

  /** A non-empty string of `[a-zA-Z0-9_-]`: the shape of a Google file id. */
  predicate IsId(s: string) {
    s != [] && forall k :: 0 <= k < |s| ==> IsIdChar(s[k])
  }

  /** `[^\/]`. */
  predicate NotSlash(c: char) {
    c != '/'
  }

  /**
   * JavaScript's WhiteSpace and LineTerminator code points: the set that both
   * `\s` and `String.prototype.trim` use.
   */
  predicate IsWhitespace(c: char) {
    c == '\t' || c == '\n' || c == '\U{000B}' || c == '\U{000C}' || c == '\r' || c == ' '
    || c == '\U{00A0}' || c == '\U{1680}' || ('\U{2000}' <= c <= '\U{200A}')
    || c == '\U{2028}' || c == '\U{2029}' || c == '\U{202F}' || c == '\U{205F}'
    || c == '\U{3000}' || c == '\U{FEFF}'
  }

  // ----- case ----------------------------------------------------------------

  /** ASCII lower-casing of one character. */
  function LowerChar(c: char): char {
    if 'A' <= c <= 'Z' then (c as int + 32) as char else c
  }

  /** `String.prototype.toLowerCase`, restricted to ASCII letters. */
  function ToLower(s: string): (r: string)
    ensures |r| == |s|
    ensures forall i :: 0 <= i < |s| ==> r[i] == LowerChar(s[i])
  {
    seq(|s|, i requires 0 <= i < |s| => LowerChar(s[i]))
  }

  /** Lower-casing is idempotent, so comparing lowered strings ignores case. */
  lemma ToLowerIdempotent(s: string)
    ensures ToLower(ToLower(s)) == ToLower(s)
  {
  }

  // ----- whitespace and trim ---------------------------------------------------

  /** Number of leading whitespace characters. */
  function LeadingSpace(s: string): (n: nat)
    ensures n <= |s|
    ensures forall k :: 0 <= k < n ==> IsWhitespace(s[k])
    ensures n == |s| || !IsWhitespace(s[n])
  {
    |Run(s, 0, IsWhitespace)|
  }

  /** Number of trailing whitespace characters. */
  function TrailingSpace(s: string): (n: nat)
    ensures n <= |s|
    ensures forall k :: |s| - n <= k < |s| ==> IsWhitespace(s[k])
    ensures n == |s| || !IsWhitespace(s[|s| - 1 - n])
    decreases |s|
  {
    if s != [] && IsWhitespace(s[|s| - 1]) then 1 + TrailingSpace(s[..|s| - 1]) else 0
  }

  /** The whitespace-free content of a string, in order. */
  function RemoveSpace(s: string): (r: string)
    ensures forall k :: 0 <= k < |r| ==> !IsWhitespace(r[k])
    decreases |s|
  {
    if s == [] then []
    else if IsWhitespace(s[0]) then RemoveSpace(s[1..])
    else [s[0]] + RemoveSpace(s[1..])
  }

  lemma {:induction false} RemoveSpaceAppend(a: string, b: string)
    ensures RemoveSpace(a + b) == RemoveSpace(a) + RemoveSpace(b)
    decreases |a|
  {
    if a == [] {
      assert a + b == b;
    } else {
      assert (a + b)[0] == a[0];
      assert (a + b)[1..] == a[1..] + b;
      RemoveSpaceAppend(a[1..], b);
    }
  }

  lemma {:induction false} RemoveSpaceAllSpace(s: string)
    requires forall k :: 0 <= k < |s| ==> IsWhitespace(s[k])
    ensures RemoveSpace(s) == []
    decreases |s|
  {
    if s != [] {
      RemoveSpaceAllSpace(s[1..]);
    }
  }

  /** Characters that survive `RemoveSpace` are exactly the non-whitespace ones. */
  lemma {:induction false} RemoveSpaceMembers(s: string, c: char)
    ensures c in RemoveSpace(s) <==> c in s && !IsWhitespace(c)
    decreases |s|
  {
    if s != [] {
      RemoveSpaceMembers(s[1..], c);
      assert s == [s[0]] + s[1..];
    }
  }

  /**
   * The words of a string: its maximal runs of non-whitespace characters, in
   * order. Read from the front, a non-whitespace character extends the first
   * word of the rest when the next character is not whitespace, and is a word
   * of its own otherwise.
   */
  function Words(s: string): (w: seq<string>)
    ensures s != [] && !IsWhitespace(s[0]) ==> w != [] && w[0] != [] && w[0][0] == s[0]
    decreases |s|
  {
    if s == [] then []
    else
      var rest := Words(s[1..]);
      if IsWhitespace(s[0]) then rest
      else if |s| > 1 && !IsWhitespace(s[1]) then [[s[0]] + rest[0]] + rest[1..]
      else [[s[0]]] + rest
  }

  /**
   * Each word is non-empty and free of whitespace, and together the words
   * spell the whitespace-free content of the string.
   */
  lemma {:induction false} WordsAreRuns(s: string)
    ensures forall i :: 0 <= i < |Words(s)| ==> Words(s)[i] != []
    ensures forall i, k :: 0 <= i < |Words(s)| && 0 <= k < |Words(s)[i]| ==> !IsWhitespace(Words(s)[i][k])
    ensures Concat(Words(s)) == RemoveSpace(s)
    decreases |s|
  {
    if s != [] {
      var rest := Words(s[1..]);
      WordsAreRuns(s[1..]);
      if !IsWhitespace(s[0]) {
        if |s| > 1 && !IsWhitespace(s[1]) {
          assert ([[s[0]] + rest[0]] + rest[1..])[1..] == rest[1..];
        } else {
          assert ([[s[0]]] + rest)[1..] == rest;
        }
      }
    }
  }

  /** The words laid end to end. */
  function Concat(w: seq<string>): (r: string)
    decreases |w|
  {
    if w == [] then [] else w[0] + Concat(w[1..])
  }

  /** Leading whitespace holds no word. */
  lemma {:induction false} WordsSkipSpace(s: string, n: nat)
    requires n <= |s|
    requires forall k :: 0 <= k < n ==> IsWhitespace(s[k])
    ensures Words(s[n..]) == Words(s)
    decreases n
  {
    if n > 0 {
      assert s[1..][n - 1..] == s[n..];
      WordsSkipSpace(s[1..], n - 1);
    }
  }

  /** Trailing whitespace holds no word. */
  lemma {:induction false} WordsDropSpace(s: string, tail: string)
    requires forall k :: 0 <= k < |tail| ==> IsWhitespace(tail[k])
    ensures Words(s + tail) == Words(s)
    decreases |s|
  {
    if s == [] {
      assert s + tail == tail[0..];
      WordsSkipSpace(tail, |tail|);
    } else {
      assert (s + tail)[1..] == s[1..] + tail;
      WordsDropSpace(s[1..], tail);
    }
  }

  /**
   * Putting one character in front of two strings with the same words and the
   * same whitespace at the front gives strings with the same words.
   */
  lemma WordsCons(c: char, t: string, u: string)
    requires Words(t) == Words(u)
    requires t != [] <==> u != []
    requires t != [] ==> (IsWhitespace(t[0]) <==> IsWhitespace(u[0]))
    ensures Words([c] + t) == Words([c] + u)
    ensures IsWhitespace(c) ==> Words([c] + t) == Words(t)
  {
    assert ([c] + t)[1..] == t;
    assert ([c] + u)[1..] == u;
  }

  /** No leading and no trailing whitespace. */
  predicate IsTrimmed(s: string) {
    s == [] || (!IsWhitespace(s[0]) && !IsWhitespace(s[|s| - 1]))
  }

  /**
   * `String.prototype.trim`: the slice of `s` between its leading and its
   * trailing whitespace.
   */
  function Trim(s: string): (r: string)
    ensures IsTrimmed(r)
    ensures LeadingSpace(s) + |r| <= |s| && r == s[LeadingSpace(s)..LeadingSpace(s) + |r|]
    ensures forall k :: LeadingSpace(s) + |r| <= k < |s| ==> IsWhitespace(s[k])
    ensures RemoveSpace(r) == RemoveSpace(s)
    ensures Words(r) == Words(s)
  {
    var a := LeadingSpace(s);
    var t := s[a..];
    var r := t[..|t| - TrailingSpace(t)];
    TrimKeepsContent(s, a, r, t[|r|..]);
    TrimKeepsWords(s, a, r, t[|r|..]);
    r
  }

  /** Cutting whitespace off both ends leaves the non-whitespace content intact. */
  lemma TrimKeepsContent(s: string, a: nat, r: string, tail: string)
    requires a <= |s| && s == s[..a] + r + tail
    requires forall k :: 0 <= k < a ==> IsWhitespace(s[k])
    requires forall k :: 0 <= k < |tail| ==> IsWhitespace(tail[k])
    ensures RemoveSpace(r) == RemoveSpace(s)
  {
    RemoveSpaceAppend(s[..a] + r, tail);
    RemoveSpaceAppend(s[..a], r);
    RemoveSpaceAllSpace(s[..a]);
    RemoveSpaceAllSpace(tail);
  }

  /** Cutting whitespace off both ends leaves the words intact. */
  lemma TrimKeepsWords(s: string, a: nat, r: string, tail: string)
    requires a <= |s| && s[a..] == r + tail
    requires forall k :: 0 <= k < a ==> IsWhitespace(s[k])
    requires forall k :: 0 <= k < |tail| ==> IsWhitespace(tail[k])
    ensures Words(r) == Words(s)
  {
    WordsSkipSpace(s, a);
    WordsDropSpace(r, tail);
  }

  /** Trimming an already trimmed string changes nothing. */
  lemma TrimTrimmed(s: string)
    requires IsTrimmed(s)
    ensures Trim(s) == s
  {
  }

  // ----- length ------------------------------------------------------------------

  /** A character outside the Basic Multilingual Plane, stored as a surrogate pair. */
  predicate IsAstral(c: char) {
    c as int > 0xFFFF
  }

  /**
   * `String.prototype.length`: the number of UTF-16 code units, one for a
   * character of the Basic Multilingual Plane and two for any other.
   */
  function Utf16Length(s: string): (n: nat)
    ensures |s| <= n <= 2 * |s|
    ensures n == |s| <==> forall k :: 0 <= k < |s| ==> !IsAstral(s[k])
    decreases |s|
  {
    if s == [] then 0
    else
      var rest := Utf16Length(s[1..]);
      assert forall k :: 1 <= k < |s| ==> s[k] == s[1..][k - 1];
      (if IsAstral(s[0]) then 2 else 1) + rest
  }

  // ----- other searches ---------------------------------------------------------

  /** `String.prototype.lastIndexOf` for one character. */
  function LastIndexOf(s: string, c: char): (r: Option<nat>)
    ensures r.Some? ==> r.value < |s| && s[r.value] == c
    ensures r.Some? ==> forall k :: r.value < k < |s| ==> s[k] != c
    ensures r.None? <==> c !in s
    decreases |s|
  {
    if s == [] then None
    else if s[|s| - 1] == c then Some(|s| - 1)
    else
      assert s == s[..|s| - 1] + [s[|s| - 1]];
      LastIndexOf(s[..|s| - 1], c)
  }

  /** `s.split(c)[0]`: everything before the first `c`. */
  function BeforeFirst(s: string, c: char): (r: string)
    ensures c !in r
    ensures |r| <= |s| && r == s[..|r|]
    ensures |r| == |s| || s[|r|] == c
  {
    Run(s, 0, x => x != c)
  }

  /** Decimal rendering of a natural number, as template literals do. */
  function Decimal(n: nat): (r: string)
    ensures r != []
    ensures forall k :: 0 <= k < |r| ==> '0' <= r[k] <= '9'
  {
    var d := ['0' + (n % 10) as char];
    if n < 10 then d else Decimal(n / 10) + d
  }
}
