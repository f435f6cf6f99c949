/**
 * URLs as the content script sees them: `normalizeFileUrl` (origin plus
 * pathname) and `getClassroomKey` (the path segment after `/c/`), both of
 * which fall back to their input when the URL constructor throws.
 *
 * The parser covers absolute `http`/`https` URLs with an authority, split
 * into the components of the WHATWG URL Standard that the script reads:
 * origin (scheme and host), pathname, query (with its `?`) and fragment
 * (with its `#`). Everything else is treated as a parse failure, and no
 * component is canonicalised; the URL Standard accepts and rewrites more.
 */
module Urls {
  import opened Wrappers
  import opened Text

  /** A parsed URL. `Origin()` is `scheme://host`. */
  datatype Url = Url(scheme: string, host: string, pathname: string, query: string, fragment: string)
  {
    function Origin(): string {
      scheme + "://" + host
    }

    /** The serialisation: origin, pathname, query, fragment. */
    function Href(): string {
      Origin() + pathname + query + fragment
    }
  }

  /** Characters that end the host. */
  predicate IsHostChar(c: char) {
    c != '/' && c != '?' && c != '#'
  }

  /** Characters that end the path. */
  predicate IsPathChar(c: char) {
    c != '?' && c != '#'
  }

  /** Characters that end the query. */
  predicate IsQueryChar(c: char) {
    c != '#'
  }

  /** The shape of every URL the parser produces. */
  predicate WellFormed(u: Url) {
    && (u.scheme == "http" || u.scheme == "https")
    && u.host != [] && (forall k :: 0 <= k < |u.host| ==> IsHostChar(u.host[k]))
    && u.pathname != [] && u.pathname[0] == '/' && (forall k :: 0 <= k < |u.pathname| ==> IsPathChar(u.pathname[k]))
    && (u.query == [] || (u.query[0] == '?' && forall k :: 0 <= k < |u.query| ==> IsQueryChar(u.query[k])))
    && (u.fragment == [] || u.fragment[0] == '#')
  }

  /** `s` starts with `p`. */
  predicate StartsWith(s: string, p: string) {
    |p| <= |s| && s[..|p|] == p
  }

  /** The components after `scheme://`: host up to `/`, `?` or `#`, then path, query and fragment. */
  function ParseAfterScheme(scheme: string, rest: string): (r: Option<Url>)
    requires scheme == "http" || scheme == "https"
    ensures r.Some? ==> WellFormed(r.value) && r.value.scheme == scheme
  {
    var host := Run(rest, 0, IsHostChar);
    if host == [] then None
    else
      var afterHost := rest[|host|..];
      var path := Run(afterHost, 0, IsPathChar);
      var afterPath := afterHost[|path|..];
      var query := Run(afterPath, 0, IsQueryChar);
      var fragment := afterPath[|query|..];
      assert afterHost == [] || !IsHostChar(afterHost[0]);
      assert afterPath == [] || !IsPathChar(afterPath[0]);
      assert fragment == [] || !IsQueryChar(fragment[0]);
      Some(Url(scheme, host, if path == [] then "/" else path, query, fragment))
  }

  /** `new URL(s)`: `None` where the constructor throws. */
  function Parse(s: string): (r: Option<Url>)
    ensures r.Some? ==> WellFormed(r.value)
  {
    if StartsWith(s, "https://") then ParseAfterScheme("https", s[8..])
    else if StartsWith(s, "http://") then ParseAfterScheme("http", s[7..])
    else None
  }

  /** `normalizeFileUrl`: origin plus pathname; the input itself when it does not parse. */
  function NormalizeFileUrl(s: string): string {
    match Parse(s)
    case Some(u) => u.Origin() + u.pathname
    case None => s
  }

  /** `getClassroomKey`: the segment after the first `/c/` of the pathname, else the pathname; the input when it does not parse. */
  function GetClassroomKey(s: string): string {
    match Parse(s)
    case Some(u) => CourseKey(u.pathname)
    case None => s
  }

  /** The key of a parsed URL's pathname: what follows the first `/c/` up to the next `/`, else the pathname. */
  function CourseKey(pathname: string): string {
    match Capture(pathname, "/c/", NotSlash)
    case Some(k) => k
    case None => pathname
  }
}

/**
 * Properties of the URL helpers: parsing inverts serialisation,
 * normalisation is idempotent and forgets query and fragment, and the
 * classroom key is the course segment.
 */
module UrlsProofs {
  import opened Wrappers
  import opened Text
  import opened Urls

  /** The host run of a well-formed URL's text after `scheme://` is its host. */
  lemma ParseAfterSchemeOfParts(u: Url)
    requires WellFormed(u)
    ensures ParseAfterScheme(u.scheme, u.host + (u.pathname + (u.query + u.fragment))) == Some(u)
  {
    var afterPath := u.query + u.fragment;
    var afterHost := u.pathname + afterPath;
    RunOfConcat(u.host, afterHost, IsHostChar);
    RunOfConcat(u.pathname, afterPath, IsPathChar);
    RunOfConcat(u.query, u.fragment, IsQueryChar);
  }

  /** The text after `scheme://` in a serialisation. */
  lemma HrefSplits(u: Url)
    requires WellFormed(u)
    ensures var rest := u.host + (u.pathname + (u.query + u.fragment));
      && (u.scheme == "https" ==> StartsWith(u.Href(), "https://") && u.Href()[8..] == rest)
      && (u.scheme == "http" ==> !StartsWith(u.Href(), "https://") && StartsWith(u.Href(), "http://") && u.Href()[7..] == rest)
  {
    var rest := u.host + (u.pathname + (u.query + u.fragment));
    var s := u.Href();
    if u.scheme == "https" {
      assert s == "https://" + rest;
    } else {
      assert s == "http://" + rest;
      assert s[4] == ':';
    }
  }

  /** Parsing a well-formed URL's serialisation gives the URL back. */
  lemma ParseHref(u: Url)
    requires WellFormed(u)
    ensures Parse(u.Href()) == Some(u)
  {
    HrefSplits(u);
    ParseAfterSchemeOfParts(u);
  }

  /** A parsed URL serialises back to a text that parses to it. */
  lemma ParseNormalises(s: string)
    requires Parse(s).Some?
    ensures Parse(Parse(s).value.Href()) == Parse(s)
  {
    ParseHref(Parse(s).value);
  }

  /** Normalising drops exactly the query and the fragment. */
  lemma NormalizeDropsQueryAndFragment(s: string)
    requires Parse(s).Some?
    ensures var u := Parse(s).value;
      Parse(NormalizeFileUrl(s)) == Some(u.(query := [], fragment := []))
  {
    var u := Parse(s).value;
    var v := u.(query := [], fragment := []);
    assert v.Href() == NormalizeFileUrl(s);
    ParseHref(v);
  }

  /** `normalize(normalize(u)) == normalize(u)`. */
  lemma NormalizeIdempotent(s: string)
    ensures NormalizeFileUrl(NormalizeFileUrl(s)) == NormalizeFileUrl(s)
  {
    if Parse(s).Some? {
      NormalizeDropsQueryAndFragment(s);
    }
  }

  /** Two URLs that differ only in query and fragment normalise to the same text. */
  lemma NormalizeIgnoresQueryAndFragment(u: Url, query: string, fragment: string)
    requires WellFormed(u) && WellFormed(u.(query := query, fragment := fragment))
    ensures NormalizeFileUrl(u.Href()) == NormalizeFileUrl(u.(query := query, fragment := fragment).Href())
    ensures NormalizeFileUrl(u.Href()) == u.Origin() + u.pathname
  {
    ParseHref(u);
    ParseHref(u.(query := query, fragment := fragment));
  }

  /** A URL whose pathname starts with `/c/<id>` has `id` as its classroom key, whatever follows. */
  lemma ClassroomKeyOfCoursePath(u: Url, id: string, rest: string)
    requires WellFormed(u)
    requires id != [] && forall k :: 0 <= k < |id| ==> NotSlash(id[k])
    requires rest == [] || rest[0] == '/'
    requires u.pathname == "/c/" + id + rest
    ensures GetClassroomKey(u.Href()) == id
  {
    ParseHref(u);
    assert u.pathname == [] + "/c/" + id + rest;
    CaptureAfterPrefix([], "/c/", NotSlash, id, rest);
  }

  /** Pages of one course share its key: the key depends on the pathname only. */
  lemma ClassroomKeySharedByCoursePages(u: Url, v: Url, id: string, restU: string, restV: string)
    requires WellFormed(u) && WellFormed(v)
    requires id != [] && forall k :: 0 <= k < |id| ==> NotSlash(id[k])
    requires (restU == [] || restU[0] == '/') && (restV == [] || restV[0] == '/')
    requires u.pathname == "/c/" + id + restU && v.pathname == "/c/" + id + restV
    ensures GetClassroomKey(u.Href()) == GetClassroomKey(v.Href())
  {
    ClassroomKeyOfCoursePath(u, id, restU);
    ClassroomKeyOfCoursePath(v, id, restV);
  }

  /** Without a course segment the key is the whole pathname. */
  lemma ClassroomKeyWithoutCourse(u: Url)
    requires WellFormed(u)
    requires forall p: nat :: !MatchAt(u.pathname, "/c/", NotSlash, p)
    ensures GetClassroomKey(u.Href()) == u.pathname
  {
    ParseHref(u);
  }

  /** The key is empty only for the empty text, so a key computed from a page URL is truthy. */
  lemma ClassroomKeyNonEmpty(s: string)
    ensures GetClassroomKey(s) == [] ==> s == []
  {
  }
}
