/**
 * `discoverSitemapAndBaseUrl` and `discoverClaudeCodePages` (and their Python
 * twins). The HTTP replies and the XML parser's output are given: a reply is a
 * status and the parsed document, or `None` where the parser throws; URL parsing
 * is a parameter that returns `None` where `new URL` / `urlparse` throws.
 */
module Discovery {
  import opened Common
  import opened Text
  import opened Engine
  import opened Fetcher
  import opened Fallback

  /**
   * A sitemap as the two parsers see it. `entries`: the `loc` of each
   * `urlset/url` element as fast-xml-parser yields it ("" where it is missing);
   * `namespaced`: the text of each sitemap-namespace `loc` under a `url`
   * element (ElementTree's `.//ns:url`), `plain`: the text of each unqualified
   * `loc` element (`.//loc`), "" where an element has no text.
   */
  datatype SitemapDoc = SitemapDoc(entries: seq<string>, namespaced: seq<string>, plain: seq<string>)

  /** The answer to one sitemap request: `doc` is `None` where XML parsing throws. */
  datatype SitemapReply = SitemapReply(status: int, doc: Option<SitemapDoc>) | SitemapUnreachable

  /** The parts of a URL the engine reads. `netloc` is Python's host-and-port. */
  datatype ParsedUrl = ParsedUrl(scheme: string, hostname: string, netloc: string, pathname: string)

  /** The sitemap chosen and the site root every page is fetched from. */
  datatype Located = Located(sitemapUrl: string, baseUrl: string)

  const SitemapUrls: seq<string> := ["https://docs.anthropic.com/sitemap.xml", "https://docs.claude.com/sitemap.xml"]

  /** The locale filter, applied to the whole URL. */
  const EnglishPattern: string := "/en/docs/claude-code/"

  const SkipPatterns: seq<string> := ["/tool-use/", "/examples/", "/legacy/", "/api/", "/reference/"]

  // ---------------------------------------------------------------------------
  // Sitemap location.

  function FirstNonEmpty(xs: seq<string>): (r: Option<string>)
    ensures r.Some? <==> exists i | 0 <= i < |xs| :: xs[i] != []
    ensures r.Some? ==> r.value != [] && r.value in xs
    ensures r.Some? ==> exists i | 0 <= i < |xs| :: xs[i] == r.value && forall j | 0 <= j < i :: xs[j] == []
  {
    if xs == [] then None
    else if xs[0] != [] then Some(xs[0])
    else
      var r := FirstNonEmpty(xs[1..]);
      assert forall i | 1 <= i < |xs| :: xs[i] == xs[1..][i - 1];
      r
  }

  /**
   * The URL a sitemap's root is read from. TypeScript looks only at the first
   * entry; Python takes the first non-empty namespaced `loc`, and the first
   * non-empty plain one only when there is none.
   */
  function FirstLoc(v: Variant, doc: SitemapDoc): Option<string>
  {
    if v.IsTypeScript() then
      if |doc.entries| > 0 && doc.entries[0] != [] then Some(doc.entries[0]) else None
    else
      match FirstNonEmpty(doc.namespaced)
      case Some(u) => Some(u)
      case None => FirstNonEmpty(doc.plain)
  }

  /** `protocol//hostname` in TypeScript, `scheme://netloc` in Python. */
  function BaseUrl(v: Variant, u: ParsedUrl): string
  {
    if v.IsTypeScript() then u.scheme + "://" + u.hostname else u.scheme + "://" + u.netloc
  }

  /** What one candidate yields: the base URL, or `None` to go on to the next candidate. */
  function Probe(v: Variant, reply: SitemapReply, parse: string -> Option<ParsedUrl>): Option<string>
  {
    match reply
    case SitemapUnreachable => None
    case SitemapReply(status, doc) =>
      if status != 200 || doc.None? then None
      else
        match FirstLoc(v, doc.value)
        case None => None
        case Some(u) =>
          match parse(u)
          case None => None
          case Some(p) => Some(BaseUrl(v, p))
  }

  function ReplyAt(replies: seq<SitemapReply>, i: nat): SitemapReply
  {
    if i < |replies| then replies[i] else SitemapUnreachable
  }

  /** The first candidate from `i` on whose probe succeeds; `None` stands for "Could not find a valid sitemap". */
  function LocateFrom(v: Variant, replies: seq<SitemapReply>, parse: string -> Option<ParsedUrl>, i: nat): Option<Located>
    requires i <= |SitemapUrls|
    decreases |SitemapUrls| - i
  {
    if i == |SitemapUrls| then None
    else
      match Probe(v, ReplyAt(replies, i), parse)
      case Some(base) => Some(Located(SitemapUrls[i], base))
      case None => LocateFrom(v, replies, parse, i + 1)
  }

  /** The sitemap search: the first candidate whose probe succeeds, or `None` when neither does. */
  function Locate(v: Variant, replies: seq<SitemapReply>, parse: string -> Option<ParsedUrl>): (r: Option<Located>)
    ensures r.Some? ==> r.value.sitemapUrl in SitemapUrls
    ensures Probe(v, ReplyAt(replies, 0), parse).Some? ==>
      r == Some(Located(SitemapUrls[0], Probe(v, ReplyAt(replies, 0), parse).value))
    ensures r.None? ==>
      Probe(v, ReplyAt(replies, 0), parse).None? && Probe(v, ReplyAt(replies, 1), parse).None?
  {
    LocateFrom(v, replies, parse, 0)
  }

  /** The candidate loop; `replies[i]` answers the request for `SitemapUrls[i]`. */
  method LocateSitemap(v: Variant, replies: seq<SitemapReply>, parse: string -> Option<ParsedUrl>)
    returns (r: Option<Located>)
    ensures r == Locate(v, replies, parse)
  {
    var i := 0;
    while i < |SitemapUrls|
      invariant i <= |SitemapUrls|
      invariant LocateFrom(v, replies, parse, i) == Locate(v, replies, parse)
    {
      var base := Probe(v, ReplyAt(replies, i), parse);
      if base.Some? {
        return Some(Located(SitemapUrls[i], base.value));
      }
      i := i + 1;
    }
    return None;
  }

  /**
   * The search picks the first candidate that answers 200 with a usable first
   * URL, and fails exactly when no candidate does.
   */
  lemma LocateIsFirstUsable(v: Variant, replies: seq<SitemapReply>, parse: string -> Option<ParsedUrl>)
    ensures var r := Locate(v, replies, parse);
      && (r.None? <==> forall i | 0 <= i < |SitemapUrls| :: Probe(v, ReplyAt(replies, i), parse).None?)
      && (r.Some? ==> exists i | 0 <= i < |SitemapUrls| ::
            && ReplyAt(replies, i).SitemapReply? && ReplyAt(replies, i).status == 200
            && Probe(v, ReplyAt(replies, i), parse).Some?
            && r.value == Located(SitemapUrls[i], Probe(v, ReplyAt(replies, i), parse).value)
            && forall j | 0 <= j < i :: Probe(v, ReplyAt(replies, j), parse).None?)
  {
    var p0 := Probe(v, ReplyAt(replies, 0), parse);
    var p1 := Probe(v, ReplyAt(replies, 1), parse);
    if p0.None? && p1.Some? {
      assert forall j | 0 <= j < 1 :: Probe(v, ReplyAt(replies, j), parse).None?;
    }
  }

  /** Python consults plain `loc` elements only when no namespaced one has text. */
  lemma PythonNamespacedFirst(doc: SitemapDoc)
    ensures (exists i | 0 <= i < |doc.namespaced| :: doc.namespaced[i] != []) ==>
      FirstLoc(Python, doc) == FirstNonEmpty(doc.namespaced)
    ensures (forall i | 0 <= i < |doc.namespaced| :: doc.namespaced[i] == []) ==>
      FirstLoc(Python, doc) == FirstNonEmpty(doc.plain)
  {
  }

  // ---------------------------------------------------------------------------
  // Page discovery.

  /** The non-empty strings of `xs`, in order (`.filter(loc => loc)`, `if loc_elem.text`). */
  function NonEmpty(xs: seq<string>): (r: seq<string>)
    ensures forall x :: x in r <==> x in xs && x != []
    ensures |r| <= |xs|
  {
    if xs == [] then [] else (if xs[0] != [] then [xs[0]] else []) + NonEmpty(xs[1..])
  }

  /** The URLs page discovery walks through. */
  function Locs(v: Variant, doc: SitemapDoc): seq<string>
  {
    if v.IsTypeScript() then NonEmpty(doc.entries)
    else if NonEmpty(doc.namespaced) != [] then NonEmpty(doc.namespaced)
    else NonEmpty(doc.plain)
  }

  /** The pathname without a trailing `.html` or, failing that, without a trailing `/`. */
  function PagePath(path: string): (r: string)
    ensures r <= path
    ensures EndsWith(path, ".html") ==> r + ".html" == path
    ensures !EndsWith(path, ".html") && EndsWith(path, "/") ==> r + "/" == path
    ensures !EndsWith(path, ".html") && !EndsWith(path, "/") ==> r == path
  {
    if EndsWith(path, ".html") then path[..|path| - 5]
    else if EndsWith(path, "/") then path[..|path| - 1]
    else path
  }

  /** Whether a page path is on the deny-list. */
  predicate Skipped(path: string)
  {
    exists k | 0 <= k < |SkipPatterns| :: Contains(path, SkipPatterns[k])
  }

  /**
   * The paths kept from `locs`, in order; `None` where parsing one of the English
   * URLs throws, which sends the whole discovery to its `catch`.
   */
  function Kept(locs: seq<string>, parse: string -> Option<ParsedUrl>): Option<seq<string>>
  {
    if locs == [] then Some([])
    else
      var init := Kept(locs[..|locs| - 1], parse);
      var url := locs[|locs| - 1];
      if init.None? || !Contains(url, EnglishPattern) then init
      else
        match parse(url)
        case None => None
        case Some(u) =>
          var path := PagePath(u.pathname);
          if Skipped(path) then init else Some(init.value + [path])
  }

  /** The result of page discovery: the sorted distinct kept paths, or the fallback list. */
  function Discovered(v: Variant, reply: SitemapReply, parse: string -> Option<ParsedUrl>): (r: seq<string>)
    ensures |r| > 0
    ensures r == FallbackPages() || StrictlySorted(r)
  {
    match reply
    case SitemapUnreachable => FallbackPages()
    case SitemapReply(status, doc) =>
      if HttpFailure(v, status) || doc.None? then FallbackPages()
      else
        match Kept(Locs(v, doc.value), parse)
        case None => FallbackPages()
        case Some(paths) =>
          var pages := SortedUnique(paths);
          if pages == [] then FallbackPages() else pages
  }

  /** Whether `path` is on the deny-list, checking each pattern in turn. */
  method IsSkipped(path: string) returns (b: bool)
    ensures b == Skipped(path)
  {
    b := false;
    for k := 0 to |SkipPatterns|
      invariant b <==> exists j | 0 <= j < k :: Contains(path, SkipPatterns[j])
    {
      if Contains(path, SkipPatterns[k]) {
        b := true;
      }
    }
  }

  /** One more URL: `Kept` of the first `i + 1` URLs from `Kept` of the first `i`. */
  lemma KeptStep(locs: seq<string>, parse: string -> Option<ParsedUrl>, i: nat)
    requires i < |locs|
    ensures var init := Kept(locs[..i], parse);
      Kept(locs[..i + 1], parse) ==
        if init.None? || !Contains(locs[i], EnglishPattern) then init
        else
          match parse(locs[i])
          case None => None
          case Some(u) =>
            if Skipped(PagePath(u.pathname)) then init else Some(init.value + [PagePath(u.pathname)])
  {
    assert locs[..i + 1][..i] == locs[..i];
  }

  lemma {:induction false} KeptNoneStays(locs: seq<string>, parse: string -> Option<ParsedUrl>, n: nat)
    requires n <= |locs| && Kept(locs[..n], parse).None?
    ensures Kept(locs, parse).None?
    decreases |locs| - n
  {
    if n < |locs| {
      KeptStep(locs, parse, n);
      KeptNoneStays(locs, parse, n + 1);
    } else {
      assert locs[..n] == locs;
    }
  }

  /** The filter loop, pushing each kept path. */
  method DiscoverPages(v: Variant, reply: SitemapReply, parse: string -> Option<ParsedUrl>) returns (pages: seq<string>)
    ensures pages == Discovered(v, reply, parse)
  {
    if reply.SitemapUnreachable? || HttpFailure(v, reply.status) || reply.doc.None? {
      return FallbackPages();
    }
    var locs := Locs(v, reply.doc.value);
    var kept: seq<string> := [];
    for i := 0 to |locs|
      invariant Kept(locs[..i], parse) == Some(kept)
    {
      KeptStep(locs, parse, i);
      var url := locs[i];
      if Contains(url, EnglishPattern) {
        var parsed := parse(url);
        if parsed.None? {
          KeptNoneStays(locs, parse, i + 1);
          return FallbackPages();
        }
        var path := PagePath(parsed.value.pathname);
        var skip := IsSkipped(path);
        if !skip {
          kept := kept + [path];
        }
      }
    }
    assert locs[..|locs|] == locs;
    pages := SortedUnique(kept);
    if pages == [] {
      pages := FallbackPages();
    }
  }

  // ---------------------------------------------------------------------------
  // Properties.

  lemma {:induction false} KeptNotSkipped(locs: seq<string>, parse: string -> Option<ParsedUrl>)
    requires Kept(locs, parse).Some?
    ensures forall p | p in Kept(locs, parse).value :: !Skipped(p)
  {
    if locs != [] {
      KeptNotSkipped(locs[..|locs| - 1], parse);
    }
  }

  /** Every kept path comes from an English URL of the sitemap, stripped of `.html` or `/`. */
  lemma {:induction false} KeptFromLocs(locs: seq<string>, parse: string -> Option<ParsedUrl>)
    requires Kept(locs, parse).Some?
    ensures forall p | p in Kept(locs, parse).value :: exists i | 0 <= i < |locs| ::
      Contains(locs[i], EnglishPattern) && parse(locs[i]).Some? && p == PagePath(parse(locs[i]).value.pathname)
  {
    if locs != [] {
      var init := locs[..|locs| - 1];
      KeptFromLocs(init, parse);
      forall p | p in Kept(locs, parse).value
        ensures exists i | 0 <= i < |locs| ::
          Contains(locs[i], EnglishPattern) && parse(locs[i]).Some? && p == PagePath(parse(locs[i]).value.pathname)
      {
        if p in Kept(init, parse).value {
          var i :| 0 <= i < |init| &&
            Contains(init[i], EnglishPattern) && parse(init[i]).Some? && p == PagePath(parse(init[i]).value.pathname);
          assert locs[i] == init[i];
        } else {
          assert p == PagePath(parse(locs[|locs| - 1]).value.pathname);
        }
      }
    }
  }

  /** Conversely every English URL whose path is not on the deny-list is kept. */
  lemma {:induction false} LocsKept(locs: seq<string>, parse: string -> Option<ParsedUrl>, i: nat)
    requires Kept(locs, parse).Some? && i < |locs|
    requires Contains(locs[i], EnglishPattern)
    ensures parse(locs[i]).Some?
    ensures !Skipped(PagePath(parse(locs[i]).value.pathname)) ==>
      PagePath(parse(locs[i]).value.pathname) in Kept(locs, parse).value
  {
    var init := locs[..|locs| - 1];
    if i < |locs| - 1 {
      assert init[i] == locs[i];
      LocsKept(init, parse, i);
    }
  }

  /** Page discovery never yields an empty list. */
  lemma DiscoveredNeverEmpty(v: Variant, reply: SitemapReply, parse: string -> Option<ParsedUrl>)
    ensures |Discovered(v, reply, parse)| > 0
  {
  }

  /**
   * The result is the fallback list or the strictly sorted (so duplicate-free)
   * set of kept paths, none of them on the deny-list.
   */
  lemma DiscoveredShape(v: Variant, reply: SitemapReply, parse: string -> Option<ParsedUrl>)
    ensures var r := Discovered(v, reply, parse);
      r == FallbackPages() ||
      (StrictlySorted(r) && forall i | 0 <= i < |r| :: !Skipped(r[i]))
  {
    var r := Discovered(v, reply, parse);
    if r != FallbackPages() {
      var locs := Locs(v, reply.doc.value);
      KeptNotSkipped(locs, parse);
    }
  }

  /** A sitemap that answers with English pages yields exactly those that are not on the deny-list. */
  lemma DiscoveredFromSitemap(v: Variant, reply: SitemapReply, parse: string -> Option<ParsedUrl>, p: string)
    requires reply.SitemapReply? && !HttpFailure(v, reply.status) && reply.doc.Some?
    requires Kept(Locs(v, reply.doc.value), parse).Some? && Kept(Locs(v, reply.doc.value), parse).value != []
    ensures p in Discovered(v, reply, parse) <==> p in Kept(Locs(v, reply.doc.value), parse).value
  {
    var paths := Kept(Locs(v, reply.doc.value), parse).value;
    assert paths[0] in SortedUnique(paths);
  }

  /** Any failure on the way falls back to the built-in list. */
  lemma DiscoveryFailureFallsBack(v: Variant, reply: SitemapReply, parse: string -> Option<ParsedUrl>)
    requires reply.SitemapUnreachable? || HttpFailure(v, reply.status) || reply.doc.None? ||
      Kept(Locs(v, reply.doc.value), parse).None?
    ensures Discovered(v, reply, parse) == FallbackPages()
  {
  }
}
