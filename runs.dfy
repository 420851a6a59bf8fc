/**
 * One sync run (`runFetch` in the hook, `main` in the two scripts): locate the
 * sitemap, discover the pages, download and reconcile each page and then the
 * changelog, count successes and failures, and save the new manifest.
 */
module Runs {
  import opened Common
  import opened Engine
  import opened Filenames
  import opened Fetcher
  import opened Discovery
  import opened Manifests
  import Text

  /** Everything the network answers during one run. A page with no entry in `pages` is unreachable. */
  datatype Network = Network(
    sitemaps: seq<SitemapReply>,          // the probes of `SitemapUrls`, in order
    listing: SitemapReply,                // the second request, for the page list
    pages: map<string, seq<Response>>,    // the responses to `${baseUrl}${pagePath}.md`, by page path
    changelog: seq<Response>)

  function PageResponses(net: Network, page: string): seq<Response>
  {
    if page in net.pages then net.pages[page] else []
  }

  /** The outcome of the whole download of each page (the retry loop over its responses). */
  function Downloads(v: Variant, net: Network): string -> Outcome
  {
    page => FetchSpec(v, Page, PageResponses(net, page)).outcome
  }

  /**
   * What stays fixed during the loop: the old manifest's entries, the base URL,
   * the download outcome of each page and of the changelog, the hash and the clock.
   */
  datatype Context = Context(
    v: Variant, prev: map<string, Entry>, baseUrl: string,
    download: string -> Outcome, changelog: Outcome,
    hash: string -> string, stamp: string)

  function RunContext(v: Variant, stored: ManifestState, located: Located, net: Network,
                      hash: string -> string, stamp: string): Context
  {
    Context(v, PreviousFiles(stored), located.baseUrl, Downloads(v, net),
            FetchSpec(v, Changelog, net.changelog).outcome, hash, stamp)
  }

  /** The loop's state: the documents directory, the new `files` map and the counters. */
  datatype Progress = Progress(
    disk: map<string, string>, files: map<string, Entry>,
    successful: nat, failed: nat, failedPages: seq<string>)

  function PageOriginOf(ctx: Context, page: string): Origin
  {
    PageOrigin(ctx.baseUrl + page, ctx.baseUrl + page + ".md")
  }

  /** A successful download: reconcile it and count it. */
  function Record(ctx: Context, p: Progress, name: string, content: string, origin: Origin): Progress
  {
    p.(disk := NewDisk(ctx.v, ctx.prev, p.disk, name, content, ctx.hash),
       files := p.files[name := NewEntry(ctx.v, ctx.prev, p.disk, name, content, origin, ctx.hash, ctx.stamp)],
       successful := p.successful + 1)
  }

  /** One page of the loop: a download recorded under its file name, or a failure counted and listed. */
  function PageStep(ctx: Context, p: Progress, page: string): (q: Progress)
    ensures q.successful + q.failed == p.successful + p.failed + 1
    ensures ctx.download(page).Fetched? ==>
      q.successful == p.successful + 1 && q.failedPages == p.failedPages && SafeFilename(ctx.v, page) in q.files
    ensures ctx.download(page).Failed? ==>
      q.disk == p.disk && q.files == p.files && q.successful == p.successful && q.failedPages == p.failedPages + [page]
  {
    match ctx.download(page)
    case Fetched(content) => Record(ctx, p, SafeFilename(ctx.v, page), content, PageOriginOf(ctx, page))
    case Failed(_) => p.(failed := p.failed + 1, failedPages := p.failedPages + [page])
  }

  function ChangelogStep(ctx: Context, p: Progress): Progress
  {
    match ctx.changelog
    case Fetched(content) => Record(ctx, p, ChangelogFile, content, ChangelogOrigin)
    case Failed(_) => p.(failed := p.failed + 1, failedPages := p.failedPages + [ChangelogName])
  }

  /** A fetched page is recorded under its file name, with the reconciled disk and entry. */
  lemma RecordedPage(ctx: Context, p: Progress, page: string, content: string, name: string, entry: Entry,
                     disk: map<string, string>)
    requires ctx.download(page) == Fetched(content) && name == SafeFilename(ctx.v, page)
    requires disk == NewDisk(ctx.v, ctx.prev, p.disk, name, content, ctx.hash)
    requires entry == NewEntry(ctx.v, ctx.prev, p.disk, name, content, PageOriginOf(ctx, page), ctx.hash, ctx.stamp)
    ensures PageStep(ctx, p, page) == Progress(disk, p.files[name := entry], p.successful + 1, p.failed, p.failedPages)
  {
  }

  /** The page loop over `pages`, in order. */
  function Pages(ctx: Context, start: Progress, pages: seq<string>): Progress
  {
    if pages == [] then start
    else PageStep(ctx, Pages(ctx, start, pages[..|pages| - 1]), pages[|pages| - 1])
  }

  datatype RunResult =
    | DiscoveryFailed   // "Failed to discover sitemap": thrown before anything is written
    | NothingFetched    // "No pages were fetched successfully!": thrown after the manifest is saved
    | Completed

  /** The documents directory, the manifest file and the result after a run. */
  datatype RunState = RunState(disk: map<string, string>, manifest: ManifestState, result: RunResult)

  function StartOf(disk: map<string, string>): Progress
  {
    Progress(disk, map[], 0, 0, [])
  }

  /** The saved manifest: the new `files`, the save time and the run's metadata. */
  function SavedManifest(p: Progress, discovered: nat, located: Located, stamp: string): Manifest
  {
    Manifest(p.files, Some(stamp), Some(Stats(
      discovered, p.successful, p.failed, p.failedPages, located.sitemapUrl, located.baseUrl, p.successful)))
  }

  function RunSpec(v: Variant, disk: map<string, string>, stored: ManifestState, net: Network,
                   parse: string -> Option<ParsedUrl>, hash: string -> string, stamp: string): (r: RunState)
    ensures r.result == DiscoveryFailed <==> Locate(v, net.sitemaps, parse).None?
    ensures r.result == DiscoveryFailed ==> r.disk == disk && r.manifest == stored
    ensures r.result != DiscoveryFailed ==> r.manifest.Saved? && r.manifest.manifest.lastUpdated == Some(stamp)
  {
    match Locate(v, net.sitemaps, parse)
    case None => RunState(disk, stored, DiscoveryFailed)
    case Some(located) =>
      Synced(RunContext(v, stored, located, net, hash, stamp), disk, Discovered(v, net.listing, parse), located)
  }

  /** The run after discovery: the page loop, the changelog, and the manifest save. */
  function Synced(ctx: Context, disk: map<string, string>, pages: seq<string>, located: Located): RunState
  {
    var p := ChangelogStep(ctx, Pages(ctx, StartOf(disk), pages));
    RunState(p.disk, Saved(SavedManifest(p, |pages|, located, ctx.stamp)),
             if p.successful == 0 then NothingFetched else Completed)
  }

  /**
   * The process exit status. The hook swallows every error and exits 0; the
   * scripts exit 1 when discovery fails, and after saving when some document
   * failed and none succeeded.
   */
  function ExitStatus(v: Variant, r: RunState): (e: int)
    ensures e == 0 || e == 1
    ensures v.HookTs? ==> e == 0
    ensures !v.HookTs? && r.result == DiscoveryFailed ==> e == 1
  {
    if v.HookTs? then 0
    else if r.result == DiscoveryFailed then 1
    else if r.manifest.Saved? && r.manifest.manifest.stats.Some? &&
            |r.manifest.manifest.stats.value.failedPages| > 0 && r.manifest.manifest.stats.value.successful == 0 then 1
    else 0
  }

  /** The mirror on disk: the documents directory and the manifest file. */
  class DocsMirror {
    var docs: map<string, string>
    var manifest: ManifestState

    constructor (docs0: map<string, string>, manifest0: ManifestState)
      ensures docs == docs0 && manifest == manifest0
    {
      docs := docs0;
      manifest := manifest0;
    }

    /** The reconcile step for one downloaded document: write the file when needed and build the entry. */
    method Reconcile(v: Variant, prev: map<string, Entry>, name: string, content: string, origin: Origin,
                     hash: string -> string, stamp: string) returns (e: Entry)
      modifies this
      ensures docs == NewDisk(v, prev, old(docs), name, content, hash)
      ensures e == NewEntry(v, prev, old(docs), name, content, origin, hash, stamp)
      ensures manifest == old(manifest)
    {
      var oldHash := OldHash(prev, name);
      var fileExists := name in docs;
      if (v.IsTypeScript() && !fileExists) || hash(content) != oldHash {
        docs := docs[name := content];
        e := Entry(origin, hash(content), Some(stamp));
      } else {
        e := Entry(origin, oldHash, CarriedStamp(v, prev, name, stamp));
      }
    }

    /** The download of one page: the retry loop over its responses. */
    static method DownloadPage(ctx: Context, net: Network, page: string) returns (outcome: Outcome)
      requires ctx.download == Downloads(ctx.v, net)
      ensures outcome == ctx.download(page)
    {
      var f := FetchDocument(ctx.v, CheckFor(ctx.v, Page), PageResponses(net, page));
      outcome := f.outcome;
    }

    /** Record one page from its download `outcome`, or count it as failed. */
    method ProcessPage(ctx: Context, files: map<string, Entry>, successful: nat, failed: nat,
                       failedPages: seq<string>, page: string, outcome: Outcome)
      returns (files': map<string, Entry>, successful': nat, failed': nat, failedPages': seq<string>)
      modifies this
      requires outcome == ctx.download(page)
      ensures Progress(docs, files', successful', failed', failedPages') ==
        PageStep(ctx, Progress(old(docs), files, successful, failed, failedPages), page)
      ensures manifest == old(manifest)
    {
      files', successful', failed', failedPages' := files, successful, failed, failedPages;
      if outcome.Fetched? {
        var name := UrlToSafeFilename(ctx.v, page);
        var entry := Reconcile(ctx.v, ctx.prev, name, outcome.content, PageOriginOf(ctx, page), ctx.hash, ctx.stamp);
        files' := files[name := entry];
        successful' := successful + 1;
        RecordedPage(ctx, Progress(old(docs), files, successful, failed, failedPages), page, outcome.content, name, entry, docs);
      } else {
        failed' := failed + 1;
        failedPages' := failedPages + [page];
      }
    }

    /** The page loop. */
    method ProcessPages(ctx: Context, net: Network, pages: seq<string>)
      returns (files: map<string, Entry>, successful: nat, failed: nat, failedPages: seq<string>)
      requires ctx.download == Downloads(ctx.v, net)
      modifies this
      ensures Progress(docs, files, successful, failed, failedPages) == Pages(ctx, StartOf(old(docs)), pages)
      ensures manifest == old(manifest)
    {
      files, successful, failed, failedPages := map[], 0, 0, [];
      for i := 0 to |pages|
        invariant Progress(docs, files, successful, failed, failedPages) == Pages(ctx, StartOf(old(docs)), pages[..i])
        invariant manifest == old(manifest)
      {
        assert pages[..i + 1][..i] == pages[..i];
        var outcome := DownloadPage(ctx, net, pages[i]);
        files, successful, failed, failedPages := ProcessPage(ctx, files, successful, failed, failedPages, pages[i], outcome);
      }
      assert pages[..|pages|] == pages;
    }

    /** The download of the changelog. */
    static method DownloadChangelog(ctx: Context, net: Network) returns (outcome: Outcome)
      requires ctx.changelog == FetchSpec(ctx.v, Changelog, net.changelog).outcome
      ensures outcome == ctx.changelog
    {
      var f := FetchDocument(ctx.v, CheckFor(ctx.v, Changelog), net.changelog);
      outcome := f.outcome;
    }

    /** Record the changelog from its download `outcome`, or count it as failed. */
    method ProcessChangelog(ctx: Context, files: map<string, Entry>, successful: nat, failed: nat,
                            failedPages: seq<string>, outcome: Outcome)
      returns (files': map<string, Entry>, successful': nat, failed': nat, failedPages': seq<string>)
      modifies this
      requires outcome == ctx.changelog
      ensures Progress(docs, files', successful', failed', failedPages') ==
        ChangelogStep(ctx, Progress(old(docs), files, successful, failed, failedPages))
      ensures manifest == old(manifest)
    {
      files', successful', failed', failedPages' := files, successful, failed, failedPages;
      if outcome.Fetched? {
        var entry := Reconcile(ctx.v, ctx.prev, ChangelogFile, outcome.content, ChangelogOrigin, ctx.hash, ctx.stamp);
        files' := files[ChangelogFile := entry];
        successful' := successful + 1;
      } else {
        failed' := failed + 1;
        failedPages' := failedPages + [ChangelogName];
      }
    }

    /** One run. */
    method Run(v: Variant, net: Network, parse: string -> Option<ParsedUrl>, hash: string -> string, stamp: string)
      returns (result: RunResult)
      modifies this
      ensures RunState(docs, manifest, result) == RunSpec(v, old(docs), old(manifest), net, parse, hash, stamp)
    {
      var located := LocateSitemap(v, net.sitemaps, parse);
      if located.None? {
        return DiscoveryFailed;
      }
      var pages := DiscoverPages(v, net.listing, parse);
      var ctx := RunContext(v, manifest, located.value, net, hash, stamp);
      var files, successful, failed, failedPages := ProcessPages(ctx, net, pages);
      var changelog := DownloadChangelog(ctx, net);
      files, successful, failed, failedPages := ProcessChangelog(ctx, files, successful, failed, failedPages, changelog);
      manifest := Saved(Manifest(files, Some(stamp), Some(Stats(
        |pages|, successful, failed, failedPages, located.value.sitemapUrl, located.value.baseUrl, successful))));
      result := if successful == 0 then NothingFetched else Completed;
    }
  }

  // ---------------------------------------------------------------------------
  // Properties of a run.

  /** The pages whose download fails, in processing order. */
  function FailedOf(download: string -> Outcome, pages: seq<string>): (r: seq<string>)
    ensures |r| <= |pages|
    ensures forall p | p in r :: p in pages && download(p).Failed?
  {
    if pages == [] then []
    else (if download(pages[0]).Fetched? then [] else [pages[0]]) + FailedOf(download, pages[1..])
  }

  /** The file names of the pages whose download succeeds. */
  function FetchedNames(v: Variant, download: string -> Outcome, pages: seq<string>): set<string>
  {
    set p | p in pages && download(p).Fetched? :: SafeFilename(v, p)
  }

  lemma {:induction false} FailedOfSnoc(download: string -> Outcome, pages: seq<string>, x: string)
    ensures FailedOf(download, pages + [x]) == FailedOf(download, pages) + (if download(x).Fetched? then [] else [x])
  {
    if pages == [] {
      assert pages + [x] == [x];
    } else {
      var q := pages + [x];
      assert q[0] == pages[0] && q[1..] == pages[1..] + [x];
      FailedOfSnoc(download, pages[1..], x);
      var h := if download(pages[0]).Fetched? then [] else [pages[0]];
      var t := if download(x).Fetched? then [] else [x];
      assert FailedOf(download, q) == h + (FailedOf(download, pages[1..]) + t);
      Text.AppendAssoc(h, FailedOf(download, pages[1..]), t);
    }
  }

  /** Every page failed exactly when the failure list is the whole page list. */
  lemma {:induction false} AllFailed(download: string -> Outcome, pages: seq<string>)
    ensures |FailedOf(download, pages)| == |pages| <==> forall p | p in pages :: download(p).Failed?
    ensures |FailedOf(download, pages)| == |pages| ==> FailedOf(download, pages) == pages
  {
    if pages != [] {
      AllFailed(download, pages[1..]);
      assert |FailedOf(download, pages[1..])| <= |pages| - 1;
      assert pages == [pages[0]] + pages[1..];
      assert forall p | p in pages :: p == pages[0] || p in pages[1..];
    }
  }

  lemma FetchedNamesSnoc(v: Variant, download: string -> Outcome, pages: seq<string>, x: string)
    ensures FetchedNames(v, download, pages + [x]) ==
      FetchedNames(v, download, pages) + (if download(x).Fetched? then {SafeFilename(v, x)} else {})
  {
    var lhs := FetchedNames(v, download, pages + [x]);
    var rhs := FetchedNames(v, download, pages) + (if download(x).Fetched? then {SafeFilename(v, x)} else {});
    forall n | n in lhs ensures n in rhs {
      var p :| p in pages + [x] && download(p).Fetched? && n == SafeFilename(v, p);
      if p != x {
        assert p in pages;
      }
    }
    forall n | n in rhs ensures n in lhs {
      if n in FetchedNames(v, download, pages) {
        var p :| p in pages && download(p).Fetched? && n == SafeFilename(v, p);
        assert p in pages + [x];
      } else {
        assert x in pages + [x];
      }
    }
  }

  /**
   * The page loop's counters: each page is counted once, as a success or a
   * failure; the failures are listed in order; `files` gains exactly the names
   * of the pages that succeeded.
   */
  lemma {:induction false} PagesAccounting(ctx: Context, start: Progress, pages: seq<string>)
    ensures var p := Pages(ctx, start, pages);
      && p.successful + p.failed == start.successful + start.failed + |pages|
      && p.failed == start.failed + |FailedOf(ctx.download, pages)|
      && p.failedPages == start.failedPages + FailedOf(ctx.download, pages)
      && p.files.Keys == start.files.Keys + FetchedNames(ctx.v, ctx.download, pages)
  {
    PagesCounts(ctx, start, pages);
    PagesFiles(ctx, start, pages);
  }

  /** One page step counts the page once and adds its file name when it was fetched. */
  lemma PageStepAccounting(ctx: Context, p: Progress, page: string)
    ensures var q := PageStep(ctx, p, page);
      && q.successful + q.failed == p.successful + p.failed + 1
      && q.failed == p.failed + (if ctx.download(page).Fetched? then 0 else 1)
      && q.failedPages == p.failedPages + (if ctx.download(page).Fetched? then [] else [page])
      && q.files.Keys == p.files.Keys + (if ctx.download(page).Fetched? then {SafeFilename(ctx.v, page)} else {})
  {
  }

  lemma {:induction false} PagesCounts(ctx: Context, start: Progress, pages: seq<string>)
    ensures var p := Pages(ctx, start, pages);
      && p.successful + p.failed == start.successful + start.failed + |pages|
      && p.failed == start.failed + |FailedOf(ctx.download, pages)|
      && p.failedPages == start.failedPages + FailedOf(ctx.download, pages)
  {
    if pages != [] {
      var init := pages[..|pages| - 1];
      var x := pages[|pages| - 1];
      assert pages == init + [x];
      PagesCounts(ctx, start, init);
      PageStepAccounting(ctx, Pages(ctx, start, init), x);
      FailedOfSnoc(ctx.download, init, x);
      Text.AppendAssoc(start.failedPages, FailedOf(ctx.download, init), if ctx.download(x).Fetched? then [] else [x]);
    }
  }

  lemma {:induction false} PagesFiles(ctx: Context, start: Progress, pages: seq<string>)
    ensures Pages(ctx, start, pages).files.Keys == start.files.Keys + FetchedNames(ctx.v, ctx.download, pages)
  {
    if pages != [] {
      var init := pages[..|pages| - 1];
      var x := pages[|pages| - 1];
      assert pages == init + [x];
      PagesFiles(ctx, start, init);
      PageStepAccounting(ctx, Pages(ctx, start, init), x);
      FetchedNamesSnoc(ctx.v, ctx.download, init, x);
    }
  }


  /**
   * The page loop's effect on the documents directory: only the names of
   * fetched pages can appear or change, and in TypeScript every name in `files`
   * is on disk.
   */
  lemma {:induction false} PagesDisk(ctx: Context, start: Progress, pages: seq<string>)
    ensures var p := Pages(ctx, start, pages);
      && p.disk.Keys <= start.disk.Keys + FetchedNames(ctx.v, ctx.download, pages)
      && (forall n | n in start.disk && n !in FetchedNames(ctx.v, ctx.download, pages) ::
            n in p.disk && p.disk[n] == start.disk[n])
      && (ctx.v.IsTypeScript() && start.files.Keys <= start.disk.Keys ==> p.files.Keys <= p.disk.Keys)
  {
    if pages != [] {
      var init := pages[..|pages| - 1];
      var x := pages[|pages| - 1];
      assert pages == init + [x];
      PagesDisk(ctx, start, init);
      FetchedNamesSnoc(ctx.v, ctx.download, init, x);
    }
  }

  /**
   * After discovery: the saved manifest's counters add up to the pages plus the
   * changelog, `failed_pages` lists the failed pages in order with `changelog`
   * last, and `files` holds exactly the names of the documents fetched.
   */
  lemma SyncedAccounting(ctx: Context, disk: map<string, string>, pages: seq<string>, located: Located)
    ensures var r := Synced(ctx, disk, pages, located);
      && r.manifest.Saved? && r.manifest.manifest.stats.Some?
      && r.manifest.manifest.lastUpdated == Some(ctx.stamp)
      && var s := r.manifest.manifest.stats.value;
      && s.discovered == |pages|
      && s.successful + s.failed == |pages| + 1
      && |s.failedPages| == s.failed
      && s.failedPages == FailedOf(ctx.download, pages) + (if ctx.changelog.Fetched? then [] else [ChangelogName])
      && r.manifest.manifest.files.Keys ==
           FetchedNames(ctx.v, ctx.download, pages) + (if ctx.changelog.Fetched? then {ChangelogFile} else {})
      && (r.result == NothingFetched <==> s.successful == 0)
      && (r.result == Completed <==> s.successful > 0)
  {
    SyncedCounts(ctx, disk, pages, located);
    SyncedFiles(ctx, disk, pages, located);
  }

  lemma SyncedCounts(ctx: Context, disk: map<string, string>, pages: seq<string>, located: Located)
    ensures var r := Synced(ctx, disk, pages, located);
      && r.manifest.Saved? && r.manifest.manifest.stats.Some?
      && var s := r.manifest.manifest.stats.value;
      && s.discovered == |pages|
      && s.successful + s.failed == |pages| + 1
      && |s.failedPages| == s.failed
      && s.failedPages == FailedOf(ctx.download, pages) + (if ctx.changelog.Fetched? then [] else [ChangelogName])
      && (r.result == NothingFetched <==> s.successful == 0)
      && (r.result == Completed <==> s.successful > 0)
  {
    var p := Pages(ctx, StartOf(disk), pages);
    PagesAccounting(ctx, StartOf(disk), pages);
    ChangelogAccounting(ctx, p);
  }

  lemma SyncedFiles(ctx: Context, disk: map<string, string>, pages: seq<string>, located: Located)
    ensures var r := Synced(ctx, disk, pages, located);
      && r.manifest.Saved?
      && r.manifest.manifest.lastUpdated == Some(ctx.stamp)
      && r.manifest.manifest.files.Keys ==
           FetchedNames(ctx.v, ctx.download, pages) + (if ctx.changelog.Fetched? then {ChangelogFile} else {})
  {
    var p := Pages(ctx, StartOf(disk), pages);
    PagesAccounting(ctx, StartOf(disk), pages);
    ChangelogAccounting(ctx, p);
  }

  /** The changelog step counts the changelog once, as a success or as a failure listed last. */
  lemma ChangelogAccounting(ctx: Context, p: Progress)
    ensures var q := ChangelogStep(ctx, p);
      && q.successful + q.failed == p.successful + p.failed + 1
      && q.failed == p.failed + (if ctx.changelog.Fetched? then 0 else 1)
      && q.failedPages == p.failedPages + (if ctx.changelog.Fetched? then [] else [ChangelogName])
      && q.files.Keys == p.files.Keys + (if ctx.changelog.Fetched? then {ChangelogFile} else {})
  {
    if ctx.changelog.Fetched? {
      assert p.failedPages + [] == p.failedPages;
    }
  }

  /** A page loop without a success lists every page as failed and leaves the disk alone. */
  lemma NoPageFetched(ctx: Context, disk: map<string, string>, pages: seq<string>)
    requires Pages(ctx, StartOf(disk), pages).successful == 0
    ensures var p := Pages(ctx, StartOf(disk), pages);
      p.disk == disk && p.files == map[] && p.failed == |pages| && p.failedPages == pages
  {
    var p := Pages(ctx, StartOf(disk), pages);
    PagesAccounting(ctx, StartOf(disk), pages);
    PagesDisk(ctx, StartOf(disk), pages);
    AllFailed(ctx.download, pages);
    assert FetchedNames(ctx.v, ctx.download, pages) == {};
    assert p.disk.Keys == disk.Keys;
  }

  /**
   * When nothing at all was fetched the run still saves the manifest, with no
   * files and every page plus the changelog listed as failed, and writes no
   * document.
   */
  lemma NothingFetchedSavesManifest(ctx: Context, disk: map<string, string>, pages: seq<string>, located: Located)
    requires Synced(ctx, disk, pages, located).result == NothingFetched
    ensures var r := Synced(ctx, disk, pages, located);
      && r.disk == disk
      && r.manifest == Saved(Manifest(map[], Some(ctx.stamp), Some(Stats(
           |pages|, 0, |pages| + 1, pages + [ChangelogName], located.sitemapUrl, located.baseUrl, 0))))
  {
    var p := Pages(ctx, StartOf(disk), pages);
    var q := ChangelogStep(ctx, p);
    assert q.successful == 0;
    assert ctx.changelog.Failed?;
    assert q == p.(failed := p.failed + 1, failedPages := p.failedPages + [ChangelogName]);
    NoPageFetched(ctx, disk, pages);
  }

  /**
   * Only the run's own documents change on disk; in TypeScript every file the
   * new manifest lists exists afterwards.
   */
  lemma SyncedTouchesOnlyItsFiles(ctx: Context, disk: map<string, string>, pages: seq<string>, located: Located)
    ensures var r := Synced(ctx, disk, pages, located);
      && r.manifest.Saved?
      && Confined(disk, r.disk, r.manifest.manifest.files.Keys)
      && (ctx.v.IsTypeScript() ==> r.manifest.manifest.files.Keys <= r.disk.Keys)
  {
    var p := Pages(ctx, StartOf(disk), pages);
    PagesAccounting(ctx, StartOf(disk), pages);
    PagesDisk(ctx, StartOf(disk), pages);
    ChangelogStepConfined(ctx, disk, p);
  }

  /** Relative to `disk0`, the directory `d` differs at most at the names in `names`. */
  predicate Confined(disk0: map<string, string>, d: map<string, string>, names: set<string>)
  {
    && d.Keys <= disk0.Keys + names
    && forall n | n in disk0 && n !in names :: n in d && d[n] == disk0[n]
  }

  lemma ChangelogStepConfined(ctx: Context, disk0: map<string, string>, p: Progress)
    requires Confined(disk0, p.disk, p.files.Keys)
    requires ctx.v.IsTypeScript() ==> p.files.Keys <= p.disk.Keys
    ensures var q := ChangelogStep(ctx, p);
      && Confined(disk0, q.disk, q.files.Keys)
      && (ctx.v.IsTypeScript() ==> q.files.Keys <= q.disk.Keys)
  {
  }

  /**
   * A whole run: it fails on discovery exactly when no sitemap candidate is
   * usable, and then nothing changes; otherwise it syncs a non-empty page list.
   */
  lemma RunDiscovery(v: Variant, disk: map<string, string>, stored: ManifestState, net: Network,
                     parse: string -> Option<ParsedUrl>, hash: string -> string, stamp: string)
    ensures var r := RunSpec(v, disk, stored, net, parse, hash, stamp);
      && (r.result == DiscoveryFailed <==> Locate(v, net.sitemaps, parse).None?)
      && (r.result == DiscoveryFailed ==> r.disk == disk && r.manifest == stored)
      && (r.result != DiscoveryFailed ==>
            r.manifest.Saved? && r.manifest.manifest.stats.Some? && r.manifest.manifest.stats.value.discovered > 0)
  {
    var located := Locate(v, net.sitemaps, parse);
    if located.Some? {
      DiscoveredNeverEmpty(v, net.listing, parse);
      SyncedAccounting(RunContext(v, stored, located.value, net, hash, stamp), disk,
                       Discovered(v, net.listing, parse), located.value);
    }
  }

  /**
   * The exit status: always 0 for the hook; for the scripts 1 exactly when
   * discovery failed or nothing was fetched (a run with no success always has a
   * non-empty `failed_pages`).
   */
  lemma ExitRules(v: Variant, disk: map<string, string>, stored: ManifestState, net: Network,
                  parse: string -> Option<ParsedUrl>, hash: string -> string, stamp: string)
    ensures var r := RunSpec(v, disk, stored, net, parse, hash, stamp);
      ExitStatus(v, r) == (if v.HookTs? || r.result == Completed then 0 else 1)
  {
    var located := Locate(v, net.sitemaps, parse);
    if located.Some? {
      SyncedAccounting(RunContext(v, stored, located.value, net, hash, stamp), disk,
                       Discovered(v, net.listing, parse), located.value);
    }
  }
}
