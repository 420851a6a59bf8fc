# Documentation mirror, modelled in Dafny

This project models a plugin repository's documentation-mirror sync engine and the small hooks and scripts around it.

The mirror keeps a local copy of the Claude Code documentation as markdown files. A `docs_manifest.json` records each file's content hash and the time it was last updated. The engine exists in three variants that share one structure and differ in details:

- the hook that runs when the knowledge skill loads (TypeScript, `HookTs`);
- the stand-alone TypeScript script (`ScriptTs`);
- the stand-alone Python script (`Python`).

`Engine.Variant` selects the variant, and every place where the variants differ is written as a case on it. One run of the engine does the following:

- locates the sitemap (`Discovery`);
- discovers the documentation pages, or falls back to a built-in list (`Discovery`, `Fallback`);
- downloads each page with a bounded retry loop (`Fetcher`);
- validates each page as markdown (`Validator`);
- derives each page's file name (`Filenames`);
- writes a file only when its hash changed, then records its manifest entry (`Manifests`);
- downloads the changelog (`Fetcher`);
- saves the manifest (`Runs`).

The hook opens the run only for the right skill and only when the mirror is more than three hours old (`Gate`).

The other cores are:

- the per-session JSON cache library (`SessionCache`);
- the `SKILL.md` validator (`SkillValidate`);
- the hook that suggests documentation tooling after a markdown edit (`DocWriter`);
- the hook that points at a TypeScript file's tests (`TestFiles`);
- the script that removes bun build artifacts (`CleanArtifacts`).

Shared string and path helpers (`Text`, `Paths`) give exact meanings to the JavaScript and Python library calls the source relies on: `includes`, `endsWith`, `split(sep).pop()`, `trim`, `replace(/x/g, …)`, `path.join`, `basename`, `dirname` and `[...new Set(xs)].sort()`.

The network, the file system, the clock, XML and URL parsing, and hashing never appear as effects. Each one is a parameter:

- the network is the sequence of responses a request would receive;
- the documents directory is a `map` from file name to text;
- the manifest is a value that is absent, unparsable or saved;
- the hash, URL and date parsers are functions;
- the clock is a number, or an ISO stamp.

A class stands where the source updates state in place:

- `Runs.DocsMirror` holds the documents directory and the manifest;
- `SessionCache.CacheStore` holds the cache files.

Loops in the source are methods with invariants. Each method is proved equal to a specification function, and the properties are proved about those functions.

## Model

| member | source | states |
|---|---|---|
| Fetcher.BackoffDelay | plugins/claude-code-knowledge/hooks/sync-docs-on-skill-load.ts:405-412 | The pause before the next attempt never exceeds the variant's cap. |
| Fetcher.Classify | plugins/claude-code-knowledge/hooks/sync-docs-on-skill-load.ts:388-416 | A transport error is retried. Waiting follows only a 429 reply. Stopping on a fatal reply happens only in Python. |
| Fetcher.Loop | plugins/claude-code-knowledge/hooks/sync-docs-on-skill-load.ts:384-416 | A download that succeeds took its content from a successful step at one of the attempts it made. |
| Fetcher.FetchSpec | plugins/claude-code-knowledge/hooks/sync-docs-on-skill-load.ts:377-417 | A download makes at least one and at most three requests. |
| Fetcher.Advance | plugins/claude-code-knowledge/hooks/sync-docs-on-skill-load.ts:384-416 | One attempt of the loop advances the state exactly as the step taken at that attempt says. |
| Fetcher.AttemptLoop | plugins/claude-code-knowledge/hooks/sync-docs-on-skill-load.ts:384-416 | The `for` loop over attempts yields the specification `Loop` from attempt 0. |
| Fetcher.FetchDocument | plugins/claude-code-knowledge/hooks/sync-docs-on-skill-load.ts:377-417 | The attempt loop, with every branch of the source (a 429 and its `Retry-After` wait, an HTTP error, a transport error, a body the check refuses, success), returns the same requests, pauses and outcome as the recursive specification `Loop`. |
| Fetcher.FetchBounds | plugins/claude-code-knowledge/hooks/sync-docs-on-skill-load.ts:384-416 | A download makes at least one and at most three requests, with one pause after each request but the last (plus one after a final 429). Each backoff is `min(base * 2^attempt, cap)` and never follows the last attempt. |
| Fetcher.LoopRequests | plugins/claude-code-knowledge/hooks/sync-docs-on-skill-load.ts:384-416 | From attempt `a`, the loop makes between 1 and `3 - a` requests. |
| Fetcher.LoopPauseCount | plugins/claude-code-knowledge/hooks/sync-docs-on-skill-load.ts:384-416 | The number of pauses is the number of requests minus one, plus one when the last response was a 429. |
| Fetcher.LoopBackoffs | plugins/claude-code-knowledge/hooks/sync-docs-on-skill-load.ts:405-412 | Every backoff pause after attempt `a + k` is that attempt's `BackoffDelay`, and none follows the last attempt. |
| Fetcher.ShiftBackoffs | plugins/claude-code-knowledge/hooks/sync-docs-on-skill-load.ts:405-412 | Prepending a well-placed pause to a well-placed schedule keeps it well placed. |
| Fetcher.BackoffSchedule | plugins/claude-code-knowledge/hooks/sync-docs-on-skill-load.ts:42 | Before jitter, the two backoffs are 2000 ms and 4000 ms in TypeScript and 2 s and 4 s in Python. |
| Fetcher.LoopFetchedAtLast | plugins/claude-code-knowledge/hooks/sync-docs-on-skill-load.ts:400-403 | When a download succeeds, the success is the step taken at its last request. |
| Fetcher.DoneStep | plugins/claude-code-knowledge/hooks/sync-docs-on-skill-load.ts:390-403 | A successful step comes from a reply that is neither a 429 nor an HTTP error and whose body passed the check. |
| Fetcher.FetchedFromLastResponse | plugins/claude-code-knowledge/hooks/sync-docs-on-skill-load.ts:390-403 | Downloaded content is the checked body of the last response received, which passed the status test. |
| Fetcher.FetchedByCheck | plugins/claude-code-knowledge/hooks/sync-docs-on-skill-load.ts:390-403 | Downloaded content is what the check made of some response body. |
| Fetcher.AcceptedPage | plugins/claude-code-knowledge/hooks/sync-docs-on-skill-load.ts:400-402 | A page the check accepts is stored unchanged and passed the markdown validator. |
| Fetcher.FetchedPageIsValid | plugins/claude-code-knowledge/hooks/sync-docs-on-skill-load.ts:400-402 | A stored page always passed the markdown validator. |
| Fetcher.NoInvalidWithoutRefusal | plugins/claude-code-knowledge/hooks/sync-docs-on-skill-load.ts:400-412 | If no step from attempt `a` on refuses a body, the loop never ends with a validation error. |
| Fetcher.NeverInvalid | plugins/claude-code-knowledge/hooks/sync-docs-on-skill-load.ts:419-470 | A check that accepts every body never leads to a validation failure. |
| Fetcher.ChangelogNeverInvalid | plugins/claude-code-knowledge/hooks/sync-docs-on-skill-load.ts:442-455 | A changelog download never fails validation. |
| Fetcher.ThreeRateLimits | plugins/claude-code-knowledge/hooks/sync-docs-on-skill-load.ts:391-395 | Three 429 responses without `Retry-After` end the download as rate-limited after three requests and three 60-second waits, with no backoff. |
| Fetcher.PythonRejectionNotRetried | plugins/claude-code-knowledge/skills/claude-code-knowledge/scripts/fetch_docs.py:283-301 | In Python, a page that fails validation fails after exactly one request, with that validation error. |
| Fetcher.PythonBadRetryAfterFatal | plugins/claude-code-knowledge/skills/claude-code-knowledge/scripts/fetch_docs.py:276-280 | In Python, a negative or non-numeric `Retry-After` on a 429 ends the download at once. |
| Fetcher.RejectionRetried | plugins/claude-code-knowledge/skills/claude-code-knowledge/scripts/fetch_docs.ts:308-355 | In TypeScript, a refused body is retried like an HTTP error, and a third, accepted body is kept. |
| Fetcher.TypeScriptRejectionRetried | plugins/claude-code-knowledge/hooks/sync-docs-on-skill-load.ts:400-412 | In TypeScript, a page that fails validation twice and then passes is fetched on the third request. |
| Fetcher.TransientErrorsRecovered | plugins/claude-code-knowledge/hooks/sync-docs-on-skill-load.ts:397-412 | After two server errors and then a good page, every variant returns the page after three requests and two backoffs. |
| Fetcher.RetriedTwiceThenDone | plugins/claude-code-knowledge/hooks/sync-docs-on-skill-load.ts:397-412 | Two retried attempts and then a success make three requests, with the first two backoffs between them. |
| Fetcher.UnreachableGivesUp | plugins/claude-code-knowledge/hooks/sync-docs-on-skill-load.ts:405-416 | When every request fails in transport, the download gives up after three requests and the two backoffs for attempts 0 and 1. |
| Validator.AcceptedIff | plugins/claude-code-knowledge/hooks/sync-docs-on-skill-load.ts:351-375 | The validator accepts exactly content that is not HTML-like, is at least 50 characters once trimmed, and has at least 3 markdown indicators in its first 50 lines. |
| Validator.ValidateMarkdown | plugins/claude-code-knowledge/hooks/sync-docs-on-skill-load.ts:351-375 | Accepted content is not HTML-like and has at least 50 characters. HTML-like content is always rejected as HTML. A too-short report carries the content length. |
| Validator.HtmlCheckedFirst | plugins/claude-code-knowledge/hooks/sync-docs-on-skill-load.ts:352-354 | HTML-like content is reported as HTML, whatever its length or markers. |
| Validator.LengthCheckedSecond | plugins/claude-code-knowledge/hooks/sync-docs-on-skill-load.ts:356-358 | Short content that is not HTML is reported as too short. |
| Validator.OneHeadingSuffices | plugins/claude-code-knowledge/hooks/sync-docs-on-skill-load.ts:360-374 | One `### ` heading among the inspected lines meets the indicator rule. |
| Validator.HitsAreOccurrences | plugins/claude-code-knowledge/hooks/sync-docs-on-skill-load.ts:365-369 | Testing the trimmed line's start adds nothing to testing the line's content. |
| Validator.ChangelogAlwaysLongEnough | plugins/claude-code-knowledge/hooks/sync-docs-on-skill-load.ts:442-455 | The changelog header alone trims to 196 characters, so the 100-character check never fails. |
| Validator.CheckChangelog | plugins/claude-code-knowledge/hooks/sync-docs-on-skill-load.ts:442-455 | The changelog length check accepts every body. |
| Filenames.StripKnownPrefix | plugins/claude-code-knowledge/hooks/sync-docs-on-skill-load.ts:186-191 | The prefix loop leaves what follows the first listed prefix that occurs (the last piece after the split), and reports whether one occurred. |
| Filenames.StripLooseMarker | plugins/claude-code-knowledge/hooks/sync-docs-on-skill-load.ts:193-195 | The loose `claude-code/` marker is stripped only when no prefix matched (Python) or when the path is unchanged (TypeScript). |
| Filenames.StripPrefix | plugins/claude-code-knowledge/hooks/sync-docs-on-skill-load.ts:184-195 | Both stripping steps together yield each variant's remainder. |
| Filenames.UrlToSafeFilename | plugins/claude-code-knowledge/hooks/sync-docs-on-skill-load.ts:182-207 | The name is the remainder with `/` turned into `__` and `.md` added unless already there. The result always ends in `.md`. |
| Filenames.SafeFilename | plugins/claude-code-knowledge/hooks/sync-docs-on-skill-load.ts:182-207 | Every stored file name ends in `.md`. |
| Filenames.NameOf | plugins/claude-code-knowledge/hooks/sync-docs-on-skill-load.ts:197-206 | Every stored name ends in `.md`. |
| Filenames.DocsPageName | plugins/claude-code-knowledge/hooks/sync-docs-on-skill-load.ts:182-207 | A page under `/en/docs/claude-code/` is stored under its topic with `/` turned into `__` and `.md` appended. |
| Filenames.DocsNamesInjective | plugins/claude-code-knowledge/hooks/sync-docs-on-skill-load.ts:182-207 | Different tame topics under the docs prefix get different file names. |
| Filenames.MigrationGuideName | plugins/claude-code-knowledge/hooks/sync-docs-on-skill-load.ts:295 | `sdk/migration-guide` is stored as `sdk__migration-guide.md` in every variant. |
| Filenames.PythonBareIndexName | plugins/claude-code-knowledge/skills/claude-code-knowledge/scripts/fetch_docs.py:73-91 | Python stores the bare docs index `/en/docs/claude-code/` under the name `.md`. |
| Filenames.SameRemainderWhenNonEmpty | plugins/claude-code-knowledge/skills/claude-code-knowledge/scripts/fetch_docs.py:78-84 | A non-empty Python remainder is also TypeScript's remainder. |
| Filenames.TypeScriptRemainderSuffix | plugins/claude-code-knowledge/hooks/sync-docs-on-skill-load.ts:184-199 | In TypeScript, a non-empty URL path never leaves an empty remainder, and the remainder is a suffix of the path. |
| Filenames.EmptyRemainderEndsWithSlash | plugins/claude-code-knowledge/skills/claude-code-knowledge/scripts/fetch_docs.py:78-84 | Python's remainder is empty only when the URL path ends with the separator it split on (the first prefix that occurs, or else the loose marker), and so ends in `/`. |
| Filenames.LongerNameWhenEmpty | plugins/claude-code-knowledge/hooks/sync-docs-on-skill-load.ts:193-199 | When Python's remainder is empty, TypeScript's remainder is a non-empty suffix of the path that ends in `/`, so its name ends in `__.md` and is never `.md`. |
| Filenames.VariantsAgreeUnlessEmptyRemainder | plugins/claude-code-knowledge/skills/claude-code-knowledge/scripts/fetch_docs.py:73-91 | The variants store a page under the same name unless Python's remainder is empty. In that case Python's name is `.md` and TypeScript's ends in `__.md`. |
| Fallback.FallbackPages | plugins/claude-code-knowledge/hooks/sync-docs-on-skill-load.ts:250-297 | The 44 fallback paths are `/en/docs/claude-code/` followed by each topic, in the source's order. |
| Fallback.TopicsDistinct | plugins/claude-code-knowledge/hooks/sync-docs-on-skill-load.ts:250-297 | The 44 built-in topics are pairwise different. |
| Fallback.TopicsTame | plugins/claude-code-knowledge/hooks/sync-docs-on-skill-load.ts:250-297 | Every built-in topic is one that file naming stores without ambiguity. |
| Fallback.FallbackNamesDistinct | plugins/claude-code-knowledge/hooks/sync-docs-on-skill-load.ts:250-297 | In every variant, the 44 fallback pages are stored under 44 different file names. |
| Discovery.FirstNonEmpty | plugins/claude-code-knowledge/skills/claude-code-knowledge/scripts/fetch_docs.py:108-120 | Returns the first non-empty string, and `None` exactly when there is none. |
| Discovery.LocateSitemap | plugins/claude-code-knowledge/hooks/sync-docs-on-skill-load.ts:218-248 | The loop over the sitemap candidates returns the specification `Locate`. |
| Discovery.Locate | plugins/claude-code-knowledge/hooks/sync-docs-on-skill-load.ts:218-248 | A located sitemap is one of the candidates. A usable first candidate is chosen. No result means neither candidate was usable. |
| Discovery.LocateIsFirstUsable | plugins/claude-code-knowledge/hooks/sync-docs-on-skill-load.ts:218-248 | The search picks the first candidate that answers 200 with a usable first URL. It fails, as "Could not find a valid sitemap", exactly when no candidate does. |
| Discovery.PythonNamespacedFirst | plugins/claude-code-knowledge/skills/claude-code-knowledge/scripts/fetch_docs.py:108-120 | Python reads plain `loc` elements only when no namespaced one has text. |
| Discovery.NonEmpty | plugins/claude-code-knowledge/hooks/sync-docs-on-skill-load.ts:311 | Keeps exactly the non-empty URLs. |
| Discovery.PagePath | plugins/claude-code-knowledge/hooks/sync-docs-on-skill-load.ts:320-326 | Drops a trailing `.html` or, failing that, one trailing `/`, and otherwise leaves the path unchanged. |
| Discovery.IsSkipped | plugins/claude-code-knowledge/hooks/sync-docs-on-skill-load.ts:328-329 | The loop over the deny-list patterns returns whether the path contains one of them. |
| Discovery.DiscoverPages | plugins/claude-code-knowledge/hooks/sync-docs-on-skill-load.ts:299-345 | The filter loop, followed by sorting without duplicates and the fallbacks, returns the specification `Discovered`. |
| Discovery.Discovered | plugins/claude-code-knowledge/hooks/sync-docs-on-skill-load.ts:299-345 | Page discovery never returns an empty list, and its result is the fallback list or strictly sorted. |
| Discovery.KeptNotSkipped | plugins/claude-code-knowledge/hooks/sync-docs-on-skill-load.ts:328-331 | No kept path is on the deny-list. |
| Discovery.KeptFromLocs | plugins/claude-code-knowledge/hooks/sync-docs-on-skill-load.ts:317-331 | Every kept path comes from an English URL of the sitemap, stripped of `.html` or `/`. |
| Discovery.LocsKept | plugins/claude-code-knowledge/hooks/sync-docs-on-skill-load.ts:317-331 | Every English URL whose path is not on the deny-list is kept. |
| Discovery.DiscoveredNeverEmpty | plugins/claude-code-knowledge/hooks/sync-docs-on-skill-load.ts:335-344 | Page discovery never returns an empty list. |
| Discovery.DiscoveredShape | plugins/claude-code-knowledge/hooks/sync-docs-on-skill-load.ts:335-344 | The result is either the fallback list or the strictly sorted, duplicate-free kept paths, none of them on the deny-list. |
| Discovery.DiscoveredFromSitemap | plugins/claude-code-knowledge/hooks/sync-docs-on-skill-load.ts:317-341 | A sitemap that yields English pages produces exactly those pages. |
| Discovery.DiscoveryFailureFallsBack | plugins/claude-code-knowledge/hooks/sync-docs-on-skill-load.ts:337-344 | An HTTP failure, an unparsable document, a URL that throws, or no page kept falls back to the built-in list. |
| Manifests.PreviousFiles | plugins/claude-code-knowledge/hooks/sync-docs-on-skill-load.ts:155-167 | The previous `files` are those of a saved manifest. They are empty when the manifest is absent or does not parse. |
| Manifests.CarriedStamp | plugins/claude-code-knowledge/hooks/sync-docs-on-skill-load.ts:530-536 | An unwritten file keeps its previous `last_updated`. TypeScript replaces a missing or empty stamp with the run's time; Python replaces only a missing one. |
| Manifests.NewEntry | plugins/claude-code-knowledge/hooks/sync-docs-on-skill-load.ts:524-539 | The new entry records the downloaded content's hash and origin, and in TypeScript a non-empty stamp. |
| Manifests.NewDisk | plugins/claude-code-knowledge/hooks/sync-docs-on-skill-load.ts:524-539 | Only the document's own file can change or appear. In TypeScript that file always exists afterwards. |
| Manifests.WriteIffChanged | plugins/claude-code-knowledge/hooks/sync-docs-on-skill-load.ts:524-539 | The file is written exactly when it is missing (TypeScript only) or its hash changed. Otherwise the disk is untouched and the old hash and stamp are kept. |
| Manifests.Writes | plugins/claude-code-knowledge/hooks/sync-docs-on-skill-load.ts:526-536 | Python writes exactly when the hash changed. A new file is always written. An unchanged file still on disk is not written. |
| Manifests.PythonIgnoresDisk | plugins/claude-code-knowledge/skills/claude-code-knowledge/scripts/fetch_docs.py:416-425 | Python does not look at the disk, so a deleted file whose content is unchanged stays missing. |
| Manifests.ReconcileIdempotent | plugins/claude-code-knowledge/hooks/sync-docs-on-skill-load.ts:524-539 | Reconciling the same content a second time writes nothing and keeps the hash and the stamp. |
| Runs.DocsMirror.constructor | plugins/claude-code-knowledge/hooks/sync-docs-on-skill-load.ts:483-492 | A mirror starts from the given documents directory and stored manifest. |
| Runs.DocsMirror.Reconcile | plugins/claude-code-knowledge/hooks/sync-docs-on-skill-load.ts:524-539 | Writes the file exactly as `NewDisk` says and returns `NewEntry`. The manifest is untouched. |
| Runs.DocsMirror.DownloadPage | plugins/claude-code-knowledge/hooks/sync-docs-on-skill-load.ts:521-523 | A page's download is the retry loop over that page's responses. |
| Runs.DocsMirror.ProcessPage | plugins/claude-code-knowledge/hooks/sync-docs-on-skill-load.ts:520-556 | Records a fetched page under its file name, or counts it as failed and lists it, exactly as the specification `PageStep` does. |
| Runs.DocsMirror.ProcessPages | plugins/claude-code-knowledge/hooks/sync-docs-on-skill-load.ts:519-557 | The page loop leaves the directory, files, counters and failure list that the specification `Pages` gives. |
| Runs.DocsMirror.DownloadChangelog | plugins/claude-code-knowledge/hooks/sync-docs-on-skill-load.ts:559-561 | The changelog download is the retry loop over its responses. |
| Runs.DocsMirror.ProcessChangelog | plugins/claude-code-knowledge/hooks/sync-docs-on-skill-load.ts:559-593 | Records the changelog under `changelog.md` with its own origin, or counts it as failed. |
| Runs.DocsMirror.Run | plugins/claude-code-knowledge/hooks/sync-docs-on-skill-load.ts:483-616 | A whole run leaves the directory, the manifest and the result given by `RunSpec`. |
| Runs.FailedOf | plugins/claude-code-knowledge/hooks/sync-docs-on-skill-load.ts:550-556 | The failed pages are among the pages and failed their download. |
| Runs.PageStep | plugins/claude-code-knowledge/hooks/sync-docs-on-skill-load.ts:519-557 | A page counts once. A fetched page adds its file name. A failed page leaves the disk, files and successes as they were and is appended to the failures. |
| Runs.RunSpec | plugins/claude-code-knowledge/hooks/sync-docs-on-skill-load.ts:483-616 | A run fails on discovery exactly when no sitemap is located, and then changes nothing. Otherwise it saves a manifest stamped with the run time. |
| Runs.ExitStatus | plugins/claude-code-knowledge/skills/claude-code-knowledge/scripts/fetch_docs.ts:596-616 | The status is 0 or 1. The hook always gives 0, and a script gives 1 when discovery failed. |
| Runs.FailedOfSnoc | plugins/claude-code-knowledge/hooks/sync-docs-on-skill-load.ts:550-556 | One more page adds itself to the failure list exactly when its download fails. |
| Runs.AllFailed | plugins/claude-code-knowledge/hooks/sync-docs-on-skill-load.ts:613-615 | The failure list has as many entries as there are pages exactly when every page failed, and then it is the page list itself. |
| Runs.RecordedPage | plugins/claude-code-knowledge/hooks/sync-docs-on-skill-load.ts:524-548 | A fetched page is recorded under its safe file name with the reconciled disk and entry, and its success is counted. |
| Runs.PageStepAccounting | plugins/claude-code-knowledge/hooks/sync-docs-on-skill-load.ts:519-557 | One page step counts the page once, as a success or a failure, and adds its file name only when it was fetched. |
| Runs.PagesCounts | plugins/claude-code-knowledge/hooks/sync-docs-on-skill-load.ts:519-557 | After the page loop, successes plus failures equals the number of pages, and the failure list is the failed pages in order. |
| Runs.PagesFiles | plugins/claude-code-knowledge/hooks/sync-docs-on-skill-load.ts:519-557 | The page loop adds exactly the file names of the fetched pages to `files`. |
| Runs.PagesAccounting | plugins/claude-code-knowledge/hooks/sync-docs-on-skill-load.ts:519-557 | Every page is counted once; the failures are listed in order; `files` gains exactly the fetched pages' names. |
| Runs.PagesDisk | plugins/claude-code-knowledge/hooks/sync-docs-on-skill-load.ts:524-539 | Only the names of fetched pages can appear or change on disk. In TypeScript every name in `files` is on disk. |
| Runs.SyncedAccounting | plugins/claude-code-knowledge/hooks/sync-docs-on-skill-load.ts:596-610 | In the saved manifest, successes plus failures is the number of pages plus one, `failed_pages` lists the failed pages in order, and the discovery metadata is recorded. |
| Runs.SyncedCounts | plugins/claude-code-knowledge/hooks/sync-docs-on-skill-load.ts:596-610 | The saved counts add up to the pages plus the changelog, and the failures are listed in order. |
| Runs.SyncedFiles | plugins/claude-code-knowledge/hooks/sync-docs-on-skill-load.ts:596-610 | The saved manifest is stamped with the run time and lists exactly the fetched documents. |
| Runs.ChangelogAccounting | plugins/claude-code-knowledge/hooks/sync-docs-on-skill-load.ts:559-593 | The changelog counts once, as a success or as the last failure, and a fetched changelog adds `changelog.md`. |
| Runs.NoPageFetched | plugins/claude-code-knowledge/hooks/sync-docs-on-skill-load.ts:519-557 | A page loop with no success lists every page as failed and leaves the disk alone. |
| Runs.NothingFetchedSavesManifest | plugins/claude-code-knowledge/hooks/sync-docs-on-skill-load.ts:610-615 | A run that fetched nothing still saves a manifest with no files and lists every page and the changelog as failed. |
| Runs.SyncedTouchesOnlyItsFiles | plugins/claude-code-knowledge/hooks/sync-docs-on-skill-load.ts:519-610 | Only the run's own documents change on disk. In TypeScript every file the new manifest lists exists afterwards. |
| Runs.ChangelogStepConfined | plugins/claude-code-knowledge/hooks/sync-docs-on-skill-load.ts:559-593 | The changelog step keeps the disk confined to the manifest's files. |
| Runs.RunDiscovery | plugins/claude-code-knowledge/skills/claude-code-knowledge/scripts/fetch_docs.ts:466-483 | A run fails on discovery exactly when no sitemap candidate is usable, and then nothing changes. Otherwise it syncs a non-empty page list. |
| Runs.ExitRules | plugins/claude-code-knowledge/skills/claude-code-knowledge/scripts/fetch_docs.ts:596-616 | The hook always exits 0. A script exits 1 exactly when discovery failed or nothing was fetched; otherwise it exits 0. |
| Gate.ShouldSync | plugins/claude-code-knowledge/hooks/sync-docs-on-skill-load.ts:112-121 | A sync opens only for readable input that invokes the `Skill` tool with the knowledge skill, by its plain or qualified name. |
| Gate.Prefix19 | plugins/claude-code-knowledge/hooks/sync-docs-on-skill-load.ts:139 | `slice(0, 19)` gives the first 19 characters, or all of a shorter stamp. |
| Gate.SyncNeeded | plugins/claude-code-knowledge/hooks/sync-docs-on-skill-load.ts:127-149 | A missing manifest, a missing stamp, an empty stamp or `unknown` needs a sync. An unparsable stamp does not. |
| Gate.StaleIffThreeHours | plugins/claude-code-knowledge/hooks/sync-docs-on-skill-load.ts:127-149 | For a parsable stamp, a sync is needed exactly when at least 10 800 000 ms have passed; flooring to whole hours changes nothing. |
| Gate.FreshAfterSave | plugins/claude-code-knowledge/hooks/sync-docs-on-skill-load.ts:596-610 | After a run that saved its manifest at time `t`, the hook does not sync again until three hours have passed. |
| Gate.SyncOnSkillLoad | plugins/claude-code-knowledge/hooks/sync-docs-on-skill-load.ts:622-646 | The hook always exits 0. It runs a sync exactly when the gate is open and the mirror is stale; otherwise it changes nothing. |
| Gate.FetchDocs | plugins/claude-code-knowledge/skills/claude-code-knowledge/scripts/fetch_docs.ts:440-616 | A script run changes the mirror as `RunSpec` says, and its exit status follows the script's rule. |
| SessionCache.NormalizePath | lib/session-cache.ts:21-23 | The normalised directory holds no `/` and leaves a slash-free path unchanged. |
| SessionCache.NormalizePathCollides | lib/session-cache.ts:21-23 | The distinct directories `/a/b` and `/a-b` normalise alike. |
| SessionCache.PluginCacheDir | lib/session-cache.ts:28-31 | The plugin cache directory ends with the normalised working directory. |
| SessionCache.SessionCachePath | lib/session-cache.ts:36-39 | The session cache path ends with `<session id>.json`. |
| SessionCache.SessionFileName | lib/session-cache.ts:36-39 | A session's cache file is named `<session id>.json`. |
| SessionCache.SessionPathsCollide | lib/session-cache.ts:28-39 | Two working directories that differ only by `/` against `-` share every session file. |
| SessionCache.ReadCache | lib/session-cache.ts:45-55 | Reading gives `None` exactly when the file is missing or unparsable, and otherwise the stored object. |
| SessionCache.Merge | lib/session-cache.ts:84 | The merged object has the keys of both objects, and an update's value wins. |
| SessionCache.TriggerUpdates | lib/session-cache.ts:120-123 | `last_triggered` is the current time unless the metadata supplies it, and every metadata key is kept. |
| SessionCache.ReadAfterUpdate | lib/session-cache.ts:77-85 | An update reads back merged over the old object, or over `{}` when there was none. No other file changes. |
| SessionCache.UpdateTwice | lib/session-cache.ts:77-85 | Two updates equal one update with the second merged over the first. |
| SessionCache.UpdateIdempotent | lib/session-cache.ts:77-85 | Repeating an update changes nothing. |
| SessionCache.DueIffElapsed | lib/session-cache.ts:92-109 | With a parsable trigger time, a trigger is due exactly when the delay in minutes has passed. |
| SessionCache.TriggerDue | lib/session-cache.ts:92-109 | No cache, or no truthy `last_triggered`, makes a trigger due. A stamp that does not parse makes it not due. |
| SessionCache.QuietAfterMark | lib/session-cache.ts:92-125 | After a trigger is marked at time `t`, no trigger is due until the delay has elapsed. |
| SessionCache.DueWithoutStamp | lib/session-cache.ts:98-102 | Without a readable cache or a `last_triggered`, a trigger is due. |
| SessionCache.CacheStore.constructor | lib/session-cache.ts:16 | A store starts from the given base and files. |
| SessionCache.CacheStore.ReadSessionCache | lib/session-cache.ts:45-55 | Reading returns `None` exactly when the session's file is missing or unparsable. |
| SessionCache.CacheStore.WriteSessionCache | lib/session-cache.ts:61-72 | Replaces the session's file with the data and leaves every other file unchanged. |
| SessionCache.CacheStore.UpdateSessionCache | lib/session-cache.ts:77-85 | The session's file becomes `Updated` of the old files. |
| SessionCache.CacheStore.ShouldTriggerBasedOnTime | lib/session-cache.ts:92-109 | Without a cache, a trigger is due. |
| SessionCache.CacheStore.MarkTriggered | lib/session-cache.ts:114-125 | Merges the trigger updates into the session's file. |
| SkillValidate.FenceFrom | plugins/claude-code-knowledge/skills/claude-code-knowledge/scripts/skill-creator/quick_validate.ts:31 | Returns the first `\n---` at or after `i`, which is where the lazy group stops. |
| SkillValidate.Frontmatter | plugins/claude-code-knowledge/skills/claude-code-knowledge/scripts/skill-creator/quick_validate.ts:31-37 | The frontmatter is the shortest text between `---\n` and a following `\n---`; there is none exactly when no such fence exists. |
| SkillValidate.ValidIffValidMessage | plugins/claude-code-knowledge/skills/claude-code-knowledge/scripts/skill-creator/quick_validate.ts:15-83 | The result is valid exactly when its message is `Skill is valid!`. |
| SkillValidate.ValidateSkill | plugins/claude-code-knowledge/skills/claude-code-knowledge/scripts/skill-creator/quick_validate.ts:15-83 | A missing `SKILL.md` gives "SKILL.md not found". A valid skill has a `SKILL.md` that starts with `---`. |
| SkillValidate.QuickValidate | plugins/claude-code-knowledge/skills/claude-code-knowledge/scripts/skill-creator/quick_validate.ts:85-96 | The exit code is 0 or 1. A wrong argument count prints the usage and exits 1. Exit 0 means the one skill is valid. Otherwise the validator's message is printed. |
| SkillValidate.ExitZeroIffValid | plugins/claude-code-knowledge/skills/claude-code-knowledge/scripts/skill-creator/quick_validate.ts:85-96 | `main` exits 0 exactly when it is given one argument and prints `Skill is valid!`. |
| SkillValidate.CaptureNoneIff | plugins/claude-code-knowledge/skills/claude-code-knowledge/scripts/skill-creator/quick_validate.ts:49 | `\s*(.+)` fails at a position exactly when only line terminators follow it. |
| SkillValidate.BacktrackCapturesOneChar | plugins/claude-code-knowledge/skills/claude-code-knowledge/scripts/skill-creator/quick_validate.ts:49 | When `\s*` must give back, the group is the single white-space character it gave back. |
| SkillValidate.NameRulesIff | plugins/claude-code-knowledge/skills/claude-code-knowledge/scripts/skill-creator/quick_validate.ts:55-67 | The two name rules together accept exactly words of lower-case letters and digits joined by single hyphens. |
| SkillValidate.ValidName | plugins/claude-code-knowledge/skills/claude-code-knowledge/scripts/skill-creator/quick_validate.ts:49-67 | A name that passes is made of such hyphen-case words. |
| SkillValidate.ValidDescription | plugins/claude-code-knowledge/skills/claude-code-knowledge/scripts/skill-creator/quick_validate.ts:71-80 | A description that passes has no angle brackets. |
| SkillValidate.BracketsSurviveTrim | plugins/claude-code-knowledge/skills/claude-code-knowledge/scripts/skill-creator/quick_validate.ts:74-77 | Trimming cannot hide an angle bracket from the description rule. |
| SkillValidate.ValidSkillShape | plugins/claude-code-knowledge/skills/claude-code-knowledge/scripts/skill-creator/quick_validate.ts:15-83 | A valid skill has a `SKILL.md` that opens with fenced frontmatter mentioning both fields and passing the field rules. |
| SkillValidate.EarlierCheckWins | plugins/claude-code-knowledge/skills/claude-code-knowledge/scripts/skill-creator/quick_validate.ts:26-46 | Content without a fence is never blamed for its fields. |
| TestFiles.NameWithoutExt | plugins/langs/hooks/test-file-suggest.ts:49 | Removes exactly one trailing `.ts` or `.tsx`. |
| TestFiles.IsTypeScriptFile | plugins/langs/hooks/test-file-suggest.ts:35-40 | A TypeScript source is its own name without extension plus `.ts` or `.tsx`. |
| TestFiles.Candidates | plugins/langs/hooks/test-file-suggest.ts:47-56 | There are four candidates, one per test suffix in order, and none is taken for a TypeScript source. |
| TestFiles.FindTestFiles | plugins/langs/hooks/test-file-suggest.ts:58-64 | The loop returns the candidates that exist, in candidate order. |
| TestFiles.ExistingIsSubsequence | plugins/langs/hooks/test-file-suggest.ts:58-64 | The files found are a subsequence of the candidates. |
| TestFiles.BuildContext | plugins/langs/hooks/test-file-suggest.ts:68-74 | The loop builds the specified suggestion text. |
| TestFiles.BulletsListEach | plugins/langs/hooks/test-file-suggest.ts:71-73 | Every file found has its own `→` line. |
| TestFiles.TestFileSuggest | plugins/langs/hooks/test-file-suggest.ts:17-94 | Unreadable input exits 1. Only a `Read` of a non-test TypeScript source prints, and then only when some candidate exists; it lists the existing candidates. |
| TestFiles.CandidatesAreTests | plugins/langs/hooks/test-file-suggest.ts:35-56 | Every candidate is a test or spec file, so it is never taken for a source. |
| TestFiles.CandidatesAreSiblings | plugins/langs/hooks/test-file-suggest.ts:47-60 | Each candidate sits in the source's directory and has the source's name with a test suffix. |
| TestFiles.ReportedInOrder | plugins/langs/hooks/test-file-suggest.ts:58-73 | Exactly the existing candidates are reported, in candidate order. |
| DocWriter.MarkdownSuffix | plugins/doc-writer/hooks/doc-writer-suggest.ts:33 | A path is markdown exactly when it ends in `.md` in any mix of case. |
| DocWriter.IsMarkdownPath | plugins/doc-writer/hooks/doc-writer-suggest.ts:33 | A path ending in `.md` is markdown, and a markdown path ends in a dot and two more characters. |
| DocWriter.MarkdownTarget | plugins/doc-writer/hooks/doc-writer-suggest.ts:29-49 | A reported target is a markdown path. |
| DocWriter.SuggestSpec | plugins/doc-writer/hooks/doc-writer-suggest.ts:13-104 | The hook exits 0 or 1. Unreadable input exits 1 and writes nothing. A suggestion only follows a relevant tool on a markdown file. Without a suggestion, no file changes. |
| DocWriter.FirstMarkdown | plugins/doc-writer/hooks/doc-writer-suggest.ts:41-47 | Returns the first edit that touches a markdown file, or `None` when no edit does. |
| DocWriter.DetectMarkdown | plugins/doc-writer/hooks/doc-writer-suggest.ts:26-49 | Detection reports a markdown file, and which one, exactly as the specification `MarkdownTarget` does. |
| DocWriter.DocWriterSuggest | plugins/doc-writer/hooks/doc-writer-suggest.ts:13-110 | The hook changes the cache files and exits as `SuggestSpec` says. |
| DocWriter.SuggestionNamesTheFile | plugins/doc-writer/hooks/doc-writer-suggest.ts:29-76 | A suggestion is printed only for a `Write`, `Edit` or `MultiEdit` that touched a markdown file, and it names that file. |
| DocWriter.NonMarkdownIsSilent | plugins/doc-writer/hooks/doc-writer-suggest.ts:52 | Without a markdown edit, nothing is printed and nothing is written. |
| DocWriter.WritesOnlyWithSuggestion | plugins/doc-writer/hooks/doc-writer-suggest.ts:52-104 | Only a printed suggestion writes, and the hook exits 0 or 1. |
| DocWriter.SuggestionWritesMarker | plugins/doc-writer/hooks/doc-writer-suggest.ts:87-96 | A printed suggestion comes with the marker written to the session's file. |
| DocWriter.SuggestsOncePerSession | plugins/doc-writer/hooks/doc-writer-suggest.ts:62-68 | After a suggestion, any later call in the same directory and session prints nothing and writes nothing. |
| DocWriter.MarkedSessionIsSilent | plugins/doc-writer/hooks/doc-writer-suggest.ts:63-67 | A session whose file carries the marker gets no suggestion and no write. |
| CleanArtifacts.ArtifactNameIff | scripts/clean-build-artifacts.ts:11 | The pattern accepts exactly `.<hex>-<hex>.bun-build`. |
| CleanArtifacts.IsArtifactName | scripts/clean-build-artifacts.ts:11 | An accepted name starts with `.`, ends in `.bun-build` and is at least four characters longer than that suffix. |
| CleanArtifacts.ExpandWorkspacePattern | scripts/clean-build-artifacts.ts:13-34 | A pattern without `*` expands to itself. Any other result comes from a pattern `dir/*`. |
| CleanArtifacts.FindBuildArtifacts | scripts/clean-build-artifacts.ts:36-45 | An unreadable directory has no artifacts, and a readable one has at most one per entry. |
| CleanArtifacts.TallyOf | scripts/clean-build-artifacts.ts:82-86 | The tally is empty exactly when there are no artifacts, and has at most one line per artifact. |
| CleanArtifacts.CleanSpec | scripts/clean-build-artifacts.ts:47-97 | Without workspaces nothing is scanned. A report lists distinct artifacts. Repeated artifact paths fail with exit 1 and no report. Otherwise the artifacts are those of the expanded workspaces. |
| CleanArtifacts.DistinctSnoc | scripts/clean-build-artifacts.ts:79 | One more path keeps the list free of repeats exactly when the path is new. |
| CleanArtifacts.UnlinkAll | scripts/clean-build-artifacts.ts:79 | The unlinks all succeed exactly when no path is listed twice, and every listed path is removed. |
| CleanArtifacts.ScannedTwiceFails | scripts/clean-build-artifacts.ts:58-79 | A directory with artifacts that is scanned twice makes the artifact list repeat a path. |
| CleanArtifacts.RepeatedPatternFails | scripts/clean-build-artifacts.ts:58-97 | A workspace pattern with artifacts that is listed twice makes the cleaner fail. |
| CleanArtifacts.OverlappingPatternsFail | scripts/clean-build-artifacts.ts:13-97 | The patterns `base/*` and `base/sub` together make the cleaner fail when `base/sub` holds an artifact. |
| CleanArtifacts.JoinedWhereMembers | scripts/clean-build-artifacts.ts:24-26 | The filtered, joined paths are exactly the kept entries joined to the base. |
| CleanArtifacts.ExpandKeepsPlainPatterns | scripts/clean-build-artifacts.ts:13-34 | A pattern without `*`, or with `*` anywhere other than directly after one directory, is kept as it is. |
| CleanArtifacts.ExpandStar | scripts/clean-build-artifacts.ts:20-30 | `dir/*` expands to exactly that directory's subdirectories, or to nothing when it cannot be read. |
| CleanArtifacts.CountByDir | scripts/clean-build-artifacts.ts:82-86 | The tally loop returns the specification `TallyOf`. |
| CleanArtifacts.TallyCounts | scripts/clean-build-artifacts.ts:82-86 | The tally counts every artifact once, under its own directory, and the counts sum to the number of artifacts. |
| CleanArtifacts.RemovesOnlyArtifacts | scripts/clean-build-artifacts.ts:47-79 | Every removed path is a matching file in a scanned directory. |
| CleanArtifacts.RemovesEveryArtifact | scripts/clean-build-artifacts.ts:47-79 | Every matching file in a scanned directory is removed. |
| CleanArtifacts.ReportCountsRemoved | scripts/clean-build-artifacts.ts:79-91 | The report counts every removed file once, under its own directory. |
| CleanArtifacts.CleanBuildArtifacts | scripts/clean-build-artifacts.ts:47-97 | `main` removes and reports what `CleanSpec` says, fails without a report when an unlink repeats a path, and scans nothing without workspaces. |
| Text.LastSegment | plugins/claude-code-knowledge/hooks/sync-docs-on-skill-load.ts:187-189 | The last piece of `split(sep)` is a suffix of the string that holds no separator. It is the whole string when the separator does not occur, and otherwise shorter by at least the separator. |
| Text.LastSegmentEmpty | plugins/claude-code-knowledge/hooks/sync-docs-on-skill-load.ts:187-189 | An empty last piece means the string ends with the separator. |
| Text.TrimIsInfix | plugins/claude-code-knowledge/hooks/sync-docs-on-skill-load.ts:353-357 | A trimmed string is a contiguous piece of the original. |
| Text.JoinSplitLines | plugins/claude-code-knowledge/hooks/sync-docs-on-skill-load.ts:360-361 | Splitting on newlines and joining again gives the text back. |
| Text.SortedUnique | plugins/claude-code-knowledge/hooks/sync-docs-on-skill-load.ts:335 | `[...new Set(xs)].sort()` is strictly sorted and has exactly the elements of `xs`. |
| Text.ReplaceAllInjective | plugins/claude-code-knowledge/hooks/sync-docs-on-skill-load.ts:201-204 | Replacing `/` by `__` loses no information for strings without `_`. |
| Paths.Join | lib/session-cache.ts:30 | `path.join` ends with the name joined, and starts with the directory. |
| Paths.Basename | plugins/langs/hooks/test-file-suggest.ts:47-60 | `path.basename` is the slash-free tail of the path, and the whole path when it has no `/`. |
| Paths.Dirname | plugins/langs/hooks/test-file-suggest.ts:47-60 | `path.dirname` is never empty. It is `.` for a path without `/`, and otherwise everything before the last `/` (or `/` for a file at the root). |
| Paths.JoinDirnameBasename | plugins/langs/hooks/test-file-suggest.ts:47-60 | Joining a normal path's directory and base name gives the path back. |
| Paths.BasenameOfJoin | plugins/langs/hooks/test-file-suggest.ts:47-60 | The base name of a joined path is the name that was joined. |

## Left out

- Network I/O, XML parsing, URL parsing, SHA-256 and date parsing are parameters. The model takes the sequence of responses, the parsed sitemap document, a URL parser, a hash function and a date parser.
- Sleeping and jitter: a pause is recorded as a `Pause` value, with the backoff before jitter. The 500 ms (0.5 s in Python) pause between pages and the `fetch_duration` timing are left out, because they change no state.
- Lengths are counted in characters of `seq<char>`. JavaScript counts UTF-16 code units and Python counts code points. The two differ only outside the Basic Multilingual Plane.
- `toLowerCase` is modelled on ASCII letters only. That is all the `.md` test depends on.
- `Paths.Join` covers the paths the hooks build. General `path.join` normalisation (`..`, inner `.` segments) is not modelled. `basename` and `dirname` of a path that ends in `/` are not modelled.
- JSON encoding and decoding are not modelled. A manifest is absent, unparsable or a saved value, and a session cache file is unparsable or a parsed object. The manifest's `source` and `skill` metadata fields are not modelled.
- Timestamps: a run uses one `stamp` for every entry and for the manifest. The source reads the clock several times during a run.
- Creating directories (`mkdir`), a failed write or unlink, and logging are left out. A write is assumed to succeed.
- Reading stdin is modelled as an `Option` input, where `None` means unreadable JSON. A decoded object without `tool_input` (a TypeError in the test-file hook, exit 1) is not modelled.
- The `existsSync` check on `SKILL.md` is modelled as membership in a map of files, so a directory named `SKILL.md` is not modelled.
- `Promise.all` concurrency in the artifact cleaner is modelled as sequential. The scans do not interfere, and neither do unlinks of different paths. A path listed twice (a repeated or overlapping workspace pattern) makes its second unlink fail with `ENOENT`, and the script exits 1 without a report: `CleanSpec` gives `UnlinkFailed`. Other unlink failures (permissions, a directory with an artifact's name) are not modelled.
- The scripts' "No documentation pages discovered" exit has no case in the model, because page discovery never returns an empty list (`Discovery.DiscoveredNeverEmpty`).
- SessionCache.CacheStore.ShouldTriggerBasedOnTime: the contract states only the no-cache case. The timed case is proved in `SessionCache.DueIffElapsed` about `TriggerDue`, because the clock is a parameter.
- Text.SortedUnique orders strings by code point, as Python's `sorted` does. TypeScript's `.sort()` compares UTF-16 code units, which differ only between astral characters and U+E000–U+FFFF. Sorted paths come from `new URL(...).pathname`, which percent-encodes such characters, so the difference does not arise there.
- A `Retry-After` header is modelled as the value the variant's integer parser reads from it (`RetryAfter`). The same header string can read differently per language: an empty header falls back to 60 in TypeScript but makes Python's `int` raise, and `"1.5"` reads as 1 in TypeScript but raises in Python. A lemma that compares variants on one `Network` assumes the same reading for both.
