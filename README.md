# url-analyzer crawler, modelled in Dafny

url-analyzer crawls a web site for broken links. It starts from a list of
relative seed paths under a domain and fetches each URL. A response other
than 200 is recorded as an error. A page that answers 200 is rendered in a
headless browser when its URL starts with the domain or contains an entry
of the allow-list anywhere (a plain substring test, so
`https://x.com/?next=https://b.com` is followed when `https://b.com` is
allowed). The `href` of each of its anchors is resolved against the domain
and queued unless an already-queued URL contains it. Static assets
(recognised by their file extension) and a few excluded link kinds
(`mailto:`, `tel:`, `javascript:`, `sms:` under the domain, tweet-intent
links) are never fetched. A separate helper cuts a list of URLs into
fixed-size batches.

The project models three parts of the source:

- the URL helpers of `UrlUtilities`;
- the `UrlCrawler` class (constructor checks, `crawlUrl`, `extractUrls`,
  `start`, `isExcludedUrl`);
- `UrlBatcher.splitUrlsIntoBatches`.

Modules:

- `Wrappers`: `Option` and `Result`.
- `JsString`: the JavaScript string built-ins the source calls
  (`startsWith`, `endsWith`, `includes`, `indexOf`, ASCII case folding),
  over `seq<char>`.
- `UrlUtilities`: the static helpers and the extension pattern, with
  lemmas that characterise `isStaticAssetUrl`.
- `CrawledUrl`: the two records, `ICrawlUrl` and `ICrawledUrlError`.
- `CrawlSpec`: the crawler's behaviour as functions. It covers the
  constructor's checks (`ConfigFault`) and the seed frontier. It covers the
  classification of a URL and what one visit does (`VisitOf`, `ErrorFor`,
  `FrontierAfter`). It covers link extraction (`ExtractedFrontier`) and the
  traversal loop (`Step`, `Run`, `ErrorsOf`).
- `CrawlProperties`: lemmas about those functions.
- `UrlCrawler`: the `Crawler` class. Its `domain` and allow-list are
  constants and its frontier is a mutable field. Its methods are proved to
  compute exactly what `CrawlSpec` defines.
- `UrlBatcher`: the batching loop, proved against a reference definition.
- `CrawlExamples`: small crawls worked through the loop.

The network and the browser are a `Site` value:

- `fetch` gives a status or the message of an exception;
- `render` gives the anchors' `href` attributes in document order, or the
  message of an exception.

The loop works over an `outcome: string -> Visit`. For the crawler this is
`Outcomes(domain, allow, site)`, which is what `crawlUrl` does to each URL.

The model follows the code where it departs from what the crawler is meant
to do:

- `removeTrailingSlash` removes a single slash, so the `domain` field can
  still end in `/` (`NormalisedDomainMayEndInSlash`).
- The seeds are put under the domain as given, before normalisation, so
  `https://a.com/` with seed `about` gives `https://a.com//about`
  (`SeedUsesRawDomain`).
- Each failing URL is meant to be reported once, with the parent it was
  first seen on. The code's duplicate check never matches (see Findings),
  so a URL that is visited twice is reported twice.
- The second static-asset test inside `crawlUrl` always passes, because
  the URL was already tested (`FetchedUnlessSkipped`).

## Model

| member | source | states |
|---|---|---|
| UrlUtilities.IsAbsoluteUrl | src/utilities/urlUtilities.ts:3-6 | the definition: the URL starts with `http://` or `https://` |
| UrlUtilities.MatchesExtensionPattern | src/utilities/urlUtilities.ts:26-30 | the definition of `regex.test` for the extension pattern: the case-folded path ends in a dot and one of the seventeen alternatives, tried in order |
| UrlUtilities.IsStaticAssetUrl | src/utilities/urlUtilities.ts:24-31 | the definition: the pattern tested on the URL without its query string and one trailing slash |
| UrlUtilities.IsIntendedStaticAssetUrl | src/utilities/urlUtilities.ts:26 | the corrected definition: the same test with only the fourteen extensions, without the empty alternative |
| UrlUtilities.AbsoluteUrlScheme | src/utilities/urlUtilities.ts:3-6 | absolute exactly when the URL is `http://` or `https://` followed by any text |
| UrlUtilities.AbsoluteUrlExtends | src/utilities/urlUtilities.ts:3-6 | appending any text to an absolute URL keeps it absolute |
| UrlUtilities.RemoveTrailingSlash | src/utilities/urlUtilities.ts:8-11 | the input is the result plus `/` when the input ended in `/`, and the result alone otherwise |
| UrlUtilities.RemoveTrailingSlashRemovesOne | src/utilities/urlUtilities.ts:8-11 | only one slash is removed: the result ends in `/` only if the input ended in `//`; input without a final `/` is unchanged |
| UrlUtilities.RootedUnderNormalisedDomain | src/utilities/urlUtilities.ts:8-11 | an absolute domain with its slash removed, followed by a `/`-led path, is absolute again |
| UrlUtilities.AddStartingSlash | src/utilities/urlUtilities.ts:13-16 | the result starts with `/`; it equals the input exactly when the input already starts with `/`, and is `/` + input otherwise |
| UrlUtilities.AddStartingSlashIdempotent | src/utilities/urlUtilities.ts:13-16 | applying it twice is the same as once |
| UrlUtilities.GetUrlWithoutQueryString | src/utilities/urlUtilities.ts:18-22 | the result is a prefix of the URL without any `?`; it is the whole URL exactly when there is no `?`, and otherwise the URL continues with `?` |
| UrlUtilities.QueryStringStripIdempotent | src/utilities/urlUtilities.ts:18-22 | stripping twice is stripping once |
| UrlUtilities.QueryStringCutAt | src/utilities/urlUtilities.ts:18-22 | a path without `?` followed by a `?`-led query is cut back to the path |
| UrlUtilities.EndsWithAlternativeIff | src/utilities/urlUtilities.ts:26-30 | trying the pattern's alternatives in order succeeds exactly when some alternative, after a dot, ends the path |
| UrlUtilities.StaticAssetReference | src/utilities/urlUtilities.ts:24-31 | static exactly when the stripped path ends in a bare dot, or, ignoring ASCII case, in a dot and one of the fourteen extensions |
| UrlUtilities.TrailingDotIsStatic | src/utilities/urlUtilities.ts:26 | the empty alternative makes every path ending in `.` static |
| UrlUtilities.StaticAssetIgnoresQueryString | src/utilities/urlUtilities.ts:28 | the query string never changes the classification |
| UrlUtilities.StaticAssetWithQuery | src/utilities/urlUtilities.ts:28 | appending a `?`-led query to a path keeps its classification |
| UrlUtilities.StaticAssetIgnoresTrailingSlash | src/utilities/urlUtilities.ts:28 | one trailing slash after a path without `?` or final `/` does not change the classification |
| UrlUtilities.StaticAssetBySuffix | src/utilities/urlUtilities.ts:24-31 | a URL with no query or final slash whose case-folded text ends in `.` + an extension is static |
| UrlUtilities.StaticAssetByName | src/utilities/urlUtilities.ts:24-31 | a name followed by a dotted extension in any case, with no `?` and no final `/`, is static |
| UrlUtilities.AlternativeNeedsFinalCharacter | src/utilities/urlUtilities.ts:26 | a path matching one of the alternatives ends in that alternative's last character |
| UrlUtilities.ExtensionFinalCharacters | src/utilities/urlUtilities.ts:26 | the seventeen alternatives, after a dot, end only in `f g p . l s o 2 t` |
| UrlUtilities.StaticAssetFinalCharacter | src/utilities/urlUtilities.ts:24-31 | a static asset's stripped path is non-empty and its last character, case-folded, is one of `f g p . l s o 2 t` |
| UrlUtilities.NotStaticByFinalCharacter | src/utilities/urlUtilities.ts:24-31 | a URL with no `?` or final `/` whose last character is none of those is fetched |
| UrlUtilities.StaticAssetTrailingSlashExample | src/utilities/urlUtilities.ts:24-31 | `x/a.css/` is static |
| UrlUtilities.StaticAssetQueryExample | src/utilities/urlUtilities.ts:24-31 | `https://a.com/style.css?v=2` is static |
| UrlUtilities.StaticAssetCaseExample | src/utilities/urlUtilities.ts:26 | `https://a.com/LOGO.PNG` is static (case-insensitive flag) |
| UrlUtilities.StaticAssetPageExample | src/utilities/urlUtilities.ts:24-31 | `https://a.com/home` is not static |
| UrlUtilities.StaticAssetDotExample | src/utilities/urlUtilities.ts:26 | `https://a.com/page.` is static, as written |
| UrlUtilities.StaticAssetAsWritten | src/utilities/urlUtilities.ts:26 | the pattern as written accepts exactly what the intended pattern accepts, plus every path ending in a dot |
| UrlUtilities.StaticExtensionFinalCharacters | src/utilities/urlUtilities.ts:26 | the fourteen intended extensions end only in `f g p l s o 2 t`, never in a dot |
| UrlUtilities.IntendedStaticAssetNoDot | src/utilities/urlUtilities.ts:26 | the intended pattern never accepts a path ending in a dot |
| UrlUtilities.IntendedStaticAssetDotExample | src/utilities/urlUtilities.ts:26 | `https://a.com/page.` is fetched under the intended pattern |
| CrawlSpec.SeedFrontier | src/urlCrawler.ts:49-53 | the definition of the initial frontier: each seed, with a leading slash, under the domain as given, without a parent |
| CrawlSpec.IsExcludedUrl | src/urlCrawler.ts:180-194 | the definition of `isExcludedUrl`: a scheme path under the domain, or an external share prefix |
| CrawlSpec.IsInScope | src/urlCrawler.ts:96-103 | the definition of the scope test: the URL starts with the domain or contains an allow-list entry anywhere |
| CrawlSpec.VisitOf | src/urlCrawler.ts:75-120 | the definition of what `crawlUrl` does to a URL: skipped when static or excluded, otherwise fetched and followed when not static and in scope |
| CrawlSpec.FetchedVisit | src/urlCrawler.ts:84-118 | the definition of the `try` block: a thrown fetch, a status other than 200, a 200 answer not followed, a thrown render, or the anchors of the rendered page |
| CrawlSpec.ResolveLink | src/urlCrawler.ts:131-133 | the definition: an absolute link is kept, a relative one goes under the domain with a leading slash |
| CrawlSpec.IsAlreadyQueued | src/urlCrawler.ts:135-138 | the definition of the duplicate test: some queued URL contains the link as a substring |
| CrawlSpec.AddLink | src/urlCrawler.ts:127-146 | the definition of one anchor's handling: a missing or empty `href` is ignored, a queued link is dropped, a new one is appended with the page as parent |
| CrawlSpec.ExtractedFrontier | src/urlCrawler.ts:125-148 | the definition of `extractUrls`: `AddLink` applied to each anchor in document order |
| CrawlSpec.ErrorAlreadyReported | src/urlCrawler.ts:161-164 | the definition of the duplicate check as written: a reported item's `urlToCrawl`, which error records lack, equals the URL |
| CrawlSpec.Report | src/urlCrawler.ts:159-174 | the definition of one report step as written: an error is appended unless the check matches |
| CrawlSpec.ReportOnce | src/urlCrawler.ts:159-174 | the corrected report step: an error is appended unless a reported error already names its URL |
| CrawlSpec.ReportAllOnce | src/urlCrawler.ts:159-174 | the corrected report over a list of errors, in order |
| CrawlSpec.Step | src/urlCrawler.ts:155-175 | the definition of one iteration of `start`: visit the entry at the cursor, extend the frontier, report its error |
| CrawlSpec.Run | src/urlCrawler.ts:151-178 | the definition of the loop of `start` over the growing frontier, for at most `fuel` iterations |
| CrawlSpec.ErrorsOf | src/urlCrawler.ts:155-175 | the errors of a run of entries, in order, with no duplicate removal |
| CrawlSpec.FirstAbsolute | src/urlCrawler.ts:31-37 | the position of the first absolute seed: every earlier one is relative, and the one there is absolute |
| CrawlSpec.FirstRelative | src/urlCrawler.ts:39-45 | the position of the first non-absolute allow-list entry: every earlier one is absolute |
| CrawlSpec.ConfigFault | src/urlCrawler.ts:19-45 | no fault exactly when the domain is absolute, the seed list is non-empty, every seed is relative and every allow-list entry is absolute; the domain fault arises exactly when the domain is not absolute, the empty-list fault exactly when the domain is absolute and the list is empty, and a seed or allow-list fault names the first offending entry |
| CrawlSpec.ErrorFor | src/urlCrawler.ts:87-117 | a record exists exactly for an HTTP error or an exception, and it names the entry's URL and parent |
| UrlCrawler.Crawler.constructor | src/urlCrawler.ts:13-55 | only for arguments the checks at lines 19-45 accept; gives a valid crawler whose domain is the argument with one trailing slash removed, whose seeds go under the raw domain, parentless, and which keeps the allow-list |
| UrlCrawler.Crawler.Create | src/urlCrawler.ts:13-55 | fails exactly when `ConfigFault` reports a fault, with that fault; otherwise gives a fresh valid crawler with the normalised domain and the seed frontier |
| UrlCrawler.Crawler.ExtractUrls | src/urlCrawler.ts:122-149 | the new frontier is `ExtractedFrontier` of the old one over the page's anchors; the crawler stays valid |
| UrlCrawler.Crawler.CrawlEntry | src/urlCrawler.ts:75-120 | the record returned and the new frontier are those of `VisitOf` for the entry's URL |
| UrlCrawler.Crawler.FetchEntry | src/urlCrawler.ts:84-118 | the record and new frontier follow the fetch status, the render result and the scope test, as `FetchedVisit` defines |
| UrlCrawler.Crawler.Start | src/urlCrawler.ts:151-178 | the final frontier, position and result are those of `Run`; the frontier only grows; the result is exactly the errors of the visited entries, in order; validity is kept |
| CrawlProperties.SeedFrontierAbsolute | src/urlCrawler.ts:49-53 | one entry per seed, in order, each absolute, parentless and equal to the raw domain + the seed with a leading slash |
| CrawlProperties.NormalisedDomainRoots | src/urlCrawler.ts:48 | the normalised domain followed by `/` is absolute |
| CrawlProperties.SeedUsesRawDomain | src/urlCrawler.ts:48-51 | with domain `https://a.com/` the seed `about` becomes `https://a.com//about` while the field is `https://a.com` |
| CrawlProperties.NormalisedDomainMayEndInSlash | src/urlCrawler.ts:48 | `https://a.com//` is normalised to `https://a.com/` |
| CrawlProperties.ExcludedUrlIff | src/urlCrawler.ts:180-194 | excluded exactly when the URL starts with the domain + `/mailto:`, `/tel:`, `/javascript:` or `/sms:`, or with `https://twitter.com/intent/tweet` |
| CrawlProperties.SkippedWithoutNetwork | src/urlCrawler.ts:79-83 | a static or excluded URL is skipped and yields no record |
| CrawlProperties.SkippedExactly | src/urlCrawler.ts:79-83 | a URL is skipped exactly when it is static or excluded |
| CrawlProperties.FetchedUnlessSkipped | src/urlCrawler.ts:96-104 | for a URL that is fetched, the second static test passes, so it is followed exactly when it is in scope |
| CrawlProperties.CrawlOutcome | src/urlCrawler.ts:84-118 | thrown fetch gives status -1 with the message; status other than 200 gives that status; 200 out of scope gives nothing; thrown render gives -1 with the message; rendered gives the anchors |
| CrawlProperties.RenderOnlyWhenFollowed | src/urlCrawler.ts:100-108 | without a 200 answer or when not followed, the render result cannot affect the visit |
| CrawlProperties.ErrorRecordShape | src/urlCrawler.ts:87-117 | a record names the entry's URL and parent, its status is never 200, and it carries a message only with status -1 |
| CrawlProperties.ResolvedLinkIsAbsolute | src/urlCrawler.ts:131-133 | a resolved link is absolute |
| CrawlProperties.ExtractAppends | src/urlCrawler.ts:122-149 | extraction only appends, at most one entry per anchor; each new entry comes from a non-empty anchor, has the page as parent and is contained in no earlier entry |
| CrawlProperties.ExtractConcat | src/urlCrawler.ts:125-148 | anchors are handled in document order: extracting two runs of anchors is extracting the first, then the second from the frontier it left |
| CrawlProperties.ExtractFirstAnchorFirst | src/urlCrawler.ts:125-148 | the first anchor is handled first, against the frontier as it was, and the rest after it |
| CrawlProperties.ExtractCovers | src/urlCrawler.ts:129-146 | after extraction the resolved link of every non-empty anchor is contained in some entry |
| CrawlProperties.QueuedStaysQueued | src/urlCrawler.ts:135-138 | a link contained in a frontier stays contained as the frontier grows |
| CrawlProperties.ExtractKeepsAbsolute | src/urlCrawler.ts:131-145 | extraction keeps every entry absolute |
| CrawlProperties.ExtractKeepsDiscoveredOnce | src/urlCrawler.ts:135-145 | extraction keeps every discovered entry parented and not contained in any earlier entry's URL |
| CrawlProperties.StepFacts | src/urlCrawler.ts:155-175 | one iteration extends the frontier, advances by one and adds the visited entry's error |
| CrawlProperties.RunAdvances | src/urlCrawler.ts:155-175 | the loop only extends the frontier and stops at its end or when the bound is reached |
| CrawlProperties.RunReport | src/urlCrawler.ts:151-178 | the result is exactly the errors of the entries visited, in visit order, including entries appended during the loop |
| CrawlProperties.StepKeepsAbsolute | src/urlCrawler.ts:155-157 | one iteration keeps every entry absolute |
| CrawlProperties.RunKeepsAbsolute | src/urlCrawler.ts:155-175 | the loop keeps every entry absolute |
| CrawlProperties.RunKeepsDiscoveredOnce | src/urlCrawler.ts:155-175 | the loop keeps every discovered entry parented and not contained in any earlier entry's URL |
| CrawlProperties.DiscoveredUrlsQueuedOnce | src/urlCrawler.ts:135-145 | in a crawl from the seeds no discovered entry repeats the URL of an earlier entry, so each discovered URL is fetched once |
| CrawlProperties.ErrorsOfAppend | src/urlCrawler.ts:155-175 | the errors of two runs are the two lists of errors concatenated |
| CrawlProperties.ErrorsOfExact | src/urlCrawler.ts:159-174 | every reported error is some entry's error, every entry's error is reported, and the report has exactly one error per failing entry: nothing is removed as a duplicate |
| CrawlProperties.ErrorsOfCount | src/urlCrawler.ts:159-174 | the report's length is the number of failing entries |
| CrawlProperties.NothingCountsAsReported | src/urlCrawler.ts:161-164 | as written, the duplicate check never finds an earlier report |
| CrawlProperties.ReportAllOnceUnique | src/urlCrawler.ts:161-168 | with the intended check the report has distinct URLs, keeps what it had, adds only given errors and covers every given URL |
| CrawlProperties.ReportAllOnceFirstSeen | src/urlCrawler.ts:161-168 | with the intended check, the first error for a URL is the one kept |
| CrawlProperties.ReportAllOnceGrows | src/urlCrawler.ts:161-168 | with the intended check, the report only grows |
| CrawlProperties.ReportAllOnceKeepsDistinct | src/urlCrawler.ts:161-168 | with the intended check, errors whose URLs are already distinct are all kept, in order |
| CrawlProperties.CorrectedCrawlReport | src/urlCrawler.ts:155-175 | with the intended check, each failing visited URL is reported once with one of its errors |
| UrlBatcher.Batches | src/utilities/urlBatcher.ts:6-9 | the reference definition of the batches: the first `size` URLs, then the batches of the rest |
| UrlBatcher.SplitUrlsIntoBatches | src/utilities/urlBatcher.ts:3-11 | with a positive size the result is `Batches(urls, size)`, which concatenates back to the input and is well sized; an empty input gives no batches |
| UrlBatcher.BatchesConcat | src/utilities/urlBatcher.ts:6-9 | the batches put back together are the input, in order |
| UrlBatcher.BatchesSizes | src/utilities/urlBatcher.ts:6-9 | every batch holds 1 to size URLs and every batch but the last exactly size |
| UrlBatcher.BatchesCount | src/utilities/urlBatcher.ts:6-9 | the number of batches is the length divided by the size, rounded up |
| UrlBatcher.TenInBatchesOfFour | src/utilities/urlBatcher.ts:6-9 | ten URLs in batches of four are split 4, 4, 2 |
| CrawlExamples.HomeSeed | src/urlCrawler.ts:49-53 | seed `/` under `https://a.com` is `https://a.com/`, parentless |
| CrawlExamples.AddRootedLink | src/urlCrawler.ts:129-146 | a new `/`-led link is put under the domain and appended with the page as parent |
| CrawlExamples.HomePageLinks | src/urlCrawler.ts:122-149 | the home page's links `/team` and `/broken` are both queued, in order |
| CrawlExamples.SmallSiteCrawl | src/urlCrawler.ts:151-178 | a three-page crawl visits the pages in order and reports the 404 of `/broken` with the home page as parent |
| CrawlExamples.RepeatedSeed | src/urlCrawler.ts:49-53 | the seeds `/missing` and `missing` give two identical entries |
| CrawlExamples.DuplicateSeedsReportedTwice | src/urlCrawler.ts:161-168 | as written, those two entries failing with 404 put the same error in the result twice |
| CrawlExamples.RepeatedFailureReportedOnce | src/urlCrawler.ts:161-168 | with the intended check the same two errors are reported once |

## Left out

- The network and the browser: `fetch`, Puppeteer's page rendering and cheerio's anchor selection are the `Site` value. `fetchContent` (urlCrawler.ts:57-73) and the HTML parsing are not part of this model, and neither are the browser's own timeouts.
- A `Site` answers the same for a URL every time it is asked. A real server can answer differently when the same URL (a repeated seed, for instance) is fetched twice; the model does not capture that.
- Asynchrony: each `await` runs to completion before the next statement, so every operation is sequential.
- `console.log` in `start` has no effect on the result and is left out.
- Error message texts: the constructor's four `Error`s are the `ConfigError` variants, without their message strings.
- Regular expressions in general: the two patterns are modelled as the string tests they denote. `/\/$/` is "ends in `/`". The extension pattern is a case-folded suffix test. The `i` flag folds only ASCII letters, which is all an ASCII pattern can observe.
- UrlCrawler.Crawler.Start: runs for at most `fuel` iterations, because the source's loop over a growing array has no bound. A crawl that ends within `fuel` is modelled exactly. A longer one stops early, and `visited` reports the position it reached.
- UrlCrawler.Crawler.CrawlEntry: the `outcome` it is proved against is a ghost parameter, equal to `Outcomes` for the crawler's domain, allow-list and site.
- UrlBatcher.SplitUrlsIntoBatches: the size is an integer. A fractional size and a non-positive size with a non-empty list are excluded, because the loop then never ends or slices at fractional positions.
- CrawlExamples.SmallSiteCrawl: stated over the visit of each URL rather than a concrete site, because classifying three literal URLs together is too costly for the solver.
- Default parameters: the allow-list always has to be passed to `Create`. The source's default is the empty list.

## Findings

| source | as written | input that shows it | evidently intended | confidence | as-written member | corrected member |
|---|---|---|---|---|---|---|
| src/urlCrawler.ts:161-164 | the duplicate check compares `item.urlToCrawl` of reported errors, which error records do not have, so it never matches | seeds `/missing` and `missing` under `https://a.com`, the page answering 404 | compare `item.url`, so that each failing URL is reported once, with the first parent seen | not executed | CrawlExamples.DuplicateSeedsReportedTwice | CrawlProperties.ReportAllOnceUnique |
| src/utilities/urlUtilities.ts:26 | `bmp||xml` adds an empty alternative, so any path ending in a bare dot counts as a static asset and is never fetched | `https://a.com/page.` | only the fourteen listed extensions mark a static asset | not executed | UrlUtilities.StaticAssetDotExample | UrlUtilities.IntendedStaticAssetNoDot |

The `UrlCrawler` class keeps the as-written behaviour of both lines, because it models the code.

- `CrawlSpec.ReportOnce` and `CrawlSpec.ReportAllOnce` give the corrected report. `CrawlProperties.ReportAllOnceFirstSeen`, `CorrectedCrawlReport` and `CrawlExamples.RepeatedFailureReportedOnce` prove its properties.
- `UrlUtilities.IsIntendedStaticAssetUrl` is the corrected test. `StaticAssetAsWritten` proves that the two tests differ only on paths ending in a dot.
