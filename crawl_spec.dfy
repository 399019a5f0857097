/** The behaviour of `UrlCrawler` as functions: construction checks,
    classification of a URL, the outcome of crawling one entry, link
    extraction into the frontier and the traversal loop. The class in
    `UrlCrawler` is proved to compute exactly these. */
module CrawlSpec {
  import opened Wrappers
  import opened JsString
  import opened UrlUtilities
  import opened CrawledUrl

  /** The four ways the constructor throws. */
  datatype ConfigError =
    | InvalidDomain
    | EmptySeedList
    | AbsoluteSeed(url: string)
    | RelativeAllowedDomain(url: string)

  /** What the global `fetch` gives for a URL: a response status, or the
      message of the exception it threw. */
  datatype FetchResult = Status(code: int) | FetchThrew(message: string)

  /** What rendering a page in the headless browser and reading the `href`
      attribute of each anchor gives: the attributes in document order
      (`None` where an anchor has none), or the message of the exception
      rendering threw. */
  datatype RenderResult = Rendered(hrefs: seq<Option<string>>) | RenderThrew(message: string)

  /** The web as the crawler sees it. */
  datatype Site = Site(fetch: string -> FetchResult, render: string -> RenderResult)

  // ---------------------------------------------------------------------
  // Construction

  /** Position of the first absolute URL, `|urls|` if there is none. */
  function FirstAbsolute(urls: seq<string>): (k: nat)
    ensures k <= |urls|
    ensures forall j :: 0 <= j < k ==> !IsAbsoluteUrl(urls[j])
    ensures k < |urls| ==> IsAbsoluteUrl(urls[k])
  {
    if urls == [] then 0
    else if IsAbsoluteUrl(urls[0]) then 0
    else 1 + FirstAbsolute(urls[1..])
  }

  /** Position of the first URL that is not absolute, `|urls|` if there is none. */
  function FirstRelative(urls: seq<string>): (k: nat)
    ensures k <= |urls|
    ensures forall j :: 0 <= j < k ==> IsAbsoluteUrl(urls[j])
    ensures k < |urls| ==> !IsAbsoluteUrl(urls[k])
  {
    if urls == [] then 0
    else if !IsAbsoluteUrl(urls[0]) then 0
    else 1 + FirstRelative(urls[1..])
  }

  /** The error the constructor throws, checked in the order of the source:
      the domain, then the seed list, then each seed, then each allow-list
      entry; `None` when construction succeeds. */
  function ConfigFault(domain: string, seeds: seq<string>, allow: seq<string>): (fault: Option<ConfigError>)
    ensures fault == None <==>
      IsAbsoluteUrl(domain) && seeds != [] &&
      (forall s | s in seeds :: !IsAbsoluteUrl(s)) &&
      (forall a | a in allow :: IsAbsoluteUrl(a))
    ensures fault == Some(InvalidDomain) <==> !IsAbsoluteUrl(domain)
    ensures fault == Some(EmptySeedList) <==> IsAbsoluteUrl(domain) && seeds == []
    ensures fault.Some? && fault.value.AbsoluteSeed? ==>
              FirstAbsolute(seeds) < |seeds| && fault.value.url == seeds[FirstAbsolute(seeds)]
    ensures fault.Some? && fault.value.RelativeAllowedDomain? ==>
              FirstRelative(allow) < |allow| && fault.value.url == allow[FirstRelative(allow)]
    ensures fault.Some? && fault.value.AbsoluteSeed? ==>
      IsAbsoluteUrl(domain) && fault.value.url in seeds && IsAbsoluteUrl(fault.value.url)
    ensures fault.Some? && fault.value.RelativeAllowedDomain? ==>
      IsAbsoluteUrl(domain) && seeds != [] && (forall s | s in seeds :: !IsAbsoluteUrl(s)) &&
      fault.value.url in allow && !IsAbsoluteUrl(fault.value.url)
  {
    if !IsAbsoluteUrl(domain) then Some(InvalidDomain)
    else if |seeds| == 0 then Some(EmptySeedList)
    else if FirstAbsolute(seeds) < |seeds| then Some(AbsoluteSeed(seeds[FirstAbsolute(seeds)]))
    else if FirstRelative(allow) < |allow| then Some(RelativeAllowedDomain(allow[FirstRelative(allow)]))
    else None
  }

  /** The initial frontier: each seed under the domain as given (before the
      trailing slash is removed), without a parent. */
  function SeedFrontier(rawDomain: string, seeds: seq<string>): seq<CrawlUrl> {
    seq(|seeds|, i requires 0 <= i < |seeds| => CrawlUrl(rawDomain + AddStartingSlash(seeds[i]), None))
  }

  // ---------------------------------------------------------------------
  // Classification

  /** Schemes that are never fetched when they appear as a path under the domain. */
  const ExcludedSchemes: seq<string> := ["mailto:", "tel:", "javascript:", "sms:"]

  /** External share links that are never fetched. */
  const ExcludedExternalPrefixes: seq<string> := ["https://twitter.com/intent/tweet"]

  /** `isExcludedUrl` */
  predicate IsExcludedUrl(domain: string, url: string) {
    (exists scheme | scheme in ExcludedSchemes :: StartsWith(url, domain + AddStartingSlash(scheme))) ||
    (exists prefix | prefix in ExcludedExternalPrefixes :: StartsWith(url, prefix))
  }

  /** The pages whose links are followed: under the domain, or containing an
      allow-list entry anywhere in the URL. */
  predicate IsInScope(domain: string, allow: seq<string>, url: string) {
    StartsWith(url, domain) || exists item | item in allow :: Includes(url, item)
  }

  // ---------------------------------------------------------------------
  // Crawling one entry

  /** What happens to one frontier entry in `crawlUrl`. */
  datatype Visit =
    | Skipped                              // static asset or excluded: nothing is fetched
    | HttpError(code: int)                 // fetched, status other than 200
    | Threw(message: string)               // fetch or render threw
    | NotFollowed                          // status 200, out of scope: not rendered
    | Followed(hrefs: seq<Option<string>>) // status 200, rendered, these anchors found

  /** What happens to a URL once it is fetched. `follow` is the test made
      after a 200 answer (not a static asset, and in scope); it does not
      depend on the answer. */
  function FetchedVisit(site: Site, url: string, follow: bool): Visit {
    match site.fetch(url)
    case FetchThrew(message) => Threw(message)
    case Status(code) =>
      if code != 200 then HttpError(code)
      else if follow then
        match site.render(url)
        case RenderThrew(message) => Threw(message)
        case Rendered(hrefs) => Followed(hrefs)
      else NotFollowed
  }

  /** What `crawlUrl` does to `url`. */
  function VisitOf(domain: string, allow: seq<string>, site: Site, url: string): Visit {
    if IsStaticAssetUrl(url) || IsExcludedUrl(domain, url) then Skipped
    else FetchedVisit(site, url, !IsStaticAssetUrl(url) && IsInScope(domain, allow, url))
  }

  /** The record `crawlUrl` returns for an entry, if any. */
  function ErrorFor(entry: CrawlUrl, visit: Visit): (error: Option<CrawledUrlError>)
    ensures error.Some? <==> visit.HttpError? || visit.Threw?
    ensures error.Some? ==> error.value.url == entry.urlToCrawl && error.value.parentUrl == entry.parentUrl
  {
    match visit
    case HttpError(code) => Some(CrawledUrlError(entry.urlToCrawl, code, None, entry.parentUrl))
    case Threw(message) => Some(CrawledUrlError(entry.urlToCrawl, -1, Some(message), entry.parentUrl))
    case _ => None
  }

  // ---------------------------------------------------------------------
  // Link extraction

  /** An absolute `href` is kept, a relative one is put under the domain. */
  function ResolveLink(domain: string, href: string): string {
    if IsAbsoluteUrl(href) then href else domain + AddStartingSlash(href)
  }

  /** The loose duplicate test: some entry's URL contains the link. */
  predicate IsAlreadyQueued(frontier: seq<CrawlUrl>, link: string) {
    exists i | 0 <= i < |frontier| :: Includes(frontier[i].urlToCrawl, link)
  }

  /** The frontier after handling one anchor. */
  function AddLink(frontier: seq<CrawlUrl>, domain: string, href: Option<string>, parentUrl: string): seq<CrawlUrl> {
    if href.None? || href.value == "" then frontier
    else
      var link := ResolveLink(domain, href.value);
      if IsAlreadyQueued(frontier, link) then frontier
      else frontier + [CrawlUrl(link, Some(parentUrl))]
  }

  /** The frontier after `extractUrls` has handled the anchors in order. */
  function ExtractedFrontier(frontier: seq<CrawlUrl>, domain: string, hrefs: seq<Option<string>>, parentUrl: string): seq<CrawlUrl>
    decreases |hrefs|
  {
    if hrefs == [] then frontier
    else AddLink(ExtractedFrontier(frontier, domain, hrefs[..|hrefs| - 1], parentUrl), domain, hrefs[|hrefs| - 1], parentUrl)
  }

  /** The frontier after visiting `url`. */
  function FrontierAfter(frontier: seq<CrawlUrl>, domain: string, url: string, visit: Visit): seq<CrawlUrl> {
    if visit.Followed? then ExtractedFrontier(frontier, domain, visit.hrefs, url) else frontier
  }

  // ---------------------------------------------------------------------
  // Aggregation and the traversal loop

  /** The `urlToCrawl` property of a reported error, as the duplicate check
      reads it: error records have no such property, so the read gives
      `undefined`. */
  function UrlToCrawlOfReport(error: CrawledUrlError): Option<string> {
    None
  }

  /** The duplicate check of `start` as written: some reported item's
      `urlToCrawl` equals the new error's URL. */
  predicate ErrorAlreadyReported(result: seq<CrawledUrlError>, url: string) {
    exists k | 0 <= k < |result| :: UrlToCrawlOfReport(result[k]) == Some(url)
  }

  /** The result list after one visit. */
  function Report(result: seq<CrawledUrlError>, error: Option<CrawledUrlError>): seq<CrawledUrlError> {
    if error.Some? && !ErrorAlreadyReported(result, error.value.url) then result + [error.value] else result
  }

  /** The duplicate check as evidently intended: some reported error
      already names the URL. */
  predicate UrlReported(result: seq<CrawledUrlError>, url: string) {
    exists k | 0 <= k < |result| :: result[k].url == url
  }

  /** The result list after one visit, with the intended duplicate check. */
  function ReportOnce(result: seq<CrawledUrlError>, error: Option<CrawledUrlError>): seq<CrawledUrlError> {
    if error.Some? && !UrlReported(result, error.value.url) then result + [error.value] else result
  }

  /** The result list after reporting `errors` in order with the intended
      duplicate check. */
  function ReportAllOnce(result: seq<CrawledUrlError>, errors: seq<CrawledUrlError>): seq<CrawledUrlError>
    decreases |errors|
  {
    if errors == [] then result else ReportAllOnce(ReportOnce(result, Some(errors[0])), errors[1..])
  }

  /** The traversal state: the frontier, the position of the next entry to
      visit, and the errors reported so far. */
  datatype CrawlState = CrawlState(frontier: seq<CrawlUrl>, cursor: nat, result: seq<CrawledUrlError>)

  /** What `crawlUrl` does to each URL of a crawl of `domain` over `site`. */
  function Outcomes(domain: string, allow: seq<string>, site: Site): string -> Visit {
    url => VisitOf(domain, allow, site, url)
  }

  /** `outcome` gives, for every URL, what `crawlUrl` does to it. */
  ghost predicate IsOutcomeOf(outcome: string -> Visit, domain: string, allow: seq<string>, site: Site) {
    forall url {:trigger VisitOf(domain, allow, site, url)} :: outcome(url) == VisitOf(domain, allow, site, url)
  }

  /** One iteration of the loop in `start`, where `outcome` gives the visit
      of each URL (for the crawler, `Outcomes(domain, allow, site)`). */
  function Step(domain: string, outcome: string -> Visit, st: CrawlState): CrawlState
    requires st.cursor < |st.frontier|
  {
    var entry := st.frontier[st.cursor];
    var visit := outcome(entry.urlToCrawl);
    CrawlState(
      FrontierAfter(st.frontier, domain, entry.urlToCrawl, visit),
      st.cursor + 1,
      Report(st.result, ErrorFor(entry, visit)))
  }

  /** The loop of `start`, for at most `fuel` iterations. */
  function Run(domain: string, outcome: string -> Visit, st: CrawlState, fuel: nat): CrawlState
    decreases fuel
  {
    if fuel == 0 || st.cursor >= |st.frontier| then st
    else Run(domain, outcome, Step(domain, outcome, st), fuel - 1)
  }

  /** The errors of a sequence of entries, in order: what the report is
      made of. */
  function ErrorsOf(outcome: string -> Visit, entries: seq<CrawlUrl>): seq<CrawledUrlError>
    decreases |entries|
  {
    if entries == [] then []
    else
      var error := ErrorFor(entries[0], outcome(entries[0].urlToCrawl));
      (if error.Some? then [error.value] else []) + ErrorsOf(outcome, entries[1..])
  }
}
