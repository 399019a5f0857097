/** The crawler object: its constructor checks, `crawlUrl`, `extractUrls`
    and `start`, each proved to compute what `CrawlSpec` defines. The
    network and the browser are the `Site` passed to the methods. */
module UrlCrawler {
  import opened Wrappers
  import opened JsString
  import opened UrlUtilities
  import opened CrawledUrl
  import opened CrawlSpec
  import opened CrawlProperties

  class Crawler {
    /** The domain with one trailing slash removed. */
    const domain: string
    /** Prefixes of external sites whose pages are also followed. */
    const allowExternalDomainsToCrawl: seq<string>
    /** The frontier: seeds first, then every discovered link, in order. */
    var urlsToCrawl: seq<CrawlUrl>

    /** What construction establishes and the methods keep: relative links
        resolve to absolute URLs, the allow-list is absolute, and so is
        every frontier entry. */
    ghost predicate Valid()
      reads this
    {
      IsAbsoluteUrl(domain + "/") &&
      (forall a | a in allowExternalDomainsToCrawl :: IsAbsoluteUrl(a)) &&
      AllAbsolute(urlsToCrawl)
    }

    /** Field initialisation once the arguments are checked: the domain
        is normalised, but the seeds are put under the domain as given. */
    constructor (rawDomain: string, seeds: seq<string>, allow: seq<string>)
      requires ConfigFault(rawDomain, seeds, allow) == None
      ensures Valid()
      ensures domain == RemoveTrailingSlash(rawDomain)
      ensures allowExternalDomainsToCrawl == allow
      ensures urlsToCrawl == SeedFrontier(rawDomain, seeds)
    {
      domain := RemoveTrailingSlash(rawDomain);
      urlsToCrawl := SeedFrontier(rawDomain, seeds);
      allowExternalDomainsToCrawl := allow;
      new;
      NormalisedDomainRoots(rawDomain);
      SeedFrontierAbsolute(rawDomain, seeds);
    }

    /** The constructor of `UrlCrawler`: it throws `ConfigFault` when an
        argument is refused, and otherwise builds a valid crawler. */
    static method Create(rawDomain: string, seeds: seq<string>, allow: seq<string>) returns (r: Result<Crawler, ConfigError>)
      ensures r.Failure? <==> ConfigFault(rawDomain, seeds, allow).Some?
      ensures r.Failure? ==> r.error == ConfigFault(rawDomain, seeds, allow).value
      ensures r.Success? ==>
        fresh(r.value) && r.value.Valid() &&
        r.value.domain == RemoveTrailingSlash(rawDomain) &&
        r.value.allowExternalDomainsToCrawl == allow &&
        r.value.urlsToCrawl == SeedFrontier(rawDomain, seeds)
    {
      if !IsAbsoluteUrl(rawDomain) {
        return Failure(InvalidDomain);
      }
      if |seeds| == 0 {
        return Failure(EmptySeedList);
      }
      var i := 0;
      while i < |seeds|
        invariant 0 <= i <= |seeds|
        invariant forall j | 0 <= j < i :: !IsAbsoluteUrl(seeds[j])
      {
        if IsAbsoluteUrl(seeds[i]) {
          assert FirstAbsolute(seeds) == i;
          return Failure(AbsoluteSeed(seeds[i]));
        }
        i := i + 1;
      }
      assert FirstAbsolute(seeds) == |seeds|;
      i := 0;
      while i < |allow|
        invariant 0 <= i <= |allow|
        invariant forall j | 0 <= j < i :: IsAbsoluteUrl(allow[j])
      {
        if !IsAbsoluteUrl(allow[i]) {
          assert FirstRelative(allow) == i;
          return Failure(RelativeAllowedDomain(allow[i]));
        }
        i := i + 1;
      }
      assert FirstRelative(allow) == |allow|;
      var crawler := new Crawler(rawDomain, seeds, allow);
      return Success(crawler);
    }

    /** `extractUrls`, given the `href` attributes of the page's anchors in
        document order: each non-empty one is resolved against the domain
        and pushed unless some queued URL already contains it. */
    method ExtractUrls(hrefs: seq<Option<string>>, parentUrl: string)
      requires Valid()
      modifies this
      ensures Valid()
      ensures urlsToCrawl == ExtractedFrontier(old(urlsToCrawl), domain, hrefs, parentUrl)
    {
      var i := 0;
      while i < |hrefs|
        invariant 0 <= i <= |hrefs|
        invariant urlsToCrawl == ExtractedFrontier(old(urlsToCrawl), domain, hrefs[..i], parentUrl)
      {
        var link := hrefs[i];
        if link.Some? && link.value != "" {
          var absoluteLink := if IsAbsoluteUrl(link.value) then link.value else domain + AddStartingSlash(link.value);
          var isAlreadyAddedToQueue := IsAlreadyQueued(urlsToCrawl, absoluteLink);
          if !isAlreadyAddedToQueue {
            urlsToCrawl := urlsToCrawl + [CrawlUrl(absoluteLink, Some(parentUrl))];
          }
        }
        assert hrefs[..i + 1][..i] == hrefs[..i];
        i := i + 1;
      }
      assert hrefs[..i] == hrefs;
      ExtractKeepsAbsolute(old(urlsToCrawl), domain, hrefs, parentUrl);
    }

    /** `crawlUrl`: static assets and excluded URLs are skipped; otherwise
        the URL is fetched as `FetchEntry` describes, following its links
        only when it is in scope (the second static-asset test always
        passes there). */
    method CrawlEntry(entry: CrawlUrl, site: Site, ghost outcome: string -> Visit) returns (error: Option<CrawledUrlError>)
      requires IsOutcomeOf(outcome, domain, allowExternalDomainsToCrawl, site)
      requires Valid()
      modifies this
      ensures Valid()
      ensures error == ErrorFor(entry, outcome(entry.urlToCrawl))
      ensures urlsToCrawl == FrontierAfter(old(urlsToCrawl), domain, entry.urlToCrawl, outcome(entry.urlToCrawl))
    {
      var url := entry.urlToCrawl;
      assert outcome(url) == VisitOf(domain, allowExternalDomainsToCrawl, site, url);
      if !IsStaticAssetUrl(url) && !IsExcludedUrl(domain, url) {
        var follow := !IsStaticAssetUrl(url) && IsInScope(domain, allowExternalDomainsToCrawl, url);
        error := FetchEntry(entry, site, follow);
      } else {
        error := None;
      }
    }

    /** The `try` block of `crawlUrl`: a status other than 200 is an error
        with that status; with 200, a page to `follow` is rendered and its
        links extracted; anything thrown by the fetch or the rendering is
        an error with status -1 and the thrown message. */
    method FetchEntry(entry: CrawlUrl, site: Site, follow: bool) returns (error: Option<CrawledUrlError>)
      requires Valid()
      modifies this
      ensures Valid()
      ensures error == ErrorFor(entry, FetchedVisit(site, entry.urlToCrawl, follow))
      ensures urlsToCrawl == FrontierAfter(old(urlsToCrawl), domain, entry.urlToCrawl, FetchedVisit(site, entry.urlToCrawl, follow))
    {
      var url := entry.urlToCrawl;
      error := None;
      match site.fetch(url)
      case FetchThrew(message) =>
        error := Some(CrawledUrlError(url, -1, Some(message), entry.parentUrl));
      case Status(code) =>
        if code != 200 {
          error := Some(CrawledUrlError(url, code, None, entry.parentUrl));
        } else if follow {
          match site.render(url)
          case RenderThrew(message) =>
            error := Some(CrawledUrlError(url, -1, Some(message), entry.parentUrl));
          case Rendered(hrefs) =>
            ExtractUrls(hrefs, url);
        }
    }

    /** `start`, for at most `fuel` iterations: visits the frontier in
        order while it grows, and collects the errors. `visited` is the
        position the loop reached, and `outcome` stands for `crawlUrl` on
        each URL (`Outcomes(domain, allowExternalDomainsToCrawl, site)` is
        one). The result is the loop of `CrawlSpec`, so it holds exactly
        the errors of the visited entries, in order. */
    method Start(site: Site, fuel: nat, ghost outcome: string -> Visit) returns (result: seq<CrawledUrlError>, visited: nat)
      requires Valid()
      requires IsOutcomeOf(outcome, domain, allowExternalDomainsToCrawl, site)
      modifies this
      ensures Valid()
      ensures CrawlState(urlsToCrawl, visited, result) == Run(domain, outcome, CrawlState(old(urlsToCrawl), 0, []), fuel)
      ensures old(urlsToCrawl) <= urlsToCrawl
      ensures visited <= |urlsToCrawl|
      ensures visited == |urlsToCrawl| || visited == fuel
      ensures result == ErrorsOf(outcome, urlsToCrawl[..visited])
    {
      ghost var init := CrawlState(urlsToCrawl, 0, []);
      ghost var fuelLeft: nat := fuel;
      ghost var st := init;
      result := [];
      visited := 0;
      while visited < |urlsToCrawl| && visited < fuel
        invariant st == CrawlState(urlsToCrawl, visited, result)
        invariant visited + fuelLeft == fuel
        invariant AllAbsolute(urlsToCrawl)
        invariant Run(domain, outcome, st, fuelLeft) == Run(domain, outcome, init, fuel)
        decreases fuelLeft
      {
        StepFacts(domain, outcome, st);
        StepKeepsAbsolute(domain, outcome, st);
        ghost var next := Step(domain, outcome, st);
        RunAfterStep(domain, outcome, st, next, fuelLeft);
        var entry := urlsToCrawl[visited];
        var status := CrawlEntry(entry, site, outcome);
        assert urlsToCrawl == next.frontier;
        if status.Some? {
          var errorAlreadyReported := ErrorAlreadyReported(result, status.value.url);
          if !errorAlreadyReported {
            result := result + [status.value];
          }
        }
        assert result == next.result;
        visited := visited + 1;
        st := next;
        fuelLeft := fuelLeft - 1;
      }
      RunUnfold(domain, outcome, st, fuelLeft);
      RunReport(domain, outcome, init, fuel);
      RunAdvances(domain, outcome, init, fuel);
    }
  }
}
