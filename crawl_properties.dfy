/** What the crawler promises, proved about the functions of `CrawlSpec`. */
module CrawlProperties {
  import opened Wrappers
  import opened JsString
  import opened UrlUtilities
  import opened CrawledUrl
  import opened CrawlSpec

  /** Every frontier entry names an absolute URL. */
  predicate AllAbsolute(frontier: seq<CrawlUrl>) {
    forall i | 0 <= i < |frontier| :: IsAbsoluteUrl(frontier[i].urlToCrawl)
  }

  /** Past the first `seeds` entries, every entry was discovered on some
      page, and its URL is not contained in the URL of any earlier entry. */
  predicate DiscoveredOnce(frontier: seq<CrawlUrl>, seeds: nat) {
    (forall q | seeds <= q < |frontier| :: frontier[q].parentUrl.Some?) &&
    (forall p, q | 0 <= p < q < |frontier| && seeds <= q ::
       !Includes(frontier[p].urlToCrawl, frontier[q].urlToCrawl))
  }

  /** `url` is the resolved link of one of the non-empty anchors `hrefs`. */
  predicate FromAnchor(domain: string, hrefs: seq<Option<string>>, url: string) {
    exists h | h in hrefs :: h.Some? && h.value != "" && url == ResolveLink(domain, h.value)
  }

  // ---------------------------------------------------------------------
  // Construction

  /** The seed entries are absolute, parentless and in seed order, even
      though they are built from the domain before normalisation. */
  lemma {:induction false} SeedFrontierAbsolute(rawDomain: string, seeds: seq<string>)
    requires IsAbsoluteUrl(rawDomain)
    ensures var frontier := SeedFrontier(rawDomain, seeds);
      |frontier| == |seeds| && AllAbsolute(frontier) && DiscoveredOnce(frontier, |seeds|) &&
      forall i | 0 <= i < |seeds| ::
        frontier[i].parentUrl == None && frontier[i].urlToCrawl == rawDomain + AddStartingSlash(seeds[i])
  {
    var frontier := SeedFrontier(rawDomain, seeds);
    forall i | 0 <= i < |seeds| ensures IsAbsoluteUrl(frontier[i].urlToCrawl) {
      AbsoluteUrlExtends(rawDomain, AddStartingSlash(seeds[i]));
    }
  }

  /** The normalised domain keeps every relative link absolute: the domain
      followed by `/` is absolute. */
  lemma NormalisedDomainRoots(rawDomain: string)
    requires IsAbsoluteUrl(rawDomain)
    ensures IsAbsoluteUrl(RemoveTrailingSlash(rawDomain) + "/")
  {
    RootedUnderNormalisedDomain(rawDomain, "/");
  }

  /** Seeds are put under the raw domain while the field holds the
      normalised one: with domain `https://a.com/` the seed `about` becomes
      `https://a.com//about`, and the domain field `https://a.com`. */
  lemma SeedUsesRawDomain()
    ensures SeedFrontier("https://a.com/", ["about"])[0].urlToCrawl == "https://a.com//about"
    ensures RemoveTrailingSlash("https://a.com/") == "https://a.com"
  {
    assert "https://a.com/" + "/about" == "https://a.com//about";
    assert "https://a.com/"[..13] == "https://a.com";
    assert "/" + "about" == "/about";
    StartsWithChar("about", '/');
    EndsWithChar("https://a.com/", '/');
  }

  /** Only one trailing slash is removed, so the domain field can still end
      in `/`. */
  lemma NormalisedDomainMayEndInSlash()
    ensures RemoveTrailingSlash("https://a.com//") == "https://a.com/"
  {
    assert "https://a.com//"[..14] == "https://a.com/";
    EndsWithChar("https://a.com//", '/');
  }

  // ---------------------------------------------------------------------
  // Classification and the outcome of one entry

  /** `isExcludedUrl` spelled out: one of four scheme paths under the
      domain, or a tweet-intent link. */
  lemma ExcludedUrlIff(domain: string, url: string)
    ensures IsExcludedUrl(domain, url) <==>
      StartsWith(url, domain + "/mailto:") || StartsWith(url, domain + "/tel:") ||
      StartsWith(url, domain + "/javascript:") || StartsWith(url, domain + "/sms:") ||
      StartsWith(url, "https://twitter.com/intent/tweet")
  {
    StartsWithChar("mailto:", '/');
    StartsWithChar("tel:", '/');
    StartsWithChar("javascript:", '/');
    StartsWithChar("sms:", '/');
    assert "/" + "mailto:" == "/mailto:" && "/" + "tel:" == "/tel:";
    assert "/" + "javascript:" == "/javascript:" && "/" + "sms:" == "/sms:";
    assert AddStartingSlash("mailto:") == "/mailto:" && AddStartingSlash("tel:") == "/tel:";
    assert AddStartingSlash("javascript:") == "/javascript:" && AddStartingSlash("sms:") == "/sms:";
  }

  /** `Outcomes` is what `crawlUrl` does to each URL. */
  lemma OutcomesIsOutcomeOf(domain: string, allow: seq<string>, site: Site)
    ensures IsOutcomeOf(Outcomes(domain, allow, site), domain, allow, site)
  {
  }

  /** A static asset or an excluded URL is decided without the network:
      whatever any site answers, the entry is skipped and yields no error. */
  lemma SkippedWithoutNetwork(domain: string, allow: seq<string>, site: Site, entry: CrawlUrl)
    requires IsStaticAssetUrl(entry.urlToCrawl) || IsExcludedUrl(domain, entry.urlToCrawl)
    ensures VisitOf(domain, allow, site, entry.urlToCrawl) == Skipped
    ensures ErrorFor(entry, Skipped) == None
  {
  }

  /** A URL that is fetched is not a static asset, so the second static
      check made after a 200 answer always passes: only the scope decides
      whether the page is rendered. */
  lemma FetchedUnlessSkipped(domain: string, allow: seq<string>, site: Site, url: string)
    requires !IsStaticAssetUrl(url) && !IsExcludedUrl(domain, url)
    ensures VisitOf(domain, allow, site, url) == FetchedVisit(site, url, IsInScope(domain, allow, url))
  {
  }

  /** The record `crawlUrl` returns for a fetched entry, by what the fetch
      and the render give. */
  lemma CrawlOutcome(site: Site, entry: CrawlUrl, follow: bool)
    ensures var url := entry.urlToCrawl;
      var visit := FetchedVisit(site, url, follow);
      var error := ErrorFor(entry, visit);
      (site.fetch(url).FetchThrew? ==>
         error == Some(CrawledUrlError(url, -1, Some(site.fetch(url).message), entry.parentUrl))) &&
      (site.fetch(url).Status? && site.fetch(url).code != 200 ==>
         error == Some(CrawledUrlError(url, site.fetch(url).code, None, entry.parentUrl))) &&
      (site.fetch(url) == Status(200) && !follow ==>
         error == None && visit == NotFollowed) &&
      (site.fetch(url) == Status(200) && follow && site.render(url).RenderThrew? ==>
         error == Some(CrawledUrlError(url, -1, Some(site.render(url).message), entry.parentUrl))) &&
      (site.fetch(url) == Status(200) && follow && site.render(url).Rendered? ==>
         error == None && visit == Followed(site.render(url).hrefs))
  {
  }

  /** Only a page that answered 200 and is followed is rendered: otherwise
      the visit does not depend on the renderer. */
  lemma RenderOnlyWhenFollowed(site: Site, other: Site, url: string, follow: bool)
    requires site.fetch(url) == other.fetch(url)
    requires site.fetch(url) != Status(200) || !follow
    ensures FetchedVisit(site, url, follow) == FetchedVisit(other, url, follow)
    ensures !FetchedVisit(site, url, follow).Followed?
  {
  }

  /** Every error record names the entry's URL and parent, never has status
      200, and carries a message only with status -1. */
  lemma ErrorRecordShape(site: Site, entry: CrawlUrl, follow: bool)
    ensures var visit := FetchedVisit(site, entry.urlToCrawl, follow);
      var error := ErrorFor(entry, visit);
      error.Some? ==>
        error.value.url == entry.urlToCrawl && error.value.parentUrl == entry.parentUrl &&
        error.value.statusCode != 200 &&
        (error.value.errorMessage.Some? ==> error.value.statusCode == -1) &&
        (visit.HttpError? || visit.Threw?)
  {
  }

  /** Exactly the static assets and the excluded URLs are skipped; every
      other URL is fetched, so errors come only from fetched URLs. */
  lemma SkippedExactly(domain: string, allow: seq<string>, site: Site, url: string)
    ensures VisitOf(domain, allow, site, url).Skipped? <==> IsStaticAssetUrl(url) || IsExcludedUrl(domain, url)
  {
  }

  // ---------------------------------------------------------------------
  // Link extraction

  /** A relative link put under a domain whose `domain + "/"` is absolute is
      absolute. */
  lemma ResolvedLinkIsAbsolute(domain: string, href: string)
    requires IsAbsoluteUrl(domain + "/")
    ensures IsAbsoluteUrl(ResolveLink(domain, href))
  {
    if !IsAbsoluteUrl(href) {
      var path := AddStartingSlash(href);
      var tail := path[1..];
      assert path == "/" + tail;
      assert domain + path == (domain + "/") + tail;
      AbsoluteUrlExtends(domain + "/", tail);
    }
  }

  /** Extraction only appends. Each appended entry comes from a non-empty
      anchor of the page, resolved against the domain, has the page as its
      parent, and its URL is contained in no earlier entry's URL. */
  lemma {:induction false} ExtractAppends(frontier: seq<CrawlUrl>, domain: string, hrefs: seq<Option<string>>, parentUrl: string)
    ensures var r := ExtractedFrontier(frontier, domain, hrefs, parentUrl);
      |frontier| <= |r| <= |frontier| + |hrefs| && r[..|frontier|] == frontier &&
      forall j | |frontier| <= j < |r| ::
        r[j].parentUrl == Some(parentUrl) &&
        FromAnchor(domain, hrefs, r[j].urlToCrawl) &&
        (forall p | 0 <= p < j :: !Includes(r[p].urlToCrawl, r[j].urlToCrawl))
    decreases |hrefs|
  {
    if hrefs != [] {
      var init := hrefs[..|hrefs| - 1];
      var last := hrefs[|hrefs| - 1];
      ExtractAppends(frontier, domain, init, parentUrl);
      var mid := ExtractedFrontier(frontier, domain, init, parentUrl);
      var r := AddLink(mid, domain, last, parentUrl);
      assert r == ExtractedFrontier(frontier, domain, hrefs, parentUrl);
      assert mid <= r;
      forall j | |frontier| <= j < |r|
        ensures FromAnchor(domain, hrefs, r[j].urlToCrawl)
      {
        if j < |mid| {
          assert r[j] == mid[j] && FromAnchor(domain, init, mid[j].urlToCrawl);
          var h :| h in init && h.Some? && h.value != "" && mid[j].urlToCrawl == ResolveLink(domain, h.value);
          assert h in hrefs;
        } else {
          assert last in hrefs;
        }
      }
      if |r| > |mid| {
        var j := |mid|;
        forall p | 0 <= p < j ensures !Includes(r[p].urlToCrawl, r[j].urlToCrawl) {
          assert r[p] == mid[p];
        }
      }
    }
  }

  /** Queued-ness only grows as the frontier is extended. */
  lemma QueuedStaysQueued(frontier: seq<CrawlUrl>, longer: seq<CrawlUrl>, link: string)
    requires frontier <= longer
    requires IsAlreadyQueued(frontier, link)
    ensures IsAlreadyQueued(longer, link)
  {
    var i :| 0 <= i < |frontier| && Includes(frontier[i].urlToCrawl, link);
    assert longer[i] == frontier[i];
  }

  /** After extraction, the link of every non-empty anchor is covered by some
      entry: either it was already there or it has been appended. */
  lemma {:induction false} ExtractCovers(frontier: seq<CrawlUrl>, domain: string, hrefs: seq<Option<string>>, parentUrl: string)
    ensures var r := ExtractedFrontier(frontier, domain, hrefs, parentUrl);
      forall h | h in hrefs && h.Some? && h.value != "" :: IsAlreadyQueued(r, ResolveLink(domain, h.value))
    decreases |hrefs|
  {
    if hrefs != [] {
      var init := hrefs[..|hrefs| - 1];
      var last := hrefs[|hrefs| - 1];
      ExtractCovers(frontier, domain, init, parentUrl);
      var mid := ExtractedFrontier(frontier, domain, init, parentUrl);
      var r := AddLink(mid, domain, last, parentUrl);
      assert mid <= r;
      forall h | h in hrefs && h.Some? && h.value != ""
        ensures IsAlreadyQueued(r, ResolveLink(domain, h.value))
      {
        if h in init {
          QueuedStaysQueued(mid, r, ResolveLink(domain, h.value));
        } else {
          assert h == last;
          var link := ResolveLink(domain, h.value);
          if !IsAlreadyQueued(mid, link) {
            IncludesItself(link);
            assert r[|mid|].urlToCrawl == link;
          }
        }
      }
    }
  }

  /** Extraction handles the anchors in document order: extracting two
      runs of anchors is extracting the first run, then the second from the
      frontier it left. */
  lemma {:induction false} ExtractConcat(frontier: seq<CrawlUrl>, domain: string, first: seq<Option<string>>, second: seq<Option<string>>, parentUrl: string)
    ensures ExtractedFrontier(frontier, domain, first + second, parentUrl) ==
      ExtractedFrontier(ExtractedFrontier(frontier, domain, first, parentUrl), domain, second, parentUrl)
    decreases |second|
  {
    if second == [] {
      assert first + second == first;
    } else {
      var hrefs := first + second;
      assert hrefs[..|hrefs| - 1] == first + second[..|second| - 1];
      assert hrefs[|hrefs| - 1] == second[|second| - 1];
      ExtractConcat(frontier, domain, first, second[..|second| - 1], parentUrl);
    }
  }

  /** The first anchor is handled first, against the frontier as it was,
      and the remaining anchors after it. */
  lemma ExtractFirstAnchorFirst(frontier: seq<CrawlUrl>, domain: string, href: Option<string>, rest: seq<Option<string>>, parentUrl: string)
    ensures ExtractedFrontier(frontier, domain, [href] + rest, parentUrl) ==
      ExtractedFrontier(AddLink(frontier, domain, href, parentUrl), domain, rest, parentUrl)
  {
    ExtractConcat(frontier, domain, [href], rest, parentUrl);
    assert [href][..0] == [];
  }

  /** Extraction keeps every entry absolute. */
  lemma ExtractKeepsAbsolute(frontier: seq<CrawlUrl>, domain: string, hrefs: seq<Option<string>>, parentUrl: string)
    requires IsAbsoluteUrl(domain + "/")
    requires AllAbsolute(frontier)
    ensures AllAbsolute(ExtractedFrontier(frontier, domain, hrefs, parentUrl))
  {
    var r := ExtractedFrontier(frontier, domain, hrefs, parentUrl);
    ExtractAppends(frontier, domain, hrefs, parentUrl);
    forall j | 0 <= j < |r| ensures IsAbsoluteUrl(r[j].urlToCrawl) {
      if j < |frontier| {
        assert r[j] == frontier[j];
      } else {
        assert FromAnchor(domain, hrefs, r[j].urlToCrawl);
        var h :| h in hrefs && h.Some? && h.value != "" && r[j].urlToCrawl == ResolveLink(domain, h.value);
        ResolvedLinkIsAbsolute(domain, h.value);
      }
    }
  }

  // ---------------------------------------------------------------------
  // The traversal

  /** One step extends the frontier and adds the visited entry's error, if
      any, to the result: the as-written duplicate check never fires. */
  lemma StepFacts(domain: string, outcome: string -> Visit, st: CrawlState)
    requires st.cursor < |st.frontier|
    ensures st.frontier <= Step(domain, outcome, st).frontier
    ensures Step(domain, outcome, st).cursor == st.cursor + 1
    ensures Step(domain, outcome, st).result == st.result + ErrorsOf(outcome, [st.frontier[st.cursor]])
  {
    var entry := st.frontier[st.cursor];
    var visit := outcome(entry.urlToCrawl);
    if visit.Followed? {
      ExtractAppends(st.frontier, domain, visit.hrefs, entry.urlToCrawl);
    }
    assert [entry][1..] == [];
  }

  /** One unfolding of the loop: it stops, or takes a step and goes on. */
  lemma RunUnfold(domain: string, outcome: string -> Visit, st: CrawlState, fuel: nat)
    ensures fuel == 0 || st.cursor >= |st.frontier| ==> Run(domain, outcome, st, fuel) == st
    ensures fuel > 0 && st.cursor < |st.frontier| ==>
      Run(domain, outcome, st, fuel) == Run(domain, outcome, Step(domain, outcome, st), fuel - 1)
  {
  }

  /** What the loop has left to do after one more step. */
  lemma RunAfterStep(domain: string, outcome: string -> Visit, before: CrawlState, after: CrawlState, fuel: nat)
    requires fuel > 0 && before.cursor < |before.frontier|
    requires after == Step(domain, outcome, before)
    ensures Run(domain, outcome, after, fuel - 1) == Run(domain, outcome, before, fuel)
  {
  }

  /** The loop only extends the frontier, advances the cursor within it, and
      stops at the end of the frontier or when the fuel runs out. */
  lemma {:induction false} RunAdvances(domain: string, outcome: string -> Visit, st: CrawlState, fuel: nat)
    requires st.cursor <= |st.frontier|
    ensures st.frontier <= Run(domain, outcome, st, fuel).frontier
    ensures st.cursor <= Run(domain, outcome, st, fuel).cursor <= |Run(domain, outcome, st, fuel).frontier|
    ensures Run(domain, outcome, st, fuel).cursor == |Run(domain, outcome, st, fuel).frontier| ||
            Run(domain, outcome, st, fuel).cursor == st.cursor + fuel
    decreases fuel
  {
    RunUnfold(domain, outcome, st, fuel);
    if fuel > 0 && st.cursor < |st.frontier| {
      var next := Step(domain, outcome, st);
      StepFacts(domain, outcome, st);
      RunAdvances(domain, outcome, next, fuel - 1);
    }
  }

  /** The loop visits frontier positions in order, including entries
      appended while it runs, and its result is exactly the errors of the
      visited entries, in visit order. */
  lemma {:induction false} RunReport(domain: string, outcome: string -> Visit, st: CrawlState, fuel: nat)
    requires st.cursor <= |st.frontier|
    ensures st.cursor <= Run(domain, outcome, st, fuel).cursor <= |Run(domain, outcome, st, fuel).frontier|
    ensures Run(domain, outcome, st, fuel).result ==
      st.result + ErrorsOf(outcome, Run(domain, outcome, st, fuel).frontier[st.cursor..Run(domain, outcome, st, fuel).cursor])
    decreases fuel
  {
    RunUnfold(domain, outcome, st, fuel);
    RunAdvances(domain, outcome, st, fuel);
    var fin := Run(domain, outcome, st, fuel);
    if fuel == 0 || st.cursor >= |st.frontier| {
      assert fin.frontier[st.cursor..fin.cursor] == [];
    } else {
      var next := Step(domain, outcome, st);
      StepFacts(domain, outcome, st);
      RunReport(domain, outcome, next, fuel - 1);
      var entry := st.frontier[st.cursor];
      var visitedNow := fin.frontier[st.cursor..fin.cursor];
      assert visitedNow[0] == entry;
      assert visitedNow[1..] == fin.frontier[next.cursor..fin.cursor];
      ErrorsOfFirst(outcome, visitedNow);
      var errors := ErrorsOf(outcome, visitedNow);
      assert fin.result == st.result + errors;
    }
  }

  /** One step keeps every frontier entry absolute. */
  lemma StepKeepsAbsolute(domain: string, outcome: string -> Visit, st: CrawlState)
    requires IsAbsoluteUrl(domain + "/")
    requires AllAbsolute(st.frontier)
    requires st.cursor < |st.frontier|
    ensures AllAbsolute(Step(domain, outcome, st).frontier)
  {
    var entry := st.frontier[st.cursor];
    var visit := outcome(entry.urlToCrawl);
    if visit.Followed? {
      ExtractKeepsAbsolute(st.frontier, domain, visit.hrefs, entry.urlToCrawl);
    }
  }

  /** The loop keeps every frontier entry absolute. */
  lemma {:induction false} RunKeepsAbsolute(domain: string, outcome: string -> Visit, st: CrawlState, fuel: nat)
    requires IsAbsoluteUrl(domain + "/")
    requires AllAbsolute(st.frontier)
    ensures AllAbsolute(Run(domain, outcome, st, fuel).frontier)
    decreases fuel
  {
    RunUnfold(domain, outcome, st, fuel);
    if fuel > 0 && st.cursor < |st.frontier| {
      StepKeepsAbsolute(domain, outcome, st);
      RunKeepsAbsolute(domain, outcome, Step(domain, outcome, st), fuel - 1);
    }
  }

  /** Extraction keeps discovered entries unique. */
  lemma ExtractKeepsDiscoveredOnce(frontier: seq<CrawlUrl>, seeds: nat, domain: string, hrefs: seq<Option<string>>, parentUrl: string)
    requires DiscoveredOnce(frontier, seeds)
    ensures DiscoveredOnce(ExtractedFrontier(frontier, domain, hrefs, parentUrl), seeds)
  {
    var r := ExtractedFrontier(frontier, domain, hrefs, parentUrl);
    ExtractAppends(frontier, domain, hrefs, parentUrl);
    forall p, q | 0 <= p < q < |r| && seeds <= q
      ensures !Includes(r[p].urlToCrawl, r[q].urlToCrawl)
    {
      if q < |frontier| {
        assert r[p] == frontier[p] && r[q] == frontier[q];
      }
    }
    forall q | seeds <= q < |r| ensures r[q].parentUrl.Some? {
      if q < |frontier| {
        assert r[q] == frontier[q];
      }
    }
  }

  /** The loop keeps discovered entries unique. */
  lemma {:induction false} RunKeepsDiscoveredOnce(domain: string, outcome: string -> Visit, st: CrawlState, fuel: nat, seeds: nat)
    requires DiscoveredOnce(st.frontier, seeds)
    ensures DiscoveredOnce(Run(domain, outcome, st, fuel).frontier, seeds)
    decreases fuel
  {
    RunUnfold(domain, outcome, st, fuel);
    if fuel > 0 && st.cursor < |st.frontier| {
      var entry := st.frontier[st.cursor];
      var visit := outcome(entry.urlToCrawl);
      if visit.Followed? {
        ExtractKeepsDiscoveredOnce(st.frontier, seeds, domain, visit.hrefs, entry.urlToCrawl);
      }
      RunKeepsDiscoveredOnce(domain, outcome, Step(domain, outcome, st), fuel - 1, seeds);
    }
  }

  /** A crawl from the seeds queues, and so fetches, every discovered URL
      once: no entry after the seeds repeats the URL of an earlier entry. */
  lemma DiscoveredUrlsQueuedOnce(domain: string, outcome: string -> Visit, rawDomain: string, seeds: seq<string>, fuel: nat)
    requires IsAbsoluteUrl(rawDomain)
    ensures var fin := Run(domain, outcome, CrawlState(SeedFrontier(rawDomain, seeds), 0, []), fuel);
      forall p, q | 0 <= p < q < |fin.frontier| && |seeds| <= q ::
        fin.frontier[p].urlToCrawl != fin.frontier[q].urlToCrawl
  {
    var st := CrawlState(SeedFrontier(rawDomain, seeds), 0, []);
    SeedFrontierAbsolute(rawDomain, seeds);
    RunKeepsDiscoveredOnce(domain, outcome, st, fuel, |seeds|);
    var fin := Run(domain, outcome, st, fuel);
    forall p, q | 0 <= p < q < |fin.frontier| && |seeds| <= q
      ensures fin.frontier[p].urlToCrawl != fin.frontier[q].urlToCrawl
    {
      IncludesItself(fin.frontier[q].urlToCrawl);
    }
  }

  // ---------------------------------------------------------------------
  // The report

  /** The report of a run of entries is the first entry's error followed
      by the report of the rest. */
  lemma ErrorsOfFirst(outcome: string -> Visit, entries: seq<CrawlUrl>)
    requires entries != []
    ensures ErrorsOf(outcome, entries) == ErrorsOf(outcome, [entries[0]]) + ErrorsOf(outcome, entries[1..])
  {
    assert [entries[0]][1..] == [];
  }

  /** The report of two runs of entries is the two reports one after the
      other: errors keep the order of the entries. */
  lemma {:induction false} ErrorsOfAppend(outcome: string -> Visit, first: seq<CrawlUrl>, second: seq<CrawlUrl>)
    ensures ErrorsOf(outcome, first + second) == ErrorsOf(outcome, first) + ErrorsOf(outcome, second)
    decreases |first|
  {
    if first == [] {
      assert first + second == second;
    } else {
      var error := ErrorFor(first[0], outcome(first[0].urlToCrawl));
      var head := if error.Some? then [error.value] else [];
      assert (first + second)[0] == first[0];
      assert (first + second)[1..] == first[1..] + second;
      ErrorsOfAppend(outcome, first[1..], second);
      calc {
        ErrorsOf(outcome, first + second);
        head + ErrorsOf(outcome, first[1..] + second);
        head + (ErrorsOf(outcome, first[1..]) + ErrorsOf(outcome, second));
        (head + ErrorsOf(outcome, first[1..])) + ErrorsOf(outcome, second);
      }
    }
  }

  /** The positions of the entries whose visit yields an error record. */
  function FailingPositions(outcome: string -> Visit, entries: seq<CrawlUrl>): set<int> {
    set p | 0 <= p < |entries| && ErrorFor(entries[p], outcome(entries[p].urlToCrawl)).Some?
  }

  /** A single entry is reported once when it fails and not otherwise. */
  lemma ErrorsOfOne(outcome: string -> Visit, entry: CrawlUrl)
    ensures |ErrorsOf(outcome, [entry])| == if ErrorFor(entry, outcome(entry.urlToCrawl)).Some? then 1 else 0
  {
    assert [entry][1..] == [];
  }

  /** The failing positions of a run with one more entry: those of the
      shorter run, plus the new position when that entry fails. */
  lemma FailingPositionsSnoc(outcome: string -> Visit, front: seq<CrawlUrl>, last: CrawlUrl)
    ensures |FailingPositions(outcome, front + [last])| ==
      |FailingPositions(outcome, front)| + if ErrorFor(last, outcome(last.urlToCrawl)).Some? then 1 else 0
  {
    var entries, n := front + [last], |front|;
    var tail := if ErrorFor(last, outcome(last.urlToCrawl)).Some? then {n} else {};
    forall p ensures p in FailingPositions(outcome, entries) <==> p in FailingPositions(outcome, front) + tail {
      if 0 <= p < n {
        assert entries[p] == front[p];
      }
    }
    assert FailingPositions(outcome, entries) == FailingPositions(outcome, front) + tail;
    assert n !in FailingPositions(outcome, front);
  }

  /** The report holds one error per failing entry. */
  lemma {:induction false} ErrorsOfCount(outcome: string -> Visit, entries: seq<CrawlUrl>)
    ensures |ErrorsOf(outcome, entries)| == |FailingPositions(outcome, entries)|
    decreases |entries|
  {
    if entries == [] {
      assert FailingPositions(outcome, entries) == {};
    } else {
      var n := |entries| - 1;
      var front, last := entries[..n], entries[n];
      assert entries == front + [last];
      ErrorsOfCount(outcome, front);
      ErrorsOfAppend(outcome, front, [last]);
      ErrorsOfOne(outcome, last);
      FailingPositionsSnoc(outcome, front, last);
    }
  }

  /** Every reported error is the error of one of the entries, every
      entry's error is reported, and there is one report per failing entry:
      nothing is deduplicated away. */
  lemma {:induction false} ErrorsOfExact(outcome: string -> Visit, entries: seq<CrawlUrl>)
    ensures var report := ErrorsOf(outcome, entries);
      |report| <= |entries| &&
      |report| == |FailingPositions(outcome, entries)| &&
      (forall e | e in report :: exists p | 0 <= p < |entries| ::
         ErrorFor(entries[p], outcome(entries[p].urlToCrawl)) == Some(e)) &&
      (forall p | 0 <= p < |entries| ::
         var error := ErrorFor(entries[p], outcome(entries[p].urlToCrawl));
         error.Some? ==> error.value in report)
    decreases |entries|
  {
    ErrorsOfCount(outcome, entries);
    if entries != [] {
      var rest := entries[1..];
      ErrorsOfExact(outcome, rest);
      var report := ErrorsOf(outcome, entries);
      forall e | e in report ensures exists p | 0 <= p < |entries| ::
         ErrorFor(entries[p], outcome(entries[p].urlToCrawl)) == Some(e)
      {
        if e !in ErrorsOf(outcome, rest) {
          assert ErrorFor(entries[0], outcome(entries[0].urlToCrawl)) == Some(e);
        } else {
          var p :| 0 <= p < |rest| && ErrorFor(rest[p], outcome(rest[p].urlToCrawl)) == Some(e);
          assert rest[p] == entries[p + 1];
        }
      }
      forall p | 1 <= p < |entries|
        ensures var error := ErrorFor(entries[p], outcome(entries[p].urlToCrawl));
          error.Some? ==> error.value in report
      {
        assert entries[p] == rest[p - 1];
      }
    }
  }

  /** No two reported errors name the same URL. */
  predicate DistinctUrls(result: seq<CrawledUrlError>) {
    forall i, j | 0 <= i < j < |result| :: result[i].url != result[j].url
  }

  /** With the intended duplicate check, the report lists each failing URL
      once: it keeps what was reported, adds only errors from `errors`, and
      covers the URL of every one of them. */
  lemma {:induction false} ReportAllOnceUnique(result: seq<CrawledUrlError>, errors: seq<CrawledUrlError>)
    requires DistinctUrls(result)
    ensures var r := ReportAllOnce(result, errors);
      DistinctUrls(r) && result <= r &&
      (forall e | e in r :: e in result || e in errors) &&
      (forall e | e in errors :: UrlReported(r, e.url))
    decreases |errors|
  {
    if errors != [] {
      var next := ReportOnce(result, Some(errors[0]));
      assert DistinctUrls(next);
      assert UrlReported(next, errors[0].url) by {
        if !UrlReported(result, errors[0].url) {
          assert next[|result|] == errors[0];
        }
      }
      ReportAllOnceUnique(next, errors[1..]);
      var r := ReportAllOnce(result, errors);
      assert r == ReportAllOnce(next, errors[1..]);
      forall e | e in r ensures e in result || e in errors {
        if e !in next {
        } else if e !in result {
          assert e == errors[0];
        }
      }
      forall e | e in errors ensures UrlReported(r, e.url) {
        if e == errors[0] {
          var k :| 0 <= k < |next| && next[k].url == e.url;
          assert r[k] == next[k];
        } else {
          assert e in errors[1..];
        }
      }
    }
  }

  /** With the intended check, the first error for a URL is the one kept:
      the URL is attributed to the parent of the first failing visit. */
  lemma {:induction false} ReportAllOnceFirstSeen(result: seq<CrawledUrlError>, errors: seq<CrawledUrlError>, p: nat)
    requires p < |errors| && !UrlReported(result, errors[p].url)
    requires forall q | 0 <= q < p :: errors[q].url != errors[p].url
    ensures errors[p] in ReportAllOnce(result, errors)
    decreases |errors|
  {
    var next := ReportOnce(result, Some(errors[0]));
    if p == 0 {
      assert next == result + [errors[0]];
      ReportAllOnceGrows(next, errors[1..]);
      assert next[|result|] == errors[0];
    } else {
      assert !UrlReported(next, errors[p].url) by {
        if next != result {
          assert next == result + [errors[0]];
          forall k | 0 <= k < |next| ensures next[k].url != errors[p].url {
            if k < |result| {
              assert next[k] == result[k];
            }
          }
        }
      }
      assert errors[1..][p - 1] == errors[p];
      forall q | 0 <= q < p - 1 ensures errors[1..][q].url != errors[p].url {
        assert errors[1..][q] == errors[q + 1];
      }
      ReportAllOnceFirstSeen(next, errors[1..], p - 1);
    }
  }

  /** The intended report only grows. */
  lemma {:induction false} ReportAllOnceGrows(result: seq<CrawledUrlError>, errors: seq<CrawledUrlError>)
    ensures result <= ReportAllOnce(result, errors)
    decreases |errors|
  {
    if errors != [] {
      ReportAllOnceGrows(ReportOnce(result, Some(errors[0])), errors[1..]);
    }
  }

  /** With the intended check, errors whose URLs are already distinct are
      all reported, in order. */
  lemma {:induction false} ReportAllOnceKeepsDistinct(result: seq<CrawledUrlError>, errors: seq<CrawledUrlError>)
    requires DistinctUrls(result + errors)
    ensures ReportAllOnce(result, errors) == result + errors
    decreases |errors|
  {
    if errors != [] {
      assert !UrlReported(result, errors[0].url) by {
        forall k | 0 <= k < |result| ensures result[k].url != errors[0].url {
          assert (result + errors)[k] == result[k];
          assert (result + errors)[|result|] == errors[0];
        }
      }
      var next := result + [errors[0]];
      assert next + errors[1..] == result + errors;
      ReportAllOnceKeepsDistinct(next, errors[1..]);
    }
  }

  /** What the crawl would report with the intended duplicate check: every
      failing entry's URL once, each with the error of one of the visited
      entries. */
  lemma CorrectedCrawlReport(outcome: string -> Visit, visited: seq<CrawlUrl>)
    ensures var report := ReportAllOnce([], ErrorsOf(outcome, visited));
      DistinctUrls(report) &&
      (forall e | e in report :: exists p | 0 <= p < |visited| ::
         ErrorFor(visited[p], outcome(visited[p].urlToCrawl)) == Some(e)) &&
      (forall p | 0 <= p < |visited| ::
         var error := ErrorFor(visited[p], outcome(visited[p].urlToCrawl));
         error.Some? ==> UrlReported(report, visited[p].urlToCrawl))
  {
    var errors := ErrorsOf(outcome, visited);
    ErrorsOfExact(outcome, visited);
    ReportAllOnceUnique([], errors);
    forall p | 0 <= p < |visited|
      ensures var error := ErrorFor(visited[p], outcome(visited[p].urlToCrawl));
        error.Some? ==> UrlReported(ReportAllOnce([], errors), visited[p].urlToCrawl)
    {
      var error := ErrorFor(visited[p], outcome(visited[p].urlToCrawl));
      if error.Some? {
        assert error.value in errors;
      }
    }
  }

  /** As written, the duplicate check of `start` never matches. */
  lemma NothingCountsAsReported(result: seq<CrawledUrlError>, url: string)
    ensures !ErrorAlreadyReported(result, url)
  {
  }
}
