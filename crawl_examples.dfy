/** Small crawls worked through the traversal loop. */
module CrawlExamples {
  import opened Wrappers
  import opened JsString
  import opened UrlUtilities
  import opened CrawledUrl
  import opened CrawlSpec
  import opened CrawlProperties

  /** The seed `/` under `https://a.com` is the home page. */
  lemma HomeSeed()
    ensures SeedFrontier("https://a.com", ["/"]) == [CrawlUrl("https://a.com/", None)]
  {
    assert "https://a.com" + "/" == "https://a.com/";
    StartsWithChar("/", '/');
  }

  /** A rooted relative link not yet contained in any queued URL is put
      under the domain and queued. */
  lemma AddRootedLink(frontier: seq<CrawlUrl>, domain: string, href: string, parentUrl: string)
    requires |href| > 0 && href[0] == '/'
    requires !IsAlreadyQueued(frontier, domain + href)
    ensures AddLink(frontier, domain, Some(href), parentUrl) == frontier + [CrawlUrl(domain + href, Some(parentUrl))]
  {
    StartsWithChar(href, '/');
    assert !IsAbsoluteUrl(href) by {
      assert "http://"[0] == 'h' && "https://"[0] == 'h';
    }
  }

  /** The home page's two links are both new, so both are queued, in
      order, with the home page as parent. */
  lemma HomePageLinks()
    ensures ExtractedFrontier([CrawlUrl("https://a.com/", None)], "https://a.com",
                              [Some("/team"), Some("/broken")], "https://a.com/") ==
      [CrawlUrl("https://a.com/", None),
       CrawlUrl("https://a.com/team", Some("https://a.com/")),
       CrawlUrl("https://a.com/broken", Some("https://a.com/"))]
  {
    var domain := "https://a.com";
    var root, team, broken := "https://a.com/", "https://a.com/team", "https://a.com/broken";
    assert domain + "/team" == team && domain + "/broken" == broken;
    var f0 := [CrawlUrl(root, None)];
    var f1 := f0 + [CrawlUrl(team, Some(root))];
    assert !Includes(root, team) by { if Includes(root, team) { IncludesNoLonger(root, team); } }
    assert !IsAlreadyQueued(f0, team);
    AddRootedLink(f0, domain, "/team", root);
    assert !Includes(root, broken) by { if Includes(root, broken) { IncludesNoLonger(root, broken); } }
    assert !Includes(team, broken) by { if Includes(team, broken) { IncludesNoLonger(team, broken); } }
    assert !IsAlreadyQueued(f1, broken);
    AddRootedLink(f1, domain, "/broken", root);
    var hrefs := [Some("/team"), Some("/broken")];
    assert hrefs[..1] == [Some("/team")] && [Some("/team")][..0] == [];
    assert ExtractedFrontier(f0, domain, hrefs[..1], root) == f1;
  }

  /** The crawl of `https://a.com` from the seed `/`: the home page links
      to `/team` and `/broken`, `/team` has no links and `/broken` answers
      404. The loop visits the three pages in order and reports one error,
      naming the home page as the parent. */
  lemma SmallSiteCrawl(outcome: string -> Visit, fuel: nat)
    requires outcome("https://a.com/") == Followed([Some("/team"), Some("/broken")])
    requires outcome("https://a.com/team") == Followed([])
    requires outcome("https://a.com/broken") == HttpError(404)
    requires fuel >= 3
    ensures var fin := Run("https://a.com", outcome, CrawlState(SeedFrontier("https://a.com", ["/"]), 0, []), fuel);
      fin.cursor == 3 &&
      fin.frontier == [
        CrawlUrl("https://a.com/", None),
        CrawlUrl("https://a.com/team", Some("https://a.com/")),
        CrawlUrl("https://a.com/broken", Some("https://a.com/"))] &&
      fin.result == [CrawledUrlError("https://a.com/broken", 404, None, Some("https://a.com/"))]
  {
    var domain := "https://a.com";
    var root, team, broken := "https://a.com/", "https://a.com/team", "https://a.com/broken";
    var frontier := [CrawlUrl(root, None), CrawlUrl(team, Some(root)), CrawlUrl(broken, Some(root))];
    HomeSeed();
    HomePageLinks();
    var s0 := CrawlState([CrawlUrl(root, None)], 0, []);
    var s1 := Step(domain, outcome, s0);
    assert s1 == CrawlState(frontier, 1, []);
    var s2 := Step(domain, outcome, s1);
    assert s2 == CrawlState(frontier, 2, []);
    NothingCountsAsReported([], broken);
    var s3 := Step(domain, outcome, s2);
    assert s3 == CrawlState(frontier, 3, [CrawledUrlError(broken, 404, None, Some(root))]);
    RunAfterStep(domain, outcome, s0, s1, fuel);
    RunAfterStep(domain, outcome, s1, s2, fuel - 1);
    RunAfterStep(domain, outcome, s2, s3, fuel - 2);
    RunUnfold(domain, outcome, s3, fuel - 3);
  }

  /** The seeds `/missing` and `missing` name the same page. */
  lemma RepeatedSeed()
    ensures SeedFrontier("https://a.com", ["/missing", "missing"]) ==
      [CrawlUrl("https://a.com/missing", None), CrawlUrl("https://a.com/missing", None)]
  {
    assert "https://a.com" + "/missing" == "https://a.com/missing";
    assert "/" + "missing" == "/missing";
    StartsWithChar("/missing", '/');
    StartsWithChar("missing", '/');
  }

  /** As written, the duplicate check of `start` lets a repeated failure
      through: when two frontier entries name the same failing page, the
      report holds its error twice. */
  lemma DuplicateSeedsReportedTwice(outcome: string -> Visit, fuel: nat)
    requires outcome("https://a.com/missing") == HttpError(404)
    requires fuel >= 2
    ensures var error := CrawledUrlError("https://a.com/missing", 404, None, None);
      Run("https://a.com", outcome, CrawlState(SeedFrontier("https://a.com", ["/missing", "missing"]), 0, []), fuel).result ==
        [error, error]
  {
    var domain, missing := "https://a.com", "https://a.com/missing";
    var error := CrawledUrlError(missing, 404, None, None);
    var frontier := [CrawlUrl(missing, None), CrawlUrl(missing, None)];
    RepeatedSeed();
    var s0 := CrawlState(frontier, 0, []);
    NothingCountsAsReported([], missing);
    var s1 := Step(domain, outcome, s0);
    assert s1 == CrawlState(frontier, 1, [error]);
    NothingCountsAsReported([error], missing);
    var s2 := Step(domain, outcome, s1);
    assert s2 == CrawlState(frontier, 2, [error, error]);
    RunAfterStep(domain, outcome, s0, s1, fuel);
    RunAfterStep(domain, outcome, s1, s2, fuel - 1);
    RunUnfold(domain, outcome, s2, fuel - 2);
  }

  /** With the intended check, the same two failures are reported once. */
  lemma RepeatedFailureReportedOnce()
    ensures var error := CrawledUrlError("https://a.com/missing", 404, None, None);
      ReportAllOnce([], [error, error]) == [error]
  {
    var error := CrawledUrlError("https://a.com/missing", 404, None, None);
    assert !UrlReported([], error.url);
    assert ReportOnce([], Some(error)) == [error];
    assert [error, error][1..] == [error];
    assert UrlReported([error], error.url) by {
      assert [error][0].url == error.url;
    }
    assert ReportOnce([error], Some(error)) == [error];
    assert [error][1..] == [];
    assert ReportAllOnce([error], [error]) == ReportAllOnce([error], []);
  }
}
