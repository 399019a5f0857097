/** The static URL helpers of `UrlUtilities`: scheme test, slash
    normalisation, query-string stripping and static-asset detection. */
module UrlUtilities {
  import opened JsString

  /** `isAbsoluteUrl`: the URL names the `http` or `https` scheme. */
  predicate IsAbsoluteUrl(url: string) {
    StartsWith(url, "http://") || StartsWith(url, "https://")
  }

  /** `removeTrailingSlash`: `url.replace(/\/$/, '')`, which drops one final
      `/` and nothing else. */
  function RemoveTrailingSlash(url: string): (r: string)
    ensures url == r + (if EndsWith(url, "/") then "/" else "")
  {
    if EndsWith(url, "/") then url[..|url| - 1] else url
  }

  /** `addStartingSlash` */
  function AddStartingSlash(url: string): (r: string)
    ensures StartsWith(r, "/")
    ensures r == url || r == "/" + url
    ensures StartsWith(url, "/") <==> r == url
  {
    if StartsWith(url, "/") then url else "/" + url
  }

  /** `getUrlWithoutQueryString`: everything before the first `?`. */
  function GetUrlWithoutQueryString(url: string): (r: string)
    ensures '?' !in r
    ensures StartsWith(url, r)
    ensures r == url <==> '?' !in url
    ensures r != url ==> url[|r|] == '?'
  {
    var queryStringIndex := IndexOf(url, '?');
    if queryStringIndex != -1 then url[..queryStringIndex] else url
  }

  /** The alternatives of the extension pattern
      `/\.(pdf|jpg|jpeg|png|gif|bmp||xml|js|css|ico|js|css|woff|woff2|ttf|eot)$/i`,
      in the order written, including the empty alternative between `bmp`
      and `xml` and the repeated `js` and `css`. */
  const ExtensionAlternatives: seq<string> :=
    ["pdf", "jpg", "jpeg", "png", "gif", "bmp", "", "xml", "js", "css",
     "ico", "js", "css", "woff", "woff2", "ttf", "eot"]

  /** The extensions the pattern is meant to recognise. */
  const StaticExtensions: seq<string> :=
    ["pdf", "jpg", "jpeg", "png", "gif", "bmp", "xml", "js", "css",
     "ico", "woff", "woff2", "ttf", "eot"]

  /** `regex.test(path)` for the extension pattern: the pattern is anchored
      only at the end, so it matches when the case-folded path ends in a dot
      followed by one of the alternatives, tried in order. */
  predicate MatchesExtensionPattern(path: string) {
    EndsWithAlternative(ToLowerAscii(path), ExtensionAlternatives, 0)
  }

  /** `path` ends in a dot followed by one of `alternatives[k..]`. */
  predicate EndsWithAlternative(path: string, alternatives: seq<string>, k: nat)
    decreases |alternatives| - k
  {
    k < |alternatives| &&
    (EndsWith(path, "." + alternatives[k]) || EndsWithAlternative(path, alternatives, k + 1))
  }

  /** `isStaticAssetUrl` */
  predicate IsStaticAssetUrl(url: string) {
    MatchesExtensionPattern(RemoveTrailingSlash(GetUrlWithoutQueryString(url)))
  }

  // Properties of the helpers

  /** An absolute URL is exactly `http://` or `https://` followed by anything. */
  lemma AbsoluteUrlScheme(url: string)
    ensures IsAbsoluteUrl(url) <==> exists rest :: url == "http://" + rest || url == "https://" + rest
  {
    if IsAbsoluteUrl(url) {
      var rest := if StartsWith(url, "http://") then url[7..] else url[8..];
      assert url == "http://" + rest || url == "https://" + rest;
    }
    forall rest | url == "http://" + rest || url == "https://" + rest
      ensures IsAbsoluteUrl(url)
    {
      if url == "http://" + rest {
        assert url[..7] == "http://";
      } else {
        assert url[..8] == "https://";
      }
    }
  }

  /** Appending to an absolute URL keeps it absolute. */
  lemma AbsoluteUrlExtends(url: string, tail: string)
    requires IsAbsoluteUrl(url)
    ensures IsAbsoluteUrl(url + tail)
  {
    if StartsWith(url, "http://") {
      assert (url + tail)[..7] == url[..7];
    } else {
      assert (url + tail)[..8] == url[..8];
    }
  }

  /** Removing the trailing slash of an absolute URL may cut into the scheme
      (`http://` becomes `http:/`), but putting any `/`-led path back after it
      gives an absolute URL again. */
  lemma RootedUnderNormalisedDomain(domain: string, path: string)
    requires IsAbsoluteUrl(domain)
    requires StartsWith(path, "/")
    ensures IsAbsoluteUrl(RemoveTrailingSlash(domain) + path)
  {
    var d := RemoveTrailingSlash(domain);
    var u := d + path;
    if d == domain {
      AbsoluteUrlExtends(domain, path);
    } else {
      var scheme := if StartsWith(domain, "http://") then "http://" else "https://";
      var n := |scheme|;
      assert domain[..n] == scheme;
      assert |d| == |domain| - 1 && d == domain[..|d|];
      forall i | 0 <= i < n ensures u[i] == scheme[i] {
        if i < |d| {
          assert u[i] == d[i] == domain[i] == domain[..n][i];
        } else {
          assert u[i] == path[0] == '/';
        }
      }
      assert u[..n] == scheme;
    }
  }

  /** Only one slash goes: the result ends in `/` only if the input ended in
      two of them. */
  lemma RemoveTrailingSlashRemovesOne(url: string)
    ensures EndsWith(RemoveTrailingSlash(url), "/") ==> EndsWith(url, "//")
    ensures !EndsWith(url, "/") ==> RemoveTrailingSlash(url) == url
    ensures RemoveTrailingSlash("a//") == "a/"
  {
    var r := RemoveTrailingSlash(url);
    if EndsWith(r, "/") && EndsWith(url, "/") {
      assert url[|url| - 2..] == [r[|r| - 1], '/'];
    }
    assert EndsWith("a//", "/");
    assert "a//"[..2] == "a/";
  }

  lemma AddStartingSlashIdempotent(url: string)
    ensures AddStartingSlash(AddStartingSlash(url)) == AddStartingSlash(url)
  {
  }

  lemma QueryStringStripIdempotent(url: string)
    ensures GetUrlWithoutQueryString(GetUrlWithoutQueryString(url)) == GetUrlWithoutQueryString(url)
  {
  }

  /** Folding case never creates or removes a dot at the end. */
  lemma LowerKeepsTrailingDot(path: string)
    ensures EndsWith(ToLowerAscii(path), ".") <==> EndsWith(path, ".")
  {
    if |path| > 0 {
      var lower := ToLowerAscii(path);
      assert lower[|lower| - 1..] == [lower[|path| - 1]];
      assert path[|path| - 1..] == [path[|path| - 1]];
    }
  }

  /** Trying the alternatives in order from `k` finds one exactly when some
      alternative from `k` on matches. */
  lemma {:induction false} EndsWithAlternativeIff(path: string, alternatives: seq<string>, k: nat)
    ensures EndsWithAlternative(path, alternatives, k) <==>
      exists j | k <= j < |alternatives| :: EndsWith(path, "." + alternatives[j])
    decreases |alternatives| - k
  {
    if k < |alternatives| {
      EndsWithAlternativeIff(path, alternatives, k + 1);
    }
  }

  /** Trying all the alternatives finds one exactly when one of them
      matches. */
  lemma EndsWithSomeAlternative(path: string, alternatives: seq<string>)
    ensures EndsWithAlternative(path, alternatives, 0) <==>
      exists alt | alt in alternatives :: EndsWith(path, "." + alt)
  {
    EndsWithAlternativeIff(path, alternatives, 0);
  }

  /** A reference definition of the static-asset test: after stripping the
      query string and one trailing slash, the path ends, ignoring ASCII case,
      in a dot followed by one of the fourteen intended extensions, or (the
      empty alternative of the pattern) in a bare dot. */
  lemma StaticAssetReference(url: string)
    ensures var path := RemoveTrailingSlash(GetUrlWithoutQueryString(url));
            IsStaticAssetUrl(url) <==>
              EndsWith(path, ".") ||
              exists ext | ext in StaticExtensions :: EndsWith(ToLowerAscii(path), "." + ext)
  {
    var path := RemoveTrailingSlash(GetUrlWithoutQueryString(url));
    var lower := ToLowerAscii(path);
    LowerKeepsTrailingDot(path);
    EndsWithSomeAlternative(lower, ExtensionAlternatives);
    assert "." + "" == ".";
    forall alt | alt in ExtensionAlternatives
      ensures alt == "" || alt in StaticExtensions
    {
    }
    forall ext | ext in StaticExtensions
      ensures ext in ExtensionAlternatives
    {
    }
  }

  /** The empty alternative: a path ending in a dot counts as a static asset. */
  lemma TrailingDotIsStatic(url: string)
    requires EndsWith(RemoveTrailingSlash(GetUrlWithoutQueryString(url)), ".")
    ensures IsStaticAssetUrl(url)
  {
    StaticAssetReference(url);
  }

  /** The query string never affects the classification. */
  lemma StaticAssetIgnoresQueryString(url: string)
    ensures IsStaticAssetUrl(url) == IsStaticAssetUrl(GetUrlWithoutQueryString(url))
  {
    QueryStringStripIdempotent(url);
  }

  /** One trailing slash after the file name does not affect the
      classification. */
  lemma StaticAssetIgnoresTrailingSlash(path: string)
    requires '?' !in path
    requires !EndsWith(path, "/")
    ensures IsStaticAssetUrl(path + "/") == IsStaticAssetUrl(path)
  {
    var p := path + "/";
    assert '?' !in p;
    assert EndsWith(p, "/");
    assert p[..|p| - 1] == path;
  }

  /** A URL without query string or trailing slash whose case-folded text
      ends in one of the intended extensions is a static asset. */
  lemma StaticAssetBySuffix(url: string, ext: string)
    requires '?' !in url && !EndsWith(url, "/")
    requires ext in StaticExtensions
    requires EndsWith(ToLowerAscii(url), "." + ext)
    ensures IsStaticAssetUrl(url)
  {
    StaticAssetReference(url);
  }

  /** The last character of a dot followed by `alternative`. */
  function FinalCharacter(alternative: string): char {
    if alternative == [] then '.' else alternative[|alternative| - 1]
  }

  /** One of `alternatives[k..]`, after a dot, ends in `c`. */
  predicate SomeAlternativeEndsIn(alternatives: seq<string>, k: nat, c: char)
    decreases |alternatives| - k
  {
    k < |alternatives| &&
    (FinalCharacter(alternatives[k]) == c || SomeAlternativeEndsIn(alternatives, k + 1, c))
  }

  /** A path matching an alternative ends in that alternative's last
      character. */
  lemma {:induction false} AlternativeNeedsFinalCharacter(path: string, alternatives: seq<string>, k: nat)
    requires EndsWithAlternative(path, alternatives, k)
    ensures |path| > 0 && SomeAlternativeEndsIn(alternatives, k, path[|path| - 1])
    decreases |alternatives| - k
  {
    var dotted := "." + alternatives[k];
    if EndsWith(path, dotted) {
      assert path[|path| - 1] == path[|path| - |dotted|..][|dotted| - 1];
      assert dotted[|dotted| - 1] == FinalCharacter(alternatives[k]);
    } else {
      AlternativeNeedsFinalCharacter(path, alternatives, k + 1);
    }
  }

  /** The characters the seventeen alternatives end in, after a dot. */
  const FinalExtensionCharacters: string := "fgp.lso2t"

  lemma ExtensionFinalCharacters(c: char)
    ensures SomeAlternativeEndsIn(ExtensionAlternatives, 0, c) ==> c in FinalExtensionCharacters
  {
    assert SomeAlternativeEndsIn(ExtensionAlternatives, 14, c) ==> c in "2ft";
    assert SomeAlternativeEndsIn(ExtensionAlternatives, 10, c) ==> c in "osf2t";
    assert SomeAlternativeEndsIn(ExtensionAlternatives, 6, c) ==> c in ".lsof2t";
    assert SomeAlternativeEndsIn(ExtensionAlternatives, 2, c) ==> c in "gfp.lsof2t";
  }

  /** A static asset's path, case-folded, ends in one of `f g p . l s o 2 t`:
      whatever ends in another character is fetched. */
  lemma StaticAssetFinalCharacter(url: string)
    ensures var path := RemoveTrailingSlash(GetUrlWithoutQueryString(url));
            IsStaticAssetUrl(url) ==> |path| > 0 && LowerAscii(path[|path| - 1]) in FinalExtensionCharacters
  {
    var path := RemoveTrailingSlash(GetUrlWithoutQueryString(url));
    if IsStaticAssetUrl(url) {
      AlternativeNeedsFinalCharacter(ToLowerAscii(path), ExtensionAlternatives, 0);
      ExtensionFinalCharacters(LowerAscii(path[|path| - 1]));
    }
  }

  /** `s` ends in what was appended to it. */
  lemma EndsWithAppended(s: string, suffix: string)
    ensures EndsWith(s + suffix, suffix)
  {
    assert (s + suffix)[|s|..] == suffix;
  }

  /** Case folding commutes with taking a suffix. */
  lemma LowerEndsWith(path: string, suffix: string)
    requires EndsWith(path, suffix)
    ensures EndsWith(ToLowerAscii(path), ToLowerAscii(suffix))
  {
    var lower, tail := ToLowerAscii(path), ToLowerAscii(suffix);
    var n := |path| - |suffix|;
    forall i | 0 <= i < |suffix| ensures lower[n..][i] == tail[i] {
      assert path[n..][i] == suffix[i];
    }
    assert lower[n..] == tail;
  }

  /** A path with no query string and no trailing slash that ends in a dot
      and an intended extension, in any case, is a static asset. */
  lemma StaticAssetByName(name: string, dotted: string, ext: string)
    requires '?' !in name + dotted && |dotted| > 0 && dotted[|dotted| - 1] != '/'
    requires ext in StaticExtensions && ToLowerAscii(dotted) == "." + ext
    ensures IsStaticAssetUrl(name + dotted)
  {
    var url := name + dotted;
    EndsWithChar(url, '/');
    EndsWithAppended(name, dotted);
    LowerEndsWith(url, dotted);
    StaticAssetBySuffix(url, ext);
  }

  /** `x/a.css/`: one trailing slash after the file name is ignored. */
  lemma StaticAssetTrailingSlashExample()
    ensures IsStaticAssetUrl("x/a.css/")
  {
    var name, dotted := "x/a", ".css";
    assert name + dotted + "/" == "x/a.css/";
    assert '?' !in name && '?' !in dotted;
    assert ToLowerAscii(dotted) == "." + "css";
    StaticAssetByName(name, dotted, "css");
    EndsWithChar(name + dotted, '/');
    StaticAssetIgnoresTrailingSlash(name + dotted);
  }

  /** Stripping cuts at the first `?`. */
  lemma QueryStringCutAt(path: string, query: string)
    requires '?' !in path && StartsWith(query, "?")
    ensures GetUrlWithoutQueryString(path + query) == path
  {
    var url := path + query;
    assert url[|path|] == '?';
    assert url[..|path|] == path;
    assert url[|path|] in url[..|path| + 1];
  }

  /** Appending a query string to a path keeps its classification. */
  lemma StaticAssetWithQuery(path: string, query: string)
    requires '?' !in path && StartsWith(query, "?")
    ensures IsStaticAssetUrl(path + query) == IsStaticAssetUrl(path)
  {
    QueryStringCutAt(path, query);
    StaticAssetIgnoresQueryString(path + query);
  }

  /** `/style.css?v=2`: the query string is ignored. */
  lemma StaticAssetQueryExample()
    ensures IsStaticAssetUrl("https://a.com/style.css?v=2")
  {
    var name, dotted, query := "https://a.com/style", ".css", "?v=2";
    assert name + dotted + query == "https://a.com/style.css?v=2";
    assert '?' !in name && '?' !in dotted;
    assert ToLowerAscii(dotted) == "." + "css";
    StaticAssetByName(name, dotted, "css");
    assert StartsWith(query, "?");
    StaticAssetWithQuery(name + dotted, query);
  }

  /** Extensions compare case-insensitively. */
  lemma StaticAssetCaseExample()
    ensures IsStaticAssetUrl("https://a.com/LOGO.PNG")
  {
    assert "https://a.com/LOGO.PNG" == "https://a.com/LOGO" + ".PNG";
    assert '?' !in "https://a.com/LOGO.PNG";
    assert ToLowerAscii(".PNG") == "." + "png";
    StaticAssetByName("https://a.com/LOGO", ".PNG", "png");
  }

  /** A path ending in a bare dot is static. */
  lemma StaticAssetDotExample()
    ensures IsStaticAssetUrl("https://a.com/page.")
  {
    var url := "https://a.com/page.";
    assert '?' !in url;
    EndsWithChar(url, '/');
    EndsWithChar(url, '.');
    TrailingDotIsStatic(url);
  }

  /** A URL without query string or trailing slash whose last character
      does not end any alternative is not a static asset. */
  lemma NotStaticByFinalCharacter(url: string)
    requires '?' !in url && |url| > 0 && url[|url| - 1] != '/'
    requires LowerAscii(url[|url| - 1]) !in FinalExtensionCharacters
    ensures !IsStaticAssetUrl(url)
  {
    EndsWithChar(url, '/');
    StaticAssetFinalCharacter(url);
  }

  /** A page path such as `/home` is fetched. */
  lemma StaticAssetPageExample()
    ensures !IsStaticAssetUrl("https://a.com/home")
  {
    var url := "https://a.com/home";
    assert '?' !in url;
    NotStaticByFinalCharacter(url);
  }

  // The extension pattern as evidently intended

  /** The static-asset test without the empty alternative: the case-folded
      path ends in a dot followed by one of the fourteen extensions. */
  predicate IsIntendedStaticAssetUrl(url: string) {
    EndsWithAlternative(ToLowerAscii(RemoveTrailingSlash(GetUrlWithoutQueryString(url))), StaticExtensions, 0)
  }

  /** The characters the fourteen extensions end in: never a dot. */
  const FinalStaticExtensionCharacters: string := "fgplso2t"

  lemma StaticExtensionFinalCharacters(c: char)
    ensures SomeAlternativeEndsIn(StaticExtensions, 0, c) ==> c in FinalStaticExtensionCharacters
  {
    assert SomeAlternativeEndsIn(StaticExtensions, 10, c) ==> c in "f2t";
    assert SomeAlternativeEndsIn(StaticExtensions, 6, c) ==> c in "lsof2t";
    assert SomeAlternativeEndsIn(StaticExtensions, 2, c) ==> c in "gfplsof2t";
  }

  /** The test as written accepts exactly what the intended test accepts,
      plus every path that ends in a bare dot. */
  lemma StaticAssetAsWritten(url: string)
    ensures var path := RemoveTrailingSlash(GetUrlWithoutQueryString(url));
            IsStaticAssetUrl(url) <==> IsIntendedStaticAssetUrl(url) || EndsWith(path, ".")
  {
    var path := RemoveTrailingSlash(GetUrlWithoutQueryString(url));
    StaticAssetReference(url);
    EndsWithSomeAlternative(ToLowerAscii(path), StaticExtensions);
  }

  /** The intended test never accepts a path that ends in a dot. */
  lemma IntendedStaticAssetNoDot(url: string)
    ensures var path := RemoveTrailingSlash(GetUrlWithoutQueryString(url));
            EndsWith(path, ".") ==> !IsIntendedStaticAssetUrl(url)
  {
    var path := RemoveTrailingSlash(GetUrlWithoutQueryString(url));
    var lower := ToLowerAscii(path);
    if EndsWith(path, ".") && IsIntendedStaticAssetUrl(url) {
      EndsWithChar(path, '.');
      AlternativeNeedsFinalCharacter(lower, StaticExtensions, 0);
      StaticExtensionFinalCharacters(LowerAscii(path[|path| - 1]));
      assert false;
    }
  }

  /** `/page.` is fetched under the intended test. */
  lemma IntendedStaticAssetDotExample()
    ensures !IsIntendedStaticAssetUrl("https://a.com/page.")
  {
    var url := "https://a.com/page.";
    assert '?' !in url;
    EndsWithChar(url, '/');
    EndsWithChar(url, '.');
    IntendedStaticAssetNoDot(url);
  }
}
