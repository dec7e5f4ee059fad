/** `CalculatorMuseumSearchService`: each of eight museum sites is fetched
    (through its search page where it has one) and reported when the page
    mentions the calculator, with a snippet around the first mention. */
module MuseumSearch {
  import opened Wrappers
  import opened JavaText
  import FormEncoding

  /** The sites, in the order they are searched. */
  const Sites: seq<string> := [
    "https://calculator-museum.nl/",
    "http://www.calcuseum.com/",
    "https://www.hpmuseum.org/",
    "http://www.vintagecalculators.com/",
    "https://www.calculators.de/",
    "http://www.datamath.org/",
    "http://www.arithmomuseum.com/",
    "https://www.oldcalculatormuseum.com/"
  ]

  /** How far the snippet reaches on each side of the match. */
  const SnippetMargin: nat := 100

  /** What a GET of a page produced: its body (null when empty) or an
      exception, a timeout included. */
  datatype Page = Page(html: Option<string>) | PageFailed

  datatype MuseumResult = MuseumResult(siteUrl: string, searchUrl: Option<string>, found: bool,
                                       snippet: Option<string>)

  /** `buildSearchUrl`: the two sites with a search page get the encoded
      query; the others are fetched as they are. */
  function BuildSearchUrl(baseUrl: string, query: string): (r: string)
    ensures StartsWith(r, baseUrl)
    ensures !Contains(baseUrl, "calculator-museum.nl") && !Contains(baseUrl, "hpmuseum.org") ==> r == baseUrl
  {
    var r := if Contains(baseUrl, "calculator-museum.nl") then baseUrl + "?s=" + FormEncoding.Encode(query)
      else if Contains(baseUrl, "hpmuseum.org") then baseUrl + "search.php?q=" + FormEncoding.Encode(query)
      else baseUrl;
    assert (baseUrl + "?s=" + FormEncoding.Encode(query))[..|baseUrl|] == baseUrl;
    assert (baseUrl + "search.php?q=" + FormEncoding.Encode(query))[..|baseUrl|] == baseUrl;
    r
  }

  /** The query can be read back from the search URL of a site with a
      search page. */
  lemma SearchUrlCarriesQuery(baseUrl: string, query: string)
    ensures Contains(baseUrl, "calculator-museum.nl") ==>
      FormEncoding.Decode(BuildSearchUrl(baseUrl, query)[|baseUrl| + 3..]) == Some(query)
    ensures !Contains(baseUrl, "calculator-museum.nl") && Contains(baseUrl, "hpmuseum.org") ==>
      FormEncoding.Decode(BuildSearchUrl(baseUrl, query)[|baseUrl| + 13..]) == Some(query)
  {
    FormEncoding.DecodeEncode(query);
    var e := FormEncoding.Encode(query);
    assert (baseUrl + "?s=" + e)[|baseUrl| + 3..] == e;
    assert (baseUrl + "search.php?q=" + e)[|baseUrl| + 13..] == e;
  }

  /** The query: manufacturer and model joined by a space, trimmed. */
  function Query(manufacturer: Option<string>, model: Option<string>): (r: string)
    ensures |r| <= |ValueOf(manufacturer)| + 1 + |ValueOf(model)|
  {
    Trim(ValueOf(manufacturer) + " " + ValueOf(model))
  }

  /** The raw snippet bounds around a match at `index` of a query of
      length `queryLength`. */
  function Window(htmlLength: nat, index: nat, queryLength: nat): (r: (nat, nat))
    requires index + queryLength <= htmlLength
    ensures r.0 <= index && index + queryLength <= r.1 <= htmlLength
    ensures r.1 - r.0 <= queryLength + 2 * SnippetMargin
    ensures r.0 == 0 || index - r.0 == SnippetMargin
    ensures r.1 == htmlLength || r.1 - (index + queryLength) == SnippetMargin
  {
    var start := if index < SnippetMargin then 0 else index - SnippetMargin;
    var end := if htmlLength < index + queryLength + SnippetMargin then htmlLength
               else index + queryLength + SnippetMargin;
    (start, end)
  }

  /** `searchSite`: found when the lowercased page contains the lowercased
      query; a failed fetch, or a null body, reports the site as not found
      and without a search URL. */
  function SearchSite(baseUrl: string, query: string, page: Page): (r: MuseumResult)
    ensures r.siteUrl == baseUrl
    ensures page.PageFailed? || page.html.None? ==> r == MuseumResult(baseUrl, None, false, None)
    ensures page.Page? && page.html.Some? ==>
      r.searchUrl == Some(BuildSearchUrl(baseUrl, query))
      && (r.found <==> Contains(Lower(page.html.value), Lower(query)))
    ensures r.found <==> r.snippet.Some?
    ensures r.found ==> |r.snippet.value| <= |query| + 2 * SnippetMargin
  {
    match page
    case PageFailed => MuseumResult(baseUrl, None, false, None)
    case Page(None) => MuseumResult(baseUrl, None, false, None)
    case Page(Some(html)) =>
      var searchUrl := BuildSearchUrl(baseUrl, query);
      match IndexOf(Lower(html), Lower(query))
      case None => MuseumResult(baseUrl, Some(searchUrl), false, None)
      case Some(index) =>
        var (start, end) := Window(|html|, index, |query|);
        MuseumResult(baseUrl, Some(searchUrl), true, Some(Trim(CollapseWhitespace(html[start..end]))))
  }

  /** Lowercasing commutes with taking a slice. */
  lemma {:induction false} LowerSlice(s: string, a: nat, b: nat)
    requires a <= b <= |s|
    ensures Lower(s[a..b]) == Lower(s)[a..b]
  {
    forall k | 0 <= k < b - a ensures Lower(s[a..b])[k] == Lower(s)[a..b][k] {
      LowerAt(s[a..b], k);
      LowerAt(s, a + k);
    }
  }

  /** The raw snippet holds the first match: the window, lowercased,
      contains the lowercased query, and no earlier position of the page
      matches. */
  lemma {:induction false} WindowHoldsMatch(html: string, query: string)
    requires Contains(Lower(html), Lower(query))
    ensures var index := IndexOf(Lower(html), Lower(query)).value;
      var w := Window(|html|, index, |query|);
      OccursAt(Lower(html[w.0..w.1]), Lower(query), index - w.0)
      && forall k :: 0 <= k < index ==> !OccursAt(Lower(html), Lower(query), k)
  {
    var index := IndexOf(Lower(html), Lower(query)).value;
    var w := Window(|html|, index, |query|);
    LowerSlice(html, w.0, w.1);
    var q := Lower(query);
    var lh := Lower(html);
    assert OccursAt(lh, q, index);
    assert |q| == |query| && |lh| == |html|;
    var win := lh[w.0..w.1];
    var i0 := index - w.0;
    assert i0 + |q| <= |win|;
    forall k | 0 <= k < |q| ensures win[i0..i0 + |q|][k] == q[k] {
      assert win[i0 + k] == lh[index + k];
      assert lh[index..index + |q|][k] == lh[index + k];
    }
    assert win[i0..i0 + |q|] == q;
  }

  /** The positions, from `i` on and in order, of the results that found
      the calculator. */
  function FoundFrom(results: seq<MuseumResult>, i: nat): (r: seq<nat>)
    requires i <= |results|
    ensures forall k :: 0 <= k < |r| ==> i <= r[k] < |results| && results[r[k]].found
    ensures forall k, l :: 0 <= k < l < |r| ==> r[k] < r[l]
    ensures |r| <= |results| - i
    decreases |results| - i
  {
    if i == |results| then []
    else
      var rest := FoundFrom(results, i + 1);
      if results[i].found then [i] + rest else rest
  }

  lemma {:induction false} FoundFromComplete(results: seq<MuseumResult>, i: nat, j: nat)
    requires i <= j < |results| && results[j].found
    ensures j in FoundFrom(results, i)
    decreases |results| - i
  {
    if i < j { FoundFromComplete(results, i + 1, j); }
  }

  function SiteResult(site: string, query: string, fetch: string -> Page): MuseumResult {
    SearchSite(site, query, fetch(BuildSearchUrl(site, query)))
  }

  /** Every site searched, in order. */
  function SearchEach(sites: seq<string>, query: string, fetch: string -> Page): (r: seq<MuseumResult>)
    ensures |r| == |sites|
    ensures forall i :: 0 <= i < |sites| ==> r[i] == SiteResult(sites[i], query, fetch)
  {
    seq(|sites|, i requires 0 <= i < |sites| => SiteResult(sites[i], query, fetch))
  }

  /** The found results among `results`, in order. */
  function KeepFound(results: seq<MuseumResult>): (r: seq<MuseumResult>)
    ensures var idx := FoundFrom(results, 0);
      |r| == |idx| && forall k :: 0 <= k < |r| ==> r[k] == results[idx[k]]
  {
    var idx := FoundFrom(results, 0);
    seq(|idx|, k requires 0 <= k < |idx| => results[idx[k]])
  }

  /** `searchMuseums`: the found results, in site order. `fetch` gives what
      a GET of each URL produced. */
  function SearchMuseums(manufacturer: Option<string>, model: Option<string>, fetch: string -> Page): (r: seq<MuseumResult>)
    ensures |r| <= |Sites|
    ensures forall k :: 0 <= k < |r| ==> r[k].found && r[k].siteUrl in Sites
  {
    KeepFound(SearchEach(Sites, Query(manufacturer, model), fetch))
  }

  /** A site is reported exactly when its page mentions the calculator, and
      then only once; reported sites keep the order of the list. */
  lemma SearchMuseumsReports(manufacturer: Option<string>, model: Option<string>, fetch: string -> Page, j: nat)
    requires j < |Sites|
    ensures var r := SearchMuseums(manufacturer, model, fetch);
      (exists k :: 0 <= k < |r| && r[k].siteUrl == Sites[j])
      <==> SiteResult(Sites[j], Query(manufacturer, model), fetch).found
  {
    var all := SearchEach(Sites, Query(manufacturer, model), fetch);
    forall i | 0 <= i < |all| && all[i].siteUrl == Sites[j] ensures i == j {
      assert all[i].siteUrl == Sites[i];
      SitesDistinct(i, j);
    }
    KeepFoundReports(all, j, Sites[j]);
  }

  /** In a list whose only result for `url` sits at `j`, `url` is kept
      exactly when that result found the calculator. */
  lemma {:induction false} KeepFoundReports(all: seq<MuseumResult>, j: nat, url: string)
    requires j < |all| && all[j].siteUrl == url
    requires forall i :: 0 <= i < |all| && all[i].siteUrl == url ==> i == j
    ensures (exists k :: 0 <= k < |KeepFound(all)| && KeepFound(all)[k].siteUrl == url) <==> all[j].found
  {
    var r := KeepFound(all);
    var idx := FoundFrom(all, 0);
    if all[j].found {
      FoundFromComplete(all, 0, j);
      var k :| 0 <= k < |idx| && idx[k] == j;
      assert r[k].siteUrl == url;
    }
    if exists k :: 0 <= k < |r| && r[k].siteUrl == url {
      var k :| 0 <= k < |r| && r[k].siteUrl == url;
      assert r[k] == all[idx[k]];
    }
  }

  lemma SitesDistinct(a: nat, b: nat)
    requires a < |Sites| && b < |Sites| && Sites[a] == Sites[b]
    ensures a == b
  {
  }

  /** The reported sites appear in the order of the site list. */
  lemma SearchMuseumsOrdered(manufacturer: Option<string>, model: Option<string>, fetch: string -> Page,
                             k: nat, l: nat, a: nat, b: nat)
    requires var r := SearchMuseums(manufacturer, model, fetch);
      k < l < |r| && a < |Sites| && b < |Sites| && r[k].siteUrl == Sites[a] && r[l].siteUrl == Sites[b]
    ensures a < b
  {
    var idx := FoundFrom(SearchEach(Sites, Query(manufacturer, model), fetch), 0);
    SitesDistinct(idx[k], a);
    SitesDistinct(idx[l], b);
  }
}
