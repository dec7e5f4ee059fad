/** The links `CalculatorController.enrichCalculator` adds for a calculator:
    every web result with a URL becomes a link unless the calculator
    already has one with that URL. */
module EnrichLinks {
  import opened Wrappers
  import opened JavaText
  import opened LinkStore
  import HtmlClean
  import WebSearch

  /** The link title: the result's title, "Web Search Result" when it has
      none, and a title over 200 characters cut to 197 plus an ellipsis. */
  function LinkTitle(title: Option<string>): (r: string)
    ensures |r| <= 200
    ensures title.None? ==> r == "Web Search Result"
    ensures title.Some? && |title.value| <= 200 ==> r == title.value
    ensures title.Some? && |title.value| > 200 ==> |r| == 200 && r[..197] == title.value[..197] && r[197..] == "..."
  {
    var t := if title.Some? then title.value else "Web Search Result";
    if |t| > 200 then t[..197] + "..." else t
  }

  /** The link description from the cleaned snippet: one over 500
      characters is cut to 497 plus an ellipsis. */
  function LinkDescription(cleaned: Option<string>): (r: Option<string>)
    ensures r.None? <==> cleaned.None?
    ensures r.Some? ==> |r.value| <= 500
    ensures r.Some? && |cleaned.value| <= 500 ==> r == cleaned
    ensures r.Some? && |cleaned.value| > 500 ==> |r.value| == 500 && r.value[..497] == cleaned.value[..497] && r.value[497..] == "..."
  {
    if cleaned.Some? && |cleaned.value| > 500 then Some(cleaned.value[..497] + "...") else cleaned
  }

  /** Whether a web result becomes a link: it has a non-blank URL. */
  predicate Linkable(result: WebSearch.SearchResult) {
    Filled(result.url)
  }

  /** The store keeps every link it had and adds only fresh ones. */
  predicate Grows(st: Store, st': Store) {
    && (forall id :: id in st.links ==> id in st'.links && st'.links[id] == st.links[id])
    && st.links.Keys <= st'.links.Keys
  }

  /** The link a web result would become: none without a URL. */
  datatype Candidate = Candidate(url: string, title: string, description: Option<string>)

  function CandidateOf(result: WebSearch.SearchResult): (r: Option<Candidate>)
    ensures r.Some? <==> Linkable(result)
    ensures r.Some? ==> r.value.url == result.url.value
  {
    if Linkable(result) then
      Some(Candidate(result.url.value, LinkTitle(result.title), LinkDescription(HtmlClean.CleanHtmlTags(result.snippet))))
    else None
  }

  function Candidates(results: seq<WebSearch.SearchResult>): (r: seq<Option<Candidate>>)
    ensures |r| == |results|
    ensures forall i :: 0 <= i < |r| ==> r[i] == CandidateOf(results[i])
  {
    seq(|results|, i requires 0 <= i < |results| => CandidateOf(results[i]))
  }

  /** One result of the loop: `addLinkIfNotExists` for a known calculator,
      counting the link when one is created. Afterwards the calculator has
      the candidate's URL. */
  function AddCandidate(st: Store, calculators: set<int>, calculatorId: int, c: Option<Candidate>,
                        admin: string, now: int): (r: (Store, nat))
    requires Valid(st) && calculatorId in calculators
    ensures Valid(r.0) && Grows(st, r.0)
    ensures |r.0.links.Keys| == |st.links.Keys| + r.1 && r.1 <= 1
    ensures c.Some? ==> HasUrl(r.0, calculatorId, c.value.url)
    ensures c.None? ==> r == (st, 0)
  {
    if c.None? then (st, 0)
    else
      var (st1, added) := AddLinkIfNotExists(st, calculators, calculatorId, c.value.url, c.value.title,
                                             c.value.description, admin, now).value;
      if added.Some? then
        assert st1.links.Keys == st.links.Keys + {added.value};
        (st1, 1)
      else (st1, 0)
  }

  /** The loop adding the web results as links of a known calculator: each
      linkable result is added unless the calculator already has its URL;
      the count is the number of links added. */
  function AddLinks(st: Store, calculators: set<int>, calculatorId: int, cands: seq<Option<Candidate>>,
                    admin: string, now: int): (r: (Store, nat))
    requires Valid(st) && calculatorId in calculators
    ensures Valid(r.0) && Grows(st, r.0)
    ensures |r.0.links.Keys| == |st.links.Keys| + r.1
    ensures r.1 <= |cands|
    decreases |cands|
  {
    if |cands| == 0 then (st, 0)
    else
      var (st1, k) := AddCandidate(st, calculators, calculatorId, cands[0], admin, now);
      var (st2, n) := AddLinks(st1, calculators, calculatorId, cands[1..], admin, now);
      (st2, k + n)
  }

  /** Growth keeps every URL a calculator has. */
  lemma GrowsKeepsUrl(st: Store, st': Store, calculatorId: int, url: string)
    requires Grows(st, st') && HasUrl(st, calculatorId, url)
    ensures HasUrl(st', calculatorId, url)
  {
    var id :| id in st.links && st.links[id].calculatorId == calculatorId && st.links[id].url == url;
    assert id in st'.links && st'.links[id] == st.links[id];
  }

  /** Afterwards the calculator has a link for every candidate. */
  lemma {:induction false} AddLinksCovers(st: Store, calculators: set<int>, calculatorId: int,
                                          cands: seq<Option<Candidate>>, admin: string, now: int, i: nat)
    requires Valid(st) && calculatorId in calculators
    requires i < |cands| && cands[i].Some?
    ensures HasUrl(AddLinks(st, calculators, calculatorId, cands, admin, now).0, calculatorId, cands[i].value.url)
    decreases |cands|
  {
    var st1 := AddCandidate(st, calculators, calculatorId, cands[0], admin, now).0;
    var st' := AddLinks(st1, calculators, calculatorId, cands[1..], admin, now).0;
    if i == 0 {
      GrowsKeepsUrl(st1, st', calculatorId, cands[0].value.url);
    } else {
      assert cands[1..][i - 1] == cands[i];
      AddLinksCovers(st1, calculators, calculatorId, cands[1..], admin, now, i - 1);
    }
  }
}
