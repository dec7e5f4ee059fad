/** `CalculatorController.enrichCalculator`: the administrator's request to
    enrich a calculator. The enrichment gathered by the enrichment service
    is an input. From it the controller writes a description, records which
    parts of the enrichment it stores as JSON, and turns every web result
    with a URL into a link of the calculator. The specification pass runs
    as written: when it throws (see `EnrichAnalysis.BatterySourceAborts`)
    the request ends with the caught exception and nothing is stored; when
    it does not, its table is the corrected one of
    `EnrichAnalysis.ExtractSpecs`. */
module EnrichController {
  import opened Wrappers
  import opened JavaText
  import OrderedMap
  import opened LinkStore
  import opened EnrichLinks
  import opened TextPatterns
  import WebSearch
  import Enrichment
  import EnrichAnalysis
  import EnrichDescription
  import OrderedSet

  // ---------------------------------------------------------------- JSON

  /** The top-level entries of the stored JSON document. */
  datatype JsonKey = WebResultsKey | MuseumResultsKey | AIContentKey | BraveAIResultKey | ImageResultsKey

  predicate NonEmpty<T>(xs: Option<seq<T>>) {
    xs.Some? && |xs.value| > 0
  }

  /** The entries the document gets. No web result has been turned into a
      link when the document is built, so all of them are kept. */
  function JsonKeys(e: Enrichment.Enrichment): (r: set<JsonKey>)
    ensures WebResultsKey in r <==> NonEmpty(e.webResults)
    ensures MuseumResultsKey in r <==> NonEmpty(e.museumResults)
    ensures AIContentKey in r <==> e.aiContent.Some?
    ensures BraveAIResultKey in r <==> e.braveAIResult.Some?
    ensures ImageResultsKey in r <==> NonEmpty(e.imageResults)
  {
    (if NonEmpty(e.webResults) then {WebResultsKey} else {})
    + (if NonEmpty(e.museumResults) then {MuseumResultsKey} else {})
    + (if e.aiContent.Some? then {AIContentKey} else {})
    + (if e.braveAIResult.Some? then {BraveAIResultKey} else {})
    + (if NonEmpty(e.imageResults) then {ImageResultsKey} else {})
  }

  /** Nothing was found: every field of the enrichment is null or an empty
      list. */
  predicate Blank(e: Enrichment.Enrichment) {
    !NonEmpty(e.webResults) && !NonEmpty(e.museumResults) && e.aiContent.None?
    && e.braveAIResult.None? && !NonEmpty(e.imageResults)
  }

  /** The document is `{}` exactly when nothing was found. */
  lemma JsonKeysEmpty(e: Enrichment.Enrichment)
    ensures JsonKeys(e) == {} <==> Blank(e)
  {
    if NonEmpty(e.webResults) {
      assert WebResultsKey in JsonKeys(e);
    } else if NonEmpty(e.museumResults) {
      assert MuseumResultsKey in JsonKeys(e);
    } else if e.aiContent.Some? {
      assert AIContentKey in JsonKeys(e);
    } else if e.braveAIResult.Some? {
      assert BraveAIResultKey in JsonKeys(e);
    } else if NonEmpty(e.imageResults) {
      assert ImageResultsKey in JsonKeys(e);
    }
  }

  // ---------------------------------------------------------- description

  /** What the description is built from: the texts of the enrichment, the
      specification table and the facts drawn from them. */
  function DescriptionSources(e: Enrichment.Enrichment, m: EnrichAnalysis.Matchers): (r: EnrichDescription.Sources)
    ensures e.braveAIResult.None? ==> r.structured.None? && r.raw.None?
    ensures e.aiContent.None? ==> r.ai.None?
    ensures r.snippets.Some? <==> e.webResults.Some?
    ensures r.snippets.Some? ==> |r.snippets.value| == |e.webResults.value|
  {
    var texts := EnrichAnalysis.TextSources(e);
    EnrichDescription.Sources(
      if e.braveAIResult.Some? then e.braveAIResult.value.structuredData else None,
      if e.braveAIResult.Some? then e.braveAIResult.value.rawResponse else None,
      if e.aiContent.Some? then e.aiContent.value.content else None,
      EnrichAnalysis.ExtractSpecs(texts, m),
      EnrichAnalysis.ExtractFacts(texts),
      if e.webResults.Some? then Some(Snippets(e.webResults.value)) else None)
  }

  function Snippets(results: seq<WebSearch.SearchResult>): (r: seq<Option<string>>)
    ensures |r| == |results|
    ensures forall i :: 0 <= i < |r| ==> r[i] == results[i].snippet
  {
    seq(|results|, i requires 0 <= i < |results| => results[i].snippet)
  }

  /** With nothing found there are no texts to analyse. */
  lemma BlankTexts(e: Enrichment.Enrichment)
    requires Blank(e)
    ensures EnrichAnalysis.TextSources(e) == []
  {
    if e.webResults.Some? {
      assert EnrichAnalysis.WebTexts(e.webResults.value) == [];
    }
    if e.museumResults.Some? {
      assert EnrichAnalysis.MuseumTexts(e.museumResults.value) == [];
    }
  }

  /** A description is written only when something was found, so whenever
      there is a description there is also a JSON document. */
  lemma DescriptionImpliesData(e: Enrichment.Enrichment, m: EnrichAnalysis.Matchers)
    ensures EnrichDescription.Description(DescriptionSources(e, m)) != "" ==> JsonKeys(e) != {}
  {
    JsonKeysEmpty(e);
    if Blank(e) {
      var src := DescriptionSources(e, m);
      BlankTexts(e);
      assert EnrichAnalysis.Analysed([]) == [];
      assert EnrichAnalysis.OffersList([], m) == [];
      assert OrderedMap.Size(src.specs) == 0;
      assert OrderedSet.Flatten<string>([]) == [];
      EnrichDescription.DescriptionEmpty(src);
    }
  }

  // --------------------------------------------------------------- request

  /** How the request ends: the login page for an anonymous caller, an
      error for an unknown calculator, the error of an exception raised
      while the texts are analysed (reported as "Failed to enrich
      calculator: ..." with nothing stored), an error when nothing was
      found, and otherwise the calculator saved with its new description (none when
      the description came out empty, which leaves the old one), the JSON
      document's entries, the link store and the number of links added. */
  datatype Outcome =
    | LoginRequired
    | NotFound
    | Failed(error: string)
    | NothingRetrieved
    | Saved(description: Option<string>, json: set<JsonKey>, store: Store, linksAdded: nat)

  function EnrichCalculator(authenticated: bool, e: Enrichment.Enrichment, m: EnrichAnalysis.Matchers,
                            st: Store, calculators: set<int>, id: int, admin: string, now: int): (r: Outcome)
    requires Valid(st)
    ensures r.LoginRequired? <==> !authenticated
    ensures r.NotFound? <==> authenticated && id !in calculators
    ensures r.Failed? <==> authenticated && id in calculators
                           && EnrichAnalysis.ExtractSpecsAsWritten(EnrichAnalysis.TextSources(e), m).Err?
    ensures r.Failed? ==> r.error == EnrichAnalysis.ExtractSpecsAsWritten(EnrichAnalysis.TextSources(e), m).error
    ensures r.Saved? ==> Valid(r.store) && Grows(st, r.store)
    ensures r.Saved? ==> |r.store.links.Keys| == |st.links.Keys| + r.linksAdded
    ensures r.Saved? && r.description.Some? ==> r.description.value != "" && Trim(r.description.value) == r.description.value
  {
    if !authenticated then LoginRequired
    else if id !in calculators then NotFound
    else if EnrichAnalysis.ExtractSpecsAsWritten(EnrichAnalysis.TextSources(e), m).Err? then
      Failed(EnrichAnalysis.ExtractSpecsAsWritten(EnrichAnalysis.TextSources(e), m).error)
    else
      var desc := EnrichDescription.Description(DescriptionSources(e, m));
      var keys := JsonKeys(e);
      if desc == "" && keys == {} then NothingRetrieved
      else
        var (st', n) := AddLinks(st, calculators, id, Candidates(if e.webResults.Some? then e.webResults.value else []), admin, now);
        Saved(if desc != "" then Some(desc) else None, keys, st', n)
  }

  /** The request finds nothing exactly when the enrichment is blank: a
      description never appears without a JSON entry. */
  lemma NothingRetrievedIffBlank(authenticated: bool, e: Enrichment.Enrichment, m: EnrichAnalysis.Matchers,
                                 st: Store, calculators: set<int>, id: int, admin: string, now: int)
    requires Valid(st)
    ensures EnrichCalculator(authenticated, e, m, st, calculators, id, admin, now).NothingRetrieved?
            <==> authenticated && id in calculators && Blank(e)
  {
    JsonKeysEmpty(e);
    DescriptionImpliesData(e, m);
    if Blank(e) {
      BlankNeverFails(e, m);
    }
  }

  /** With no texts to analyse the specification pass cannot throw. */
  lemma BlankNeverFails(e: Enrichment.Enrichment, m: EnrichAnalysis.Matchers)
    requires Blank(e)
    ensures EnrichAnalysis.ExtractSpecsAsWritten(EnrichAnalysis.TextSources(e), m).Ok?
  {
    BlankTexts(e);
    assert EnrichAnalysis.Analysed([]) == [];
    assert EnrichAnalysis.OffersList([], m) == [];
  }

  /** The request fails, storing nothing, when the first analysed text that
      settles the power supply mentions a battery count. */
  lemma BatteryCountFails(authenticated: bool, e: Enrichment.Enrichment, m: EnrichAnalysis.Matchers,
                          st: Store, calculators: set<int>, id: int, admin: string, now: int, i: nat, at: nat)
    requires Valid(st) && authenticated && id in calculators
    requires i < |EnrichAnalysis.Analysed(EnrichAnalysis.TextSources(e))|
    requires Contains(Lower(EnrichAnalysis.Analysed(EnrichAnalysis.TextSources(e))[i]), "batter")
    requires BatteryAt(EnrichAnalysis.Analysed(EnrichAnalysis.TextSources(e))[i], at, BatteryKinds).Some?
    requires forall j :: 0 <= j < i ==> PowerSupply(EnrichAnalysis.Analysed(EnrichAnalysis.TextSources(e))[j]).None?
    ensures EnrichCalculator(authenticated, e, m, st, calculators, id, admin, now).Failed?
  {
    EnrichAnalysis.BatterySourceAborts(EnrichAnalysis.TextSources(e), m, i, at);
  }

  /** A saved enrichment gives the calculator a link for every web result
      with a non-blank URL. */
  lemma SavedLinksEveryResult(authenticated: bool, e: Enrichment.Enrichment, m: EnrichAnalysis.Matchers,
                              st: Store, calculators: set<int>, id: int, admin: string, now: int, i: nat)
    requires Valid(st)
    requires EnrichCalculator(authenticated, e, m, st, calculators, id, admin, now).Saved?
    requires e.webResults.Some? && i < |e.webResults.value| && Linkable(e.webResults.value[i])
    ensures HasUrl(EnrichCalculator(authenticated, e, m, st, calculators, id, admin, now).store, id, e.webResults.value[i].url.value)
  {
    SavedStore(authenticated, e, m, st, calculators, id, admin, now);
    AddLinksCovers(st, calculators, id, Candidates(e.webResults.value), admin, now, i);
  }

  /** A saved request's store is the one the link loop returns. */
  lemma SavedStore(authenticated: bool, e: Enrichment.Enrichment, m: EnrichAnalysis.Matchers,
                   st: Store, calculators: set<int>, id: int, admin: string, now: int)
    requires Valid(st)
    requires EnrichCalculator(authenticated, e, m, st, calculators, id, admin, now).Saved?
    ensures EnrichCalculator(authenticated, e, m, st, calculators, id, admin, now).store ==
            AddLinks(st, calculators, id, Candidates(if e.webResults.Some? then e.webResults.value else []), admin, now).0
  {
    assert authenticated && id in calculators;
    assert !EnrichAnalysis.ExtractSpecsAsWritten(EnrichAnalysis.TextSources(e), m).Err?;
  }
}
