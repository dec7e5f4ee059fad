/** The text analysis of `CalculatorController.enrichCalculator`: which
    texts of an enrichment are analysed, the table of technical
    specifications the patterns fill from them, and the set of facts (dates
    and prices) they yield. */
module EnrichAnalysis {
  import opened Wrappers
  import opened JavaText
  import opened OrderedMap
  import opened TextPatterns
  import HtmlClean
  import WebSearch
  import MuseumSearch
  import AISearch
  import Enrichment
  import SpecTable
  import OrderedSet

  // ----------------------------------------------------------- text sources

  /** `cleanHtmlTags` of a filled snippet, which is never null. */
  function Cleaned(snippet: string): (r: string)
    requires Trim(snippet) != ""
    ensures Trim(r) == r
  {
    HtmlClean.CleanHtmlTags(Some(snippet)).value
  }

  /** The cleaned form of every filled snippet, in order: the step the web
      and museum sources share. */
  function SnippetTexts(snippets: seq<Option<string>>): (r: seq<string>)
    ensures |r| <= |snippets|
    ensures r == [] <==> forall i :: 0 <= i < |snippets| ==> !Filled(snippets[i])
  {
    if |snippets| == 0 then []
    else
      assert forall i :: 1 <= i < |snippets| ==> snippets[1..][i - 1] == snippets[i];
      (if Filled(snippets[0]) then [Cleaned(snippets[0].value)] else [])
      + SnippetTexts(snippets[1..])
  }

  /** The cleaned snippets of the web results that have one. No result has
      been turned into a link yet at this point, so none is excluded. */
  function WebTexts(results: seq<WebSearch.SearchResult>): (r: seq<string>)
    ensures |r| <= |results|
    ensures r == [] <==> forall i :: 0 <= i < |results| ==> !Filled(results[i].snippet)
  {
    var snippets := seq(|results|, i requires 0 <= i < |results| => results[i].snippet);
    assert forall i :: 0 <= i < |results| ==> snippets[i] == results[i].snippet;
    SnippetTexts(snippets)
  }

  /** The cleaned snippets of the museum results that have one. */
  function MuseumTexts(results: seq<MuseumSearch.MuseumResult>): (r: seq<string>)
    ensures |r| <= |results|
    ensures r == [] <==> forall i :: 0 <= i < |results| ==> !Filled(results[i].snippet)
  {
    var snippets := seq(|results|, i requires 0 <= i < |results| => results[i].snippet);
    assert forall i :: 0 <= i < |results| ==> snippets[i] == results[i].snippet;
    SnippetTexts(snippets)
  }

  /** The AI answer, which is a source even when blank. */
  function AITexts(ai: Option<AISearch.AISearchResult>): seq<string> {
    if ai.Some? && ai.value.content.Some? then [ai.value.content.value] else []
  }

  /** The raw Brave AI answer. */
  function BraveTexts(brave: Option<WebSearch.BraveAIResult>): seq<string> {
    if brave.Some? && brave.value.rawResponse.Some? then [brave.value.rawResponse.value] else []
  }

  /** The texts analysed, in order: web snippets, AI answer, Brave answer,
      museum snippets. */
  function TextSources(e: Enrichment.Enrichment): seq<string> {
    (if e.webResults.Some? then WebTexts(e.webResults.value) else [])
    + AITexts(e.aiContent) + BraveTexts(e.braveAIResult)
    + (if e.museumResults.Some? then MuseumTexts(e.museumResults.value) else [])
  }

  // ------------------------------------------------------ specification table

  /** The processor and operating-system patterns, whose nested optional
      parts are not written out here: each gives the identifier its pattern
      captures in a text, if it matches. */
  datatype Matchers = Matchers(processor: string -> Option<string>, os: string -> Option<string>)

  function DisplayValue(t: string): Option<string> {
    Find(t, (i: nat) => DisplayAt(t, i, DisplayKinds))
  }

  function WidthValue(t: string): Option<string> {
    match Find(t, (i: nat) => WidthAt(t, i))
    case Some(n) => Some(n + " digits/characters")
    case None => None
  }

  function ResolutionValue(t: string): Option<string> {
    match Find(t, (i: nat) => ResolutionAt(t, i))
    case Some(wh) => Some(wh.0 + "x" + wh.1)
    case None => None
  }

  /** What one text offers for each key of the table. */
  function OffersOf(t: string, m: Matchers): SpecTable.TextOffers {
    SpecTable.TextOffers(DisplayValue(t), WidthValue(t), ResolutionValue(t), m.processor(t), m.os(t), PowerSupply(t))
  }

  /** The texts the patterns run on: those not blank, in order. */
  function Analysed(texts: seq<string>): (r: seq<string>)
    ensures |r| <= |texts|
    ensures forall i :: 0 <= i < |r| ==> Trim(r[i]) != "" && r[i] in texts
    ensures forall t :: t in texts && Trim(t) != "" ==> t in r
  {
    if |texts| == 0 then []
    else (if Trim(texts[0]) == "" then [] else [texts[0]]) + Analysed(texts[1..])
  }

  function OffersList(a: seq<string>, m: Matchers): (r: seq<SpecTable.TextOffers>)
    ensures |r| == |a|
    ensures forall i :: 0 <= i < |a| ==> r[i] == OffersOf(a[i], m)
  {
    if |a| == 0 then [] else [OffersOf(a[0], m)] + OffersList(a[1..], m)
  }

  /** The specification table of the texts analysed. */
  function ExtractSpecs(texts: seq<string>, m: Matchers): (r: SpecTable.Specs)
    ensures Valid(r)
  {
    SpecTable.BuildSpecs(OffersList(Analysed(texts), m))
  }

  /** First wins over the texts: an entry of the table is the value of the
      earliest non-blank text that offers one for its key. */
  lemma ExtractSpecsFirstWins(texts: seq<string>, m: Matchers, key: SpecTable.SpecKey, i: nat)
    requires i < |Analysed(texts)|
    requires SpecTable.Offer(OffersOf(Analysed(texts)[i], m), key).Some?
    requires forall j :: 0 <= j < i ==> SpecTable.Offer(OffersOf(Analysed(texts)[j], m), key).None?
    ensures Get(ExtractSpecs(texts, m), key) == SpecTable.Offer(OffersOf(Analysed(texts)[i], m), key)
  {
    var offers := OffersList(Analysed(texts), m);
    SpecTable.BuildSpecsFirstWins(offers, key);
    FirstOfferAt(offers, key, i);
  }

  /** The first offer is the one at the first position that has one. */
  lemma {:induction false} FirstOfferAt(offers: seq<SpecTable.TextOffers>, key: SpecTable.SpecKey, i: nat)
    requires i < |offers| && SpecTable.Offer(offers[i], key).Some?
    requires forall j :: 0 <= j < i ==> SpecTable.Offer(offers[j], key).None?
    ensures SpecTable.FirstOffer(offers, key) == SpecTable.Offer(offers[i], key)
    decreases i
  {
    if i > 0 {
      FirstOfferAt(offers[1..], key, i - 1);
    }
  }

  // ------------------------------------------- the battery branch as written

  /** What the power-supply chain as written does on each text. */
  function PowersList(a: seq<string>): (r: seq<Result<Option<string>>>)
    ensures |r| == |a|
    ensures forall i :: 0 <= i < |a| ==> r[i] == PowerSupplyAsWritten(a[i])
  {
    if |a| == 0 then [] else [PowerSupplyAsWritten(a[0])] + PowersList(a[1..])
  }

  /** The extraction as written, where the battery branch can throw; when it
      does not, the table is the corrected one. */
  function ExtractSpecsAsWritten(texts: seq<string>, m: Matchers): (r: Result<SpecTable.Specs>)
    ensures r.Ok? ==> r.value == ExtractSpecs(texts, m)
  {
    var a := Analysed(texts);
    SpecTable.SpecsOverAsWritten(Empty(), OffersList(a, m), PowersList(a))
  }

  /** As written, the enrichment aborts when the first text that settles the
      power supply mentions batteries with a count: the count pattern has a
      single group and the code asks for a second. */
  lemma BatterySourceAborts(texts: seq<string>, m: Matchers, i: nat, at: nat)
    requires i < |Analysed(texts)|
    requires Contains(Lower(Analysed(texts)[i]), "batter") && BatteryAt(Analysed(texts)[i], at, BatteryKinds).Some?
    requires forall j :: 0 <= j < i ==> PowerSupply(Analysed(texts)[j]).None?
    ensures ExtractSpecsAsWritten(texts, m).Err?
  {
    var a := Analysed(texts);
    BatteryCountAborts(a[i], at);
    SpecTable.ThrowingSourceAborts(Empty(), OffersList(a, m), PowersList(a), i);
  }

  // ------------------------------------------------------------------ facts

  /** `cleanHtmlTags` of an analysed text: the facts pass cleans every
      source again, the AI and Brave answers included. */
  function Recleaned(t: string): (r: string)
    requires Trim(t) != ""
    ensures Trim(r) == r
  {
    HtmlClean.CleanHtmlTags(Some(t)).value
  }

  function PriceValue(c: string): Option<string> {
    Find(c, (i: nat) => PriceAt(c, i))
  }

  const PriceLabel: string := "Retail price: $"

  /** The price fact of a cleaned text: its first price match, if any. */
  function PriceFact(c: string): seq<string> {
    match PriceValue(c)
    case Some(p) => [PriceLabel + p]
    case None => []
  }

  /** The facts one text yields, in the order the code adds them: every
      date match, then the first price match. A text that cleans to nothing
      yields none. */
  function FactsOf(t: string): (r: seq<string>)
    ensures Trim(t) == "" || Recleaned(t) == "" ==> r == []
  {
    if Trim(t) == "" then [] else
    var c := Recleaned(t);
    if c == "" then []
    else DatesFrom(c, 0, DateVerbs) + PriceFact(c)
  }

  /** Every fact of a text is a date match ("<verb> <year>" as written) or
      the amount of its first price match. */
  lemma FactsOfSound(t: string, f: string)
    requires Trim(t) != "" && f in FactsOf(t)
    ensures || (exists k :: 0 <= k < |Recleaned(t)| && DateAt(Recleaned(t), k, DateVerbs).Some?
                            && DateAt(Recleaned(t), k, DateVerbs).value.1 == f)
            || (PriceValue(Recleaned(t)).Some? && f == PriceLabel + PriceValue(Recleaned(t)).value)
  {
    var c := Recleaned(t);
    assert c != "";
    assert FactsOf(t) == DatesFrom(c, 0, DateVerbs) + PriceFact(c);
    CleanFactSound(c, f, DateVerbs);
  }

  lemma CleanFactSound(c: string, f: string, verbs: seq<string>)
    requires f in DatesFrom(c, 0, verbs) + PriceFact(c)
    ensures || (exists k :: 0 <= k < |c| && DateAt(c, k, verbs).Some? && DateAt(c, k, verbs).value.1 == f)
            || (PriceValue(c).Some? && f == PriceLabel + PriceValue(c).value)
  {
    if f !in DatesFrom(c, 0, verbs) {
      PriceFactSound(c, f);
    }
  }

  lemma PriceFactSound(c: string, f: string)
    requires f in PriceFact(c)
    ensures PriceValue(c).Some? && f == PriceLabel + PriceValue(c).value
  {
  }

  /** The facts of each analysed text, in order. */
  function FactsList(a: seq<string>): (r: seq<seq<string>>)
    ensures |r| == |a|
    ensures forall i :: 0 <= i < |a| ==> r[i] == FactsOf(a[i])
  {
    if |a| == 0 then [] else [FactsOf(a[0])] + FactsList(a[1..])
  }

  /** The facts of the analysed texts collected in a `LinkedHashSet`: each
      once, in order of first occurrence, and a fact is collected exactly
      when some analysed text yields it. */
  function ExtractFacts(texts: seq<string>): (r: seq<string>)
    ensures OrderedSet.Distinct(r)
    ensures forall f :: f in r <==> f in OrderedSet.Flatten(FactsList(Analysed(texts)))
    ensures r == OrderedSet.FirstOccurrences(OrderedSet.Flatten(FactsList(Analysed(texts))))
  {
    OrderedSet.AddEachMembers([], FactsList(Analysed(texts)));
    OrderedSet.AddEachFirstOccurrences(FactsList(Analysed(texts)));
    OrderedSet.AddEach([], FactsList(Analysed(texts)))
  }
}
