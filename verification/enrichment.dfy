/** `EnrichmentService.enrichCalculator`: five independent searches fill
    the five fields of the enrichment. Each runs in its own exception
    handler, so a failure leaves only its own field unset. What each search
    returned is an input here; the result filters, which are not part of
    this model, are parameters that may fail. */
module Enrichment {
  import opened Wrappers
  import WebSearch
  import MuseumSearch
  import AISearch

  datatype Enrichment = Enrichment(
    webResults: Option<seq<WebSearch.SearchResult>>,
    imageResults: Option<seq<WebSearch.ImageResult>>,
    braveAIResult: Option<WebSearch.BraveAIResult>,
    museumResults: Option<seq<MuseumSearch.MuseumResult>>,
    aiContent: Option<AISearch.AISearchResult>)

  /** The three providers' lists of one group, Google first. */
  datatype Group<T> = Group(google: seq<T>, bing: seq<T>, brave: seq<T>)

  /** One group: each provider's list is filtered, then the three are
      concatenated Google, Bing, Brave. A failing filter fails the group. */
  function CombineGroup<T>(g: Group<T>, filter: seq<T> -> Result<seq<T>>): (r: Result<seq<T>>)
    ensures r.Ok? <==> filter(g.google).Ok? && filter(g.bing).Ok? && filter(g.brave).Ok?
    ensures r.Ok? ==> |r.value| == |filter(g.google).value| + |filter(g.bing).value| + |filter(g.brave).value|
  {
    var google :- filter(g.google);
    var bing :- filter(g.bing);
    var brave :- filter(g.brave);
    Ok(google + bing + brave)
  }

  /** The combined list holds each provider's filtered list as a block, in
      provider order. */
  lemma CombineGroupOrder<T>(g: Group<T>, filter: seq<T> -> Result<seq<T>>)
    requires CombineGroup(g, filter).Ok?
    ensures var r := CombineGroup(g, filter).value;
      var a := filter(g.google).value; var b := filter(g.bing).value; var c := filter(g.brave).value;
      r[..|a|] == a && r[|a|..|a| + |b|] == b && r[|a| + |b|..] == c
  {
    var a := filter(g.google).value;
    var b := filter(g.bing).value;
    var c := filter(g.brave).value;
    assert CombineGroup(g, filter).value == a + b + c;
    assert (a + b + c)[..|a|] == a;
    assert (a + b + c)[|a|..|a| + |b|] == b;
    assert (a + b + c)[|a| + |b|..] == c;
  }

  function OkOrNone<T>(r: Result<T>): (o: Option<T>)
    ensures o.Some? <==> r.Ok?
    ensures o.Some? ==> o.value == r.value
  {
    if r.Ok? then Some(r.value) else None
  }

  /** `enrichCalculator`: each field is set exactly when its own search
      succeeded; the Brave AI field also needs a result. */
  function Enrich(web: Group<WebSearch.SearchResult>,
                  webFilter: seq<WebSearch.SearchResult> -> Result<seq<WebSearch.SearchResult>>,
                  images: Group<WebSearch.ImageResult>,
                  imageFilter: seq<WebSearch.ImageResult> -> Result<seq<WebSearch.ImageResult>>,
                  braveAI: Result<Option<WebSearch.BraveAIResult>>,
                  museum: Result<seq<MuseumSearch.MuseumResult>>,
                  ai: Result<AISearch.AISearchResult>): (r: Enrichment)
    ensures r.webResults.Some? <==> CombineGroup(web, webFilter).Ok?
    ensures r.imageResults.Some? <==> CombineGroup(images, imageFilter).Ok?
    ensures r.braveAIResult.Some? <==> braveAI.Ok? && braveAI.value.Some?
    ensures r.museumResults.Some? <==> museum.Ok?
    ensures r.aiContent.Some? <==> ai.Ok?
    ensures r.webResults.Some? ==> r.webResults.value == CombineGroup(web, webFilter).value
    ensures r.imageResults.Some? ==> r.imageResults.value == CombineGroup(images, imageFilter).value
  {
    Enrichment(
      OkOrNone(CombineGroup(web, webFilter)),
      OkOrNone(CombineGroup(images, imageFilter)),
      if braveAI.Ok? then braveAI.value else None,
      OkOrNone(museum),
      OkOrNone(ai))
  }

  /** A failing search changes nothing but its own field: the web or image
      group whose filter fails somewhere, the Brave AI, museum or AI search
      that throws. */
  lemma FailureIsLocal(web: Group<WebSearch.SearchResult>,
                       webFilter: seq<WebSearch.SearchResult> -> Result<seq<WebSearch.SearchResult>>,
                       images: Group<WebSearch.ImageResult>,
                       imageFilter: seq<WebSearch.ImageResult> -> Result<seq<WebSearch.ImageResult>>,
                       braveAI: Result<Option<WebSearch.BraveAIResult>>,
                       museum: Result<seq<MuseumSearch.MuseumResult>>,
                       ai: Result<AISearch.AISearchResult>, e: string,
                       failingWeb: seq<WebSearch.SearchResult> -> Result<seq<WebSearch.SearchResult>>,
                       failingImages: seq<WebSearch.ImageResult> -> Result<seq<WebSearch.ImageResult>>)
    ensures CombineGroup(web, failingWeb).Err? ==>
      var ok := Enrich(web, webFilter, images, imageFilter, braveAI, museum, ai);
      var failed := Enrich(web, failingWeb, images, imageFilter, braveAI, museum, ai);
      failed == ok.(webResults := None)
    ensures CombineGroup(images, failingImages).Err? ==>
      var ok := Enrich(web, webFilter, images, imageFilter, braveAI, museum, ai);
      var failed := Enrich(web, webFilter, images, failingImages, braveAI, museum, ai);
      failed == ok.(imageResults := None)
    ensures var ok := Enrich(web, webFilter, images, imageFilter, braveAI, museum, ai);
      var failed := Enrich(web, webFilter, images, imageFilter, braveAI, Err(e), ai);
      failed == ok.(museumResults := None)
    ensures var ok := Enrich(web, webFilter, images, imageFilter, braveAI, museum, ai);
      var failed := Enrich(web, webFilter, images, imageFilter, braveAI, museum, Err(e));
      failed == ok.(aiContent := None)
    ensures var ok := Enrich(web, webFilter, images, imageFilter, braveAI, museum, ai);
      var failed := Enrich(web, webFilter, images, imageFilter, Err(e), museum, ai);
      failed == ok.(braveAIResult := None)
  {
  }

  /** The description handed to the AI search: the raw row text, or the
      empty string. */
  function AIDescription(rawRowText: Option<string>): (r: string)
    ensures rawRowText.Some? ==> r == rawRowText.value
    ensures rawRowText.None? ==> r == ""
  {
    if rawRowText.Some? then rawRowText.value else ""
  }

  /** The label descriptions handed to the AI search: a missing description
      becomes the empty string, so the list has no nulls. */
  function DescriptionsOrEmpty(descriptions: seq<Option<string>>): (r: seq<Option<string>>)
    ensures |r| == |descriptions|
    ensures forall i :: 0 <= i < |r| ==> r[i].Some?
    ensures forall i :: 0 <= i < |r| ==> r[i] == Some(descriptions[i].GetOr(""))
  {
    seq(|descriptions|, i requires 0 <= i < |descriptions| => Some(descriptions[i].GetOr("")))
  }
}
