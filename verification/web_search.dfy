/** `WebSearchService` without the network: the per-provider normalisers
    that turn a decoded response into result lists, the choice of the Brave
    result that becomes the "AI" result, and the guard every search method
    runs around its request (credentials, quota, record on success). */
module WebSearch {
  import opened Wrappers
  import opened JavaText
  import opened Json
  import opened OrderedMap
  import Clock
  import Quota
  import StructuredTable

  const NullPointer: string := "NullPointerException"

  // ---------------------------------------------------------------------
  // Results

  datatype SearchResult = SearchResult(title: Option<string>, url: Option<string>, snippet: Option<string>)

  datatype ImageResult = ImageResult(
    imageUrl: Option<string>, thumbnailUrl: Option<string>, title: Option<string>,
    sourceUrl: Option<string>, width: Option<int>, height: Option<int>, source: string)

  /** The string under `key`, or null when it is absent or not a string. */
  function StrOr(obj: Object, key: string): Option<string> {
    if key in obj && obj[key].JStr? then Some(obj[key].s) else None
  }

  /** A field the code reads with a `(String)` cast: absent, null or a string. */
  predicate StringOrNull(obj: Object, key: string) {
    key !in obj || obj[key].JNull? || obj[key].JStr?
  }

  /** `(String) obj.get(key)` succeeds exactly on string-or-null fields and
      then reads as `StrOr`. */
  lemma GetStringField(obj: Object, key: string)
    ensures GetString(obj, key).Ok? <==> StringOrNull(obj, key)
    ensures GetString(obj, key).Ok? ==> GetString(obj, key).value == StrOr(obj, key)
  {
  }

  // ---------------------------------------------------------------------
  // Envelopes

  /** The list under `key` of `obj`; an absent key or a null list reads as
      no items. */
  function ListAt(obj: Object, key: string): (r: Result<seq<Json>>)
    ensures key !in obj || obj[key].JNull? ==> r == Ok([])
    ensures key in obj && obj[key].JArr? ==> r == Ok(obj[key].items)
    ensures r.Err? <==> key in obj && !obj[key].JNull? && !obj[key].JArr?
  {
    if key !in obj then Ok([])
    else
      var items :- GetList(obj, key);
      Ok(items.GetOr([]))
  }

  /** The items of a response: `response[listKey]`, or
      `response[outer][listKey]` when the list is nested one level. */
  function ItemsAt(response: Option<Object>, outer: Option<string>, listKey: string): (r: Result<seq<Json>>)
    ensures response.None? ==> r == Ok([])
    ensures response.Some? && outer.None? ==> r == ListAt(response.value, listKey)
    ensures (response.Some? && outer.Some?
             && (outer.value !in response.value || response.value[outer.value].JNull?)) ==> r == Ok([])
    ensures (response.Some? && outer.Some? && outer.value in response.value
             && response.value[outer.value].JObj?) ==>
              r == ListAt(response.value[outer.value].fields, listKey)
  {
    match response
    case None => Ok([])
    case Some(obj) =>
      match outer
      case None => ListAt(obj, listKey)
      case Some(o) =>
        if o !in obj then Ok([])
        else
          var inner :- GetObject(obj, o);
          match inner
          case None => Ok([])
          case Some(fields) => ListAt(fields, listKey)
  }

  /** The `for (Map<String, Object> item : items)` loop of the web and Bing
      and Brave image normalisers: every element must be a map (a null
      element fails on its first `get`), and each yields one result. */
  function MapItems<T>(items: seq<Json>, f: Object -> Result<T>): (r: Result<seq<T>>)
    ensures r.Ok? <==> forall i :: 0 <= i < |items| ==> items[i].JObj? && f(items[i].fields).Ok?
    ensures r.Ok? ==> |r.value| == |items|
    ensures r.Ok? ==> forall i :: 0 <= i < |items| ==> r.value[i] == f(items[i].fields).value
  {
    if |items| == 0 then Ok([])
    else
      match items[0]
      case JObj(fields) =>
        var head :- f(fields);
        var tail :- MapItems(items[1..], f);
        assert forall i :: 1 <= i < |items| ==> items[i] == items[1..][i - 1];
        Ok([head] + tail)
      case JNull => Err(NullPointer)
      case _ => Err(CastError)
  }

  // ---------------------------------------------------------------------
  // Web results

  /** One web result from the three fields a provider names. */
  function WebItem(obj: Object, titleKey: string, urlKey: string, snippetKey: string): (r: Result<SearchResult>)
    ensures r.Ok? <==> StringOrNull(obj, titleKey) && StringOrNull(obj, urlKey) && StringOrNull(obj, snippetKey)
    ensures r.Ok? ==> r.value == SearchResult(StrOr(obj, titleKey), StrOr(obj, urlKey), StrOr(obj, snippetKey))
  {
    GetStringField(obj, titleKey);
    GetStringField(obj, urlKey);
    GetStringField(obj, snippetKey);
    var t :- GetString(obj, titleKey);
    var u :- GetString(obj, urlKey);
    var s :- GetString(obj, snippetKey);
    Ok(SearchResult(t, u, s))
  }

  /** A web normaliser: one result per item, in item order. */
  function ParseWeb(response: Option<Object>, outer: Option<string>, listKey: string,
                    titleKey: string, urlKey: string, snippetKey: string): (r: Result<seq<SearchResult>>)
    ensures ItemsAt(response, outer, listKey).Err? ==> r.Err?
    ensures ItemsAt(response, outer, listKey).Ok? ==>
              var items := ItemsAt(response, outer, listKey).value;
              && (r.Ok? <==> (forall i :: 0 <= i < |items| ==>
                                (items[i].JObj? && WebItem(items[i].fields, titleKey, urlKey, snippetKey).Ok?)))
              && (r.Ok? ==> |r.value| == |items|)
              && (r.Ok? ==> (forall i :: 0 <= i < |items| ==>
                               r.value[i] == SearchResult(StrOr(items[i].fields, titleKey),
                                                          StrOr(items[i].fields, urlKey),
                                                          StrOr(items[i].fields, snippetKey))))
  {
    var items :- ItemsAt(response, outer, listKey);
    MapItems(items, (obj: Object) => WebItem(obj, titleKey, urlKey, snippetKey))
  }

  /** `parseGoogleResults`: `items`, with `title`, `link` and `snippet`. */
  function ParseGoogleResults(response: Option<Object>): (r: Result<seq<SearchResult>>)
    ensures response.None? || "items" !in response.value ==> r == Ok([])
    ensures r.Ok? && response.Some? && "items" in response.value && response.value["items"].JArr? ==>
              var items := response.value["items"].items;
              |r.value| == |items| &&
              forall i :: 0 <= i < |items| ==>
                items[i].JObj? && r.value[i] == SearchResult(StrOr(items[i].fields, "title"), StrOr(items[i].fields, "link"),
                                           StrOr(items[i].fields, "snippet"))
  {
    ParseWeb(response, None, "items", "title", "link", "snippet")
  }

  /** `parseBingResults`: `webPages.value`, with `name`, `url` and `snippet`. */
  function ParseBingResults(response: Option<Object>): (r: Result<seq<SearchResult>>)
    ensures response.None? || "webPages" !in response.value ==> r == Ok([])
    ensures r.Ok? && response.Some? && "webPages" in response.value && response.value["webPages"].JObj?
              && "value" in response.value["webPages"].fields
              && response.value["webPages"].fields["value"].JArr? ==>
              var items := response.value["webPages"].fields["value"].items;
              |r.value| == |items| &&
              forall i :: 0 <= i < |items| ==>
                items[i].JObj? && r.value[i] == SearchResult(StrOr(items[i].fields, "name"), StrOr(items[i].fields, "url"),
                                           StrOr(items[i].fields, "snippet"))
  {
    ParseWeb(response, Some("webPages"), "value", "name", "url", "snippet")
  }

  /** `parseBraveResults`: `web.results`, with `title`, `url` and
      `description`. */
  function ParseBraveResults(response: Option<Object>): (r: Result<seq<SearchResult>>)
    ensures response.None? || "web" !in response.value ==> r == Ok([])
    ensures r.Ok? && response.Some? && "web" in response.value && response.value["web"].JObj?
              && "results" in response.value["web"].fields
              && response.value["web"].fields["results"].JArr? ==>
              var items := response.value["web"].fields["results"].items;
              |r.value| == |items| &&
              forall i :: 0 <= i < |items| ==>
                items[i].JObj? && r.value[i] == SearchResult(StrOr(items[i].fields, "title"), StrOr(items[i].fields, "url"),
                                           StrOr(items[i].fields, "description"))
  {
    ParseWeb(response, Some("web"), "results", "title", "url", "description")
  }

  // ---------------------------------------------------------------------
  // Image results

  /** The keys one provider's image items use. */
  datatype ImageKeys = ImageKeys(image: string, thumbnail: string, title: string, source: string, tag: string)

  const BingImageKeys: ImageKeys := ImageKeys("contentUrl", "thumbnailUrl", "name", "hostPageUrl", "Bing")
  const BraveImageKeys: ImageKeys := ImageKeys("url", "thumbnail", "title", "source", "Brave")

  /** An image item of Bing or Brave; width and height are set only from
      numeric fields. */
  function ImageItem(obj: Object, keys: ImageKeys): (r: Result<ImageResult>)
    ensures r.Ok? <==> StringOrNull(obj, keys.image) && StringOrNull(obj, keys.thumbnail)
                       && StringOrNull(obj, keys.title) && StringOrNull(obj, keys.source)
    ensures r.Ok? ==> r.value == ImageResult(StrOr(obj, keys.image), StrOr(obj, keys.thumbnail),
                                             StrOr(obj, keys.title), StrOr(obj, keys.source),
                                             GetNumber(obj, "width"), GetNumber(obj, "height"), keys.tag)
  {
    GetStringField(obj, keys.image);
    GetStringField(obj, keys.thumbnail);
    GetStringField(obj, keys.title);
    GetStringField(obj, keys.source);
    var img :- GetString(obj, keys.image);
    var thumb :- GetString(obj, keys.thumbnail);
    var title :- GetString(obj, keys.title);
    var src :- GetString(obj, keys.source);
    Ok(ImageResult(img, thumb, title, src, GetNumber(obj, "width"), GetNumber(obj, "height"), keys.tag))
  }

  /** `parseBingImageResults` (`value`) and `parseBraveImageResults`
      (`results`): one tagged result per item, in item order, whether or not
      the item has an image address. */
  function ParseImages(response: Option<Object>, listKey: string, keys: ImageKeys): (r: Result<seq<ImageResult>>)
    ensures response.None? || listKey !in response.value ==> r == Ok([])
    ensures r.Ok? && response.Some? && listKey in response.value && response.value[listKey].JArr? ==>
              var items := response.value[listKey].items;
              |r.value| == |items| &&
              forall i :: 0 <= i < |items| ==>
                items[i].JObj? && ImageItem(items[i].fields, keys).Ok? && r.value[i] == ImageItem(items[i].fields, keys).value
    ensures r.Ok? ==> forall i :: 0 <= i < |r.value| ==> r.value[i].source == keys.tag
  {
    var items :- ItemsAt(response, None, listKey);
    MapItems(items, (obj: Object) => ImageItem(obj, keys))
  }

  function ParseBingImageResults(response: Option<Object>): (r: Result<seq<ImageResult>>)
    ensures r.Ok? ==> forall i :: 0 <= i < |r.value| ==> r.value[i].source == "Bing"
    ensures response.None? || "value" !in response.value ==> r == Ok([])
  {
    ParseImages(response, "value", BingImageKeys)
  }

  function ParseBraveImageResults(response: Option<Object>): (r: Result<seq<ImageResult>>)
    ensures r.Ok? ==> forall i :: 0 <= i < |r.value| ==> r.value[i].source == "Brave"
    ensures response.None? || "results" !in response.value ==> r == Ok([])
  {
    ParseImages(response, "results", BraveImageKeys)
  }

  /** The body of the Google image loop's `try`: the `image` object supplies
      thumbnail, context page and size; without it the link doubles as the
      thumbnail and `displayLink` is the source. */
  function GoogleImageItem(obj: Object): (r: Result<ImageResult>)
    ensures r.Ok? ==> r.value.source == "Google" && r.value.imageUrl == StrOr(obj, "link")
    ensures r.Ok? && ("image" !in obj || obj["image"].JNull?) ==>
              r.value.thumbnailUrl == StrOr(obj, "link") && r.value.sourceUrl == StrOr(obj, "displayLink")
              && r.value.width.None? && r.value.height.None?
    ensures r.Ok? && "image" in obj && obj["image"].JObj? ==>
              var image := obj["image"].fields;
              r.value.thumbnailUrl == StrOr(image, "thumbnailLink") && r.value.sourceUrl == StrOr(image, "contextLink")
              && r.value.width == GetNumber(image, "width") && r.value.height == GetNumber(image, "height")
  {
    GetStringField(obj, "link");
    var link :- GetString(obj, "link");
    var title :- GetString(obj, "title");
    var image :- GetObject(obj, "image");
    match image
    case Some(img) =>
      GetStringField(img, "thumbnailLink");
      GetStringField(img, "contextLink");
      var thumb :- GetString(img, "thumbnailLink");
      var ctx :- GetString(img, "contextLink");
      Ok(ImageResult(link, thumb, title, ctx, GetNumber(img, "width"), GetNumber(img, "height"), "Google"))
    case None =>
      GetStringField(obj, "displayLink");
      var display :- GetString(obj, "displayLink");
      Ok(ImageResult(link, link, title, display, None, None, "Google"))
  }

  /** The Google image loop: an item whose body throws (a null item
      included) is skipped; an element that is not a map fails the loop's
      own cast and so the whole search. */
  function GoogleImageItems(items: seq<Json>): (r: Result<seq<ImageResult>>)
    ensures r.Ok? <==> forall i :: 0 <= i < |items| ==> items[i].JObj? || items[i].JNull?
    ensures r.Ok? ==> |r.value| <= |items|
    ensures r.Ok? ==> forall i :: 0 <= i < |r.value| ==> r.value[i].source == "Google"
    ensures r.Ok? && (forall i :: 0 <= i < |items| ==> items[i].JObj? && GoogleImageItem(items[i].fields).Ok?) ==>
              |r.value| == |items|
              && forall i :: 0 <= i < |items| ==> r.value[i] == GoogleImageItem(items[i].fields).value
  {
    if |items| == 0 then Ok([])
    else
      var tail :- GoogleImageItems(items[1..]);
      assert forall i :: 1 <= i < |items| ==> items[i] == items[1..][i - 1];
      match items[0]
      case JObj(fields) =>
        (match GoogleImageItem(fields)
         case Ok(one) => Ok([one] + tail)
         case Err(_) => Ok(tail))
      case JNull => Ok(tail)
      case _ => Err(CastError)
  }

  /** `parseGoogleImageResults`: an `error` member (once cast to a map)
      means no results; so do missing or empty `items`. */
  function ParseGoogleImageResults(response: Option<Object>): (r: Result<seq<ImageResult>>)
    ensures response.None? ==> r == Ok([])
    ensures response.Some? && "error" in response.value && r.Ok? ==> r.value == []
    ensures response.Some? && "error" !in response.value && "items" !in response.value ==> r == Ok([])
    ensures r.Ok? ==> forall i :: 0 <= i < |r.value| ==> r.value[i].source == "Google"
    ensures response.Some? && "error" in response.value ==>
              (r.Ok? <==> response.value["error"].JObj? || response.value["error"].JNull?)
    ensures response.Some? && "error" !in response.value && "items" in response.value ==>
              var items := response.value["items"];
              && (items.JArr? ==> r == GoogleImageItems(items.items))
              && (items.JNull? ==> r == Ok([]))
              && (!items.JArr? && !items.JNull? ==> r.Err?)
  {
    match response
    case None => Ok([])
    case Some(obj) =>
      if "error" in obj then
        var _ :- GetObject(obj, "error");
        Ok([])
      else if "items" !in obj then Ok([])
      else
        var items :- GetList(obj, "items");
        if items.None? || |items.value| == 0 then Ok([]) else GoogleImageItems(items.value)
  }

  // ---------------------------------------------------------------------
  // Brave AI

  datatype BraveAIResult = BraveAIResult(
    manufacturer: Option<string>, model: Option<string>, structuredData: Option<Dict<string, string>>,
    rawResponse: Option<string>, sourceUrl: Option<string>)

  /** A description that looks like table data. */
  predicate LooksStructured(description: string) {
    var low := Lower(description);
    Contains(low, "keywords") || Contains(low, "labels") || Contains(low, "\t")
    || Contains(low, "model") || Contains(low, "manufacturer")
  }

  predicate NonBlank(s: Option<string>) {
    s.Some? && Trim(s.value) != ""
  }

  predicate Qualifies(description: Option<string>) {
    NonBlank(description) && LooksStructured(description.value)
  }

  /** The loop over the results: the position of the first item whose
      description qualifies. Each item reached is cast to a map and has its
      description and title cast to strings; items after the chosen one are
      not looked at. */
  function FirstStructured(items: seq<Json>, from: nat): (r: Result<Option<nat>>)
    requires from <= |items|
    ensures r.Ok? && r.value.Some? ==>
              from <= r.value.value < |items| && items[r.value.value].JObj?
              && Qualifies(StrOr(items[r.value.value].fields, "description"))
    decreases |items| - from
  {
    if from == |items| then Ok(None)
    else
      match items[from]
      case JObj(obj) =>
        GetStringField(obj, "description");
        var d :- GetString(obj, "description");
        var _ :- GetString(obj, "title");
        if Qualifies(d) then Ok(Some(from)) else FirstStructured(items, from + 1)
      case JNull => Err(NullPointer)
      case _ => Err(CastError)
  }

  /** What the chosen item contributes: its description parsed as a table,
      the description itself and the item's `url`. */
  function TakeItem(base: BraveAIResult, obj: Object, description: string): (r: Result<BraveAIResult>)
    ensures r.Ok? <==> StringOrNull(obj, "url")
    ensures r.Ok? ==> r.value == base.(structuredData := Some(StructuredTable.ParseStructuredTable(Some(description))),
                                       rawResponse := Some(description), sourceUrl := StrOr(obj, "url"))
  {
    GetStringField(obj, "url");
    var url :- GetString(obj, "url");
    Ok(base.(structuredData := Some(StructuredTable.ParseStructuredTable(Some(description))),
             rawResponse := Some(description), sourceUrl := url))
  }

  /** `parseBraveAIResults`. */
  function ParseBraveAIResults(response: Option<Object>, manufacturer: Option<string>, model: Option<string>)
    : (r: Result<BraveAIResult>)
    ensures r.Ok? ==> r.value.manufacturer == manufacturer && r.value.model == model
    ensures r.Ok? ==> (r.value.rawResponse.None? <==> r.value.structuredData.None?)
    ensures r.Ok? && r.value.rawResponse.None? ==> r.value.sourceUrl.None?
    ensures r.Ok? && r.value.rawResponse.Some? ==>
              Trim(r.value.rawResponse.value) != ""
              && r.value.structuredData == Some(StructuredTable.ParseStructuredTable(r.value.rawResponse))
  {
    var base := BraveAIResult(manufacturer, model, None, None, None);
    var items :- BraveItems(response);
    if |items| == 0 then Ok(base)
    else
      var chosen :- FirstStructured(items, 0);
      match chosen
      case Some(i) => TakeItem(base, items[i].fields, StrOr(items[i].fields, "description").value)
      case None =>
        // Every item passed the loop's casts, the first one included.
        var first := items[0].fields;
        var d := StrOr(first, "description");
        if NonBlank(d) then TakeItem(base, first, d.value) else Ok(base)
  }

  /** The `web.results` list of a Brave AI response; absent parts read as
      no items. */
  function BraveItems(response: Option<Object>): (r: Result<seq<Json>>)
    ensures r == ItemsAt(response, Some("web"), "results")
  {
    ItemsAt(response, Some("web"), "results")
  }

  /** A response whose items are all maps with string-or-null description,
      title and url fields. */
  predicate WellTyped(items: seq<Json>) {
    forall i :: 0 <= i < |items| ==>
      items[i].JObj? && StringOrNull(items[i].fields, "description")
      && StringOrNull(items[i].fields, "title") && StringOrNull(items[i].fields, "url")
  }

  function DescriptionAt(items: seq<Json>, i: nat): Option<string>
    requires i < |items| && items[i].JObj?
  {
    StrOr(items[i].fields, "description")
  }

  /** One step of the scan over well-typed items. */
  lemma FirstStructuredStep(items: seq<Json>, from: nat)
    requires WellTyped(items) && from < |items|
    ensures FirstStructured(items, from) ==
            if Qualifies(DescriptionAt(items, from)) then Ok(Some(from)) else FirstStructured(items, from + 1)
  {
    var obj := items[from].fields;
    GetStringField(obj, "description");
    GetStringField(obj, "title");
    assert GetString(obj, "description") == Ok(DescriptionAt(items, from));
  }

  /** The scan finds the first qualifying item of well-typed items. */
  lemma {:induction false} FirstStructuredFinds(items: seq<Json>, from: nat, k: nat)
    requires WellTyped(items) && from <= k < |items|
    requires Qualifies(DescriptionAt(items, k))
    requires forall j :: from <= j < k ==> !Qualifies(DescriptionAt(items, j))
    ensures FirstStructured(items, from) == Ok(Some(k))
    decreases k - from
  {
    FirstStructuredStep(items, from);
    if from < k {
      FirstStructuredFinds(items, from + 1, k);
    }
  }

  /** Without a qualifying item the scan of well-typed items finds none. */
  lemma {:induction false} FirstStructuredNone(items: seq<Json>, from: nat)
    requires WellTyped(items) && from <= |items|
    requires forall j :: from <= j < |items| ==> !Qualifies(DescriptionAt(items, j))
    ensures FirstStructured(items, from) == Ok(None)
    decreases |items| - from
  {
    if from < |items| {
      FirstStructuredStep(items, from);
      FirstStructuredNone(items, from + 1);
    }
  }

  /** The Brave AI choice: the first item with a qualifying description
      supplies raw text, table and address together. */
  lemma BraveAIPicksFirstStructured(response: Option<Object>, m: Option<string>, n: Option<string>, k: nat)
    requires BraveItems(response).Ok?
    requires var items := BraveItems(response).value;
      && WellTyped(items) && k < |items| && Qualifies(DescriptionAt(items, k))
      && forall j :: 0 <= j < k ==> !Qualifies(DescriptionAt(items, j))
    ensures var items := BraveItems(response).value;
      var d := DescriptionAt(items, k);
      ParseBraveAIResults(response, m, n) ==
        Ok(BraveAIResult(m, n, Some(StructuredTable.ParseStructuredTable(d)), d, StrOr(items[k].fields, "url")))
  {
    var items := BraveItems(response).value;
    FirstStructuredFinds(items, 0, k);
    GetStringField(items[k].fields, "url");
  }

  /** Otherwise the first item is used when its description is non-blank,
      and nothing is set when it is blank. */
  lemma BraveAIFallsBackToFirst(response: Option<Object>, m: Option<string>, n: Option<string>)
    requires BraveItems(response).Ok?
    requires var items := BraveItems(response).value;
      && WellTyped(items) && |items| > 0
      && forall j :: 0 <= j < |items| ==> !Qualifies(DescriptionAt(items, j))
    ensures var items := BraveItems(response).value;
      var d := DescriptionAt(items, 0);
      ParseBraveAIResults(response, m, n) ==
        if NonBlank(d)
        then Ok(BraveAIResult(m, n, Some(StructuredTable.ParseStructuredTable(d)), d, StrOr(items[0].fields, "url")))
        else Ok(BraveAIResult(m, n, None, None, None))
  {
    var items := BraveItems(response).value;
    FirstStructuredNone(items, 0);
    GetStringField(items[0].fields, "url");
  }

  // ---------------------------------------------------------------------
  // The guard around every search

  /** A search method's skeleton. Missing credentials return `empty` before
      the quota is consulted. A refused `canMakeRequest` returns `empty`
      after reading the remaining quota for the log. Otherwise the request
      is made at `sentAt`; a failed exchange or a parse that throws returns
      `empty` without recording, and a parsed response is recorded.
      `nullIsEmpty` is the Google image search's early return on a null
      body, which also skips the record. */
  function Guarded<T>(configured: bool, st: Quota.State, cfg: Quota.Config, service: string,
                      checkAt: Clock.DateTime, sentAt: Clock.DateTime, fetch: Fetch,
                      parse: Option<Object> -> Result<T>, empty: T, nullIsEmpty: bool): (r: (T, Quota.State))
    requires Quota.WellFormed(st) && Clock.Valid(checkAt) && Clock.Valid(sentAt)
    ensures Quota.WellFormed(r.1)
    ensures !configured ==> r == (empty, st)
    ensures configured && !Quota.CanMakeRequest(st, cfg, service, checkAt).0 ==>
              r.0 == empty
              && r.1 == Quota.EnsureTracking(Quota.CanMakeRequest(st, cfg, service, checkAt).1, service, checkAt)
    ensures r.1.lastRequest != st.lastRequest ==>
              && configured && Quota.CanMakeRequest(st, cfg, service, checkAt).0
              && fetch.Fetched? && !(nullIsEmpty && fetch.body.None?) && parse(fetch.body).Ok?
              && r.0 == parse(fetch.body).value
              && r.1 == Quota.RecordRequest(Quota.CanMakeRequest(st, cfg, service, checkAt).1, service, sentAt)
    ensures configured && Quota.CanMakeRequest(st, cfg, service, checkAt).0 ==>
              if fetch.Fetched? && !(nullIsEmpty && fetch.body.None?) && parse(fetch.body).Ok? then
                r.0 == parse(fetch.body).value
                && r.1 == Quota.RecordRequest(Quota.CanMakeRequest(st, cfg, service, checkAt).1, service, sentAt)
              else
                r.0 == empty && r.1 == Quota.CanMakeRequest(st, cfg, service, checkAt).1
  {
    if !configured then (empty, st)
    else
      var (allowed, st1) := Quota.CanMakeRequest(st, cfg, service, checkAt);
      if !allowed then (empty, Quota.RemainingQuota(st1, cfg, service, checkAt).1)
      else
        match fetch
        case FetchFailed => (empty, st1)
        case Fetched(body) =>
          if nullIsEmpty && body.None? then (empty, st1)
          else
            match parse(body)
            case Err(_) => (empty, st1)
            case Ok(v) => (v, Quota.RecordRequest(st1, service, sentAt))
  }

  /** A request is recorded only after a response was parsed: a search that
      returns `empty` because of missing credentials, a refusal, a failed
      exchange or a throwing parser leaves the last-request time alone. */
  lemma RecordOnlyOnSuccess<T>(configured: bool, st: Quota.State, cfg: Quota.Config, service: string,
                               checkAt: Clock.DateTime, sentAt: Clock.DateTime, fetch: Fetch,
                               parse: Option<Object> -> Result<T>, empty: T, nullIsEmpty: bool)
    requires Quota.WellFormed(st) && Clock.Valid(checkAt) && Clock.Valid(sentAt)
    ensures var r := Guarded(configured, st, cfg, service, checkAt, sentAt, fetch, parse, empty, nullIsEmpty);
      (r.1.lastRequest == st.lastRequest[service := sentAt] || r.1.lastRequest == st.lastRequest)
      && (fetch.FetchFailed? || !configured ==> r.1.lastRequest == st.lastRequest && r.0 == empty)
  {
  }

  /** `searchGoogle`, `searchBing`, `searchBrave`: both Google settings are
      needed, the others need their one key. */
  function SearchGoogle(apiKey: Option<string>, engineId: Option<string>, st: Quota.State, cfg: Quota.Config,
                        checkAt: Clock.DateTime, sentAt: Clock.DateTime, fetch: Fetch): (r: (seq<SearchResult>, Quota.State))
    requires Quota.WellFormed(st) && Clock.Valid(checkAt) && Clock.Valid(sentAt)
    ensures (apiKey.None? || apiKey.value == "" || engineId.None? || engineId.value == "") ==> r == ([], st)
    ensures Quota.WellFormed(r.1)
  {
    Guarded(Configured(apiKey) && Configured(engineId), st, cfg, "google", checkAt, sentAt, fetch,
            ParseGoogleResults, [], false)
  }

  predicate Configured(key: Option<string>) {
    key.Some? && key.value != ""
  }

  function SearchBing(apiKey: Option<string>, st: Quota.State, cfg: Quota.Config,
                      checkAt: Clock.DateTime, sentAt: Clock.DateTime, fetch: Fetch): (r: (seq<SearchResult>, Quota.State))
    requires Quota.WellFormed(st) && Clock.Valid(checkAt) && Clock.Valid(sentAt)
    ensures !Configured(apiKey) ==> r == ([], st)
    ensures Quota.WellFormed(r.1)
  {
    Guarded(Configured(apiKey), st, cfg, "bing", checkAt, sentAt, fetch, ParseBingResults, [], false)
  }

  function SearchBrave(apiKey: Option<string>, st: Quota.State, cfg: Quota.Config,
                       checkAt: Clock.DateTime, sentAt: Clock.DateTime, fetch: Fetch): (r: (seq<SearchResult>, Quota.State))
    requires Quota.WellFormed(st) && Clock.Valid(checkAt) && Clock.Valid(sentAt)
    ensures !Configured(apiKey) ==> r == ([], st)
    ensures Quota.WellFormed(r.1)
  {
    Guarded(Configured(apiKey), st, cfg, "brave", checkAt, sentAt, fetch, ParseBraveResults, [], false)
  }

  function SearchGoogleImages(apiKey: Option<string>, engineId: Option<string>, st: Quota.State,
                              cfg: Quota.Config, checkAt: Clock.DateTime, sentAt: Clock.DateTime, fetch: Fetch)
    : (r: (seq<ImageResult>, Quota.State))
    requires Quota.WellFormed(st) && Clock.Valid(checkAt) && Clock.Valid(sentAt)
    ensures !(Configured(apiKey) && Configured(engineId)) ==> r == ([], st)
    ensures fetch == Fetched(None) ==> r.0 == [] && r.1.lastRequest == st.lastRequest
    ensures Quota.WellFormed(r.1)
  {
    Guarded(Configured(apiKey) && Configured(engineId), st, cfg, "google", checkAt, sentAt, fetch,
            ParseGoogleImageResults, [], true)
  }

  function SearchBingImages(apiKey: Option<string>, st: Quota.State, cfg: Quota.Config,
                            checkAt: Clock.DateTime, sentAt: Clock.DateTime, fetch: Fetch): (r: (seq<ImageResult>, Quota.State))
    requires Quota.WellFormed(st) && Clock.Valid(checkAt) && Clock.Valid(sentAt)
    ensures !Configured(apiKey) ==> r == ([], st)
    ensures Quota.WellFormed(r.1)
  {
    Guarded(Configured(apiKey), st, cfg, "bing", checkAt, sentAt, fetch, ParseBingImageResults, [], false)
  }

  function SearchBraveImages(apiKey: Option<string>, st: Quota.State, cfg: Quota.Config,
                             checkAt: Clock.DateTime, sentAt: Clock.DateTime, fetch: Fetch): (r: (seq<ImageResult>, Quota.State))
    requires Quota.WellFormed(st) && Clock.Valid(checkAt) && Clock.Valid(sentAt)
    ensures !Configured(apiKey) ==> r == ([], st)
    ensures Quota.WellFormed(r.1)
  {
    Guarded(Configured(apiKey), st, cfg, "brave", checkAt, sentAt, fetch, ParseBraveImageResults, [], false)
  }

  /** `searchBraveAI`: null instead of an empty list. */
  function SearchBraveAI(apiKey: Option<string>, manufacturer: Option<string>, model: Option<string>,
                         st: Quota.State, cfg: Quota.Config, checkAt: Clock.DateTime, sentAt: Clock.DateTime, fetch: Fetch)
    : (r: (Option<BraveAIResult>, Quota.State))
    requires Quota.WellFormed(st) && Clock.Valid(checkAt) && Clock.Valid(sentAt)
    ensures !Configured(apiKey) ==> r == (None, st)
    ensures r.0.Some? ==> r.0.value.manufacturer == manufacturer && r.0.value.model == model
    ensures Quota.WellFormed(r.1)
  {
    Guarded(Configured(apiKey), st, cfg, "brave", checkAt, sentAt, fetch,
            (body: Option<Object>) => ParseAsSome(body, manufacturer, model), None, false)
  }

  function ParseAsSome(body: Option<Object>, manufacturer: Option<string>, model: Option<string>)
    : (r: Result<Option<BraveAIResult>>)
    ensures r.Ok? ==> r.value.Some? && r.value.value.manufacturer == manufacturer && r.value.value.model == model
  {
    var v :- ParseBraveAIResults(body, manufacturer, model);
    Ok(Some(v))
  }
}
