# CalCol core, modelled in Dafny

CalCol is a web application for cataloguing vintage calculators. Users keep a
collection and a wishlist. They attach labels, links and images to catalogue
entries. They share collections through tokens and export and import data.
An administrator can "enrich" a calculator from web, image, museum and AI
searches. This project models the deterministic core of that application as
pure Dafny functions over immutable datatypes, and proves what the code
promises about it.

Models by area:

- **Enrichment search query** (`SearchQuery`). The query is built from
  manufacturer, model, years, type word, "vintage" and raw text. Cleaning
  removes punctuation and de-duplicates terms ignoring case, first one wins.
  The image query is also modelled.
- **Provider responses** (`WebSearch`, `StructuredTable`). Per-provider
  normalisers, the Brave "AI" result selection, and the guard of every search
  method: credentials, quota, and recording only on success. The
  line-oriented table parser with its keyword fallback.
- **Quota** (`Quota`). Rate test, monthly counter with calendar-month
  rollover, remaining quota and status report. Time is a parameter.
- **Enrichment merge** (`Enrichment`, `HtmlClean`, `TextPatterns`,
  `SpecTable`, `EnrichAnalysis`, `EnrichDescription`, `EnrichLinks`,
  `EnrichController`):
  - per-group failure isolation;
  - HTML cleaning;
  - the hand-coded regular expressions;
  - first-wins specification table and fact set;
  - description assembly;
  - the JSON key rules, the persist / nothing-retrieved decision, and
    length-bounded link creation.
- **Social media posts** (`SocialPost`). Platform dispatch, the seven post
  builders, and `extractShortFact`.
- **AI and museum searches** (`AISearch`, `MuseumSearch`). Prompt building,
  link extraction, response parsing and provider dispatch. The museum snippet
  window, site filtering and search URLs.
- **Export and import** (`CsvExport`, `JsonExport`, `CollectionImport`,
  `DataImport`, `Jackson`). CSV escaping with a reader of line-feed-ended
  records that unquotes fields as section 2 of RFC 4180 does, JSON export node layout, and the user-collection and full-data
  imports.
- **Statistics** (`Statistics`). Manufacturer, period and label bucketing.
- **Labels** (`LabelKeywords`, `LabelText`, `LabelDerivation`, `Labels`).
  The keyword table, search text and keyword test; the two derivation loops;
  label CRUD.
- **Stores with permission rules** (`LinkStore`, `Collection`, `Wishlist`,
  `Images`, `Shares`, `Users`). Links, collection entries, wishlist items and
  marketplace URLs, images and their moderation, shared collections, users
  and password-reset tokens.
- **Start-up catalogue load** (`DataInit`). Manufacturer-field splitting,
  model-name fallback, the per-run manufacturer cache and the transaction
  outcomes.

Shared vocabulary:

- `JavaText` models `String` methods: `trim`, ASCII case folding, `split`,
  `replace` and `\s+` collapsing.
- `Clock` models `LocalDateTime`.
- `FormEncoding` models `URLEncoder`: UTF-8 per RFC 3629 and the
  `application/x-www-form-urlencoded` rules of section 17.13.4.1 of HTML 4.01.
- `Json` and `Jackson` model provider payloads and `JsonNode` accessors.
- `OrderedMap` and `OrderedSet` model `LinkedHashMap` and `LinkedHashSet`.
- `Catalog` holds the manufacturer, calculator and label tables.

Repositories are maps keyed by id or natural key, with an identity counter.
Things the code cannot compute are parameters:

- the current time;
- HTTP exchanges and their outcomes;
- UUID tokens;
- the password encoder's output and its `matches` function;
- the relevance filters `filterSearchResults` and `filterImageResults`,
  which are not defined in the service source;
- the processor and operating-system patterns.

Java `String` lengths are counted in UTF-16 units. Every emoji in a post is
two units.

## Model

| member | source | states |
|---|---|---|
| SearchQuery.StripPunctuation | src/main/java/com/example/CalCol/service/EnrichmentService.java:243 | each listed punctuation character becomes a space, every other character (hyphen, period, apostrophe included) stays, and no listed character survives |
| SearchQuery.DedupLoopIsFirstOccurrences | src/main/java/com/example/CalCol/service/EnrichmentService.java:246-264 | the seen-set loop keeps exactly the first occurrence, ignoring case, of every non-blank term, trimmed and in order |
| SearchQuery.FirstOccurrencesCover | src/main/java/com/example/CalCol/service/EnrichmentService.java:246-264 | de-duplication loses no term: the lower-cased forms kept are exactly those of the input |
| SearchQuery.CleanIsJoinedTerms | src/main/java/com/example/CalCol/service/EnrichmentService.java:236-267 | the cleaned query is the kept terms joined by single spaces |
| SearchQuery.CleanShape | src/main/java/com/example/CalCol/service/EnrichmentService.java:236-267 | cleaned terms are non-empty, trimmed, free of whitespace and stripped punctuation, and pairwise different ignoring case; splitting the result gives them back |
| SearchQuery.NoTermsInBlank | src/main/java/com/example/CalCol/service/EnrichmentService.java:237-239 | a query of blank units only yields no terms |
| SearchQuery.CleanIdempotent | src/main/java/com/example/CalCol/service/EnrichmentService.java:236-267 | cleaning a cleaned query gives it back unchanged |
| SearchQuery.TypeWordPriority | src/main/java/com/example/CalCol/service/EnrichmentService.java:189-202 | the type word depends only on which labels are present: mechanical over electromechanical over electronic, whatever the label order |
| SearchQuery.RawQueryTerms | src/main/java/com/example/CalCol/service/EnrichmentService.java:185-231 | before cleaning, the terms are manufacturer and model words, the present years, the type word, "calculator", "vintage" unless first sold after 2000, then the raw text words |
| SearchQueryExample.HP35SQuery | src/main/java/com/example/CalCol/service/EnrichmentService.java:185-231 | the HP 35S entry (sold from 1972, raw text "HP; scientific, pocket", no labels) gives the query "HP 35S 1972 electronic calculator vintage scientific pocket" |
| SearchQueryExample.HP35SImageQuery | src/main/java/com/example/CalCol/service/EnrichmentService.java:272-279 | the same entry's image query is that query followed by "image" |
| SearchQuery.ImageQueryTerms | src/main/java/com/example/CalCol/service/EnrichmentService.java:272-279 | the image query is the enhanced query's terms with "image" appended unless a term already equals it ignoring case |
| SearchQuery.CleanAppendWord | src/main/java/com/example/CalCol/service/EnrichmentService.java:272-279 | cleaning a clean query plus one clean word appends the word unless an equal term is already there |
| Enrichment.CombineGroup | src/main/java/com/example/CalCol/service/EnrichmentService.java:67-80 | a group succeeds iff every provider's filtered list does; its length is the sum of the three |
| Enrichment.CombineGroupOrder | src/main/java/com/example/CalCol/service/EnrichmentService.java:76-79 | the combined list is Google's block, then Bing's, then Brave's |
| Enrichment.Enrich | src/main/java/com/example/CalCol/service/EnrichmentService.java:63-143 | each enrichment field is set exactly when its own search succeeded (Brave AI also needs a non-null result), with that search's value |
| Enrichment.FailureIsLocal | src/main/java/com/example/CalCol/service/EnrichmentService.java:63-143 | a failing search, whether the web group, the image group, Brave AI, the museums or AI, leaves every other field as it would have been and only its own field empty |
| Enrichment.AIDescription | src/main/java/com/example/CalCol/service/EnrichmentService.java:135 | the AI search gets the raw row text, or "" when there is none |
| Enrichment.DescriptionsOrEmpty | src/main/java/com/example/CalCol/service/EnrichmentService.java:50-52 | label descriptions are passed index for index, a missing one as "" |
| WebSearch.GetStringField | src/main/java/com/example/CalCol/service/WebSearchService.java:341-345 | a `(String)` cast of a field succeeds exactly on string or missing fields |
| WebSearch.ParseGoogleResults | src/main/java/com/example/CalCol/service/WebSearchService.java:329-350 | one result per `items` element in order, from title, link and snippet; no items gives an empty list |
| WebSearch.ParseBingResults | src/main/java/com/example/CalCol/service/WebSearchService.java:352-379 | one result per `webPages.value` element in order, from name, url and snippet |
| WebSearch.ParseBraveResults | src/main/java/com/example/CalCol/service/WebSearchService.java:381-408 | one result per `web.results` element in order, from title, url and description |
| WebSearch.ParseBingImageResults | src/main/java/com/example/CalCol/service/WebSearchService.java:655-688 | one "Bing" result per item in order, an item without an image URL included; width and height only from numbers |
| WebSearch.ParseBraveImageResults | src/main/java/com/example/CalCol/service/WebSearchService.java:690-723 | one "Brave" result per item in order; width and height only from numbers |
| WebSearch.ParseGoogleImageResults | src/main/java/com/example/CalCol/service/WebSearchService.java:589-653 | an `error` member or missing items gives nothing; otherwise one "Google" result per item whose body does not throw, in order; an `error` that is neither object nor null, or `items` that is neither array nor null, makes the call throw |
| WebSearch.FirstStructuredFinds | src/main/java/com/example/CalCol/service/WebSearchService.java:429-449 | the scan stops at the first item whose non-blank description mentions keywords, labels, a tab, model or manufacturer |
| WebSearch.BraveAIPicksFirstStructured | src/main/java/com/example/CalCol/service/WebSearchService.java:410-477 | the first qualifying item supplies the raw response, the parsed table and the source URL together |
| WebSearch.BraveAIFallsBackToFirst | src/main/java/com/example/CalCol/service/WebSearchService.java:451-461 | with no qualifying item, the first item is used when its description is non-blank, and nothing is set otherwise |
| WebSearch.RecordOnlyOnSuccess | src/main/java/com/example/CalCol/service/WebSearchService.java:42-75 | missing credentials, a quota refusal, a failed exchange or a throwing parser return empty and record nothing; a parsed response is recorded once |
| WebSearch.SearchGoogle | src/main/java/com/example/CalCol/service/WebSearchService.java:42-75 | Google needs both settings; a missing one returns empty without consulting the quota |
| WebSearch.SearchBing | src/main/java/com/example/CalCol/service/WebSearchService.java:80-113 | Bing follows the guarded contract with its one key |
| WebSearch.SearchBrave | src/main/java/com/example/CalCol/service/WebSearchService.java:248-283 | Brave web search follows the guarded contract with its one key |
| WebSearch.SearchGoogleImages | src/main/java/com/example/CalCol/service/WebSearchService.java:118-165 | Google image search follows the guarded contract |
| WebSearch.SearchBingImages | src/main/java/com/example/CalCol/service/WebSearchService.java:170-203 | Bing image search follows the guarded contract |
| WebSearch.SearchBraveImages | src/main/java/com/example/CalCol/service/WebSearchService.java:208-243 | Brave image search follows the guarded contract |
| WebSearch.SearchBraveAI | src/main/java/com/example/CalCol/service/WebSearchService.java:289-327 | Brave AI returns null, not an empty list, on every failure path and records only after parsing |
| StructuredTable.ScanFromStartEntries | src/main/java/com/example/CalCol/service/WebSearchService.java:494-566 | a scan from the start never stores a blank key or value, a key equal to its value, or a header name |
| StructuredTable.ParseStructuredTable | src/main/java/com/example/CalCol/service/WebSearchService.java:484-587 | null or blank text gives an empty map; otherwise line entries, or the keyword fallback only when none and the text exceeds 50 units |
| StructuredTable.PipeLineRow | src/main/java/com/example/CalCol/service/WebSearchService.java:517-550 | a `\| key \| value \|` row after a header or separator stores value under key |
| StructuredTable.ParseOfTable | src/main/java/com/example/CalCol/service/WebSearchService.java:568-569 | text whose lines yield an entry is read by the line scan alone; the fallback does not run |
| StructuredTable.ExampleTableParse | src/main/java/com/example/CalCol/service/WebSearchService.java:505-550 | the keywords/labels example table parses to Model = HP-35 and Year = 1972 |
| StructuredTable.FindAll | src/main/java/com/example/CalCol/service/WebSearchService.java:572-582 | the fallback loop adds only entries whose key is one of the thirteen keywords, as written in the text, with a non-blank trimmed value |
| StructuredTable.FindAllLastWins | src/main/java/com/example/CalCol/service/WebSearchService.java:572-582 | the value stored under a key is that of the last match in the text with that key and a non-blank value, and the earlier map's value when there is none |
| StructuredTable.Fallback | src/main/java/com/example/CalCol/service/WebSearchService.java:569-584 | the keyword fallback runs only on text longer than 50 units and then stores exactly what the match loop finds |
| Quota.MonthStart | src/main/java/com/example/CalCol/service/QuotaService.java:177-190 | the anchor is day 1, 00:00:00 of the month of now (keeping the nanoseconds) |
| Quota.EnsureTracking | src/main/java/com/example/CalCol/service/QuotaService.java:177-190 | with no anchor or a different month, usage becomes 0 and the anchor the month start; otherwise nothing changes |
| Quota.CanMakeRequest | src/main/java/com/example/CalCol/service/QuotaService.java:58-72 | passes iff the rate test passes and usage after rollover is below the limit; never changes the last request time or increments usage |
| Quota.RecordRequest | src/main/java/com/example/CalCol/service/QuotaService.java:78-81 | sets the last request time to now and raises the (rolled-over) counter by exactly one |
| Quota.RemainingQuota | src/main/java/com/example/CalCol/service/QuotaService.java:88-92 | max(0, limit - used) after a possible rollover |
| Quota.StatusOf | src/main/java/com/example/CalCol/service/QuotaService.java:196-229 | a status entry carries the service's monthly limit, the month's usage (zero after a rollover), the remaining requests clamped at zero, the rate limit, whether a request may be made now, and a next reset one month after the (possibly new) anchor, day 1, 00:00 of the following month; the tracking entry is created or rolled over as for a request |
| Quota.AllQuotaStatus | src/main/java/com/example/CalCol/service/QuotaService.java:196-221 | one entry per service brave, google, bing and ai, each equal to the status the service reports on its own in the starting state |
| Quota.TrackingLeavesOthers | src/main/java/com/example/CalCol/service/QuotaService.java:177-190 | creating or rolling over one service's counter leaves every other service's status unchanged |
| Quota.StatusListEntries | src/main/java/com/example/CalCol/service/QuotaService.java:199-218 | over distinct services, each entry the loop builds is the status of its service in the state before the loop |
| Quota.FirstCheckPassesRate | src/main/java/com/example/CalCol/service/QuotaService.java:134-138 | a service with no recorded request passes the rate test |
| Quota.HalfSecondAfterBraveRequestIsRefused | src/main/java/com/example/CalCol/service/QuotaService.java:140-154 | with the default brave rate of 1, a check 500 ms after a recorded request fails and one 1000 ms after passes |
| Quota.AdmittedRecordKeepsBound | src/main/java/com/example/CalCol/service/QuotaService.java:157-164 | a request recorded after a passing check keeps usage within the monthly limit |
| Quota.RunKeepsUsageWithinLimit | src/main/java/com/example/CalCol/service/QuotaService.java:58-81 | in any sequential run that records only after a passing check, no counter ever exceeds its limit |
| Quota.RemainingBounded | src/main/java/com/example/CalCol/service/QuotaService.java:88-92 | remaining quota lies between 0 and the limit |
| HtmlClean.RemoveTags | src/main/java/com/example/CalCol/controller/CalculatorController.java:1118 | the result is no longer than the text and made only of its units, and a first unit other than `<` is kept |
| HtmlClean.RemoveTagsKeepsPlain | src/main/java/com/example/CalCol/controller/CalculatorController.java:1118 | text with no `<` is kept whole and in order, and removal goes on after it |
| HtmlClean.RemoveTagsDeletesTag | src/main/java/com/example/CalCol/controller/CalculatorController.java:1118 | a tag `<t>` with a non-empty body without `>` is deleted and nothing else: the text before it is kept and removal goes on after it |
| HtmlClean.RemoveTagsTagFree | src/main/java/com/example/CalCol/controller/CalculatorController.java:1118 | no tag is left after removal |
| HtmlClean.RemoveTagsIdempotent | src/main/java/com/example/CalCol/controller/CalculatorController.java:1118 | removing tags twice is removing them once |
| HtmlClean.DoubleDecoding | src/main/java/com/example/CalCol/controller/CalculatorController.java:1121-1127 | entities are decoded one after another, so "&amp;lt;" becomes "<" |
| HtmlClean.DecodeWithoutAmpersand | src/main/java/com/example/CalCol/controller/CalculatorController.java:1121-1127 | text without `&` is left as it is by decoding |
| HtmlClean.CleanHtmlTags | src/main/java/com/example/CalCol/controller/CalculatorController.java:1112-1133 | null or blank gives null; otherwise the result is trimmed with single spaces |
| HtmlClean.CleanPlainText | src/main/java/com/example/CalCol/controller/CalculatorController.java:1112-1133 | trimmed text without tags or ampersands whose only whitespace is lone spaces comes back unchanged |
| HtmlClean.CollapseSingleSpaced | src/main/java/com/example/CalCol/controller/CalculatorController.java:1130 | collapsing `\s+` to one space leaves text whose only whitespace is lone spaces unchanged |
| TextPatterns.FindIs | src/main/java/com/example/CalCol/controller/CalculatorController.java:773-774 | `find()` reports the leftmost matching position, whatever follows |
| TextPatterns.DisplayAt | src/main/java/com/example/CalCol/controller/CalculatorController.java:771-776 | the display match between word boundaries gives the matched text upper-cased |
| TextPatterns.WidthAt | src/main/java/com/example/CalCol/controller/CalculatorController.java:779-784 | the width pattern captures the whole first digit run after the keyword |
| TextPatterns.ResolutionAt | src/main/java/com/example/CalCol/controller/CalculatorController.java:787-792 | the resolution pattern captures width and height digit runs |
| TextPatterns.DateAt | src/main/java/com/example/CalCol/controller/CalculatorController.java:844-849 | a date match yields "<verb as written> <year>" |
| TextPatterns.DatesFrom | src/main/java/com/example/CalCol/controller/CalculatorController.java:847-849 | every non-overlapping date match, in order; none exactly when no position matches |
| TextPatterns.DatesFromFirst | src/main/java/com/example/CalCol/controller/CalculatorController.java:847-849 | the matches start with the date at the first matching position and continue after that match's end |
| TextPatterns.PriceAt | src/main/java/com/example/CalCol/controller/CalculatorController.java:852-857 | a price match captures the amount after an optional "of" and dollar sign |
| TextPatterns.PowerSupplyAsWritten | src/main/java/com/example/CalCol/controller/CalculatorController.java:811-832 | the power-supply chain as written: a count match in a battery text fails |
| TextPatterns.PowerSupply | src/main/java/com/example/CalCol/controller/CalculatorController.java:811-832 | the chain with the battery word captured; "Batteries" without a count, then solar, USB, external and AC adapter; it never fails |
| TextPatterns.BatteryCountAborts | src/main/java/com/example/CalCol/controller/CalculatorController.java:813-817 | a text mentioning "batter" with a count such as "2 AA" makes the as-written chain fail |
| TextPatterns.BatteryCountReported | src/main/java/com/example/CalCol/controller/CalculatorController.java:813-817 | with the word captured, the same text gives "<count>x <word>" |
| SpecTable.SpecsFromOffer | src/main/java/com/example/CalCol/controller/CalculatorController.java:770-832 | one text's pass keeps a present key's value and stores an absent key's offer |
| SpecTable.BuildSpecsFirstWins | src/main/java/com/example/CalCol/controller/CalculatorController.java:765-833 | each table entry is the value of the earliest text offering one for its key; a key no text offers is absent |
| SpecTable.SpecsOverAsWritten | src/main/java/com/example/CalCol/controller/CalculatorController.java:765-833 | the as-written passes: the power chain runs only while the key is absent and a throw ends the extraction |
| SpecTable.ThrowingSourceAborts | src/main/java/com/example/CalCol/controller/CalculatorController.java:811-817 | extraction fails once a throwing power text is reached while no earlier text set the power supply |
| EnrichAnalysis.SnippetTexts | src/main/java/com/example/CalCol/controller/CalculatorController.java:735-742 | the cleaned form of every filled snippet, in order, never more than there are snippets, and none exactly when no snippet is filled |
| EnrichAnalysis.WebTexts | src/main/java/com/example/CalCol/controller/CalculatorController.java:735-742 | the cleaned snippets of every web result with a non-blank snippet, in order; no result is excluded, and there are none exactly when no snippet is filled |
| EnrichAnalysis.MuseumTexts | src/main/java/com/example/CalCol/controller/CalculatorController.java:755-762 | the cleaned snippets of museum results with a non-blank snippet, in order, none exactly when no snippet is filled |
| EnrichAnalysis.Analysed | src/main/java/com/example/CalCol/controller/CalculatorController.java:765-768 | exactly the non-blank texts, in order |
| EnrichAnalysis.ExtractSpecsFirstWins | src/main/java/com/example/CalCol/controller/CalculatorController.java:732-833 | an entry is the value of the earliest non-blank text offering one for its key |
| EnrichAnalysis.ExtractSpecsAsWritten | src/main/java/com/example/CalCol/controller/CalculatorController.java:765-833 | the as-written extraction equals the corrected table whenever it does not throw |
| EnrichAnalysis.BatterySourceAborts | src/main/java/com/example/CalCol/controller/CalculatorController.java:811-817 | the enrichment aborts when the first text settling the power supply mentions batteries with a count |
| EnrichAnalysis.FactsOfSound | src/main/java/com/example/CalCol/controller/CalculatorController.java:841-857 | every fact of a text is a date match or its first price match |
| EnrichAnalysis.ExtractFacts | src/main/java/com/example/CalCol/controller/CalculatorController.java:836-859 | facts are collected once each, in first-occurrence order, exactly when some analysed text yields them; the list equals the first occurrences of all texts' facts in order |
| OrderedSet.AddEachFirstOccurrences | src/main/java/com/example/CalCol/controller/CalculatorController.java:836-859 | adding every list's elements to an initially empty insertion-ordered set gives exactly the first occurrences of their concatenation |
| EnrichDescription.LinesAt | src/main/java/com/example/CalCol/controller/CalculatorController.java:868-870 | the i-th item is the i-th bullet line, between the lines of the items before and after |
| EnrichDescription.StructuredBlock | src/main/java/com/example/CalCol/controller/CalculatorController.java:708-714 | a non-empty table gives its heading, one line per entry and a blank line |
| EnrichDescription.RawBlock | src/main/java/com/example/CalCol/controller/CalculatorController.java:715-717 | a non-blank raw answer gives its heading and text |
| EnrichDescription.SpecsBlock | src/main/java/com/example/CalCol/controller/CalculatorController.java:862-872 | one `- key: value` line per table entry, in table order |
| EnrichDescription.FactsBlock | src/main/java/com/example/CalCol/controller/CalculatorController.java:875-885 | facts are headed "Key Information" when they open the description, "Additional Information" otherwise |
| EnrichDescription.Shorten | src/main/java/com/example/CalCol/controller/CalculatorController.java:895-896 | a snippet over 200 units keeps its first 200 plus "..." |
| EnrichDescription.SnippetItemsFirst | src/main/java/com/example/CalCol/controller/CalculatorController.java:888-903 | the fallback summary lists the first three usable snippets |
| EnrichDescription.BodyShows | src/main/java/com/example/CalCol/controller/CalculatorController.java:698-903 | before trimming, the builder shows something iff some source has content |
| EnrichDescription.DescriptionEmpty | src/main/java/com/example/CalCol/controller/CalculatorController.java:975 | the trimmed description is empty iff no source has anything to show |
| EnrichLinks.LinkTitle | src/main/java/com/example/CalCol/controller/CalculatorController.java:1020-1025 | "Web Search Result" for no title; a title over 200 becomes its first 197 plus "..."; never over 200 |
| EnrichLinks.LinkDescription | src/main/java/com/example/CalCol/controller/CalculatorController.java:1019-1030 | a cleaned snippet over 500 becomes its first 497 plus "..."; never over 500 |
| EnrichLinks.AddCandidate | src/main/java/com/example/CalCol/controller/CalculatorController.java:1032-1037 | one `addLinkIfNotExists`, counted only when a link is created; afterwards the calculator has that URL |
| EnrichLinks.AddLinks | src/main/java/com/example/CalCol/controller/CalculatorController.java:1013-1042 | every linkable result is added unless its URL is there; the count is the number of links added |
| EnrichLinks.AddLinksCovers | src/main/java/com/example/CalCol/controller/CalculatorController.java:1016-1040 | afterwards the calculator has a link for every web result with a non-blank URL |
| EnrichController.JsonKeys | src/main/java/com/example/CalCol/controller/CalculatorController.java:906-972 | web, museum and image results are keys only when non-empty; the AI and Brave AI entries whenever their object exists |
| EnrichController.JsonKeysEmpty | src/main/java/com/example/CalCol/controller/CalculatorController.java:974-982 | the document is `{}` exactly when nothing was found |
| EnrichController.DescriptionImpliesData | src/main/java/com/example/CalCol/controller/CalculatorController.java:981-1010 | a description is only ever written when there is also a JSON entry |
| EnrichController.EnrichCalculator | src/main/java/com/example/CalCol/controller/CalculatorController.java:660-1086 | login and not-found outcomes; the caught-exception outcome exactly when the specification pass as written throws, carrying its error; otherwise nothing-retrieved or saved, where a saved store stays valid, only grows, and gains exactly the links counted |
| EnrichController.BlankNeverFails | src/main/java/com/example/CalCol/controller/CalculatorController.java:732-765 | with nothing found there are no texts, so the specification pass cannot throw |
| EnrichController.BatteryCountFails | src/main/java/com/example/CalCol/controller/CalculatorController.java:812-817 | a battery count in the first analysed text that settles the power supply makes the request end in the caught exception |
| EnrichController.NothingRetrievedIffBlank | src/main/java/com/example/CalCol/controller/CalculatorController.java:1005-1010 | the request reports nothing retrieved iff the enrichment is blank |
| EnrichController.SavedLinksEveryResult | src/main/java/com/example/CalCol/controller/CalculatorController.java:1012-1045 | a saved enrichment leaves a link for every web result with a non-blank URL |
| SocialPost.Pieces | src/main/java/com/example/CalCol/service/SocialMediaPostService.java:281 | the pieces between `.`, `!` and `?`, empty ones included |
| SocialPost.PiecesCover | src/main/java/com/example/CalCol/service/SocialMediaPostService.java:281 | joining the pieces with their separators gives the text back |
| SocialPost.Sentences | src/main/java/com/example/CalCol/service/SocialMediaPostService.java:281-283 | the trimmed pieces, trailing empty ones removed as `split` does |
| SocialPost.ShortFact | src/main/java/com/example/CalCol/service/SocialMediaPostService.java:275-294 | nothing for null or blank text; any fact is shorter than 200 units |
| SocialPost.FactIsFirstQuotable | src/main/java/com/example/CalCol/service/SocialMediaPostService.java:281-287 | the fact is the first sentence whose trimmed length is strictly between 20 and 200 |
| SocialPost.FactWithoutQuotable | src/main/java/com/example/CalCol/service/SocialMediaPostService.java:289-293 | only with no quotable sentence is the text used, cut to 147 plus "..." when over 150 |
| SocialPost.Fit | src/main/java/com/example/CalCol/service/SocialMediaPostService.java:76-80 | text over the limit becomes its first limit-3 units plus "..."; never over the limit |
| SocialPost.TwitterFact | src/main/java/com/example/CalCol/service/SocialMediaPostService.java:58-64 | the fact is added only when content + fact + 10 < 280 |
| SocialPost.TwitterTags | src/main/java/com/example/CalCol/service/SocialMediaPostService.java:66-74 | each label hashtag is added only when content + label + 2 < 280 |
| SocialPost.TwitterPost | src/main/java/com/example/CalCol/service/SocialMediaPostService.java:40-84 | the Twitter/X post, labelled with limit 280, never exceeds 280 units |
| SocialPost.TwitterUncut | src/main/java/com/example/CalCol/service/SocialMediaPostService.java:66-80 | the hashtag loop never pushes the text over 280; a cut happens only when the text was already too long |
| SocialPost.MastodonPost | src/main/java/com/example/CalCol/service/SocialMediaPostService.java:223-248 | the Mastodon post never exceeds 500 units |
| SocialPost.MastodonDescription | src/main/java/com/example/CalCol/service/SocialMediaPostService.java:232-237 | the description is included only when content + description + 10 < 450 |
| SocialPost.MastodonUncut | src/main/java/com/example/CalCol/service/SocialMediaPostService.java:223-248 | a post is cut only for a name over 474 units |
| SocialPost.InstagramTagLimit | src/main/java/com/example/CalCol/service/SocialMediaPostService.java:146-155 | after the three fixed hashtags at most 27 labels are tagged, the first 27 |
| SocialPost.InstagramPost | src/main/java/com/example/CalCol/service/SocialMediaPostService.java:120-159 | the Instagram post, labelled with limit 2200, is never cut: it opens with the heading and the whole description and ends with the three fixed hashtags and the label hashtags, so a filled description leaves it longer than that description |
| SocialPost.FoundSitesOnly | src/main/java/com/example/CalCol/service/SocialMediaPostService.java:107-114 | only museum sites with found == true are listed (Facebook here, Reddit the same way), each of them, in order |
| SocialPost.FacebookPost | src/main/java/com/example/CalCol/service/SocialMediaPostService.java:86-118 | the Facebook post, labelled with limit 5000, is never cut: it opens with the heading and the whole description and, with museum results, ends with the line of every found site; a filled description leaves it longer than that description |
| SocialPost.RedditPost | src/main/java/com/example/CalCol/service/SocialMediaPostService.java:189-221 | the Reddit post, labelled with limit 40000, is never cut: it opens with the bold heading and the whole description and, with museum results, ends with the link of every found site; a filled description leaves it longer than that description |
| SocialPost.LinkedInPost | src/main/java/com/example/CalCol/service/SocialMediaPostService.java:161-187 | the LinkedIn post, labelled with limit 3000, is never cut: it opens with the heading and the whole description and ends with the whole closing question and hashtags; a filled description leaves it longer than that description |
| SocialPost.GenericPost | src/main/java/com/example/CalCol/service/SocialMediaPostService.java:250-273 | the generic post, labelled with limit 2000, is never cut: it opens with the heading and the whole description and ends with the whole AI answer, if any; a filled description leaves it longer than that description |
| SocialPost.Assembled | src/main/java/com/example/CalCol/service/SocialMediaPostService.java:250-273 | a post built as heading, description, middle and closing part opens with the heading and the whole description and ends with the whole closing part |
| SocialPost.GeneratePost | src/main/java/com/example/CalCol/service/SocialMediaPostService.java:19-38 | dispatch on the lower-cased name to the seven builders, unknown names to Generic; Twitter/X and Mastodon stay within their limit, every other post is longer than a filled description |
| SocialPost.LongDescriptionOverflows | src/main/java/com/example/CalCol/service/SocialMediaPostService.java:19-38 | for any platform other than Twitter/X and Mastodon, a description at least as long as the limit gives a post over the limit |
| SocialPost.GeneratePostIgnoresCase | src/main/java/com/example/CalCol/service/SocialMediaPostService.java:21 | two names equal ignoring case give the same post |
| AISearch.SchemeEndStarts | src/main/java/com/example/CalCol/service/AISearchService.java:238 | a match can begin exactly where the text starts with `https://` or `http://`; the address part begins after `https://` when that is the prefix |
| AISearch.NonSpaceRun | src/main/java/com/example/CalCol/service/AISearchService.java:238 | the address part is the longest run of units outside `\s` (greedy `[^\s]+`) |
| AISearch.LinksAreLinks | src/main/java/com/example/CalCol/service/AISearchService.java:238-242 | every match the `find()` loop collects is a whole link: a scheme, at least one more unit, no `\s` |
| AISearch.SingleLink | src/main/java/com/example/CalCol/service/AISearchService.java:240-244 | a text that is one link yields exactly that link |
| AISearch.LinksAcrossSpace | src/main/java/com/example/CalCol/service/AISearchService.java:240-244 | the links of two texts joined by a space are the links of each, in order |
| AISearch.SetContent | src/main/java/com/example/CalCol/service/AISearchService.java:236-245 | setContent stores the text and appends its links to those already held |
| AISearch.SetContentAccumulates | src/main/java/com/example/CalCol/service/AISearchService.java:236-245 | two calls keep the links of both texts, in order |
| AISearch.ParseOpenAIResponse | src/main/java/com/example/CalCol/service/AISearchService.java:169-207 | content only from a non-blank first choice; null, `error`, or missing or empty choices give the empty result |
| AISearch.ParseAnthropicResponse | src/main/java/com/example/CalCol/service/AISearchService.java:210-225 | content is the first block's text, possibly null; missing or empty content gives the empty result |
| AISearch.ProviderOf | src/main/java/com/example/CalCol/service/AISearchService.java:101-110 | "anthropic" in any case selects Anthropic; everything else selects OpenAI |
| AISearch.CallAI | src/main/java/com/example/CalCol/service/AISearchService.java:112-166 | every exchange or parsing failure is swallowed into the empty result |
| AISearch.DescribedFrom | src/main/java/com/example/CalCol/service/AISearchService.java:77-81 | the listed indices lie in the range, have non-blank descriptions, and increase |
| AISearch.DescribedComplete | src/main/java/com/example/CalCol/service/AISearchService.java:77-81 | every index below min(labels, descriptions) with a non-blank description is listed |
| AISearch.PromptSections | src/main/java/com/example/CalCol/service/AISearchService.java:64-99 | the prompt is the greeting, the description section, then the rest |
| AISearch.PromptMiddle | src/main/java/com/example/CalCol/service/AISearchService.java:67-71 | "Description: " follows the greeting exactly when the description is non-blank |
| AISearch.PromptListsDescribedLabels | src/main/java/com/example/CalCol/service/AISearchService.java:73-84 | each described label below both list lengths has its "- name: desc" line in the prompt |
| AISearch.BuildSearchPrompt | src/main/java/com/example/CalCol/service/AISearchService.java:64-99 | the prompt starts with the greeting and ends with the five numbered requests |
| AISearch.SearchWithAI | src/main/java/com/example/CalCol/service/AISearchService.java:34-62 | no key or a refused quota gives the empty result and records nothing; otherwise the provider is called and the request recorded |
| AISearch.FailedCallIsRecorded | src/main/java/com/example/CalCol/service/AISearchService.java:48-61 | a failed provider call still records a request |
| MuseumSearch.BuildSearchUrl | src/main/java/com/example/CalCol/service/CalculatorMuseumSearchService.java:99-110 | "?s=" for calculator-museum.nl, "search.php?q=" for hpmuseum.org, the base URL otherwise |
| MuseumSearch.SearchUrlCarriesQuery | src/main/java/com/example/CalCol/service/CalculatorMuseumSearchService.java:99-110 | the query decodes back from a search-page URL |
| MuseumSearch.Query | src/main/java/com/example/CalCol/service/CalculatorMuseumSearchService.java:41 | the query is manufacturer + " " + model, trimmed |
| MuseumSearch.Window | src/main/java/com/example/CalCol/service/CalculatorMuseumSearchService.java:81-84 | the raw window lies inside the page, holds the match and spans at most query length + 200 |
| MuseumSearch.SearchSite | src/main/java/com/example/CalCol/service/CalculatorMuseumSearchService.java:57-97 | found iff the lower-cased page contains the lower-cased query; a failed fetch is not found |
| MuseumSearch.WindowHoldsMatch | src/main/java/com/example/CalCol/service/CalculatorMuseumSearchService.java:75-84 | the snippet window holds the first match and no earlier position matches |
| MuseumSearch.SearchMuseumsReports | src/main/java/com/example/CalCol/service/CalculatorMuseumSearchService.java:39-55 | a site is reported exactly when its page mentions the calculator, once |
| MuseumSearch.SearchMuseumsOrdered | src/main/java/com/example/CalCol/service/CalculatorMuseumSearchService.java:19-55 | reported sites keep the order of the eight-site list |
| FormEncoding.DecodeEncode | src/main/java/com/example/CalCol/service/WishlistService.java:215 | decoding the form encoding of any text gives it back |
| FormEncoding.EncodeInjective | src/main/java/com/example/CalCol/service/WishlistService.java:215 | distinct queries give distinct encodings |
| FormEncoding.EncodeExamples | src/main/java/com/example/CalCol/service/WishlistService.java:215 | a space encodes as "+", "&" as "%26", and "é" as its two UTF-8 bytes "%C3%A9" |
| Wishlist.TypeOf | src/main/java/com/example/CalCol/service/WishlistService.java:77-90 | mechanical if any label is Mechanical ignoring case, else electromechanical, else electronic |
| Wishlist.LabelLoop | src/main/java/com/example/CalCol/service/WishlistService.java:77-90 | the stopping label loop yields the same word as the order-free definition |
| Wishlist.DefaultQueryShape | src/main/java/com/example/CalCol/service/WishlistService.java:71-119 | "vintage" when applicable, trimmed manufacturer and model when not blank, type word and "calculator", single-spaced; null when nothing applies |
| Wishlist.DefaultQueryFilled | src/main/java/com/example/CalCol/service/WishlistService.java:71-119 | a default query is never blank |
| Wishlist.AddToWishlist | src/main/java/com/example/CalCol/service/WishlistService.java:35-63 | false with nothing changed for an existing item or missing calculator; otherwise trimmed notes and all three queries set to the default |
| Wishlist.RemoveFromWishlist | src/main/java/com/example/CalCol/service/WishlistService.java:122-132 | true iff the item existed; afterwards it is absent and every other item is unchanged |
| Wishlist.UpdateWishlistNotes | src/main/java/com/example/CalCol/service/WishlistService.java:139-151 | false for an absent item; otherwise trimmed notes, or unset for null |
| Wishlist.CleanQueryIdempotent | src/main/java/com/example/CalCol/service/WishlistService.java:168-173 | trimming a query, blank to unset, is idempotent |
| Wishlist.UpdateWishlistSearchQueries | src/main/java/com/example/CalCol/service/WishlistService.java:158-176 | false for an absent item; otherwise each query trimmed or unset when blank |
| Wishlist.ResetWishlistSearchQueries | src/main/java/com/example/CalCol/service/WishlistService.java:179-205 | false for an absent item; otherwise all three queries equal the default query, or all unset |
| Wishlist.ResetAfterAdd | src/main/java/com/example/CalCol/service/WishlistService.java:179-205 | resetting right after adding changes nothing |
| Wishlist.SearchUrl | src/main/java/com/example/CalCol/service/WishlistService.java:210-250 | null for null or blank; otherwise prefix, encoded trimmed query and suffix, the query readable back |
| CsvExport.EscapeCsv | src/main/java/com/example/CalCol/service/ExportService.java:150-156 | "" for null; unchanged without comma, quote or line feed; otherwise quoted with inner quotes doubled |
| CsvExport.DoubledIsReplace | src/main/java/com/example/CalCol/service/ExportService.java:153 | doubling is Java's replace of one quote by two |
| CsvExport.FieldRoundTrip | src/main/java/com/example/CalCol/service/ExportService.java:150-156 | a reader that ends records at a line feed and unquotes as section 2 of RFC 4180 does reads every escaped value back as itself |
| CsvExport.RecordRoundTrip | src/main/java/com/example/CalCol/service/ExportService.java:150-156 | reading an escaped comma-separated record gives its fields back |
| CsvExport.RowIsRecord | src/main/java/com/example/CalCol/service/ExportService.java:123-144 | an item's line is the record of its eight values |
| CsvExport.HeaderIsRecord | src/main/java/com/example/CalCol/service/ExportService.java:118 | the header is the record of the eight column names |
| CsvExport.ExportRoundTrip | src/main/java/com/example/CalCol/service/ExportService.java:116-148 | the CSV reads back as the header, then each item's eight values in order, labels and links joined with "; " |
| JsonExport.CalculatorNode | src/main/java/com/example/CalCol/service/ExportService.java:46-55 | id, model and manufacturer id always; years, source URL and raw text only when set |
| JsonExport.LabelNode | src/main/java/com/example/CalCol/service/ExportService.java:59-65 | id, name and curation flag always; the description only when set |
| JsonExport.ExportAllData | src/main/java/com/example/CalCol/service/ExportService.java:33-76 | one array per table, records in repository order; the tagging array has one object per tagging, holding its calculator and label ids |
| JsonExport.PairNode | src/main/java/com/example/CalCol/service/ExportService.java:67-73 | a tagging becomes an object with exactly the keys calculatorId and labelId, holding its two ids |
| JsonExport.ItemNode | src/main/java/com/example/CalCol/service/ExportService.java:87-111 | the calculator, its years only when set, the added time, label names and links |
| JsonExport.ExportUserCollection | src/main/java/com/example/CalCol/service/ExportService.java:78-114 | the user, export time and items in collection order |
| CollectionImport.ReadCollection | src/main/java/com/example/CalCol/service/ImportService.java:30-35 | a missing or non-array "collection" gives the format error |
| CollectionImport.ReadItem | src/main/java/com/example/CalCol/service/ImportService.java:39-61 | an item without calculatorId throws; labels are read only from an array |
| CollectionImport.AddMissing | src/main/java/com/example/CalCol/service/ImportService.java:48-55 | each absent entry is added once, in order |
| CollectionImport.MissingCount | src/main/java/com/example/CalCol/service/ImportService.java:48-55 | the count is the number of entries added |
| CollectionImport.AttachAll | src/main/java/com/example/CalCol/service/ImportService.java:57-75 | each named existing label is attached unless already assigned |
| CollectionImport.ImportItems | src/main/java/com/example/CalCol/service/ImportService.java:37-76 | unknown calculators are skipped; known ones are added once and get their existing labels |
| CollectionImport.ImportUserCollection | src/main/java/com/example/CalCol/service/ImportService.java:29-79 | errors change nothing; otherwise the count is the number of entries added |
| CollectionImport.ImportTwice | src/main/java/com/example/CalCol/service/ImportService.java:29-79 | repeating a successful import at once returns 0 and changes nothing |
| CollectionImport.ReadExport | src/main/java/com/example/CalCol/service/ExportService.java:78-114 | reading a collection export gives each item's calculator id and labels back |
| DataImport.ManufacturerStepKept | src/main/java/com/example/CalCol/service/ImportService.java:90-101 | a manufacturer is created only when no manufacturer has the name; otherwise only the id map changes |
| DataImport.ManufacturerStepMapped | src/main/java/com/example/CalCol/service/ImportService.java:97-100 | the node's id maps to the manufacturer of its name |
| DataImport.ManufacturersKept | src/main/java/com/example/CalCol/service/ImportService.java:86-103 | the loop keeps all manufacturers, counts those it creates, and touches no other table |
| DataImport.ManufacturerIdsKeyed | src/main/java/com/example/CalCol/service/ImportService.java:86-103 | every exported id maps to the existing or new manufacturer of its name |
| DataImport.KeyedPresent | src/main/java/com/example/CalCol/service/ImportService.java:117-121 | every mapped id names a manufacturer, so the findById check never skips |
| DataImport.CalculatorStepKept | src/main/java/com/example/CalCol/service/ImportService.java:108-138 | a calculator is created iff its manufacturer resolves and no calculator has that model and manufacturer |
| DataImport.CalculatorsKept | src/main/java/com/example/CalCol/service/ImportService.java:105-140 | the loop keeps all calculators and counts exactly those it creates |
| DataImport.CalculatorsSettledAfter | src/main/java/com/example/CalCol/service/ImportService.java:105-140 | afterwards every resolving model and manufacturer has a calculator |
| DataImport.IntField | src/main/java/com/example/CalCol/service/ImportService.java:132-133 | a present key, even null, sets the field |
| DataImport.LabelStepKept | src/main/java/com/example/CalCol/service/ImportService.java:146-161 | a label is created iff its name is new |
| DataImport.LabelsKept | src/main/java/com/example/CalCol/service/ImportService.java:142-163 | the loop keeps all labels and counts exactly those it creates |
| DataImport.ImportAllData | src/main/java/com/example/CalCol/service/ImportService.java:82-166 | manufacturers, then calculators through the id map, then labels; fails when a read field is missing |
| DataImport.ImportAllDataKept | src/main/java/com/example/CalCol/service/ImportService.java:82-166 | an import keeps the catalogue valid and every record, and counts exactly what it adds |
| DataImport.ImportAllDataAgain | src/main/java/com/example/CalCol/service/ImportService.java:82-166 | importing the same document twice creates nothing the second time |
| DataImport.RestoreUnchanged | src/main/java/com/example/CalCol/service/ImportService.java:82-166 | importing a full export into its own catalogue creates and changes nothing |
| Statistics.TallyCounts | src/main/java/com/example/CalCol/service/StatisticsService.java:92-98 | each count rises by the number of times its name is listed |
| Statistics.ByManufacturerCounts | src/main/java/com/example/CalCol/service/StatisticsService.java:27-37 | each manufacturer's count is its number of calculators, and the counts sum to the total |
| Statistics.ByPeriod | src/main/java/com/example/CalCol/service/StatisticsService.java:40-89 | seven periods in fixed order, each with the number of calculators its filter keeps |
| Statistics.CountIn | src/main/java/com/example/CalCol/service/StatisticsService.java:40-89 | the count of calculators a period keeps is positive exactly when one is in the period and the total exactly when all are |
| Statistics.UnknownAlone | src/main/java/com/example/CalCol/service/StatisticsService.java:41-43 | a calculator with no years is Unknown and in no other period |
| Statistics.Pre1970NeedsEnd | src/main/java/com/example/CalCol/service/StatisticsService.java:44-46 | Pre-1970 uses only soldTo, so a calculator first sold before 1970 without an end year is not counted |
| Statistics.DecadeIsOverlap | src/main/java/com/example/CalCol/service/StatisticsService.java:47-82 | with both years, a decade counts exactly the calculators whose sales interval meets it |
| Statistics.DecadeOfOneYear | src/main/java/com/example/CalCol/service/StatisticsService.java:47-82 | with one year given, a decade counts the calculator iff that year lies in it |
| Statistics.Since2010ByStart | src/main/java/com/example/CalCol/service/StatisticsService.java:83-88 | 2010s+ uses soldFrom, or soldTo when it is absent |
| Statistics.NoPeriodGap | src/main/java/com/example/CalCol/service/StatisticsService.java:40-89 | a calculator is in no period iff it has no end year and no start year from 1970 on |
| Statistics.PeriodsOverlap | src/main/java/com/example/CalCol/service/StatisticsService.java:40-89 | periods overlap, so their sum can exceed the total |
| Statistics.ByLabelCounts | src/main/java/com/example/CalCol/service/StatisticsService.java:92-99 | each label's count is the number of collection calculators carrying it |
| Statistics.CollectionStatistics | src/main/java/com/example/CalCol/service/StatisticsService.java:20-105 | the four statistics of the collection's calculators, total included; each period's count is the number of calculators in that period |
| LabelKeywords.KeywordNamesTrimmed | src/main/java/com/example/CalCol/service/LabelDerivationService.java:29-50 | every label name of the keyword table is already trimmed |
| LabelKeywords.Matched | src/main/java/com/example/CalCol/service/LabelDerivationService.java:86-94 | a label is matched iff its keyword occurs in the text |
| LabelKeywords.ElectromechanicalIsMechanical | src/main/java/com/example/CalCol/service/LabelDerivationService.java:29-50 | "electromechanical" yields both Mechanical and Electromechanical |
| LabelKeywords.OledIsLed | src/main/java/com/example/CalCol/service/LabelDerivationService.java:29-50 | "oled" yields both OLED and LED |
| LabelText.SearchTextHolds | src/main/java/com/example/CalCol/service/LabelDerivationService.java:127-149 | the search text holds the lower-cased model, manufacturer and raw text, each followed by a space |
| LabelText.SearchTextLower | src/main/java/com/example/CalCol/service/LabelDerivationService.java:127-149 | the search text is lower case |
| LabelText.KeywordInModel | src/main/java/com/example/CalCol/service/LabelDerivationService.java:127-161 | a keyword in the model, in any case, is found |
| LabelText.KeywordInManufacturer | src/main/java/com/example/CalCol/service/LabelDerivationService.java:127-161 | a keyword in the manufacturer name is found |
| LabelText.KeywordInRaw | src/main/java/com/example/CalCol/service/LabelDerivationService.java:127-161 | a keyword in the raw text is found |
| LabelText.KeywordWithin | src/main/java/com/example/CalCol/service/LabelDerivationService.java:151-161 | containment has no word boundary |
| LabelDerivation.CreateKeywordLabels | src/main/java/com/example/CalCol/service/LabelDerivationService.java:59-78 | afterwards every keyword label exists and is curated; a catalogue where that holds is left unchanged |
| LabelDerivation.AssignLabels | src/main/java/com/example/CalCol/service/LabelDerivationService.java:80-119 | each calculator gets its wanted pairs not yet there; the count is the number of pairs added |
| LabelDerivation.AssignedIsDerived | src/main/java/com/example/CalCol/service/LabelDerivationService.java:80-119 | after assignment every calculator carries its wanted pairs |
| LabelDerivation.AssignOnDerived | src/main/java/com/example/CalCol/service/LabelDerivationService.java:96-114 | when every wanted pair exists, the loop adds nothing |
| LabelDerivation.DeriveLabels | src/main/java/com/example/CalCol/service/LabelDerivationService.java:53-125 | a run keeps every existing pair and returns the number of pairs added |
| Labels.CreateOrGetLabel | src/main/java/com/example/CalCol/service/LabelService.java:41-51 | the label with the trimmed name, created only when absent |
| Labels.CreateOrGetLabelIdempotent | src/main/java/com/example/CalCol/service/LabelService.java:41-51 | repeating the call returns the same label and changes nothing |
| Labels.CreateCuratedLabel | src/main/java/com/example/CalCol/service/LabelService.java:90-97 | an existing label keeps its curation flag; the description changes only for a non-blank one, trimmed |
| Labels.AddLabelToCalculator | src/main/java/com/example/CalCol/service/LabelService.java:54-74 | true, adding the pair, iff calculator and label exist and the pair is new; otherwise nothing changes |
| Labels.AddLabelTwice | src/main/java/com/example/CalCol/service/LabelService.java:54-74 | a second identical assignment is refused |
| Labels.RemoveLabelFromCalculator | src/main/java/com/example/CalCol/service/LabelService.java:77-87 | true iff the pair existed, removing exactly that pair |
| Labels.AddThenRemove | src/main/java/com/example/CalCol/service/LabelService.java:54-87 | adding and then removing a pair restores the catalogue |
| Labels.UpdateLabel | src/main/java/com/example/CalCol/service/LabelService.java:108-123 | fails for an unknown id; sets the trimmed name; description and flag only when given |
| Labels.DeleteLabel | src/main/java/com/example/CalCol/service/LabelService.java:126-140 | false for an unknown id; otherwise every assignment of the label and the label itself go |
| LinkStore.AddLink | src/main/java/com/example/CalCol/service/LinkService.java:26-40 | fails for an unknown calculator; otherwise one new link under a fresh id, others unchanged |
| LinkStore.AddLinkIfNotExists | src/main/java/com/example/CalCol/service/LinkService.java:43-50 | null with the store unchanged when the calculator already has the URL |
| LinkStore.AddLinkIfNotExistsOnce | src/main/java/com/example/CalCol/service/LinkService.java:43-50 | two identical calls add at most one link |
| LinkStore.UpdateLink | src/main/java/com/example/CalCol/service/LinkService.java:53-68 | fails for an unknown id; otherwise replaces url, title and description |
| LinkStore.DeleteLink | src/main/java/com/example/CalCol/service/LinkService.java:71-85 | true, removing exactly that link, iff it exists and the caller added it |
| LinkStore.AdminDeleteLink | src/main/java/com/example/CalCol/service/LinkService.java:88-96 | removes any existing link whoever added it |
| LinkStore.BulkDeleteLinks | src/main/java/com/example/CalCol/service/LinkService.java:99-117 | 0 for null or empty; otherwise deletes exactly the caller's listed links and returns how many |
| Collection.SearchCalculators | src/main/java/com/example/CalCol/service/CalculatorService.java:35-40 | all calculators for a null or blank term; otherwise those whose model or manufacturer contains the trimmed term ignoring case |
| Collection.SearchFindsModel | src/main/java/com/example/CalCol/service/CalculatorService.java:35-40 | a calculator is found by its own model in any case |
| Collection.AddToCollection | src/main/java/com/example/CalCol/service/CalculatorService.java:184-202 | false with nothing changed for an existing entry or missing calculator; otherwise one new entry with trimmed notes |
| Collection.RemoveFromCollection | src/main/java/com/example/CalCol/service/CalculatorService.java:205-215 | true iff the entry existed; afterwards it is gone and others unchanged |
| Collection.UpdateCollectionNotes | src/main/java/com/example/CalCol/service/CalculatorService.java:222-234 | false for an absent entry; otherwise trimmed notes, or unset for null |
| Collection.AddRemoveRoundTrip | src/main/java/com/example/CalCol/service/CalculatorService.java:184-219 | an added calculator is collected, a second add is refused, and removal restores the collection |
| Collection.UpdateNotesIdempotent | src/main/java/com/example/CalCol/service/CalculatorService.java:222-234 | the same update twice changes nothing the second time |
| Images.UploadImage | src/main/java/com/example/CalCol/service/ImageService.java:27-43 | fails iff the calculator is unknown; a new image is pending iff proposed and approved iff not |
| Images.PendingProposals | src/main/java/com/example/CalCol/service/ImageService.java:45-47 | exactly the images that are proposals and not approved |
| Images.ApproveImage | src/main/java/com/example/CalCol/service/ImageService.java:49-64 | false for an unknown id; otherwise approved, no longer a proposal, with approver and time |
| Images.RejectImage | src/main/java/com/example/CalCol/service/ImageService.java:66-79 | true iff the image existed; it is removed whatever its state |
| Images.DeleteImage | src/main/java/com/example/CalCol/service/ImageService.java:81-97 | succeeds iff the image exists and the caller uploaded it or it is not approved |
| Images.ProposalLifecycle | src/main/java/com/example/CalCol/service/ImageService.java:27-97 | an uploaded proposal is pending; once approved it is not, a stranger cannot delete it and the uploader can |
| Images.PendingRemovable | src/main/java/com/example/CalCol/service/ImageService.java:66-97 | a pending image can be deleted by anybody, with the same effect as rejecting it |
| Images.ApproveAgain | src/main/java/com/example/CalCol/service/ImageService.java:49-64 | approving twice equals approving once with the later approver |
| Shares.FirstMissing | src/main/java/com/example/CalCol/service/ShareService.java:32-36 | the first requested id not in the user's collection |
| Shares.Existing | src/main/java/com/example/CalCol/service/ShareService.java:51-60 | the requested ids whose calculator exists, in order, repetitions kept |
| Shares.ExpiryOf | src/main/java/com/example/CalCol/service/ShareService.java:45-47 | an expiry exists iff daysValid is given and positive, that many days after now |
| Shares.CreateShare | src/main/java/com/example/CalCol/service/ShareService.java:28-63 | the first id outside the collection fails before anything is stored; otherwise the share and one row per existing id |
| Shares.GetSharedCollection | src/main/java/com/example/CalCol/service/ShareService.java:65-78 | the share iff the token exists and it has no expiry or the expiry is not before now |
| Shares.GetSharedCalculators | src/main/java/com/example/CalCol/service/ShareService.java:80-82 | the calculators of the token's rows, without checking expiry |
| Shares.GetUserShares | src/main/java/com/example/CalCol/service/ShareService.java:84-86 | the tokens of the user's shares with no expiry or one after now |
| Shares.DeleteShare | src/main/java/com/example/CalCol/service/ShareService.java:88-102 | only the owner succeeds, removing the share and all its rows |
| Shares.CreateThenView | src/main/java/com/example/CalCol/service/ShareService.java:28-86 | a new share is visible through its token, lists the existing requested calculators and is among its owner's active shares |
| Shares.ExpiryInstant | src/main/java/com/example/CalCol/service/ShareService.java:65-86 | at its expiry instant a share is still visible by token but not active; afterwards neither |
| Shares.ActiveVisible | src/main/java/com/example/CalCol/service/ShareService.java:65-86 | an active share is never expired |
| Shares.DeleteThenGone | src/main/java/com/example/CalCol/service/ShareService.java:88-102 | the owner's delete removes the share and its calculators and leaves every other share's |
| Users.Persist | src/main/java/com/example/CalCol/entity/PasswordResetToken.java:31-40 | used starts false; a missing expiry becomes now plus 24 hours |
| Users.ValidUntilExpiry | src/main/java/com/example/CalCol/entity/PasswordResetToken.java:42-48 | a token is valid exactly while unused and not after its expiry |
| Users.PersistedValid | src/main/java/com/example/CalCol/entity/PasswordResetToken.java:31-48 | a freshly persisted token without an expiry is valid |
| Users.CreateUser | src/main/java/com/example/CalCol/service/UserService.java:52-69 | a taken username, then a taken email, fails; otherwise one new enabled user, role "USER" by default |
| Users.UpdateUser | src/main/java/com/example/CalCol/service/UserService.java:71-93 | fails for an unknown id or a taken new email; role and enabled change only when given |
| Users.ChangePassword | src/main/java/com/example/CalCol/service/UserService.java:95-111 | false, changing nothing, for an unknown user or wrong old password; otherwise the password is replaced |
| Users.UpdateProfile | src/main/java/com/example/CalCol/service/UserService.java:113-129 | false for a taken email; null or unchanged email succeeds with no write |
| Users.DeleteUser | src/main/java/com/example/CalCol/service/UserService.java:131-139 | false for an unknown id; a user with reset tokens cannot be deleted |
| Users.UpdateLastLogin | src/main/java/com/example/CalCol/service/UserService.java:141-147 | stamps a known user with now, changing nothing else |
| Users.CreatePasswordResetToken | src/main/java/com/example/CalCol/service/UserService.java:149-175 | nothing unless the user exists and the email matches ignoring case; then old tokens go and one unused token expiring 24 h later is issued |
| Users.ResetPassword | src/main/java/com/example/CalCol/service/UserService.java:177-198 | false, changing nothing, for an unknown or invalid token; otherwise new password and the token marked used |
| Users.CleanupExpiredTokens | src/main/java/com/example/CalCol/service/UserService.java:200-203 | removes exactly the tokens expiring before now |
| Users.CleanupKeepsValidTokens | src/main/java/com/example/CalCol/service/UserService.java:200-203 | no remaining token is expired and every valid token survives |
| Users.ResetOnlyOnce | src/main/java/com/example/CalCol/service/UserService.java:177-198 | a token resets a password at most once |
| Users.IssueThenReset | src/main/java/com/example/CalCol/service/UserService.java:149-198 | a freshly issued token is the user's only one and resets their password at once |
| Users.ChangePasswordThenOld | src/main/java/com/example/CalCol/service/UserService.java:95-111 | after a change, the new password is the one the next change must present |
| Users.CreateUserTwice | src/main/java/com/example/CalCol/service/UserService.java:52-69 | a second user with the same name or email is refused |
| DataInit.SplitManufacturerField | src/main/java/com/example/CalCol/service/DataInitializationService.java:68-77 | split at the first colon into trimmed name and suffix; without a colon the trimmed field and no suffix |
| DataInit.SplitNameHasNoColon | src/main/java/com/example/CalCol/service/DataInitializationService.java:68-77 | the name part never holds a colon |
| DataInit.SplitJoined | src/main/java/com/example/CalCol/service/DataInitializationService.java:68-77 | a trimmed colon-free name, a colon and a trimmed suffix split back into the two |
| DataInit.ModelName | src/main/java/com/example/CalCol/service/DataInitializationService.java:89-96 | the suffix when the model is null or blank, or starts with "~" and a suffix exists; otherwise the model |
| DataInit.ModelNameWithoutSuffix | src/main/java/com/example/CalCol/service/DataInitializationService.java:89-96 | without a suffix a meaningful model is kept as given |
| DataInit.TextValue | src/main/java/com/example/CalCol/service/DataInitializationService.java:126-132 | null for an absent or null field, its text otherwise |
| DataInit.IntValue | src/main/java/com/example/CalCol/service/DataInitializationService.java:134-140 | null for an absent or null field, its int otherwise |
| DataInit.AddModels | src/main/java/com/example/CalCol/service/DataInitializationService.java:85-108 | one calculator per model node in order under consecutive ids; a node without a model name fails |
| DataInit.EntryStep | src/main/java/com/example/CalCol/service/DataInitializationService.java:60-114 | a missing manufacturer stops the run; no models array skips; otherwise the cached or new manufacturer gets the models |
| DataInit.Run | src/main/java/com/example/CalCol/service/DataInitializationService.java:31-124 | nothing when a manufacturer exists or no manufacturers array is found; a stop keeps earlier entries, a rollback keeps nothing |
| DataInit.RunValid | src/main/java/com/example/CalCol/service/DataInitializationService.java:31-124 | a load keeps the catalogue valid, storing each cached name exactly once |
| DataInit.SameNameSharesRecord | src/main/java/com/example/CalCol/service/DataInitializationService.java:79-83 | entries naming a cached manufacturer add no manufacturer |
| DataInit.StopKeepsPrefix | src/main/java/com/example/CalCol/service/DataInitializationService.java:60-123 | an entry without a manufacturer ends the loop, keeping what earlier entries stored |

## Left out

- Network I/O. Outcomes of HTTP exchanges, provider responses and fetched pages are parameters: timeouts, headers and the 10 MB codec limit are not modelled.
- The relevance filters `filterSearchResults` and `filterImageResults` are not defined in the service source; they are function parameters that may fail.
- The processor and operating-system patterns (`CalculatorController.java` lines 795-808) are matcher parameters: their nested optional groups were not hand-coded.
- Jackson serialisation: `writeValueAsString`, `readTree` and pretty printing are not modelled. The JSON document is the set of keys it gets; imports read a parsed `Json` tree, and a parse error is not modelled.
- `HashMap` iteration order (structured data, the JSON document, `byManufacturer`) is modelled as insertion order or as a map without order.
- Concurrency: `ConcurrentHashMap` and `AtomicInteger` in the quota service are modelled as one sequential state.
- Quota.RateLimit: a configured rate of zero is excluded by the `Rate` type, since `1000 / rate` would throw.
- CsvExport.FieldRoundTrip: the round trip is stated for a reader that ends records at a line feed and accepts a carriage return inside an unquoted field. A strict RFC 4180 reader, whose records end in CRLF and whose unquoted fields exclude CR, would not get a value with a lone carriage return back, because `escapeCsv` does not quote it.
- Jackson.ParseIntegral: a text that is not an optional sign followed by decimal digits gives 0 here. Jackson parses such a text as a `double` and truncates it, so "3.7" gives 3 and "1e3" gives 1000; floating-point parsing is not modelled.
- Column lengths and not-null constraints of the entities (for example 500 units for a link URL and 200 for its title) are not part of `Catalog.Valid` or `LinkStore.Valid`; a save that violates one is not modelled.
- EnrichController.EnrichCalculator: a web result whose URL is longer than the 500-unit link column fails when its link is saved. The source's catch then reports the failure, with the links saved before it kept; the model saves every link.
- Unicode: case folding is ASCII only, and there is no normalisation.
- The wall clock, UUID generation, BCrypt encoding and the file system are parameters. This covers the token string, the encoded password and `matches`, and the stored image file name.
- `FileStorageService`, `EmailService`, `DtoMapperService`, `AdminService`, `CalculatorProposalService`, `UserInitializationService` and `mergeManufacturers` are not part of this model.
- Spring MVC plumbing: redirects, flash messages, authentication checks, OpenAPI, and paging are not modelled. `getPendingProposals` returns the set of pending ids, not a page.
- Collection.SearchCalculators: the search term is read literally; SQL `LIKE` wildcards `%` and `_` in the term are not modelled.
- SearchQuery.CleanShape: invariance of the enhanced query under trimming of its inputs is not proved.
- LabelText.SearchTextHolds: a null `containsKeyword` argument cannot arise, because the search text is never null.
- LabelDerivation.DeriveLabels: the per-calculator `catch` in the assignment loop is not modelled, since no modelled step throws. Labels are looked up by their unique name.
- DataImport.ImportAllData: the export's `calculatorLabels` array is never read by the import. The label id map is filled but not used, so only the reading of "id" is modelled.
- DataImport.RestoreUnchanged: it requires every id to fit in a `long`, because `asLong` wraps larger values.
- CollectionImport.ImportUserCollection: the whole document is read before anything is written, standing for the transaction rollback of a failing item.
- DataInit.Run: a missing data file and an `IOException` are both "no file". A model node without a name fails the save and rolls everything back (the transaction is rollback-only), while a missing manufacturer field is caught inside the method, so the entries before it are kept.
- Users.DeleteUser: a user who still has reset tokens is refused, standing for the foreign-key violation of the token table.
- Quota.AllQuotaStatus: the service returns an unordered map keyed by service name; the model lists its four entries in the order brave, google, bing, ai.
- Statistics.CollectionStatistics: the collection's calculators and their labels are inputs; the repository reads are not modelled.
- SocialPost.FacebookPost: the AI result object is printed by its `toString`, which is an opaque text parameter.
- SearchQuery.TypeWordPriority: the type word uses ASCII case folding of label names, as everywhere else.
- WebSearch.ParseGoogleImageResults: numbers are integral only; fractional width or height values are not modelled.

## Findings

| source | as written | input that shows it | evidently intended | confidence | as-written member | corrected member |
|---|---|---|---|---|---|---|
| src/main/java/com/example/CalCol/controller/CalculatorController.java:812-817 | the battery pattern `(\d+)\s*(?:x\s*)?(?:AA\|AAA\|button\|coin\|cell\|batteries?)` has one capture group, yet the code reads `group(2)`, which throws `IndexOutOfBoundsException`; the exception aborts the whole enrichment | a snippet "Runs on 2 AA batteries" as the first text mentioning a power source | the battery word as the second group, giving "2x AA" (the `"batteries"` fallback shows a missing group was expected) | not executed | TextPatterns.PowerSupplyAsWritten, TextPatterns.BatteryCountAborts, SpecTable.SpecsOverAsWritten, SpecTable.ThrowingSourceAborts, EnrichAnalysis.ExtractSpecsAsWritten, EnrichAnalysis.BatterySourceAborts, EnrichController.EnrichCalculator, EnrichController.BatteryCountFails | TextPatterns.PowerSupply, TextPatterns.BatteryCountReported, EnrichAnalysis.ExtractSpecs |
