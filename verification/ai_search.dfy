/** `AISearchService`: the prompt sent to the language model, the choice
    of provider, the reading of OpenAI and Anthropic responses, the links
    found in the returned text, and the guard around the call. */
module AISearch {
  import opened Wrappers
  import opened JavaText
  import opened Json
  import Clock
  import Quota

  // ---------------------------------------------------------------------
  // Links in the content

  /** `https://` at the start, read unit by unit. */
  predicate HttpsFirst(s: string) {
    |s| >= 8 && s[0] == 'h' && s[1] == 't' && s[2] == 't' && s[3] == 'p'
    && s[4] == 's' && s[5] == ':' && s[6] == '/' && s[7] == '/'
  }

  /** `http://` at the start, read unit by unit. */
  predicate HttpFirst(s: string) {
    |s| >= 7 && s[0] == 'h' && s[1] == 't' && s[2] == 't' && s[3] == 'p'
    && s[4] == ':' && s[5] == '/' && s[6] == '/'
  }

  /** The unit-by-unit tests are the two schemes as prefixes. */
  lemma SchemesStart(s: string)
    ensures HttpsFirst(s) <==> StartsWith(s, "https://")
    ensures HttpFirst(s) <==> StartsWith(s, "http://")
  {
    if |s| >= 8 {
      var w := s[..8];
      assert forall k :: 0 <= k < 8 ==> w[k] == s[k];
      if HttpsFirst(s) { assert w == "https://"; }
    }
    if |s| >= 7 {
      var w := s[..7];
      assert forall k :: 0 <= k < 7 ==> w[k] == s[k];
      if HttpFirst(s) { assert w == "http://"; }
    }
  }

  /** Where the address after a leading `http://` or `https://` starts. The
      pattern tries `https` first; if that fails it cannot match `http://`
      at the same place, since the fifth unit is then `s`. */
  function SchemeEnd(s: string): (r: Option<nat>)
    ensures r.Some? ==> 7 <= r.value <= |s|
  {
    if HttpsFirst(s) then Some(8)
    else if HttpFirst(s) then Some(7)
    else None
  }

  /** A scheme ends the prefix exactly when the text starts with one. */
  lemma SchemeEndStarts(s: string)
    ensures SchemeEnd(s).Some? <==> StartsWith(s, "https://") || StartsWith(s, "http://")
    ensures SchemeEnd(s).Some? ==> SchemeEnd(s).value == if StartsWith(s, "https://") then 8 else 7
  {
    SchemesStart(s);
  }

  /** The end of the run of non-`\s` units starting at `p`. */
  function NonSpaceEnd(s: string, p: nat): (r: nat)
    requires p <= |s|
    ensures p <= r <= |s|
    decreases |s| - p
  {
    if p < |s| && !IsRegexSpace(s[p]) then NonSpaceEnd(s, p + 1) else p
  }

  /** The run is maximal: no `\s` inside, and a `\s` or the end after it. */
  lemma {:induction false} NonSpaceRun(s: string, p: nat)
    requires p <= |s|
    ensures forall k :: p <= k < NonSpaceEnd(s, p) ==> !IsRegexSpace(s[k])
    ensures NonSpaceEnd(s, p) == |s| || IsRegexSpace(s[NonSpaceEnd(s, p)])
    decreases |s| - p
  {
    if p < |s| && !IsRegexSpace(s[p]) { NonSpaceRun(s, p + 1); }
  }

  /** The end of a match of `https?://[^\s]+` at the start of `s`, if any. */
  function LinkAt(s: string): (r: Option<nat>)
    ensures r.Some? ==> 0 < r.value <= |s|
  {
    match SchemeEnd(s)
    case None => None
    case Some(p) =>
      var e := NonSpaceEnd(s, p);
      if e > p then Some(e) else None
  }

  /** A whole link: a scheme, at least one more unit, and no `\s`. */
  predicate IsLink(u: string) {
    NoRegexSpace(u) && ((|u| > 8 && StartsWith(u, "https://")) || (|u| > 7 && StartsWith(u, "http://")))
  }

  /** The `while (matcher.find())` loop: a match is tried at each position
      in turn, and the search resumes where the last match ended. The
      pattern reads nothing before the position it starts at, so the scan
      from a position is the scan of the rest of the text. */
  function Links(s: string): seq<string>
    decreases |s|
  {
    if s == [] then []
    else
      match LinkAt(s)
      case None => Links(s[1..])
      case Some(e) => [s[..e]] + Links(s[e..])
  }

  /** The text a link match covers is a link. */
  lemma LinkIsLink(s: string)
    requires LinkAt(s).Some?
    ensures IsLink(s[..LinkAt(s).value])
  {
    var e := LinkAt(s).value;
    var p := SchemeEnd(s).value;
    var u := s[..e];
    assert forall k :: 0 <= k < |u| ==> u[k] == s[k];
    NonSpaceRun(s, p);
    forall k | 0 <= k < |u| ensures !IsRegexSpace(u[k]) {
      if k < p {
        assert k == 0 || k == 1 || k == 2 || k == 3 || k == 4 || k == 5 || k == 6 || k == 7;
      }
    }
    SchemesStart(u);
    if HttpsFirst(s) {
      assert HttpsFirst(u);
    } else {
      assert HttpFirst(u);
    }
  }

  /** Every match is a whole link. */
  lemma {:induction false} LinksAreLinks(s: string)
    ensures forall k :: 0 <= k < |Links(s)| ==> IsLink(Links(s)[k])
    decreases |s|
  {
    if s != [] {
      match LinkAt(s)
      case None => LinksAreLinks(s[1..]);
      case Some(e) =>
        LinksAreLinks(s[e..]);
        LinkIsLink(s);
    }
  }

  lemma {:induction false} NonSpaceAll(s: string, p: nat)
    requires p <= |s| && NoRegexSpace(s)
    ensures NonSpaceEnd(s, p) == |s|
    decreases |s| - p
  {
    if p < |s| { NonSpaceAll(s, p + 1); }
  }

  /** A text that is one link yields exactly that link. */
  lemma SingleLink(u: string)
    requires IsLink(u)
    ensures Links(u) == [u]
  {
    SchemesStart(u);
    var p: nat := if HttpsFirst(u) then 8 else 7;
    assert SchemeEnd(u) == Some(p);
    NonSpaceAll(u, p);
    assert LinkAt(u) == Some(|u|);
    assert u[..|u|] == u;
    assert Links(u[|u|..]) == [];
  }

  // The matches of a text cut at a `\s` unit are the matches of the two
  // sides: no match can cross a space.

  /** A scheme never spans a `\s` unit. */
  lemma SchemesBeforeSpace(a: string, c: char, b: string)
    requires IsRegexSpace(c)
    ensures HttpsFirst(a + [c] + b) <==> HttpsFirst(a)
    ensures HttpFirst(a + [c] + b) <==> HttpFirst(a)
  {
    var s := a + [c] + b;
    assert s[|a|] == c;
    if |a| < 8 {
      assert |a| == 0 || |a| == 1 || |a| == 2 || |a| == 3 || |a| == 4 || |a| == 5 || |a| == 6 || |a| == 7;
    }
  }

  lemma {:induction false} NonSpaceBeforeSpace(a: string, c: char, b: string, q: nat)
    requires IsRegexSpace(c) && q <= |a|
    ensures NonSpaceEnd(a + [c] + b, q) == NonSpaceEnd(a, q)
    decreases |a| - q
  {
    var s := a + [c] + b;
    if q < |a| {
      assert s[q] == a[q];
      if !IsRegexSpace(a[q]) { NonSpaceBeforeSpace(a, c, b, q + 1); }
    } else {
      assert s[q] == c;
    }
  }

  lemma LinkAtBeforeSpace(a: string, c: char, b: string)
    requires IsRegexSpace(c)
    ensures LinkAt(a + [c] + b) == LinkAt(a)
  {
    SchemesBeforeSpace(a, c, b);
    match SchemeEnd(a)
    case None =>
    case Some(q) => NonSpaceBeforeSpace(a, c, b, q);
  }

  /** The rest of `a + [c] + b` after a cut inside `a`. */
  lemma RestBeforeSpace(a: string, c: char, b: string, e: nat)
    requires e <= |a|
    ensures (a + [c] + b)[..e] == a[..e]
    ensures (a + [c] + b)[e..] == a[e..] + [c] + b
  {
  }

  /** Links of two texts joined by a space are the links of each. */
  lemma {:induction false} LinksAcrossSpace(a: string, c: char, b: string)
    requires IsRegexSpace(c)
    ensures Links(a + [c] + b) == Links(a) + Links(b)
    decreases |a|
  {
    var s := a + [c] + b;
    if a == [] {
      assert s == [c] + b && s[0] == c;
      assert s[1..] == b;
    } else {
      LinkAtBeforeSpace(a, c, b);
      var e := if LinkAt(a).Some? then LinkAt(a).value else 1;
      RestBeforeSpace(a, c, b, e);
      LinksAcrossSpace(a[e..], c, b);
    }
  }

  /** An occurrence in the part after `p` is one in `p + b`, shifted. */
  lemma OccursShifted(p: string, b: string, t: string, j: nat)
    ensures OccursAt(p + b, t, |p| + j) <==> OccursAt(b, t, j)
  {
    if |p| + j + |t| <= |p + b| {
      assert (p + b)[|p| + j..|p| + j + |t|] == b[j..j + |t|];
    }
  }

  // ---------------------------------------------------------------------
  // The result object

  datatype AISearchResult = AISearchResult(content: Option<string>, links: seq<string>)

  const EmptyResult: AISearchResult := AISearchResult(None, [])

  /** `setContent`: store the text and append its links to those already
      collected. */
  function SetContent(res: AISearchResult, content: Option<string>): (r: AISearchResult)
    ensures r.content == content
    ensures |r.links| >= |res.links| && r.links[..|res.links|] == res.links
    ensures forall k :: |res.links| <= k < |r.links| ==> IsLink(r.links[k])
    ensures content.None? ==> r.links == res.links
  {
    var found := if content.Some? then LinksAreLinks(content.value); Links(content.value) else [];
    assert (res.links + found)[..|res.links|] == res.links;
    AISearchResult(content, res.links + found)
  }

  /** Two `setContent` calls keep the links of both texts, in order. */
  lemma SetContentAccumulates(res: AISearchResult, a: string, b: string)
    ensures SetContent(SetContent(res, Some(a)), Some(b)).links == res.links + Links(a) + Links(b)
    ensures SetContent(SetContent(res, Some(a)), Some(b)).content == Some(b)
  {
  }

  // ---------------------------------------------------------------------
  // Responses

  predicate NonBlank(s: Option<string>) {
    s.Some? && Trim(s.value) != ""
  }

  /** `parseOpenAIResponse`: the content of the first choice's message, set
      only when non-blank. A null body, an `error` member, or missing or
      empty choices give the empty result. */
  function ParseOpenAIResponse(response: Option<Object>): (r: Result<AISearchResult>)
    ensures response.None? ==> r == Ok(EmptyResult)
    ensures response.Some? && ("error" in response.value || "choices" !in response.value) ==> r == Ok(EmptyResult)
    ensures r.Ok? ==> r.value.content.None? || NonBlank(r.value.content)
    ensures r.Ok? && r.value.content.Some? ==> r.value == SetContent(EmptyResult, r.value.content)
  {
    match response
    case None => Ok(EmptyResult)
    case Some(obj) =>
      if "error" in obj || "choices" !in obj then Ok(EmptyResult)
      else
        var choices :- GetList(obj, "choices");
        if choices.None? || |choices.value| == 0 then Ok(EmptyResult)
        else
          var first :- AsObject(choices.value[0]);
          if first.None? then Err("NullPointerException")
          else
            var message :- GetObject(first.value, "message");
            if message.None? then Ok(EmptyResult)
            else
              var content :- GetString(message.value, "content");
              if NonBlank(content) then Ok(SetContent(EmptyResult, content)) else Ok(EmptyResult)
  }

  /** `parseAnthropicResponse`: the `text` of the first content block, even
      when it is null or blank. */
  function ParseAnthropicResponse(response: Option<Object>): (r: Result<AISearchResult>)
    ensures response.None? || "content" !in response.value ==> r == Ok(EmptyResult)
    ensures r.Ok? ==> r.value == SetContent(EmptyResult, r.value.content)
  {
    match response
    case None => Ok(EmptyResult)
    case Some(obj) =>
      if "content" !in obj then Ok(EmptyResult)
      else
        var blocks :- GetList(obj, "content");
        if blocks.None? || |blocks.value| == 0 then Ok(EmptyResult)
        else
          var first :- AsObject(blocks.value[0]);
          if first.None? then Err("NullPointerException")
          else
            var text :- GetString(first.value, "text");
            Ok(SetContent(EmptyResult, text))
  }

  datatype Provider = OpenAI | Anthropic

  /** `callAI`'s dispatch: "anthropic" in any case selects Anthropic;
      "openai" and every other value, null included, select OpenAI. */
  function ProviderOf(setting: Option<string>): (r: Provider)
    ensures r == Anthropic <==> setting.Some? && EqualsIgnoreCase(setting.value, "anthropic")
  {
    if setting.Some? && EqualsIgnoreCase(setting.value, "openai") then OpenAI
    else if setting.Some? && EqualsIgnoreCase(setting.value, "anthropic") then
      Anthropic
    else OpenAI
  }

  /** `callOpenAI` / `callAnthropic`: every failure, of the exchange or of
      the parsing, is swallowed into the empty result. */
  function CallAI(provider: Provider, fetch: Fetch): (r: AISearchResult)
    ensures fetch.FetchFailed? ==> r == EmptyResult
    ensures r.content.None? ==> r.links == []
    ensures r == SetContent(EmptyResult, r.content)
  {
    match fetch
    case FetchFailed => EmptyResult
    case Fetched(body) =>
      var parsed := if provider == OpenAI then ParseOpenAIResponse(body) else ParseAnthropicResponse(body);
      if parsed.Ok? then parsed.value else EmptyResult
  }

  // ---------------------------------------------------------------------
  // The prompt

  const Greeting: string := "I have a calculator with the following information:\n\n"
  const Requests: string :=
    "Please provide:\n"
    + "1. Historical context about this calculator\n"
    + "2. Technical specifications if known\n"
    + "3. Interesting facts or trivia\n"
    + "4. Links to relevant resources or museum pages\n"
    + "5. Any notable features or innovations\n"

  function Min(a: nat, b: nat): nat {
    if a < b then a else b
  }

  /** The positions from `i` below `n` whose flag is set, in increasing
      order. */
  function Positions(flags: seq<bool>, i: nat, n: nat): (r: seq<nat>)
    requires i <= n <= |flags|
    ensures forall k :: 0 <= k < |r| ==> i <= r[k] < n && flags[r[k]]
    ensures forall k, l :: 0 <= k < l < |r| ==> r[k] < r[l]
    decreases n - i
  {
    if i == n then []
    else
      var rest := Positions(flags, i + 1, n);
      if flags[i] then [i] + rest else rest
  }

  /** Every flagged position from `i` below `n` is listed. */
  lemma {:induction false} PositionsComplete(flags: seq<bool>, i: nat, n: nat, j: nat)
    requires i <= j < n <= |flags| && flags[j]
    ensures j in Positions(flags, i, n)
    decreases n - i
  {
    var rest := Positions(flags, i + 1, n);
    if i < j {
      PositionsComplete(flags, i + 1, n, j);
      var k :| 0 <= k < |rest| && rest[k] == j;
      if flags[i] {
        assert Positions(flags, i, n)[k + 1] == j;
      }
    } else {
      assert Positions(flags, i, n)[0] == j;
    }
  }

  /** Which label descriptions are non-blank. */
  function Described(descriptions: seq<Option<string>>): (r: seq<bool>)
    ensures |r| == |descriptions|
    ensures forall k :: 0 <= k < |r| ==> (r[k] <==> NonBlank(descriptions[k]))
  {
    seq(|descriptions|, k requires 0 <= k < |descriptions| => NonBlank(descriptions[k]))
  }

  /** The positions below `n` whose label description is non-blank, in
      increasing order. */
  function DescribedFrom(descriptions: seq<Option<string>>, i: nat, n: nat): (r: seq<nat>)
    requires i <= n <= |descriptions|
    ensures forall k :: 0 <= k < |r| ==> i <= r[k] < n && NonBlank(descriptions[r[k]])
    ensures forall k, l :: 0 <= k < l < |r| ==> r[k] < r[l]
  {
    Positions(Described(descriptions), i, n)
  }

  /** Every described position below `n` is listed. */
  lemma DescribedComplete(descriptions: seq<Option<string>>, i: nat, n: nat, j: nat)
    requires i <= j < n <= |descriptions| && NonBlank(descriptions[j])
    ensures j in DescribedFrom(descriptions, i, n)
  {
    PositionsComplete(Described(descriptions), i, n, j);
  }

  /** The line `- name: description`. */
  function LabelLine(name: string, description: string): string {
    "- " + name + ": " + description + "\n"
  }

  /** One line per listed position, in order. */
  function LabelLines(labels: seq<string>, descriptions: seq<Option<string>>, idx: seq<nat>): (r: string)
    requires forall k :: 0 <= k < |idx| ==> (idx[k] < |labels| && idx[k] < |descriptions| && descriptions[idx[k]].Some?)
  {
    if |idx| == 0 then ""
    else LabelLine(labels[idx[0]], descriptions[idx[0]].value) + LabelLines(labels, descriptions, idx[1..])
  }

  /** Each listed position has its line among the label lines. */
  lemma {:induction false} LabelLinesHave(labels: seq<string>, descriptions: seq<Option<string>>, idx: seq<nat>, j: nat)
    requires forall k :: 0 <= k < |idx| ==> (idx[k] < |labels| && idx[k] < |descriptions| && descriptions[idx[k]].Some?)
    requires j in idx
    ensures j < |labels| && j < |descriptions| && descriptions[j].Some?
    ensures exists k :: OccursAt(LabelLines(labels, descriptions, idx), LabelLine(labels[j], descriptions[j].value), k)
  {
    var m :| 0 <= m < |idx| && idx[m] == j;
    var first := LabelLine(labels[idx[0]], descriptions[idx[0]].value);
    var rest := LabelLines(labels, descriptions, idx[1..]);
    assert LabelLines(labels, descriptions, idx) == first + rest;
    if idx[0] == j {
      assert OccursAt(first + rest, first, 0) by { assert (first + rest)[0..|first|] == first; }
    } else {
      assert idx[1..][m - 1] == j;
      LabelLinesHave(labels, descriptions, idx[1..], j);
      var k :| OccursAt(rest, LabelLine(labels[j], descriptions[j].value), k);
      OccursShifted(first, rest, LabelLine(labels[j], descriptions[j].value), k);
      assert OccursAt(first + rest, LabelLine(labels[j], descriptions[j].value), |first| + k);
    }
  }

  /** A titled paragraph followed by a blank line. */
  function Section(title: string, body: string): string {
    title + body + "\n\n"
  }

  lemma SectionStarts(title: string, body: string, tail: string)
    ensures StartsWith(Section(title, body) + tail, title)
  {
    assert (Section(title, body) + tail)[..|title|] == title;
  }

  function DescriptionPart(description: Option<string>): (r: string)
    ensures r == "" <==> !NonBlank(description)
  {
    if NonBlank(description) then Section("Description: ", description.value) else ""
  }

  /** The label lines of every described label below both list lengths. */
  function DescribedLines(labels: seq<string>, descriptions: seq<Option<string>>): string {
    LabelLines(labels, descriptions, DescribedFrom(descriptions, 0, Min(|labels|, |descriptions|)))
  }

  function LabelBody(labels: seq<string>, descriptions: Option<seq<Option<string>>>): string {
    if descriptions.None? || |descriptions.value| == 0 then ""
    else "Label descriptions:\n" + DescribedLines(labels, descriptions.value)
  }

  function LabelPart(labels: Option<seq<string>>, descriptions: Option<seq<Option<string>>>): string {
    if labels.None? || |labels.value| == 0 then ""
    else "Labels: " + Join(labels.value, ", ") + "\n" + LabelBody(labels.value, descriptions) + "\n"
  }

  function ImagePart(imageUrls: Option<seq<string>>): string {
    if imageUrls.None? || |imageUrls.value| == 0 then ""
    else "Images available: " + NatToString(|imageUrls.value|) + " image(s)\n"
         + "Image URLs: " + Join(imageUrls.value, ", ") + "\n\n"
  }

  /** What follows the description section. */
  function PromptTail(labels: Option<seq<string>>, descriptions: Option<seq<Option<string>>>,
                      imageUrls: Option<seq<string>>): string {
    LabelPart(labels, descriptions) + ImagePart(imageUrls) + Requests
  }

  /** `buildSearchPrompt`. */
  function BuildSearchPrompt(description: Option<string>, labels: Option<seq<string>>,
                             descriptions: Option<seq<Option<string>>>, imageUrls: Option<seq<string>>): (r: string)
    ensures StartsWith(r, Greeting) && EndsWith(r, Requests)
    ensures NonBlank(description) <==> StartsWith(r[|Greeting|..], "Description: ")
  {
    var d := DescriptionPart(description);
    var tail := PromptTail(labels, descriptions, imageUrls);
    SuffixKept(LabelPart(labels, descriptions) + ImagePart(imageUrls), Requests);
    TailFirstUnit(labels, descriptions, imageUrls);
    PromptMiddle(description, tail);
    PromptShape(Greeting, d, tail, Requests, "Description: ", NonBlank(description));
    Greeting + d + tail
  }

  lemma PromptShape(greeting: string, d: string, tail: string, requests: string, key: string, described: bool)
    requires EndsWith(tail, requests)
    requires described <==> StartsWith(d + tail, key)
    ensures var r := greeting + d + tail;
      StartsWith(r, greeting) && EndsWith(r, requests) && (described <==> StartsWith(r[|greeting|..], key))
  {
    var r := greeting + d + tail;
    PrefixKept(greeting, d, tail);
    SuffixOfSuffix(greeting + d, tail, requests);
    assert r == greeting + (d + tail);
    StartsAfter(greeting, d + tail, described, key);
  }

  lemma StartsAfter(g: string, m: string, b: bool, key: string)
    requires b <==> StartsWith(m, key)
    ensures b <==> StartsWith((g + m)[|g|..], key)
  {
    assert (g + m)[|g|..] == m;
  }

  lemma SuffixOfSuffix(x: string, y: string, z: string)
    requires EndsWith(y, z)
    ensures EndsWith(x + y, z)
  {
    assert (x + y)[|x + y| - |z|..] == y[|y| - |z|..];
  }

  lemma SuffixKept(x: string, y: string)
    ensures EndsWith(x + y, y)
  {
    assert (x + y)[|x|..] == y;
  }

  /** After the greeting comes "Description: " exactly when the description
      is non-blank; every later section starts with a different unit. */
  lemma PromptMiddle(description: Option<string>, tail: string)
    requires |tail| > 0 && tail[0] in "LIP"
    ensures NonBlank(description) <==> StartsWith(DescriptionPart(description) + tail, "Description: ")
  {
    if NonBlank(description) {
      assert StartsWith(DescriptionPart(description) + tail, "Description: ") by {
        SectionStarts("Description: ", description.value, tail);
      }
    } else {
      assert !StartsWith(DescriptionPart(description) + tail, "Description: ") by {
        assert DescriptionPart(description) + tail == tail;
        FirstUnitBlocks(tail, "Description: ");
      }
    }
  }

  lemma PrefixKept(p: string, x: string, y: string)
    ensures StartsWith(p + x + y, p)
  {
    assert (p + x + y)[..|p|] == p;
  }

  lemma FirstUnitBlocks(s: string, p: string)
    requires |s| > 0 && |p| > 0 && s[0] != p[0]
    ensures !StartsWith(s, p)
  {
  }

  lemma TailFirstUnit(labels: Option<seq<string>>, descriptions: Option<seq<Option<string>>>, imageUrls: Option<seq<string>>)
    ensures var tail := PromptTail(labels, descriptions, imageUrls);
      |tail| > 0 && tail[0] in "LIP"
  {
    var l := LabelPart(labels, descriptions);
    var i := ImagePart(imageUrls);
    var tail := l + i + Requests;
    if |l| > 0 {
      assert l[0] == 'L';
      assert tail[0] == l[0];
    } else if |i| > 0 {
      assert i[0] == 'I';
      assert tail[0] == i[0];
    } else {
      assert Requests[0] == 'P';
      assert tail == Requests;
    }
  }

  /** Each described label, up to the shorter of the two lists, has its
      line in the prompt. */
  lemma PromptListsDescribedLabels(description: Option<string>, labels: seq<string>,
                                   descriptions: seq<Option<string>>, imageUrls: Option<seq<string>>, j: nat)
    requires j < |labels| && j < |descriptions| && NonBlank(descriptions[j])
    ensures Contains(BuildSearchPrompt(description, Some(labels), Some(descriptions), imageUrls),
                     LabelLine(labels[j], descriptions[j].value))
  {
    var line := LabelLine(labels[j], descriptions[j].value);
    var idx := DescribedFrom(descriptions, 0, Min(|labels|, |descriptions|));
    DescribedComplete(descriptions, 0, Min(|labels|, |descriptions|), j);
    LabelLinesHave(labels, descriptions, idx, j);
    var k :| OccursAt(DescribedLines(labels, descriptions), line, k);
    ContainsAt(DescribedLines(labels, descriptions), line, k);
    var body := LabelBody(labels, Some(descriptions));
    ContainsBehind("Label descriptions:\n", DescribedLines(labels, descriptions), line);
    var part := LabelPart(Some(labels), Some(descriptions));
    ContainsIn("Labels: " + Join(labels, ", ") + "\n", body, "\n", line);
    ContainsAhead(part, ImagePart(imageUrls), line);
    ContainsAhead(part + ImagePart(imageUrls), Requests, line);
    ContainsBehind(Greeting + DescriptionPart(description), PromptTail(Some(labels), Some(descriptions), imageUrls), line);
    PromptSections(description, Some(labels), Some(descriptions), imageUrls);
  }

  lemma ContainsAhead(y: string, z: string, t: string)
    requires Contains(y, t)
    ensures Contains(y + z, t)
  {
    ContainsIn("", y, z, t);
    assert "" + y + z == y + z;
  }

  lemma ContainsBehind(x: string, y: string, t: string)
    requires Contains(y, t)
    ensures Contains(x + y, t)
  {
    ContainsIn(x, y, "", t);
    assert x + y + "" == x + y;
  }

  /** The prompt is the greeting, the description section and the rest. */
  lemma PromptSections(description: Option<string>, labels: Option<seq<string>>,
                       descriptions: Option<seq<Option<string>>>, imageUrls: Option<seq<string>>)
    ensures BuildSearchPrompt(description, labels, descriptions, imageUrls)
         == Greeting + DescriptionPart(description) + PromptTail(labels, descriptions, imageUrls)
  {
  }

  /** What a text contains, any text around it contains too. */
  lemma ContainsIn(x: string, y: string, z: string, t: string)
    requires Contains(y, t)
    ensures Contains(x + y + z, t)
  {
    ContainsIff(y, t);
    var k :| OccursAt(y, t, k);
    assert (x + y + z)[|x| + k..|x| + k + |t|] == y[k..k + |t|];
    ContainsAt(x + y + z, t, |x| + k);
  }

  // ---------------------------------------------------------------------
  // The guard

  /** `searchWithAI`. Without a key, or when the quota refuses, the empty
      result comes back and nothing is recorded. Otherwise the provider is
      called and the request recorded whatever the call produced, because
      the provider calls never throw. */
  function SearchWithAI(apiKey: Option<string>, provider: Option<string>, st: Quota.State, cfg: Quota.Config,
                        checkAt: Clock.DateTime, sentAt: Clock.DateTime,
                        description: Option<string>, labels: Option<seq<string>>,
                        descriptions: Option<seq<Option<string>>>, imageUrls: Option<seq<string>>,
                        exchange: (Provider, string) -> Fetch): (r: (AISearchResult, Quota.State))
    requires Quota.WellFormed(st) && Clock.Valid(checkAt) && Clock.Valid(sentAt)
    ensures Quota.WellFormed(r.1)
    ensures (apiKey.None? || apiKey.value == "") ==> r == (EmptyResult, st)
    ensures apiKey.Some? && apiKey.value != "" && !Quota.CanMakeRequest(st, cfg, "ai", checkAt).0 ==>
              r.0 == EmptyResult && r.1.lastRequest == st.lastRequest
    ensures apiKey.Some? && apiKey.value != "" && Quota.CanMakeRequest(st, cfg, "ai", checkAt).0 ==>
              r.0 == CallAI(ProviderOf(provider),
                            exchange(ProviderOf(provider), BuildSearchPrompt(description, labels, descriptions, imageUrls)))
              && r.1 == Quota.RecordRequest(Quota.CanMakeRequest(st, cfg, "ai", checkAt).1, "ai", sentAt)
  {
    if apiKey.None? || apiKey.value == "" then (EmptyResult, st)
    else
      var (allowed, st1) := Quota.CanMakeRequest(st, cfg, "ai", checkAt);
      if !allowed then (EmptyResult, Quota.RemainingQuota(st1, cfg, "ai", checkAt).1)
      else
        var prompt := BuildSearchPrompt(description, labels, descriptions, imageUrls);
        var p := ProviderOf(provider);
        (CallAI(p, exchange(p, prompt)), Quota.RecordRequest(st1, "ai", sentAt))
  }

  /** A failed provider call still costs a request. */
  lemma FailedCallIsRecorded(apiKey: string, provider: Option<string>, st: Quota.State, cfg: Quota.Config,
                             checkAt: Clock.DateTime, sentAt: Clock.DateTime, description: Option<string>)
    requires Quota.WellFormed(st) && Clock.Valid(checkAt) && Clock.Valid(sentAt)
    requires apiKey != "" && Quota.CanMakeRequest(st, cfg, "ai", checkAt).0
    ensures var r := SearchWithAI(Some(apiKey), provider, st, cfg, checkAt, sentAt, description, None, None, None,
                                  (p: Provider, prompt: string) => FetchFailed);
      r.0 == EmptyResult && r.1.lastRequest == st.lastRequest["ai" := sentAt]
  {
  }
}
