/** `SocialMediaPostService`: a post about a calculator for one of six
    platforms, or a generic one. Each builder appends to one text; only the
    Twitter/X and Mastodon builders fit their text into the platform's
    limit, the others may exceed the `maxLength` they report. Lengths count
    UTF-16 units: the two emoji outside the Basic Multilingual Plane are
    written as two units each. */
module SocialPost {
  import opened Wrappers
  import opened JavaText
  import AISearch
  import MuseumSearch
  import Enrichment

  /** U+1F9EE ABACUS and U+1F4A1 ELECTRIC LIGHT BULB, as their UTF-16
      surrogate pairs; Dafny's characters are scalar values, so each unit is
      stood for by a private-use character. */
  const Abacus: string := ['\U{F8F0}', '\U{F8F1}']
  const Bulb: string := ['\U{F8F2}', '\U{F8F3}']

  /** What the post says about the calculator. */
  datatype CalculatorInfo = CalculatorInfo(
    manufacturer: string, model: string, description: Option<string>, labels: Option<seq<string>>)

  datatype Post = Post(platform: string, content: string, maxLength: nat)

  // ---------------------------------------------------------------- helpers

  predicate SentenceEnd(c: char) {
    c == '.' || c == '!' || c == '?'
  }

  /** The text up to the first sentence end, and the rest after it. */
  function SentenceEndAt(s: string): (r: Option<nat>)
    ensures r.Some? ==> r.value < |s| && SentenceEnd(s[r.value]) && forall k :: 0 <= k < r.value ==> !SentenceEnd(s[k])
    ensures r.None? ==> forall k :: 0 <= k < |s| ==> !SentenceEnd(s[k])
    decreases |s|
  {
    if |s| == 0 then None
    else if SentenceEnd(s[0]) then Some(0)
    else match SentenceEndAt(s[1..]) {
      case None => None
      case Some(i) => Some(i + 1)
    }
  }

  /** The pieces between sentence ends, empty ones included. */
  function Pieces(s: string): (r: seq<string>)
    ensures |r| > 0
    ensures forall i :: 0 <= i < |r| ==> forall k :: 0 <= k < |r[i]| ==> !SentenceEnd(r[i][k])
    decreases |s|
  {
    match SentenceEndAt(s)
    case None => [s]
    case Some(i) => [s[..i]] + Pieces(s[i + 1..])
  }

  /** Joining the pieces with the sentence ends that separated them gives
      the text back: every unit of the text is in a piece or ends one. */
  function Units(ps: seq<string>): nat {
    if |ps| == 0 then 0 else |ps[0]| + Units(ps[1..])
  }

  lemma {:induction false} PiecesCover(s: string)
    ensures Units(Pieces(s)) + |Pieces(s)| == |s| + 1
    decreases |s|
  {
    match SentenceEndAt(s)
    case None =>
    case Some(i) =>
      PiecesCover(s[i + 1..]);
      assert ([s[..i]] + Pieces(s[i + 1..]))[1..] == Pieces(s[i + 1..]);
  }

  /** `content.split("[.!?]")`, each sentence trimmed: the pieces with
      trailing empty ones removed. */
  function Sentences(s: string): (r: seq<string>)
    ensures |r| <= |Pieces(s)|
    ensures forall i :: 0 <= i < |r| ==> r[i] == Trim(Pieces(s)[i])
  {
    var ps := DropTrailingEmpty(Pieces(s));
    seq(|ps|, i requires 0 <= i < |ps| => Trim(ps[i]))
  }

  /** A sentence worth quoting: between 20 and 200 units once trimmed. */
  predicate Quotable(sentence: string) {
    20 < |sentence| < 200
  }

  /** The first quotable sentence from `from` on. */
  function FirstQuotable(ss: seq<string>, from: nat): (r: Option<nat>)
    requires from <= |ss|
    ensures r.Some? ==> from <= r.value < |ss| && Quotable(ss[r.value])
                        && forall j :: from <= j < r.value ==> !Quotable(ss[j])
    ensures r.None? <==> forall i :: from <= i < |ss| ==> !Quotable(ss[i])
    decreases |ss| - from
  {
    if from == |ss| then None
    else if Quotable(ss[from]) then Some(from)
    else FirstQuotable(ss, from + 1)
  }

  /** A quotable sentence with none before it is the first one. */
  lemma FirstQuotableIs(ss: seq<string>, i: nat)
    requires i < |ss| && Quotable(ss[i])
    requires forall j :: 0 <= j < i ==> !Quotable(ss[j])
    ensures FirstQuotable(ss, 0) == Some(i)
  {
    var k := FirstQuotable(ss, 0);
    assert !(k.value < i) && !(i < k.value);
  }

  /** The fact of a non-blank text: its first quotable sentence, or failing
      that the text cut to 147 units plus an ellipsis when longer than 150,
      or else the text itself. */
  function FactOf(content: string): (r: string)
    ensures |r| < 200
  {
    var ss := Sentences(content);
    match FirstQuotable(ss, 0)
    case Some(i) => ss[i]
    case None => if |content| > 150 then content[..147] + "..." else content
  }

  /** `extractShortFact`: nothing for a null or blank text, else its fact. */
  function ShortFact(content: Option<string>): (r: Option<string>)
    ensures r.None? <==> !Filled(content)
    ensures r.Some? ==> |r.value| < 200
  {
    if Filled(content) then Some(FactOf(content.value)) else None
  }

  /** The fact is the first sentence that is quotable once trimmed. */
  lemma FactIsFirstQuotable(content: string, i: nat)
    requires i < |Sentences(content)| && Quotable(Sentences(content)[i])
    requires forall j :: 0 <= j < i ==> !Quotable(Sentences(content)[j])
    ensures FactOf(content) == Sentences(content)[i]
  {
    FirstQuotableIs(Sentences(content), i);
  }

  /** Only when no sentence is quotable does the text itself, shortened to
      150 units, stand in. */
  lemma FactWithoutQuotable(content: string)
    requires forall j :: 0 <= j < |Sentences(content)| ==> !Quotable(Sentences(content)[j])
    ensures |content| <= 150 ==> FactOf(content) == content
    ensures |content| > 150 ==> |FactOf(content)| == 150 && FactOf(content)[..147] == content[..147]
  {
  }

  /** `s.replace(" ", "")`. */
  function NoSpaces(s: string): (r: string)
    ensures |r| <= |s|
    ensures ' ' !in r
    ensures ' ' !in s ==> r == s
  {
    if |s| == 0 then ""
    else (if s[0] == ' ' then "" else [s[0]]) + NoSpaces(s[1..])
  }

  /** Longer than `max` units: the first `max - 3` and an ellipsis. */
  function Fit(content: string, max: nat): (r: string)
    requires max >= 3
    ensures |r| <= max
    ensures |content| <= max ==> r == content
    ensures |content| > max ==> |r| == max && r[..max - 3] == content[..max - 3]
  {
    if |content| > max then content[..max - 3] + "..." else content
  }

  /** The description of the calculator, if it is not blank. */
  function DescriptionPart(info: CalculatorInfo): string {
    if Filled(info.description) then info.description.value + "\n\n" else ""
  }

  /** The content of the AI result of the enrichment, if any. */
  function AIContent(enrichment: Option<Enrichment.Enrichment>): Option<string> {
    if enrichment.Some? && enrichment.value.aiContent.Some? then enrichment.value.aiContent.value.content else None
  }

  /** `content` opens with `head` and then the whole description, if the
      calculator has one: neither has been cut. */
  predicate Opens(content: string, head: string, info: CalculatorInfo) {
    var lead := head + DescriptionPart(info);
    |lead| <= |content| && content[..|lead|] == lead
  }

  /** `content` ends with the whole of `tail`. */
  predicate Closes(content: string, tail: string) {
    |tail| <= |content| && content[|content| - |tail|..] == tail
  }

  /** A post that opens with the whole description is longer than it, and
      holds it right after its heading. */
  lemma OpensHoldsDescription(content: string, head: string, info: CalculatorInfo)
    requires Opens(content, head, info) && Filled(info.description)
    ensures |content| > |info.description.value|
    ensures content[|head|..|head| + |info.description.value|] == info.description.value
  {
    var d := info.description.value;
    var lead := head + (d + "\n\n");
    assert DescriptionPart(info) == d + "\n\n";
    assert content[..|lead|] == lead;
    assert lead[|head|..|head| + |d|] == d;
    forall k | |head| <= k < |head| + |d|
      ensures content[k] == lead[k]
    {
      assert content[..|lead|][k] == content[k];
    }
  }

  /** A post assembled from a heading, the description part, a middle and
      a closing part opens with the first two, ends with the last, and is
      longer than any description. */
  lemma Assembled(head: string, info: CalculatorInfo, middle: string, tail: string)
    ensures Opens(head + DescriptionPart(info) + middle + tail, head, info)
    ensures Closes(head + DescriptionPart(info) + middle + tail, tail)
    ensures Filled(info.description) ==> |head + DescriptionPart(info) + middle + tail| > |info.description.value|
  {
    var lead := head + DescriptionPart(info);
    var content := lead + middle + tail;
    assert content[..|lead|] == lead;
    assert content[|content| - |tail|..] == tail;
    if Filled(info.description) {
      OpensHoldsDescription(content, head, info);
    }
  }

  /** The labels, an empty list for none. */
  function LabelList(info: CalculatorInfo): seq<string> {
    if info.labels.Some? then info.labels.value else []
  }

  // ----------------------------------------------------------------- Twitter

  /** The first two labels as one hashtag, if they fit under 250. */
  function TwitterLead(content: string, labels: Option<seq<string>>): (r: string)
    ensures r == content || (|content| <= |r| < 250 && r[..|content|] == content)
  {
    if labels.Some? && |labels.value| > 0 then
      var joined := Join(labels.value[..if |labels.value| < 2 then |labels.value| else 2], " ");
      if |content| + |joined| + 3 < 250 then content + " #" + NoSpaces(joined) else content
    else content
  }

  /** The short fact of the AI answer, if it fits under 280 with room to
      spare. */
  function TwitterFact(content: string, ai: Option<string>): (r: string)
    ensures r == content || (|content| <= |r| < 272 && r[..|content|] == content)
    ensures r != content <==> ShortFact(ai).Some? && |content| + |ShortFact(ai).value| + 10 < 280
  {
    var fact := ShortFact(ai);
    if fact.Some? && |content| + |fact.value| + 10 < 280 then content + "\n\n" + fact.value else content
  }

  /** One hashtag per label, each only if it keeps the text under 280. */
  function TwitterTags(content: string, labels: seq<string>): (r: string)
    ensures |r| >= |content| && r[..|content|] == content
    ensures |content| < 280 ==> |r| < 280
    decreases |labels|
  {
    if |labels| == 0 then content
    else
      var next := if |content| + |labels[0]| + 2 < 280 then content + " #" + NoSpaces(labels[0]) else content;
      var r := TwitterTags(next, labels[1..]);
      assert r[..|content|] == r[..|next|][..|content|];
      r
  }

  const TwitterHashtags := "\n\n#Calculator #VintageTech"

  /** The Twitter/X text before it is fitted to 280 units. */
  function TwitterText(info: CalculatorInfo, enrichment: Option<Enrichment.Enrichment>): string {
    var lead := TwitterLead(Abacus + " " + info.manufacturer + " " + info.model, info.labels);
    TwitterTags(TwitterFact(lead, AIContent(enrichment)) + TwitterHashtags, LabelList(info))
  }

  function TwitterPost(info: CalculatorInfo, enrichment: Option<Enrichment.Enrichment>): (r: Post)
    ensures r.platform == "Twitter/X" && r.maxLength == 280
    ensures |r.content| <= 280
  {
    Post("Twitter/X", Fit(TwitterText(info, enrichment), 280), 280)
  }

  /** The post is cut only when the text is already too long before the
      label hashtags: the hashtag loop never pushes it over 280 units, and
      then the post keeps the fixed hashtags whole. */
  lemma TwitterUncut(info: CalculatorInfo, enrichment: Option<Enrichment.Enrichment>)
    requires |TwitterFact(TwitterLead(Abacus + " " + info.manufacturer + " " + info.model, info.labels), AIContent(enrichment))
              + TwitterHashtags| < 280
    ensures TwitterPost(info, enrichment).content == TwitterText(info, enrichment)
    ensures var pre := TwitterFact(TwitterLead(Abacus + " " + info.manufacturer + " " + info.model, info.labels), AIContent(enrichment))
                       + TwitterHashtags;
            TwitterPost(info, enrichment).content[..|pre|] == pre
  {
  }

  // ----------------------------------------------------------------- Mastodon

  const MastodonHashtags := "\n\n#Calculator #VintageTech"

  /** The description, if it fits under 450 with room to spare. */
  function MastodonDescription(content: string, description: Option<string>): (r: string)
    ensures r == content || |r| < 448
    ensures r != content <==> Filled(description) && |content| + |description.value| + 10 < 450
    ensures r != content ==> r == content + "\n\n" + description.value
  {
    if Filled(description) && |content| + |description.value| + 10 < 450 then content + "\n\n" + description.value
    else content
  }

  function MastodonPost(info: CalculatorInfo): (r: Post)
    ensures r.platform == "Mastodon" && r.maxLength == 500
    ensures |r.content| <= 500
  {
    var text := MastodonDescription(Abacus + " " + info.manufacturer + " " + info.model, info.description) + MastodonHashtags;
    Post("Mastodon", Fit(text, 500), 500)
  }

  /** A Mastodon post is cut only for a name of more than 474 units: with a
      shorter name the text, description included, stays within 500. */
  lemma MastodonUncut(info: CalculatorInfo)
    requires |Abacus + " " + info.manufacturer + " " + info.model| + |MastodonHashtags| <= 500
    ensures MastodonPost(info).content
            == MastodonDescription(Abacus + " " + info.manufacturer + " " + info.model, info.description) + MastodonHashtags
  {
  }

  // ---------------------------------------------------------------- Instagram

  /** One hashtag per label while fewer than 30 hashtags have been written,
      `count` of them already. */
  function InstagramTags(labels: seq<string>, count: nat): (r: seq<string>)
    ensures count <= 30 ==> |r| == if |labels| < 30 - count then |labels| else 30 - count
    ensures count > 30 ==> r == []
    ensures forall i :: 0 <= i < |r| ==> r[i] == " #" + NoSpaces(labels[i])
    decreases |labels|
  {
    if |labels| == 0 then []
    else if count < 30 then
      var rest := InstagramTags(labels[1..], count + 1);
      assert forall i :: 1 <= i < |rest| + 1 ==> labels[i] == labels[1..][i - 1];
      [" #" + NoSpaces(labels[0])] + rest
    else InstagramTags(labels[1..], count)
  }

  function Concat(parts: seq<string>): string {
    if |parts| == 0 then "" else parts[0] + Concat(parts[1..])
  }

  /** After the three fixed hashtags, at most 27 labels are tagged: the
      first 27. */
  lemma InstagramTagLimit(labels: seq<string>)
    ensures |InstagramTags(labels, 3)| <= 27
    ensures |labels| >= 27 ==> |InstagramTags(labels, 3)| == 27
  {
  }

  /** The Instagram post. Nothing is cut: the heading and the whole
      description open it, and the fixed and label hashtags close it. */
  function InstagramPost(info: CalculatorInfo, enrichment: Option<Enrichment.Enrichment>): (r: Post)
    ensures r.platform == "Instagram" && r.maxLength == 2200
    ensures Opens(r.content, Abacus + " " + info.manufacturer + " " + info.model + "\n\n", info)
    ensures Closes(r.content, "#Calculator #VintageTech #RetroTech" + Concat(InstagramTags(LabelList(info), 3)))
    ensures Filled(info.description) ==> |r.content| > |info.description.value|
  {
    var head := Abacus + " " + info.manufacturer + " " + info.model + "\n\n";
    var labels := if info.labels.Some? && |info.labels.value| > 0
      then "✨ Features: " + Join(info.labels.value, " • ") + "\n\n" else "";
    var fact := ShortFact(AIContent(enrichment));
    var tags := "#Calculator #VintageTech #RetroTech" + Concat(InstagramTags(LabelList(info), 3));
    Assembled(head, info, labels + (if fact.Some? then Bulb + " " + fact.value + "\n\n" else ""), tags);
    Post("Instagram", head + DescriptionPart(info) + (labels + (if fact.Some? then Bulb + " " + fact.value + "\n\n" else "")) + tags, 2200)
  }

  // ------------------------------------------------- Facebook and Reddit

  /** The site URLs of the museum results that found the calculator, in
      order. */
  function FoundSites(museums: seq<MuseumSearch.MuseumResult>): (r: seq<string>)
    ensures |r| <= |museums|
    decreases |museums|
  {
    if |museums| == 0 then []
    else (if museums[0].found then [museums[0].siteUrl] else []) + FoundSites(museums[1..])
  }

  /** Only sites that found the calculator are listed, and every one of
      them is. */
  lemma {:induction false} FoundSitesOnly(museums: seq<MuseumSearch.MuseumResult>, url: string)
    ensures url in FoundSites(museums) <==> exists i :: 0 <= i < |museums| && museums[i].found && museums[i].siteUrl == url
    decreases |museums|
  {
    if |museums| > 0 {
      FoundSitesOnly(museums[1..], url);
      if exists i :: 0 <= i < |museums| && museums[i].found && museums[i].siteUrl == url {
        var i :| 0 <= i < |museums| && museums[i].found && museums[i].siteUrl == url;
        if i > 0 {
          assert museums[1..][i - 1] == museums[i];
        }
      }
      if url in FoundSites(museums[1..]) {
        var i :| 0 <= i < |museums[1..]| && museums[1..][i].found && museums[1..][i].siteUrl == url;
        assert museums[i + 1] == museums[1..][i];
      }
    }
  }

  /** One line per site, built by `line`. */
  function SiteLines(sites: seq<string>, line: string -> string): string {
    if |sites| == 0 then "" else line(sites[0]) + SiteLines(sites[1..], line)
  }

  function Museums(enrichment: Option<Enrichment.Enrichment>): seq<MuseumSearch.MuseumResult> {
    if enrichment.Some? && enrichment.value.museumResults.Some? then enrichment.value.museumResults.value else []
  }

  function FacebookLine(url: string): string {
    "• " + url + "\n"
  }

  /** The Facebook post. It shows the AI result object itself, whose text
      form is `aiText`. Nothing is cut: the heading and the whole
      description open it, and with museum results every found site's line
      closes it. */
  function FacebookPost(info: CalculatorInfo, enrichment: Option<Enrichment.Enrichment>,
                        aiText: AISearch.AISearchResult -> string): (r: Post)
    ensures r.platform == "Facebook" && r.maxLength == 5000
    ensures Opens(r.content, Abacus + " " + info.manufacturer + " " + info.model + "\n\n", info)
    ensures |Museums(enrichment)| > 0 ==> Closes(r.content, SiteLines(FoundSites(Museums(enrichment)), FacebookLine))
    ensures Filled(info.description) ==> |r.content| > |info.description.value|
  {
    var head := Abacus + " " + info.manufacturer + " " + info.model + "\n\n";
    var middle := (if info.labels.Some? && |info.labels.value| > 0 then "Labels: " + Join(info.labels.value, ", ") + "\n\n" else "")
      + (if enrichment.Some? && enrichment.value.aiContent.Some?
         then "Interesting facts:\n" + aiText(enrichment.value.aiContent.value) + "\n\n" else "")
      + (if |Museums(enrichment)| > 0 then "Related resources:\n" else "");
    var sites := if |Museums(enrichment)| > 0 then SiteLines(FoundSites(Museums(enrichment)), FacebookLine) else "";
    Assembled(head, info, middle, sites);
    var content := head + DescriptionPart(info) + middle + sites;
    Post("Facebook", content, 5000)
  }

  function RedditLine(url: string): string {
    "* [" + url + "](" + url + ")\n"
  }

  /** The Reddit post. Nothing is cut: the heading and the whole
      description open it, and with museum results every found site's link
      closes it. */
  function RedditPost(info: CalculatorInfo, enrichment: Option<Enrichment.Enrichment>): (r: Post)
    ensures r.platform == "Reddit" && r.maxLength == 40000
    ensures Opens(r.content, "**" + info.manufacturer + " " + info.model + "**\n\n", info)
    ensures |Museums(enrichment)| > 0 ==> Closes(r.content, SiteLines(FoundSites(Museums(enrichment)), RedditLine))
    ensures Filled(info.description) ==> |r.content| > |info.description.value|
  {
    var ai := AIContent(enrichment);
    var head := "**" + info.manufacturer + " " + info.model + "**\n\n";
    var middle := (if info.labels.Some? && |info.labels.value| > 0 then "**Features:** " + Join(info.labels.value, ", ") + "\n\n" else "")
      + (if ai.Some? then "**Interesting Facts:**\n\n" + ai.value + "\n\n" else "")
      + (if |Museums(enrichment)| > 0 then "**Related Resources:**\n\n" else "");
    var sites := if |Museums(enrichment)| > 0 then SiteLines(FoundSites(Museums(enrichment)), RedditLine) else "";
    Assembled(head, info, middle, sites);
    var content := head + DescriptionPart(info) + middle + sites;
    Post("Reddit", content, 40000)
  }

  // ------------------------------------------------- LinkedIn and generic

  const LinkedInClosing := "What's your favorite vintage calculator? Share your thoughts in the comments!\n\n"
    + "#VintageTechnology #Calculator #TechHistory #STEM"

  /** The LinkedIn post. Nothing is cut: the heading and the whole
      description open it, and the closing question and hashtags end it. */
  function LinkedInPost(info: CalculatorInfo, enrichment: Option<Enrichment.Enrichment>): (r: Post)
    ensures r.platform == "LinkedIn" && r.maxLength == 3000
    ensures Opens(r.content, "Vintage Calculator: " + info.manufacturer + " " + info.model + "\n\n", info)
    ensures Closes(r.content, LinkedInClosing)
    ensures Filled(info.description) ==> |r.content| > |info.description.value|
  {
    var ai := AIContent(enrichment);
    var head := "Vintage Calculator: " + info.manufacturer + " " + info.model + "\n\n";
    var middle := (if ai.Some? then "Historical Context:\n" + ai.value + "\n\n" else "")
      + (if info.labels.Some? && |info.labels.value| > 0 then "Key Features: " + Join(info.labels.value, ", ") + "\n\n" else "");
    Assembled(head, info, middle, LinkedInClosing);
    var content := head + DescriptionPart(info) + middle + LinkedInClosing;
    Post("LinkedIn", content, 3000)
  }

  /** The generic post. Nothing is cut: the heading and the whole
      description open it, and the whole AI answer, if any, ends it. */
  function GenericPost(info: CalculatorInfo, enrichment: Option<Enrichment.Enrichment>): (r: Post)
    ensures r.platform == "Generic" && r.maxLength == 2000
    ensures Opens(r.content, info.manufacturer + " " + info.model + "\n\n", info)
    ensures AIContent(enrichment).Some? ==> Closes(r.content, AIContent(enrichment).value)
    ensures Filled(info.description) ==> |r.content| > |info.description.value|
  {
    var ai := AIContent(enrichment);
    var head := info.manufacturer + " " + info.model + "\n\n";
    var labels := if info.labels.Some? && |info.labels.value| > 0 then "Labels: " + Join(info.labels.value, ", ") + "\n\n" else "";
    Assembled(head, info, labels, if ai.Some? then ai.value else "");
    var content := head + DescriptionPart(info) + labels + (if ai.Some? then ai.value else "");
    Post("Generic", content, 2000)
  }

  // ---------------------------------------------------------------- dispatch

  /** The platform label and length limit each lower-cased platform name
      selects; any other name selects the generic post. */
  function PlatformOf(name: string): (string, nat) {
    if name == "twitter" || name == "x" then ("Twitter/X", 280)
    else if name == "facebook" then ("Facebook", 5000)
    else if name == "instagram" then ("Instagram", 2200)
    else if name == "linkedin" then ("LinkedIn", 3000)
    else if name == "reddit" then ("Reddit", 40000)
    else if name == "mastodon" then ("Mastodon", 500)
    else ("Generic", 2000)
  }

  /** `generatePost`: dispatch on the platform name ignoring case. Twitter/X
      and Mastodon posts stay within their limit. */
  function GeneratePost(platform: string, info: CalculatorInfo, enrichment: Option<Enrichment.Enrichment>,
                        aiText: AISearch.AISearchResult -> string): (r: Post)
    ensures (r.platform, r.maxLength) == PlatformOf(Lower(platform))
    ensures r.platform == "Twitter/X" || r.platform == "Mastodon" ==> |r.content| <= r.maxLength
    ensures r.platform != "Twitter/X" && r.platform != "Mastodon" && Filled(info.description)
            ==> |r.content| > |info.description.value|
  {
    var name := Lower(platform);
    if name == "twitter" || name == "x" then TwitterPost(info, enrichment)
    else if name == "facebook" then FacebookPost(info, enrichment, aiText)
    else if name == "instagram" then InstagramPost(info, enrichment)
    else if name == "linkedin" then LinkedInPost(info, enrichment)
    else if name == "reddit" then RedditPost(info, enrichment)
    else if name == "mastodon" then MastodonPost(info)
    else GenericPost(info, enrichment)
  }

  /** The other five builders never cut: a description at least as long
      as the platform's limit gives a post over that limit. */
  lemma LongDescriptionOverflows(platform: string, info: CalculatorInfo, enrichment: Option<Enrichment.Enrichment>,
                                 aiText: AISearch.AISearchResult -> string)
    requires PlatformOf(Lower(platform)).0 != "Twitter/X" && PlatformOf(Lower(platform)).0 != "Mastodon"
    requires Filled(info.description) && |info.description.value| >= PlatformOf(Lower(platform)).1
    ensures |GeneratePost(platform, info, enrichment, aiText).content| > GeneratePost(platform, info, enrichment, aiText).maxLength
  {
  }

  /** The dispatch ignores case: two names equal ignoring case give the same
      post. */
  lemma GeneratePostIgnoresCase(a: string, b: string, info: CalculatorInfo, enrichment: Option<Enrichment.Enrichment>,
                                aiText: AISearch.AISearchResult -> string)
    requires EqualsIgnoreCase(a, b)
    ensures GeneratePost(a, info, enrichment, aiText) == GeneratePost(b, info, enrichment, aiText)
  {
  }
}
