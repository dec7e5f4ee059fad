/** The description `CalculatorController.enrichCalculator` writes for a
    calculator: blocks of text appended to one builder, in a fixed order,
    and trimmed at the end. A block appears only when its source has
    something to say; the specification and fact blocks start with a blank
    line when something precedes them, and the summary of web snippets is a
    fallback used only when nothing else was written. */
module EnrichDescription {
  import opened Wrappers
  import opened JavaText
  import opened OrderedMap
  import SpecTable
  import HtmlClean

  /** What the description is built from: the Brave AI table and raw
      answer (both absent when there is no Brave AI result), the AI answer,
      the specification table, the fact set in insertion order, and the
      snippets of the web results (absent when there are none). */
  datatype Sources = Sources(
    structured: Option<Dict<string, string>>,
    raw: Option<string>,
    ai: Option<string>,
    specs: SpecTable.Specs,
    facts: seq<string>,
    snippets: Option<seq<Option<string>>>)

  // ------------------------------------------------------------------ lines

  /** One line per item: the bullet, the item, a line break. */
  function Lines(items: seq<string>, bullet: string): (r: string)
    ensures |items| > 0 ==> |r| > 0
    decreases |items|
  {
    if |items| == 0 then "" else bullet + items[0] + "\n" + Lines(items[1..], bullet)
  }

  /** The i-th item is the i-th line: what comes before it is the lines of
      the items before it, and what follows is the lines of the rest. */
  lemma {:induction false} LinesAt(items: seq<string>, bullet: string, i: nat)
    requires i < |items|
    ensures Lines(items, bullet) == Lines(items[..i], bullet) + (bullet + items[i] + "\n") + Lines(items[i + 1..], bullet)
    decreases i
  {
    if i > 0 {
      LinesAt(items[1..], bullet, i - 1);
      assert items[1..][..i - 1] == items[..i][1..];
      assert items[1..][i - 1 + 1..] == items[i + 1..];
      assert items[..i][0] == items[0];
    } else {
      assert items[..0] == [] && items[1..] == items[0 + 1..];
    }
  }

  /** `key: value` for each key of the list that has a value, in list
      order; a name function prints the key. */
  function EntryItems<K>(keys: seq<K>, values: map<K, string>, name: K -> string): (r: seq<string>)
    ensures |r| <= |keys|
    ensures (forall i :: 0 <= i < |keys| ==> keys[i] in values) ==>
              |r| == |keys| && forall i :: 0 <= i < |r| ==> r[i] == name(keys[i]) + ": " + values[keys[i]]
    decreases |keys|
  {
    if |keys| == 0 then []
    else
      var rest := EntryItems(keys[1..], values, name);
      assert forall i :: 0 <= i < |keys| - 1 ==> keys[1..][i] == keys[i + 1];
      if keys[0] in values then [name(keys[0]) + ": " + values[keys[0]]] + rest else rest
  }

  function Identity(s: string): string {
    s
  }

  // ----------------------------------------------------------------- blocks
  //
  // Every block is either empty or shows something: it holds a unit that
  // `trim` does not remove.

  /** A non-empty Brave AI table: its heading, one line per entry, a blank
      line. */
  function StructuredBlock(data: Option<Dict<string, string>>): (r: string)
    ensures r == "" <==> data.None? || Size(data.value) == 0
    ensures r != "" ==> !AllTrimmed(r)
  {
    if data.Some? && Size(data.value) > 0 then
      var r := "Structured Information:\n" + Lines(EntryItems(data.value.keys, data.value.values, Identity), "") + "\n";
      assert !IsTrimmed(r[0]);
      r
    else ""
  }

  /** A non-blank raw Brave AI answer under its heading. */
  function RawBlock(raw: Option<string>): (r: string)
    ensures r == "" <==> !Filled(raw)
    ensures r != "" ==> !AllTrimmed(r)
  {
    if Filled(raw) then
      var r := "Additional Information:\n" + raw.value + "\n\n";
      assert !IsTrimmed(r[0]);
      r
    else ""
  }

  /** A non-blank AI answer, as it is. */
  function AIBlock(content: Option<string>): (r: string)
    ensures r == "" <==> !Filled(content)
    ensures r != "" ==> !AllTrimmed(r)
  {
    if Filled(content) then
      TrimEmptyIff(content.value);
      AllTrimmedAppend(content.value, "\n\n");
      content.value + "\n\n"
    else ""
  }

  /** A heading, led by a blank line unless nothing precedes it. */
  function Heading(before: string, first: string, later: string): (r: string)
    requires |first| > 0 && !IsTrimmed(first[0]) && |later| > 0 && !IsTrimmed(later[0])
    ensures !AllTrimmed(r)
  {
    if before == "" then first
    else
      assert ("\n" + later)[1] == later[0];
      "\n" + later
  }

  /** The specification table, `- key: value` per entry in table order. */
  function SpecsBlock(before: string, specs: SpecTable.Specs): (r: string)
    ensures r == "" <==> Size(specs) == 0
    ensures r != "" ==> !AllTrimmed(r)
  {
    if Size(specs) == 0 then ""
    else
      var h := Heading(before, "Technical Specifications:\n", "Technical Specifications:\n");
      var rest := Lines(EntryItems(specs.keys, specs.values, SpecTable.KeyName), "- ") + "\n";
      AllTrimmedAppend(h, rest);
      h + rest
  }

  /** The facts, `- fact` each, headed "Key Information" when they open the
      description and "Additional Information" otherwise. */
  function FactsBlock(before: string, facts: seq<string>): (r: string)
    ensures r == "" <==> |facts| == 0
    ensures r != "" ==> !AllTrimmed(r)
  {
    if |facts| == 0 then ""
    else
      var h := Heading(before, "Key Information:\n", "Additional Information:\n");
      var rest := Lines(facts, "- ") + "\n";
      AllTrimmedAppend(h, rest);
      h + rest
  }

  // --------------------------------------------------------------- snippets

  /** A snippet longer than 200 characters keeps its first 200 and gains an
      ellipsis. */
  function Shorten(s: string): (r: string)
    ensures |r| <= 203
    ensures |s| <= 200 ==> r == s
    ensures |s| > 200 ==> |r| == 203 && r[..200] == s[..200] && r[200..] == "..."
    ensures |s| > 0 ==> |r| > 0 && r[0] == s[0]
  {
    if |s| > 200 then s[..200] + "..." else s
  }

  /** `cleanHtmlTags` of a snippet, a null result read as empty. A
      non-empty result starts with a unit `trim` keeps. */
  function Clean(snippet: Option<string>): (r: string)
    ensures r == "" <==> !Filled(HtmlClean.CleanHtmlTags(snippet))
    ensures r != "" ==> !IsTrimmed(r[0])
  {
    var c := HtmlClean.CleanHtmlTags(snippet);
    if c.Some? then c.value else ""
  }

  /** The cleaned snippets, in result order. */
  function CleanAll(snippets: seq<Option<string>>): (r: seq<string>)
    ensures |r| == |snippets|
    ensures forall i :: 0 <= i < |r| ==> r[i] == Clean(snippets[i])
  {
    seq(|snippets|, i requires 0 <= i < |snippets| => Clean(snippets[i]))
  }

  /** The snippets worth showing: the non-empty cleaned ones, shortened. */
  function Usable(cleaned: seq<string>): (r: seq<string>)
    ensures |r| <= |cleaned|
    decreases |cleaned|
  {
    if |cleaned| == 0 then []
    else (if cleaned[0] != "" then [Shorten(cleaned[0])] else []) + Usable(cleaned[1..])
  }

  /** The loop of the fallback summary: results are visited in order, and
      a usable snippet is taken while fewer than `left` more may be. Each
      line is non-empty and holds at most 203 characters. */
  function SnippetItems(cleaned: seq<string>, left: nat): (r: seq<string>)
    ensures |r| <= left
    ensures forall i :: 0 <= i < |r| ==> 0 < |r[i]| <= 203
    decreases |cleaned|
  {
    if |cleaned| == 0 || left == 0 then []
    else if cleaned[0] != "" then [Shorten(cleaned[0])] + SnippetItems(cleaned[1..], left - 1)
    else SnippetItems(cleaned[1..], left)
  }

  /** The summary shows the first `left` usable snippets, or all of them
      when there are fewer. */
  lemma {:induction false} SnippetItemsFirst(cleaned: seq<string>, left: nat)
    ensures |Usable(cleaned)| <= left ==> SnippetItems(cleaned, left) == Usable(cleaned)
    ensures |Usable(cleaned)| > left ==> SnippetItems(cleaned, left) == Usable(cleaned)[..left]
    decreases |cleaned|
  {
    if |cleaned| > 0 && left > 0 {
      var c := cleaned[0];
      SnippetItemsFirst(cleaned[1..], if c != "" then left - 1 else left);
      if c != "" {
        var u := Usable(cleaned[1..]);
        assert Usable(cleaned) == [Shorten(c)] + u;
        if |u| > left - 1 {
          assert ([Shorten(c)] + u)[..left] == [Shorten(c)] + u[..left - 1];
        }
      }
    } else if |cleaned| > 0 {
      assert Usable(cleaned)[..0] == [];
    }
  }

  /** The fallback summary, written only when nothing precedes it and there
      are web results; its heading appears even when no snippet is usable. */
  function SnippetBlock(before: string, snippets: Option<seq<Option<string>>>): (r: string)
    ensures r == "" <==> before != "" || snippets.None? || |snippets.value| == 0
    ensures r != "" ==> !AllTrimmed(r)
  {
    if before == "" && snippets.Some? && |snippets.value| > 0 then
      var r := "Additional Information:\n" + Lines(SnippetItems(CleanAll(snippets.value), 3), "- ") + "\n";
      assert !IsTrimmed(r[0]);
      r
    else ""
  }

  // ------------------------------------------------------------ description

  /** The builder before trimming: the Brave AI blocks, the AI answer, the
      specifications, the facts, then the fallback summary. */
  function Body(src: Sources): string {
    var b1 := StructuredBlock(src.structured) + RawBlock(src.raw) + AIBlock(src.ai);
    var b2 := b1 + SpecsBlock(b1, src.specs);
    var b3 := b2 + FactsBlock(b2, src.facts);
    b3 + SnippetBlock(b3, src.snippets)
  }

  /** `description.toString().trim()`. */
  function Description(src: Sources): (r: string)
    ensures Trim(r) == r
  {
    TrimIdempotent(Body(src));
    Trim(Body(src))
  }

  /** Whether any source has something to say. */
  predicate HasContent(src: Sources) {
    || (src.structured.Some? && Size(src.structured.value) > 0)
    || Filled(src.raw) || Filled(src.ai)
    || Size(src.specs) > 0 || |src.facts| > 0
    || (src.snippets.Some? && |src.snippets.value| > 0)
  }

  /** Before trimming, the builder shows something exactly when some source
      has something to say. */
  lemma BodyShows(src: Sources)
    ensures AllTrimmed(Body(src)) <==> !HasContent(src)
  {
    var s1, s2, s3 := StructuredBlock(src.structured), RawBlock(src.raw), AIBlock(src.ai);
    var b1 := s1 + s2 + s3;
    AllTrimmedAppend(s1, s2);
    AllTrimmedAppend(s1 + s2, s3);
    var b2 := b1 + SpecsBlock(b1, src.specs);
    AllTrimmedAppend(b1, SpecsBlock(b1, src.specs));
    var b3 := b2 + FactsBlock(b2, src.facts);
    AllTrimmedAppend(b2, FactsBlock(b2, src.facts));
    AllTrimmedAppend(b3, SnippetBlock(b3, src.snippets));
  }

  /** The description is empty exactly when no source has anything: any
      table entry, non-blank answer, specification, fact or web result
      leaves visible text. */
  lemma DescriptionEmpty(src: Sources)
    ensures Description(src) == "" <==> !HasContent(src)
  {
    BodyShows(src);
    TrimEmptyIff(Body(src));
  }
}
