/** The text side of `LabelDerivationService`: the search text built from
    a calculator and the keyword test on it. */
module LabelText {
  import opened Wrappers
  import opened JavaText

  /** `buildSearchText`: the lowercased model, manufacturer name and raw
      text, each followed by a space; the raw text only when there is one. */
  function SearchText(model: string, manufacturer: string, raw: Option<string>): (r: string)
  {
    Lower(model) + (" " + (Lower(manufacturer) + (" " + RawPart(raw))))
  }

  /** `containsKeyword`: case-insensitive containment, with no word
      boundary. */
  predicate ContainsKeyword(text: string, keyword: string) {
    Contains(Lower(text), Lower(keyword))
  }

  lemma SliceOfSlice(s: string, a: nat, b: nat, c: nat, d: nat)
    requires a <= b <= |s| && c <= d <= b - a
    ensures s[a..b][c..d] == s[a + c..a + d]
  {
    var x, y := s[a..b][c..d], s[a + c..a + d];
    forall j | 0 <= j < |x|
      ensures x[j] == y[j]
    {
      assert x[j] == s[a..b][c + j];
    }
  }

  /** An occurrence inside a part of a string is an occurrence in the whole
      string. */
  lemma OccursWithin(s: string, part: string, at: nat, t: string, k: nat)
    requires OccursAt(s, part, at) && OccursAt(part, t, k)
    ensures OccursAt(s, t, at + k)
  {
    SliceOfSlice(s, at, at + |part|, k, k + |t|);
  }

  /** Where the three parts of a search text start. */
  lemma PartsAt(a: string, b: string, w: string)
    ensures var s := a + (" " + (b + (" " + w)));
            OccursAt(s, a, 0) && OccursAt(s, b, |a| + 1) && OccursAt(s, w, |a| + |b| + 2)
  {
    var s := a + (" " + (b + (" " + w)));
    assert s[0..|a|] == a;
    assert s[|a| + 1..|a| + 1 + |b|] == b;
    assert s[|a| + |b| + 2..|a| + |b| + 2 + |w|] == w;
  }

  /** Text made of lower-case parts and spaces is in lower case. */
  lemma LowerParts(a: string, b: string, w: string)
    requires Lower(a) == a && Lower(b) == b && Lower(w) == w
    ensures Lower(a + (" " + (b + (" " + w)))) == a + (" " + (b + (" " + w)))
  {
    assert Lower(" ") == " ";
    LowerAppend(" ", w);
    LowerAppend(b, " " + w);
    LowerAppend(" ", b + (" " + w));
    LowerAppend(a, " " + (b + (" " + w)));
  }

  /** The raw-text part: the lowercased raw text and a space, or nothing. */
  function RawPart(raw: Option<string>): (w: string)
    ensures Lower(w) == w
    ensures raw.Some? ==> OccursAt(w, Lower(raw.value), 0)
  {
    if raw.Some? then
      var x := Lower(raw.value);
      LowerIdempotent(raw.value);
      assert Lower(" ") == " ";
      LowerAppend(x, " ");
      assert (x + " ")[0..|x|] == x;
      x + " "
    else ""
  }

  /** The search text is in lower case. */
  lemma SearchTextLower(model: string, manufacturer: string, raw: Option<string>)
    ensures Lower(SearchText(model, manufacturer, raw)) == SearchText(model, manufacturer, raw)
  {
    LowerIdempotent(model);
    LowerIdempotent(manufacturer);
    LowerParts(Lower(model), Lower(manufacturer), RawPart(raw));
  }

  /** What starts the last part of a search text occurs in it after the
      first two parts and their spaces. */
  lemma ThirdHolds(a: string, b: string, w: string, t: string)
    requires OccursAt(w, t, 0)
    ensures OccursAt(a + (" " + (b + (" " + w))), t, |a| + |b| + 2)
  {
    PartsAt(a, b, w);
    OccursWithin(a + (" " + (b + (" " + w))), w, |a| + |b| + 2, t, 0);
  }

  /** The search text holds the lowercased model, manufacturer name and raw
      text at their places. */
  lemma SearchTextHolds(model: string, manufacturer: string, raw: Option<string>)
    ensures var text := SearchText(model, manufacturer, raw);
            && OccursAt(text, Lower(model), 0)
            && OccursAt(text, Lower(manufacturer), |model| + 1)
            && (raw.Some? ==> OccursAt(text, Lower(raw.value), |model| + |manufacturer| + 2))
  {
    var w := RawPart(raw);
    PartsAt(Lower(model), Lower(manufacturer), w);
    if raw.Some? {
      ThirdHolds(Lower(model), Lower(manufacturer), w, Lower(raw.value));
    }
  }

  /** What occurs in a part of a lower-case text is found by the keyword
      test. */
  lemma FoundInPart(text: string, part: string, at: nat, keyword: string)
    requires Lower(text) == text && OccursAt(text, part, at) && Contains(part, Lower(keyword))
    ensures ContainsKeyword(text, keyword)
  {
    var kw := Lower(keyword);
    ContainsIff(part, kw);
    var k :| OccursAt(part, kw, k);
    OccursWithin(text, part, at, kw, k);
    ContainsAt(text, kw, at + k);
  }

  /** What occurs in a part of a text made of lower-case parts is found by
      the keyword test. */
  lemma FoundInParts(a: string, b: string, w: string, part: string, at: nat, keyword: string)
    requires Lower(a) == a && Lower(b) == b && Lower(w) == w
    requires OccursAt(a + (" " + (b + (" " + w))), part, at) && Contains(part, Lower(keyword))
    ensures ContainsKeyword(a + (" " + (b + (" " + w))), keyword)
  {
    LowerParts(a, b, w);
    FoundInPart(a + (" " + (b + (" " + w))), part, at, keyword);
  }

  /** A keyword found in the model, in any case, is found in the search
      text. */
  lemma KeywordInModel(model: string, manufacturer: string, raw: Option<string>, keyword: string)
    requires Contains(Lower(model), Lower(keyword))
    ensures ContainsKeyword(SearchText(model, manufacturer, raw), keyword)
  {
    var a, b, w := Lower(model), Lower(manufacturer), RawPart(raw);
    LowerIdempotent(model);
    LowerIdempotent(manufacturer);
    PartsAt(a, b, w);
    FoundInParts(a, b, w, a, 0, keyword);
  }

  /** A keyword found in the manufacturer name is found in the search
      text. */
  lemma KeywordInManufacturer(model: string, manufacturer: string, raw: Option<string>, keyword: string)
    requires Contains(Lower(manufacturer), Lower(keyword))
    ensures ContainsKeyword(SearchText(model, manufacturer, raw), keyword)
  {
    var a, b, w := Lower(model), Lower(manufacturer), RawPart(raw);
    LowerIdempotent(model);
    LowerIdempotent(manufacturer);
    PartsAt(a, b, w);
    FoundInParts(a, b, w, b, |a| + 1, keyword);
  }

  /** A keyword found in the raw catalogue text is found in the search
      text. */
  lemma KeywordInRaw(model: string, manufacturer: string, raw: string, keyword: string)
    requires Contains(Lower(raw), Lower(keyword))
    ensures ContainsKeyword(SearchText(model, manufacturer, Some(raw)), keyword)
  {
    var a, b, w := Lower(model), Lower(manufacturer), RawPart(Some(raw));
    LowerIdempotent(model);
    LowerIdempotent(manufacturer);
    ThirdHolds(a, b, w, Lower(raw));
    FoundInParts(a, b, w, Lower(raw), |a| + |b| + 2, keyword);
  }

  /** Containment has no word boundary: a keyword inside a longer one is
      found wherever the longer one is. */
  lemma KeywordWithin(text: string, a: string, b: string, c: string)
    requires ContainsKeyword(text, a + (b + c))
    ensures ContainsKeyword(text, b)
  {
    var t := Lower(text);
    LowerAppend(b, c);
    LowerAppend(a, b + c);
    var kw := Lower(a) + (Lower(b) + Lower(c));
    ContainsIff(t, kw);
    var k :| OccursAt(t, kw, k);
    assert kw[|a|..|a| + |b|] == Lower(b);
    OccursWithin(t, kw, k, Lower(b), |a|);
    ContainsAt(t, Lower(b), k + |a|);
  }
}
