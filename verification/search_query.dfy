/** How enrichment builds its web and image search queries: the
    manufacturer, model, sales years, a type word taken from the labels,
    "vintage" and the raw catalogue text, cleaned of punctuation and with
    repeated terms (ignoring case) dropped after their first occurrence. */
module SearchQuery {
  import opened Wrappers
  import opened JavaText

  /** The punctuation the cleaning step turns into spaces. Hyphens, periods
      and apostrophes are not among them. */
  predicate IsStripped(c: char) {
    || c == ',' || c == ';' || c == ':' || c == '!' || c == '@' || c == '#' || c == '$'
    || c == '%' || c == '^' || c == '&' || c == '*' || c == '(' || c == ')' || c == '['
    || c == ']' || c == '{' || c == '}' || c == '_' || c == '+' || c == '=' || c == '<'
    || c == '>' || c == '?' || c == '/' || c == '\\' || c == '|' || c == '"' || c == '`' || c == '~'
  }

  predicate NoStripped(s: string) {
    forall i :: 0 <= i < |s| ==> !IsStripped(s[i])
  }

  /** Every stripped character replaced by a space. */
  function StripPunctuation(s: string): (r: string)
    ensures |r| == |s| && NoStripped(r)
    ensures forall i :: 0 <= i < |s| ==> r[i] == (if IsStripped(s[i]) then ' ' else s[i])
  {
    if |s| == 0 then "" else [if IsStripped(s[0]) then ' ' else s[0]] + StripPunctuation(s[1..])
  }

  /** The lower-cased forms of the non-empty trimmed terms of `ws`. */
  function LowerSet(ws: seq<string>): set<string> {
    if |ws| == 0 then {}
    else
      var t := Trim(ws[|ws| - 1]);
      LowerSet(ws[..|ws| - 1]) + (if t != "" then {Lower(t)} else {})
  }

  /** Every non-blank term contributes its lower-cased trimmed form. */
  lemma {:induction false} LowerSetIncludes(ws: seq<string>, j: nat)
    requires j < |ws| && Trim(ws[j]) != ""
    ensures Lower(Trim(ws[j])) in LowerSet(ws)
  {
    if j < |ws| - 1 {
      var prefix := ws[..|ws| - 1];
      assert prefix[j] == ws[j];
      LowerSetIncludes(prefix, j);
    }
  }

  /** Nothing else is in the set. */
  lemma {:induction false} LowerSetExcludes(ws: seq<string>, l: string)
    requires forall j :: 0 <= j < |ws| ==> Trim(ws[j]) == "" || Lower(Trim(ws[j])) != l
    ensures l !in LowerSet(ws)
  {
    if |ws| > 0 {
      var prefix := ws[..|ws| - 1];
      assert forall j :: 0 <= j < |prefix| ==> prefix[j] == ws[j];
      LowerSetExcludes(prefix, l);
    }
  }

  /** Reference definition of de-duplication: term `i` is kept, trimmed,
      exactly when it is non-empty after trimming and no earlier term is
      equal to it ignoring case. */
  function FirstOccurrences(ws: seq<string>): seq<string> {
    if |ws| == 0 then []
    else
      var prefix := ws[..|ws| - 1];
      var t := Trim(ws[|ws| - 1]);
      FirstOccurrences(prefix) + (if t != "" && Lower(t) !in LowerSet(prefix) then [t] else [])
  }

  /** The de-duplication loop as written: a set of lower-cased terms already
      seen, consulted and extended term by term. */
  function DedupLoop(ws: seq<string>, seen: set<string>): seq<string> {
    if |ws| == 0 then []
    else
      var t := Trim(ws[0]);
      if t != "" && Lower(t) !in seen then [t] + DedupLoop(ws[1..], seen + {Lower(t)})
      else DedupLoop(ws[1..], seen)
  }

  /** `cleanAndDeduplicateQuery`. */
  function Clean(query: string): string {
    if Trim(query) == "" then ""
    else Join(DedupLoop(Words(StripPunctuation(query)), {}), " ")
  }

  /** The cleaned terms, for stating properties of `Clean`. */
  function CleanTerms(query: string): seq<string> {
    FirstOccurrences(Words(StripPunctuation(query)))
  }

  // ---------------------------------------------------------------------
  // The loop computes the reference definition

  lemma LowerSetSnoc(ws: seq<string>, w: string)
    ensures LowerSet(ws + [w]) == LowerSet(ws) + (if Trim(w) != "" then {Lower(Trim(w))} else {})
  {
    assert (ws + [w])[..|ws|] == ws;
  }

  /** Whether the loop keeps term `w` after having seen `seen`. */
  predicate Kept(w: string, seen: set<string>) {
    Trim(w) != "" && Lower(Trim(w)) !in seen
  }

  /** One more term extends both the reference and the seen set exactly
      when the loop keeps it. */
  lemma PrefixStep(ws: seq<string>, i: nat)
    requires i < |ws|
    ensures FirstOccurrences(ws[..i + 1]) ==
              FirstOccurrences(ws[..i]) + (if Kept(ws[i], LowerSet(ws[..i])) then [Trim(ws[i])] else [])
    ensures LowerSet(ws[..i + 1]) ==
              LowerSet(ws[..i]) + (if Kept(ws[i], LowerSet(ws[..i])) then {Lower(Trim(ws[i]))} else {})
  {
    var p1 := ws[..i + 1];
    assert p1[..|p1| - 1] == ws[..i];
    assert p1[|p1| - 1] == ws[i];
  }

  lemma LoopStep(ws: seq<string>, i: nat, seen: set<string>)
    requires i < |ws|
    ensures DedupLoop(ws[i..], seen) ==
              (if Kept(ws[i], seen) then [Trim(ws[i])] else [])
              + DedupLoop(ws[i + 1..], seen + (if Kept(ws[i], seen) then {Lower(Trim(ws[i]))} else {}))
  {
    var d := ws[i..];
    assert d[0] == ws[i];
    assert d[1..] == ws[i + 1..];
    if Kept(ws[i], seen) {
      assert DedupLoop(d, seen) == [Trim(ws[i])] + DedupLoop(d[1..], seen + {Lower(Trim(ws[i]))});
    } else {
      assert seen + {} == seen;
      assert DedupLoop(d, seen) == [] + DedupLoop(d[1..], seen);
    }
  }

  lemma ConcatAssoc<T>(a: seq<T>, b: seq<T>, c: seq<T>)
    ensures a + (b + c) == (a + b) + c
  {
  }

  lemma {:induction false} DedupLoopFrom(ws: seq<string>, i: nat)
    requires i <= |ws|
    ensures FirstOccurrences(ws[..i]) + DedupLoop(ws[i..], LowerSet(ws[..i])) == FirstOccurrences(ws)
    decreases |ws| - i
  {
    if i == |ws| {
      assert ws[..i] == ws;
      assert ws[i..] == [];
    } else {
      var seen := LowerSet(ws[..i]);
      var keep := Kept(ws[i], seen);
      var a := FirstOccurrences(ws[..i]);
      var e := if keep then [Trim(ws[i])] else [];
      var seen' := seen + (if keep then {Lower(Trim(ws[i]))} else {});
      assert FirstOccurrences(ws[..i + 1]) == a + e && LowerSet(ws[..i + 1]) == seen' by {
        PrefixStep(ws, i);
      }
      var r := DedupLoop(ws[i + 1..], seen');
      assert DedupLoop(ws[i..], seen) == e + r by {
        LoopStep(ws, i, seen);
      }
      assert (a + e) + r == FirstOccurrences(ws) by {
        DedupLoopFrom(ws, i + 1);
      }
      ConcatAssoc(a, e, r);
    }
  }

  /** The loop keeps exactly the first occurrences. */
  lemma DedupLoopIsFirstOccurrences(ws: seq<string>)
    ensures DedupLoop(ws, {}) == FirstOccurrences(ws)
  {
    DedupLoopFrom(ws, 0);
    assert ws[..0] == [];
    assert LowerSet([]) == {};
    assert ws[0..] == ws;
  }

  // ---------------------------------------------------------------------
  // Shape of the cleaned terms

  predicate IsCleanTerm(t: string) {
    t != "" && NoRegexSpace(t) && NoStripped(t) && !IsTrimmed(t[0]) && !IsTrimmed(t[|t| - 1])
  }

  predicate DistinctIgnoringCase(ts: seq<string>) {
    forall a, b :: 0 <= a < b < |ts| ==> Lower(ts[a]) != Lower(ts[b])
  }

  predicate AllWordsClean(ws: seq<string>) {
    forall i :: 0 <= i < |ws| ==> NoRegexSpace(ws[i]) && NoStripped(ws[i])
  }

  /** The trimmed infix of a word keeps what the word lacked. */
  lemma TrimKeepsAbsence(w: string)
    ensures NoRegexSpace(w) ==> NoRegexSpace(Trim(w))
    ensures NoStripped(w) ==> NoStripped(Trim(w))
  {
    if NoRegexSpace(w) {
      TrimKeeps(w, c => !IsRegexSpace(c));
    }
    if NoStripped(w) {
      TrimKeeps(w, c => !IsStripped(c));
    }
  }

  /** The reference definition, one term at a time from the right. */
  lemma LastStep(ws: seq<string>)
    requires |ws| > 0
    ensures var p := ws[..|ws| - 1]; var w := ws[|ws| - 1];
      && FirstOccurrences(ws) == FirstOccurrences(p) + (if Kept(w, LowerSet(p)) then [Trim(w)] else [])
      && LowerSet(ws) == LowerSet(p) + (if Kept(w, LowerSet(p)) then {Lower(Trim(w))} else {})
  {
    PrefixStep(ws, |ws| - 1);
    assert ws[..|ws|] == ws;
  }

  /** Every kept term is non-empty, trimmed and free of whitespace and
      stripped punctuation. */
  lemma {:induction false} FirstOccurrencesClean(ws: seq<string>)
    requires AllWordsClean(ws)
    ensures forall i :: 0 <= i < |FirstOccurrences(ws)| ==> IsCleanTerm(FirstOccurrences(ws)[i])
  {
    if |ws| > 0 {
      var p := ws[..|ws| - 1];
      var w := ws[|ws| - 1];
      assert forall j :: 0 <= j < |p| ==> p[j] == ws[j];
      FirstOccurrencesClean(p);
      LastStep(ws);
      TrimKeepsAbsence(w);
    }
  }

  /** The lower-cased form of every kept term was seen. */
  lemma {:induction false} FirstOccurrencesSeen(ws: seq<string>)
    ensures forall i :: 0 <= i < |FirstOccurrences(ws)| ==> Lower(FirstOccurrences(ws)[i]) in LowerSet(ws)
  {
    if |ws| > 0 {
      var p := ws[..|ws| - 1];
      FirstOccurrencesSeen(p);
      LastStep(ws);
    }
  }

  /** Kept terms are pairwise distinct ignoring case. */
  lemma {:induction false} FirstOccurrencesDistinct(ws: seq<string>)
    ensures DistinctIgnoringCase(FirstOccurrences(ws))
  {
    if |ws| > 0 {
      var p := ws[..|ws| - 1];
      var w := ws[|ws| - 1];
      var k := FirstOccurrences(p);
      FirstOccurrencesDistinct(p);
      FirstOccurrencesSeen(p);
      LastStep(ws);
      if Kept(w, LowerSet(p)) {
        var r := FirstOccurrences(ws);
        forall a, b | 0 <= a < b < |r| ensures Lower(r[a]) != Lower(r[b]) {
          assert r[a] == k[a];
          if b < |k| {
            assert r[b] == k[b];
          }
        }
      }
    }
  }

  /** No lower-cased term is lost: de-duplication keeps one term for each
      lower-cased form that occurs. */
  lemma {:induction false} FirstOccurrencesCover(ws: seq<string>)
    ensures LowerSet(FirstOccurrences(ws)) == LowerSet(ws)
  {
    if |ws| > 0 {
      var prefix := ws[..|ws| - 1];
      var w := ws[|ws| - 1];
      var t := Trim(w);
      var k := FirstOccurrences(prefix);
      FirstOccurrencesCover(prefix);
      if t != "" && Lower(t) !in LowerSet(prefix) {
        TrimIdempotent(w);
        LowerSetSnoc(k, t);
      } else {
        assert FirstOccurrences(ws) == k + [];
        assert k + [] == k;
      }
    }
  }

  /** A list that is already clean and duplicate-free is its own list of
      first occurrences. */
  lemma {:induction false} FirstOccurrencesOfDistinct(ts: seq<string>)
    requires forall i :: 0 <= i < |ts| ==> IsCleanTerm(ts[i])
    requires DistinctIgnoringCase(ts)
    ensures FirstOccurrences(ts) == ts
  {
    if |ts| > 0 {
      var prefix := ts[..|ts| - 1];
      var t := ts[|ts| - 1];
      CleanDistinctPrefix(ts, prefix);
      FirstOccurrencesOfDistinct(prefix);
      forall j | 0 <= j < |prefix| ensures Lower(prefix[j]) != Lower(t) {
        assert prefix[j] == ts[j];
      }
      DistinctLastKept(prefix, t);
      assert prefix + [t] == ts;
    }
  }

  lemma CleanDistinctPrefix(ts: seq<string>, prefix: seq<string>)
    requires |ts| > 0 && prefix == ts[..|ts| - 1]
    requires forall i :: 0 <= i < |ts| ==> IsCleanTerm(ts[i])
    requires DistinctIgnoringCase(ts)
    ensures forall i :: 0 <= i < |prefix| ==> IsCleanTerm(prefix[i])
    ensures DistinctIgnoringCase(prefix)
  {
    assert forall i :: 0 <= i < |prefix| ==> prefix[i] == ts[i];
  }

  /** A clean term that differs, ignoring case, from every term of a
      clean list is kept after it. */
  lemma DistinctLastKept(prefix: seq<string>, t: string)
    requires IsCleanTerm(t)
    requires forall j :: 0 <= j < |prefix| ==> IsCleanTerm(prefix[j])
    requires forall j :: 0 <= j < |prefix| ==> Lower(prefix[j]) != Lower(t)
    requires FirstOccurrences(prefix) == prefix
    ensures FirstOccurrences(prefix + [t]) == prefix + [t]
  {
    TrimOfTrimmed(t);
    forall j | 0 <= j < |prefix| ensures Trim(prefix[j]) == "" || Lower(Trim(prefix[j])) != Lower(t) {
      TrimOfTrimmed(prefix[j]);
    }
    LowerSetExcludes(prefix, Lower(t));
    KeepLast(prefix, t);
  }

  /** One turn of `FirstOccurrences` that keeps the last term. */
  lemma KeepLast(prefix: seq<string>, t: string)
    requires Trim(t) == t && t != "" && Lower(t) !in LowerSet(prefix)
    requires FirstOccurrences(prefix) == prefix
    ensures FirstOccurrences(prefix + [t]) == prefix + [t]
  {
    var ws := prefix + [t];
    assert ws[..|ws| - 1] == prefix;
    assert ws[|ws| - 1] == t;
  }

  lemma StripOfClean(s: string)
    requires NoStripped(s)
    ensures StripPunctuation(s) == s
  {
  }

  lemma {:induction false} JoinNoStripped(ts: seq<string>)
    requires forall i :: 0 <= i < |ts| ==> NoStripped(ts[i])
    ensures NoStripped(Join(ts, " "))
  {
    if |ts| > 1 {
      JoinNoStripped(ts[1..]);
      var j := Join(ts[1..], " ");
      assert Join(ts, " ") == ts[0] + " " + j;
      assert forall i :: 0 <= i < |ts[0]| ==> Join(ts, " ")[i] == ts[0][i];
      assert forall i :: |ts[0]| < i < |Join(ts, " ")| ==> Join(ts, " ")[i] == j[i - |ts[0]| - 1];
    }
  }

  lemma {:induction false} JoinTrimmedEnds(ts: seq<string>)
    requires |ts| > 0
    requires forall i :: 0 <= i < |ts| ==> IsCleanTerm(ts[i])
    ensures var j := Join(ts, " "); j != [] && !IsTrimmed(j[0]) && !IsTrimmed(j[|j| - 1])
  {
    if |ts| > 1 {
      JoinTrimmedEnds(ts[1..]);
    }
  }

  /** `Clean` returns the first occurrences joined by single spaces. */
  lemma CleanIsJoinedTerms(query: string)
    ensures Clean(query) == Join(CleanTerms(query), " ")
  {
    var ws := Words(StripPunctuation(query));
    DedupLoopIsFirstOccurrences(ws);
    if Trim(query) == "" {
      TrimEmptyIff(query);
      NoTermsInBlank(query);
    }
  }

  /** A query of trimmable units only has no terms left after trimming. */
  lemma NoTermsInBlank(query: string)
    requires forall i :: 0 <= i < |query| ==> IsTrimmed(query[i])
    ensures CleanTerms(query) == []
  {
    var s := StripPunctuation(query);
    assert forall i :: 0 <= i < |s| ==> IsTrimmed(s[i]);
    var ws := Words(s);
    WordsTrimmable(s);
    NoFirstOccurrences(ws);
  }

  lemma WordsTrimmable(s: string)
    requires forall i :: 0 <= i < |s| ==> IsTrimmed(s[i])
    ensures forall k :: 0 <= k < |Words(s)| ==> Trim(Words(s)[k]) == ""
  {
    WordsKeep(s, IsTrimmed);
    forall k | 0 <= k < |Words(s)| ensures Trim(Words(s)[k]) == "" {
      TrimEmptyIff(Words(s)[k]);
    }
  }

  lemma {:induction false} NoFirstOccurrences(ws: seq<string>)
    requires forall k :: 0 <= k < |ws| ==> Trim(ws[k]) == ""
    ensures FirstOccurrences(ws) == []
  {
    if |ws| > 0 {
      NoFirstOccurrences(ws[..|ws| - 1]);
    }
  }

  lemma WordsAreClean(s: string)
    requires NoStripped(s)
    ensures AllWordsClean(Words(s))
  {
    WordsKeep(s, c => !IsStripped(c));
  }

  /** The promised output shape: single-space separated terms that are
      non-empty, contain no stripped punctuation, and are pairwise distinct
      ignoring case. */
  lemma CleanShape(query: string)
    ensures forall i :: 0 <= i < |CleanTerms(query)| ==> IsCleanTerm(CleanTerms(query)[i])
    ensures DistinctIgnoringCase(CleanTerms(query))
    ensures NoStripped(Clean(query))
    ensures Words(Clean(query)) == CleanTerms(query)
  {
    var s := StripPunctuation(query);
    WordsAreClean(s);
    FirstOccurrencesClean(Words(s));
    FirstOccurrencesDistinct(Words(s));
    CleanIsJoinedTerms(query);
    JoinNoStripped(CleanTerms(query));
    WordsOfJoin(CleanTerms(query));
  }

  /** Cleaning a cleaned query gives it back unchanged. */
  lemma CleanIdempotent(query: string)
    ensures Clean(Clean(query)) == Clean(query)
  {
    var c := Clean(query);
    var ts := CleanTerms(query);
    CleanShape(query);
    CleanIsJoinedTerms(query);
    CleanIsJoinedTerms(c);
    StripOfClean(c);
    assert CleanTerms(c) == FirstOccurrences(Words(c));
    FirstOccurrencesOfDistinct(ts);
  }

  // ---------------------------------------------------------------------
  // Building the query

  /** The calculator fields the query is built from. */
  datatype Calculator = Calculator(manufacturer: string, model: string,
                                   soldFrom: Option<int>, soldTo: Option<int>,
                                   rawRowText: Option<string>)

  function TypeWordFrom(labels: seq<string>, current: string): string {
    if |labels| == 0 then current
    else if Lower(labels[0]) == "mechanical" then "mechanical"
    else if Lower(labels[0]) == "electromechanical" then TypeWordFrom(labels[1..], "electromechanical")
    else TypeWordFrom(labels[1..], current)
  }

  /** The type word: the label loop stops at "Mechanical" and only notes
      "Electromechanical", starting from "electronic". */
  function TypeWord(labels: seq<string>): string {
    TypeWordFrom(labels, "electronic")
  }

  /** Some label equals `lowerName` ignoring case (`lowerName` is given in
      lower case). */
  predicate HasLabel(labels: seq<string>, lowerName: string) {
    exists i :: 0 <= i < |labels| && Lower(labels[i]) == lowerName
  }

  lemma {:induction false} TypeWordFromPriority(labels: seq<string>, current: string)
    ensures TypeWordFrom(labels, current) ==
      if HasLabel(labels, "mechanical") then "mechanical"
      else if HasLabel(labels, "electromechanical") then "electromechanical"
      else current
  {
    if |labels| > 0 {
      TypeWordFromPriority(labels[1..], if Lower(labels[0]) == "electromechanical" then "electromechanical" else current);
      if HasLabel(labels[1..], "mechanical") {
        var i :| 0 <= i < |labels[1..]| && Lower(labels[1..][i]) == "mechanical";
        assert Lower(labels[i + 1]) == "mechanical";
      }
      if HasLabel(labels[1..], "electromechanical") {
        var i :| 0 <= i < |labels[1..]| && Lower(labels[1..][i]) == "electromechanical";
        assert Lower(labels[i + 1]) == "electromechanical";
      }
      if HasLabel(labels, "mechanical") && Lower(labels[0]) != "mechanical" {
        var i :| 0 <= i < |labels| && Lower(labels[i]) == "mechanical";
        assert labels[1..][i - 1] == labels[i];
      }
      if HasLabel(labels, "electromechanical") && Lower(labels[0]) != "electromechanical" {
        var i :| 0 <= i < |labels| && Lower(labels[i]) == "electromechanical";
        assert labels[1..][i - 1] == labels[i];
      }
    }
  }

  /** The type word depends only on which labels are present, not on their
      order: Mechanical wins over Electromechanical, which wins over the
      default. */
  lemma TypeWordPriority(labels: seq<string>)
    ensures TypeWord(labels) ==
      if HasLabel(labels, "mechanical") then "mechanical"
      else if HasLabel(labels, "electromechanical") then "electromechanical"
      else "electronic"
  {
    TypeWordFromPriority(labels, "electronic");
  }

  /** "vintage" is added unless the calculator was first sold after 2000. */
  predicate IsVintage(c: Calculator) {
    c.soldFrom.None? || c.soldFrom.value <= 2000
  }

  /** `append(" ").append(w)` on the query being built. */
  function AppendWord(q: string, w: string): string {
    q + " " + w
  }

  function AppendYear(q: string, y: Option<int>): string {
    if y.Some? then AppendWord(q, IntToString(y.value)) else q
  }

  /** The raw row text is appended only when it is present and not blank
      after trimming. */
  predicate HasRawText(c: Calculator) {
    c.rawRowText.Some? && Trim(c.rawRowText.value) != ""
  }

  /** The query before cleaning. */
  function RawQuery(c: Calculator, labels: seq<string>): string {
    var q0 := AppendWord(c.manufacturer, c.model);
    var q1 := AppendYear(AppendYear(q0, c.soldFrom), c.soldTo);
    var q2 := AppendWord(AppendWord(q1, TypeWord(labels)), "calculator");
    var q3 := if IsVintage(c) then AppendWord(q2, "vintage") else q2;
    if HasRawText(c) then AppendWord(q3, c.rawRowText.value) else q3
  }

  /** `buildEnhancedSearchQuery`. */
  function EnhancedQuery(c: Calculator, labels: seq<string>): string {
    Clean(Trim(RawQuery(c, labels)))
  }

  /** `buildImageSearchQuery`. */
  function ImageQuery(c: Calculator, labels: seq<string>): string {
    Clean(AppendWord(EnhancedQuery(c, labels), "image"))
  }

  function YearWords(y: Option<int>): seq<string> {
    if y.Some? then [IntToString(y.value)] else []
  }

  // The fixed words the builder appends split to themselves; one lemma
  // each keeps every proof about a literal small.

  lemma WordCalculator()
    ensures Words("calculator") == ["calculator"]
  {
    WordsOfWord("calculator");
  }

  lemma WordVintage()
    ensures Words("vintage") == ["vintage"]
  {
    WordsOfWord("vintage");
  }

  lemma WordImage()
    ensures Words("image") == ["image"]
  {
    WordsOfWord("image");
  }

  lemma WordElectronic()
    ensures Words("electronic") == ["electronic"]
  {
    WordsOfWord("electronic");
  }

  lemma WordMechanical()
    ensures Words("mechanical") == ["mechanical"]
  {
    WordsOfWord("mechanical");
  }

  lemma WordElectromechanical()
    ensures Words("electromechanical") == ["electromechanical"]
  {
    WordsOfWord("electromechanical");
  }

  lemma WordsOfTypeWord(labels: seq<string>)
    ensures Words(TypeWord(labels)) == [TypeWord(labels)]
  {
    TypeWordPriority(labels);
    WordElectronic();
    WordMechanical();
    WordElectromechanical();
  }

  lemma WordsOfAppendWord(q: string, w: string)
    ensures Words(AppendWord(q, w)) == Words(q) + Words(w)
  {
    assert AppendWord(q, w) == q + (" " + w);
    WordsAppend(q, " " + w);
    WordsOfSpaced(w);
  }

  lemma WordsOfAppendYear(q: string, y: Option<int>)
    ensures Words(AppendYear(q, y)) == Words(q) + YearWords(y)
  {
    if y.Some? {
      var n := IntToString(y.value);
      WordsOfAppendWord(q, n);
      WordsOfWord(n);
    } else {
      assert Words(q) + [] == Words(q);
    }
  }

  /** Before cleaning, the query's terms are, in order: the manufacturer's
      and model's words, the years present, the type word, "calculator",
      "vintage" when applicable, then the raw text's words. */
  lemma RawQueryTerms(c: Calculator, labels: seq<string>)
    ensures Words(RawQuery(c, labels)) ==
      Words(c.manufacturer) + Words(c.model) + YearWords(c.soldFrom) + YearWords(c.soldTo)
      + [TypeWord(labels)] + ["calculator"]
      + (if IsVintage(c) then ["vintage"] else [])
      + (if HasRawText(c) then Words(c.rawRowText.value) else [])
  {
    var ty := TypeWord(labels);
    WordsOfTypeWord(labels);
    WordCalculator();
    WordVintage();
    var q0 := AppendWord(c.manufacturer, c.model);
    WordsOfAppendWord(c.manufacturer, c.model);
    var qa := AppendYear(q0, c.soldFrom);
    WordsOfAppendYear(q0, c.soldFrom);
    var q1 := AppendYear(qa, c.soldTo);
    WordsOfAppendYear(qa, c.soldTo);
    var qt := AppendWord(q1, ty);
    WordsOfAppendWord(q1, ty);
    var q2 := AppendWord(qt, "calculator");
    WordsOfAppendWord(qt, "calculator");
    var q3 := if IsVintage(c) then AppendWord(q2, "vintage") else q2;
    if IsVintage(c) {
      WordsOfAppendWord(q2, "vintage");
    }
    if HasRawText(c) {
      WordsOfAppendWord(q3, c.rawRowText.value);
    }
    var q3w := Words(q2) + (if IsVintage(c) then ["vintage"] else []);
    assert Words(q3) == q3w;
  }

  /** Some term equals `lowerWord` ignoring case (`lowerWord` is given in
      lower case). */
  predicate HasTermIgnoringCase(ts: seq<string>, lowerWord: string) {
    exists i :: 0 <= i < |ts| && Lower(ts[i]) == lowerWord
  }

  /** Terms that trimming leaves unchanged and that are not empty. */
  predicate AllTrimmedTerms(ts: seq<string>) {
    forall i :: 0 <= i < |ts| ==> ts[i] != "" && Trim(ts[i]) == ts[i]
  }

  lemma CleanTermsTrimmed(ts: seq<string>)
    requires forall i :: 0 <= i < |ts| ==> IsCleanTerm(ts[i])
    ensures AllTrimmedTerms(ts)
  {
    forall i | 0 <= i < |ts| ensures ts[i] != "" && Trim(ts[i]) == ts[i] {
      TrimOfTrimmed(ts[i]);
    }
  }

  /** For trimmed terms the seen set holds exactly their lower-cased forms. */
  lemma SeenOfTrimmedTerms(ts: seq<string>, l: string)
    requires AllTrimmedTerms(ts)
    ensures l in LowerSet(ts) <==> HasTermIgnoringCase(ts, l)
  {
    if HasTermIgnoringCase(ts, l) {
      var i :| 0 <= i < |ts| && Lower(ts[i]) == l;
      LowerSetIncludes(ts, i);
    } else {
      LowerSetExcludes(ts, l);
    }
  }

  lemma NoStrippedAppendWord(q: string, w: string)
    requires NoStripped(q) && NoStripped(w)
    ensures NoStripped(AppendWord(q, w))
  {
    var r := AppendWord(q, w);
    forall i | 0 <= i < |r| ensures !IsStripped(r[i]) {
      if i < |q| {
        assert r[i] == q[i];
      } else if i > |q| {
        assert r[i] == w[i - |q| - 1];
      }
    }
  }

  /** Cleaning a cleaned query with one more clean word appended adds that
      word at the end, unless a term equal to it ignoring case is already
      there. */
  lemma CleanAppendWord(query: string, w: string)
    requires IsCleanTerm(w)
    ensures Words(Clean(AppendWord(Clean(query), w))) ==
              Words(Clean(query)) + (if HasTermIgnoringCase(Words(Clean(query)), Lower(w)) then [] else [w])
  {
    var c := Clean(query);
    var ts := CleanTerms(query);
    var q := AppendWord(c, w);
    CleanShape(query);
    NoStrippedAppendWord(c, w);
    StripOfClean(q);
    WordsOfAppendWord(c, w);
    WordsOfWord(w);
    assert Words(StripPunctuation(q)) == ts + [w];
    var ws := ts + [w];
    LastStep(ws);
    assert ws[..|ws| - 1] == ts;
    FirstOccurrencesOfDistinct(ts);
    TrimOfTrimmed(w);
    CleanTermsTrimmed(ts);
    SeenOfTrimmedTerms(ts, Lower(w));
    CleanShape(q);
  }

  lemma CleanTermImage()
    ensures IsCleanTerm("image") && Lower("image") == "image"
  {
  }

  /** The image query is the enhanced query's terms followed by "image",
      which is left out when one of the terms already is "image" ignoring
      case. */
  lemma ImageQueryTerms(c: Calculator, labels: seq<string>)
    ensures Words(ImageQuery(c, labels)) ==
              Words(EnhancedQuery(c, labels))
              + (if HasTermIgnoringCase(Words(EnhancedQuery(c, labels)), "image") then [] else ["image"])
  {
    var raw := Trim(RawQuery(c, labels));
    var e := EnhancedQuery(c, labels);
    assert e == Clean(raw);
    assert ImageQuery(c, labels) == Clean(AppendWord(e, "image"));
    CleanedImageTerms(raw);
  }

  /** The same, for any trimmed raw query. */
  lemma CleanedImageTerms(raw: string)
    ensures Words(Clean(AppendWord(Clean(raw), "image"))) ==
              Words(Clean(raw)) + (if HasTermIgnoringCase(Words(Clean(raw)), "image") then [] else ["image"])
  {
    CleanTermImage();
    CleanAppendWord(raw, "image");
  }
}
