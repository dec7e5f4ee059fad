/** A worked example of the search query builder: the HP 35S entry, sold
    from 1972 with the raw text "HP; scientific, pocket" and no labels.
    Every step of the pipeline (building, stripping, splitting,
    de-duplicating, joining) is taken by a small lemma, so that no single
    proof has to evaluate the whole query at once. */
module SearchQueryExample {
  import opened Wrappers
  import opened JavaText
  import opened SearchQuery

  const HP35S: Calculator := Calculator("HP", "35S", Some(1972), None, Some("HP; scientific, pocket"))

  function HP35SHead(): string {
    AppendWord(AppendWord(AppendWord(AppendWord(AppendWord("HP", "35S"), "1972"), "electronic"), "calculator"), "vintage")
  }

  /** The words the builder writes before the raw text. */
  const HP35SHeadTerms: seq<string> := ["HP", "35S", "1972", "electronic", "calculator", "vintage"]

  // ---------------------------------------------------------------------
  // Building and trimming

  lemma HP35SRaw()
    ensures RawQuery(HP35S, []) == AppendWord(HP35SHead(), "HP; scientific, pocket")
  {
    assert IntToString(1972) == "1972";
    assert TypeWord([]) == "electronic";
    TrimNonEmptyAt("HP; scientific, pocket", 0);
  }

  lemma HP35STrimmed()
    ensures Trim(AppendWord(HP35SHead(), "HP; scientific, pocket")) == AppendWord(HP35SHead(), "HP; scientific, pocket")
  {
    var s := AppendWord(HP35SHead(), "HP; scientific, pocket");
    assert s[0] == 'H';
    assert s[|s| - 1] == 't';
    TrimOfTrimmed(s);
  }

  // ---------------------------------------------------------------------
  // Stripping punctuation and splitting into words

  lemma NoStrippedSix(a: string, b: string, c: string, d: string, e: string, f: string)
    requires NoStripped(a) && NoStripped(b) && NoStripped(c) && NoStripped(d) && NoStripped(e) && NoStripped(f)
    ensures NoStripped(AppendWord(AppendWord(AppendWord(AppendWord(AppendWord(a, b), c), d), e), f))
  {
    NoStrippedAppendWord(a, b);
    NoStrippedAppendWord(AppendWord(a, b), c);
    NoStrippedAppendWord(AppendWord(AppendWord(a, b), c), d);
    NoStrippedAppendWord(AppendWord(AppendWord(AppendWord(a, b), c), d), e);
    NoStrippedAppendWord(AppendWord(AppendWord(AppendWord(AppendWord(a, b), c), d), e), f);
  }

  lemma ShortWordsPlain()
    ensures NoStripped("HP") && NoStripped("35S") && NoStripped("1972")
  {
  }

  lemma LongWordsPlain()
    ensures NoStripped("electronic") && NoStripped("calculator") && NoStripped("vintage")
  {
  }

  lemma HeadNoStripped()
    ensures NoStripped(HP35SHead())
  {
    ShortWordsPlain();
    LongWordsPlain();
    NoStrippedSix("HP", "35S", "1972", "electronic", "calculator", "vintage");
  }

  lemma WordHP() ensures Words("HP") == ["HP"] { WordsOfWord("HP"); }
  lemma Word35S() ensures Words("35S") == ["35S"] { WordsOfWord("35S"); }
  lemma Word1972() ensures Words("1972") == ["1972"] { WordsOfWord("1972"); }

  lemma AppendTerms(q: string, w: string, qs: seq<string>)
    requires Words(q) == qs && Words(w) == [w]
    ensures Words(AppendWord(q, w)) == qs + [w]
  {
    WordsOfAppendWord(q, w);
  }

  lemma HeadWords()
    ensures Words(HP35SHead()) == HP35SHeadTerms
  {
    var a1 := AppendWord("HP", "35S");
    var a2 := AppendWord(a1, "1972");
    var a3 := AppendWord(a2, "electronic");
    var a4 := AppendWord(a3, "calculator");
    WordHP();
    Word35S();
    Word1972();
    WordElectronic();
    WordCalculator();
    WordVintage();
    AppendTerms("HP", "35S", ["HP"]);
    AppendTerms(a1, "1972", ["HP", "35S"]);
    AppendTerms(a2, "electronic", ["HP", "35S", "1972"]);
    AppendTerms(a3, "calculator", ["HP", "35S", "1972", "electronic"]);
    AppendTerms(a4, "vintage", ["HP", "35S", "1972", "electronic", "calculator"]);
  }

  lemma StripAppend(a: string, b: string)
    ensures StripPunctuation(a + b) == StripPunctuation(a) + StripPunctuation(b)
  {
    var l := StripPunctuation(a + b);
    var sa, sb := StripPunctuation(a), StripPunctuation(b);
    var r := sa + sb;
    assert |l| == |r|;
    forall i | 0 <= i < |l| ensures l[i] == r[i] {
      if i < |a| {
        assert (a + b)[i] == a[i];
        assert r[i] == sa[i];
      } else {
        assert (a + b)[i] == b[i - |a|];
        assert r[i] == sb[i - |a|];
      }
    }
  }

  lemma StripNone(s: string)
    requires NoStripped(s)
    ensures StripPunctuation(s) == s
  {
  }

  lemma StripAround(a: string, c: string, e: string, p1: char, p2: char)
    requires NoStripped(a) && NoStripped(c) && NoStripped(e)
    requires IsStripped(p1) && IsStripped(p2)
    ensures StripPunctuation(a + [p1] + c + [p2] + e) == AppendWord(AppendWord(a, c), e)
  {
    var s := a + [p1] + c + [p2] + e;
    var t := AppendWord(AppendWord(a, c), e);
    assert |t| == |s|;
    forall i | 0 <= i < |s| ensures StripPunctuation(s)[i] == t[i] {
      if i < |a| {
        assert s[i] == a[i] && t[i] == a[i];
      } else if i == |a| {
        assert s[i] == p1 && t[i] == ' ';
      } else if i < |a| + 1 + |c| {
        assert s[i] == c[i - |a| - 1] && t[i] == c[i - |a| - 1];
      } else if i == |a| + 1 + |c| {
        assert s[i] == p2 && t[i] == ' ';
      } else {
        assert s[i] == e[i - |a| - |c| - 2] && t[i] == e[i - |a| - |c| - 2];
      }
    }
  }

  lemma RawPiecesPlain()
    ensures NoStripped("HP") && NoStripped(" scientific") && NoStripped(" pocket")
    ensures IsStripped(';') && IsStripped(',')
  {
  }

  lemma RawTextSpelled()
    ensures "HP; scientific, pocket" == "HP" + [';'] + " scientific" + [','] + " pocket"
  {
  }

  lemma RawTextStripped()
    ensures StripPunctuation("HP; scientific, pocket") == AppendWord(AppendWord("HP", " scientific"), " pocket")
  {
    RawTextSpelled();
    RawPiecesPlain();
    StripAround("HP", " scientific", " pocket", ';', ',');
  }

  lemma StripAfter(q: string, t: string)
    requires NoStripped(q)
    ensures StripPunctuation(AppendWord(q, t)) == AppendWord(q, StripPunctuation(t))
  {
    assert AppendWord(q, t) == (q + " ") + t;
    StripAppend(q + " ", t);
    StripNone(q + " ");
  }

  lemma SpacedWord(w: string)
    requires |w| > 0 && NoRegexSpace(w)
    ensures Words(" " + w) == [w]
  {
    WordsOfSpaced(w);
    WordsOfWord(w);
  }

  lemma SpacedScientific() ensures Words(" scientific") == ["scientific"] { SpacedWord("scientific"); }
  lemma SpacedPocket() ensures Words(" pocket") == ["pocket"] { SpacedWord("pocket"); }

  lemma StrippedFirstTwo()
    ensures Words(AppendWord("HP", " scientific")) == ["HP", "scientific"]
  {
    WordHP();
    SpacedScientific();
    WordsOfAppendWord("HP", " scientific");
  }

  const HP35SStripped: string := AppendWord(AppendWord("HP", " scientific"), " pocket")

  lemma StrippedWords()
    ensures Words(HP35SStripped) == ["HP", "scientific", "pocket"]
  {
    StrippedFirstTwo();
    SpacedPocket();
    WordsOfAppendWord(AppendWord("HP", " scientific"), " pocket");
  }

  // ---------------------------------------------------------------------
  // De-duplication: terms told apart by their lower-cased first character

  /** Every lower-cased term of `seen` starts with a character of `heads`. */
  predicate Heads(seen: set<string>, heads: set<char>) {
    forall l | l in seen :: |l| > 0 && l[0] in heads
  }

  predicate Bare(w: string) {
    w != "" && !IsTrimmed(w[0]) && !IsTrimmed(w[|w| - 1])
  }

  function Head(w: string): char
    requires w != ""
  {
    LowerChar(w[0])
  }

  /** A trimmed term whose lower-cased first character is new is kept. */
  lemma KeepStep(ws: seq<string>, w: string, heads: set<char>)
    requires Heads(LowerSet(ws), heads) && Bare(w) && Head(w) !in heads
    ensures FirstOccurrences(ws + [w]) == FirstOccurrences(ws) + [w]
    ensures Heads(LowerSet(ws + [w]), heads + {Head(w)})
  {
    TrimOfTrimmed(w);
    LowerAt(w, 0);
    var v := ws + [w];
    assert v[..|v| - 1] == ws && v[|v| - 1] == w;
    LastStep(v);
  }

  /** A trimmed term already present is dropped. */
  lemma DropStep(ws: seq<string>, w: string, j: nat)
    requires j < |ws| && ws[j] == w && Bare(w)
    ensures FirstOccurrences(ws + [w]) == FirstOccurrences(ws)
    ensures LowerSet(ws + [w]) == LowerSet(ws)
  {
    TrimOfTrimmed(w);
    LowerSetIncludes(ws, j);
    DropSeen(ws, w);
  }

  lemma DropSeen(ws: seq<string>, w: string)
    requires !Kept(w, LowerSet(ws))
    ensures FirstOccurrences(ws + [w]) == FirstOccurrences(ws)
    ensures LowerSet(ws + [w]) == LowerSet(ws)
  {
    var v := ws + [w];
    assert v[..|v| - 1] == ws && v[|v| - 1] == w;
    LastStep(v);
  }

  /** Bare terms whose lower-cased first characters differ. */
  predicate Spread(ws: seq<string>) {
    && (forall i :: 0 <= i < |ws| ==> Bare(ws[i]))
    && (forall i, j :: 0 <= i < j < |ws| ==> Head(ws[i]) != Head(ws[j]))
  }

  function HeadsOf(ws: seq<string>): set<char>
    requires forall i :: 0 <= i < |ws| ==> ws[i] != ""
  {
    if |ws| == 0 then {} else HeadsOf(ws[..|ws| - 1]) + {Head(ws[|ws| - 1])}
  }

  lemma {:induction false} HeadsOfExcludes(ws: seq<string>, c: char)
    requires forall i :: 0 <= i < |ws| ==> ws[i] != "" && Head(ws[i]) != c
    ensures c !in HeadsOf(ws)
  {
    if |ws| > 0 {
      var p := ws[..|ws| - 1];
      assert forall i :: 0 <= i < |p| ==> p[i] == ws[i];
      HeadsOfExcludes(p, c);
    }
  }

  /** Spread terms are all kept, and their seen set is covered by their heads. */
  lemma {:induction false} KeepAll(ws: seq<string>)
    requires Spread(ws)
    ensures FirstOccurrences(ws) == ws
    ensures Heads(LowerSet(ws), HeadsOf(ws))
  {
    if |ws| > 0 {
      var p := ws[..|ws| - 1];
      var w := ws[|ws| - 1];
      assert p + [w] == ws;
      assert forall i :: 0 <= i < |p| ==> p[i] == ws[i];
      KeepAll(p);
      HeadsOfExcludes(p, Head(w));
      KeepStep(p, w, HeadsOf(p));
    }
  }

  lemma HeadSpread()
    ensures Spread(HP35SHeadTerms)
  {
    var ws := HP35SHeadTerms;
    assert Head(ws[0]) == 'h' && Head(ws[1]) == '3' && Head(ws[2]) == '1';
    assert Head(ws[3]) == 'e' && Head(ws[4]) == 'c' && Head(ws[5]) == 'v';
  }

  const HP35SWords: seq<string> := HP35SHeadTerms + ["HP", "scientific", "pocket"]
  const HP35SKept: seq<string> := HP35SHeadTerms + ["scientific", "pocket"]

  lemma SnocShape<T>(h: seq<T>, x: T, y: T, z: T)
    ensures h + [x, y, z] == h + [x] + [y] + [z]
    ensures h + [y, z] == h + [y] + [z]
  {
  }

  /** A repeated term is dropped and two terms with new heads are kept. */
  lemma DropThenKeepTwo(h: seq<string>, y: string, z: string)
    requires Spread(h) && |h| > 0 && Bare(y) && Bare(z) && Head(y) != Head(z)
    requires forall i :: 0 <= i < |h| ==> Head(h[i]) != Head(y) && Head(h[i]) != Head(z)
    ensures FirstOccurrences(h + [h[0], y, z]) == h + [y, z]
  {
    var x := h[0];
    SnocShape(h, x, y, z);
    KeepAll(h);
    DropStep(h, x, 0);
    HeadsOfExcludes(h, Head(y));
    KeepStep(h + [x], y, HeadsOf(h));
    HeadsOfExcludes(h, Head(z));
    KeepStep(h + [x] + [y], z, HeadsOf(h) + {Head(y)});
  }

  lemma WordsKept()
    ensures FirstOccurrences(HP35SWords) == HP35SKept
  {
    var h := HP35SHeadTerms;
    HeadSpread();
    assert Head("scientific") == 's' && Head("pocket") == 'p';
    assert Head(h[0]) == 'h' && Head(h[1]) == '3' && Head(h[2]) == '1';
    assert Head(h[3]) == 'e' && Head(h[4]) == 'c' && Head(h[5]) == 'v';
    DropThenKeepTwo(h, "scientific", "pocket");
  }

  // ---------------------------------------------------------------------
  // Joining and the end-to-end examples

  lemma JoinSnoc(parts: seq<string>, x: string)
    requires |parts| > 0
    ensures Join(parts + [x], " ") == AppendWord(Join(parts, " "), x)
  {
    JoinAppend(parts, x, " ");
  }

  /** Joining eight words by single spaces appends them one by one. */
  lemma JoinEight(a: string, b: string, c: string, d: string, e: string, f: string, g: string, h: string)
    ensures Join([a, b, c, d, e, f, g, h], " ") ==
      AppendWord(AppendWord(AppendWord(AppendWord(AppendWord(AppendWord(AppendWord(a, b), c), d), e), f), g), h)
  {
    var s1 := [a];
    assert Join(s1, " ") == a;
    JoinSnoc(s1, b);
    var s2 := s1 + [b];
    JoinSnoc(s2, c);
    var s3 := s2 + [c];
    JoinSnoc(s3, d);
    var s4 := s3 + [d];
    JoinSnoc(s4, e);
    var s5 := s4 + [e];
    JoinSnoc(s5, f);
    var s6 := s5 + [f];
    JoinSnoc(s6, g);
    var s7 := s6 + [g];
    JoinSnoc(s7, h);
    assert s7 + [h] == [a, b, c, d, e, f, g, h];
  }

  lemma JoinKept()
    ensures Join(HP35SKept, " ") == "HP 35S 1972 electronic calculator vintage scientific pocket"
  {
    assert HP35SKept == ["HP", "35S", "1972", "electronic", "calculator", "vintage", "scientific", "pocket"];
    JoinEight("HP", "35S", "1972", "electronic", "calculator", "vintage", "scientific", "pocket");
    ExpectedSpelled();
  }

  lemma ExpectedSpelled()
    ensures "HP 35S 1972 electronic calculator vintage scientific pocket" ==
      AppendWord(AppendWord(AppendWord(AppendWord(AppendWord(AppendWord(AppendWord("HP", "35S"), "1972"), "electronic"), "calculator"), "vintage"), "scientific"), "pocket")
  {
    ExpectedHead();
    assert AppendWord("HP 35S 1972 electronic calculator vintage", "scientific") == "HP 35S 1972 electronic calculator vintage scientific";
  }

  lemma ExpectedHead()
    ensures AppendWord(AppendWord(AppendWord(AppendWord(AppendWord("HP", "35S"), "1972"), "electronic"), "calculator"), "vintage")
      == "HP 35S 1972 electronic calculator vintage"
  {
    assert AppendWord("HP", "35S") == "HP 35S";
    assert AppendWord("HP 35S", "1972") == "HP 35S 1972";
    assert AppendWord("HP 35S 1972", "electronic") == "HP 35S 1972 electronic";
    assert AppendWord("HP 35S 1972 electronic", "calculator") == "HP 35S 1972 electronic calculator";
  }

  /** The cleaned terms of the HP 35S raw query. */
  lemma HP35STerms()
    ensures Trim(RawQuery(HP35S, [])) == AppendWord(HP35SHead(), "HP; scientific, pocket")
    ensures CleanTerms(Trim(RawQuery(HP35S, []))) == HP35SKept
  {
    HP35SRaw();
    HP35STrimmed();
    HeadNoStripped();
    StripAfter(HP35SHead(), "HP; scientific, pocket");
    RawTextStripped();
    WordsOfAppendWord(HP35SHead(), HP35SStripped);
    HeadWords();
    StrippedWords();
    WordsKept();
  }

  /** The worked example: the HP 35S entry with no labels. */
  lemma HP35SQuery()
    ensures EnhancedQuery(HP35S, []) == "HP 35S 1972 electronic calculator vintage scientific pocket"
  {
    HP35STerms();
    CleanIsJoinedTerms(Trim(RawQuery(HP35S, [])));
    JoinKept();
  }

  lemma NoImageTerm()
    ensures !HasTermIgnoringCase(HP35SKept, "image")
  {
    forall i | 0 <= i < |HP35SKept| ensures Lower(HP35SKept[i]) != "image" {
      assert |HP35SKept[i]| != 5;
    }
  }

  lemma ImageTerms()
    ensures Words(ImageQuery(HP35S, [])) == HP35SKept + ["image"]
  {
    HP35STerms();
    CleanShape(Trim(RawQuery(HP35S, [])));
    ImageQueryTerms(HP35S, []);
    NoImageTerm();
  }

  lemma ImageSpelled()
    ensures Join(HP35SKept + ["image"], " ") == "HP 35S 1972 electronic calculator vintage scientific pocket image"
  {
    JoinSnoc(HP35SKept, "image");
    JoinKept();
  }

  /** The same entry's image query adds "image" at the end. */
  lemma HP35SImageQuery()
    ensures ImageQuery(HP35S, []) == "HP 35S 1972 electronic calculator vintage scientific pocket image"
  {
    var q := AppendWord(EnhancedQuery(HP35S, []), "image");
    CleanIsJoinedTerms(q);
    CleanShape(q);
    ImageTerms();
    ImageSpelled();
  }
}
