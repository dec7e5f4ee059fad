/** The parts of `java.lang.String` and of the few whitespace regular
    expressions that the application relies on, over strings of UTF-16 code
    units. Case mapping is ASCII-only. */
module JavaText {
  import opened Wrappers

  /** Characters removed by `String.trim`: every code unit up to U+0020. */
  predicate IsTrimmed(c: char) {
    c <= ' '
  }

  /** `Character.isWhitespace`, which `String.isBlank` tests every unit against. */
  predicate IsJavaWhitespace(c: char) {
    c == ' ' || ('\t' <= c <= '\r') || ('\U{1C}' <= c <= '\U{1F}')
    || c == '\U{1680}' || ('\U{2000}' <= c <= '\U{2006}') || ('\U{2008}' <= c <= '\U{200A}')
    || c == '\U{2028}' || c == '\U{2029}' || c == '\U{205F}' || c == '\U{3000}'
  }

  /** The regular-expression class `\s`: space, tab, line feed, vertical tab,
      form feed and carriage return. */
  predicate IsRegexSpace(c: char) {
    c == ' ' || ('\t' <= c <= '\r')
  }

  /** The regular-expression class `\w`. */
  predicate IsWordChar(c: char) {
    ('a' <= c <= 'z') || ('A' <= c <= 'Z') || ('0' <= c <= '9') || c == '_'
  }

  predicate IsDigit(c: char) {
    '0' <= c <= '9'
  }

  predicate IsAsciiLetterOrDigit(c: char) {
    ('a' <= c <= 'z') || ('A' <= c <= 'Z') || ('0' <= c <= '9')
  }

  /** How string concatenation renders a possibly null string. */
  function ValueOf(s: Option<string>): (r: string)
    ensures s.Some? ==> r == s.value
  {
    if s.Some? then s.value else "null"
  }

  /** `String.isBlank`: empty or whitespace only. */
  predicate IsBlank(s: string) {
    forall i :: 0 <= i < |s| ==> IsJavaWhitespace(s[i])
  }

  /** A nullable string that is null or blank. */
  predicate IsNullOrBlank(s: Option<string>) {
    s.None? || IsBlank(s.value)
  }

  function TrimStart(s: string): (r: string)
    ensures |r| <= |s| && r == s[|s| - |r|..]
    ensures forall i :: 0 <= i < |s| - |r| ==> IsTrimmed(s[i])
    ensures r == [] || !IsTrimmed(r[0])
  {
    if |s| > 0 && IsTrimmed(s[0]) then TrimStart(s[1..]) else s
  }

  function TrimEnd(s: string): (r: string)
    ensures |r| <= |s| && r == s[..|r|]
    ensures forall i :: |r| <= i < |s| ==> IsTrimmed(s[i])
    ensures r == [] || !IsTrimmed(r[|r| - 1])
  {
    if |s| > 0 && IsTrimmed(s[|s| - 1]) then TrimEnd(s[..|s| - 1]) else s
  }

  /** `String.trim`: `s` without its leading and trailing units up to
      U+0020. */
  function Trim(s: string): (r: string)
    ensures |r| <= |s|
    ensures r == [] || (!IsTrimmed(r[0]) && !IsTrimmed(r[|r| - 1]))
  {
    TrimEnd(TrimStart(s))
  }

  /** Where the trimmed string starts in `s`. */
  function TrimOffset(s: string): nat {
    |s| - |TrimStart(s)|
  }

  /** The trimmed string is the infix of `s` left after removing only
      trimmable units from both ends. */
  lemma TrimInfix(s: string)
    ensures TrimOffset(s) + |Trim(s)| <= |s|
    ensures Trim(s) == s[TrimOffset(s)..TrimOffset(s) + |Trim(s)|]
    ensures forall i :: 0 <= i < TrimOffset(s) ==> IsTrimmed(s[i])
    ensures forall i :: TrimOffset(s) + |Trim(s)| <= i < |s| ==> IsTrimmed(s[i])
  {
    var t := TrimStart(s);
    var r := TrimEnd(t);
    var a := |s| - |t|;
    assert t == s[a..];
    assert r == t[..|r|];
    forall i | 0 <= i < |r| ensures r[i] == s[a + i] {
      assert r[i] == t[i];
    }
    assert r == s[a..a + |r|];
    forall i | a + |r| <= i < |s| ensures IsTrimmed(s[i]) {
      assert s[i] == t[i - a];
    }
  }

  /** Trimming keeps only units of the original. */
  lemma TrimKeeps(s: string, P: char -> bool)
    requires forall i :: 0 <= i < |s| ==> P(s[i])
    ensures forall i :: 0 <= i < |Trim(s)| ==> P(Trim(s)[i])
  {
    TrimInfix(s);
    var a := TrimOffset(s);
    forall i | 0 <= i < |Trim(s)| ensures P(Trim(s)[i]) {
      assert Trim(s)[i] == s[a + i];
    }
  }

  /** Trimming an already trimmed string changes nothing. */
  lemma TrimOfTrimmed(s: string)
    requires s == [] || (!IsTrimmed(s[0]) && !IsTrimmed(s[|s| - 1]))
    ensures Trim(s) == s
  {
  }

  lemma TrimIdempotent(s: string)
    ensures Trim(Trim(s)) == Trim(s)
  {
    TrimOfTrimmed(Trim(s));
  }

  /** A trimmed string is empty exactly when every unit was trimmable. */
  lemma TrimEmptyIff(s: string)
    ensures Trim(s) == [] <==> forall i :: 0 <= i < |s| ==> IsTrimmed(s[i])
  {
    TrimInfix(s);
  }

  /** A string with a unit that is not trimmed does not trim to nothing. */
  lemma TrimNonEmptyAt(s: string, i: nat)
    requires i < |s| && !IsTrimmed(s[i])
    ensures Trim(s) != []
  {
    TrimEmptyIff(s);
  }

  /** Every unit of `s` is one `trim` removes. */
  predicate AllTrimmed(s: string) {
    forall i :: 0 <= i < |s| ==> IsTrimmed(s[i])
  }

  lemma AllTrimmedAppend(a: string, b: string)
    ensures AllTrimmed(a + b) <==> AllTrimmed(a) && AllTrimmed(b)
  {
    if AllTrimmed(a + b) {
      forall i | 0 <= i < |b| ensures IsTrimmed(b[i]) {
        assert b[i] == (a + b)[|a| + i];
      }
      forall i | 0 <= i < |a| ensures IsTrimmed(a[i]) {
        assert a[i] == (a + b)[i];
      }
    }
  }

  /** A concatenation trims to nothing exactly when both parts do. */
  lemma TrimAppendEmpty(a: string, b: string)
    ensures Trim(a + b) == [] <==> Trim(a) == [] && Trim(b) == []
  {
    TrimEmptyIff(a);
    TrimEmptyIff(b);
    TrimEmptyIff(a + b);
    AllTrimmedAppend(a, b);
    assert (Trim(a + b) == []) == AllTrimmed(a + b);
  }

  /** `s != null && !s.trim().isEmpty()`. */
  predicate Filled(s: Option<string>) {
    s.Some? && Trim(s.value) != ""
  }

  function LowerChar(c: char): char {
    if 'A' <= c <= 'Z' then (c as int + 32) as char else c
  }

  function UpperChar(c: char): char {
    if 'a' <= c <= 'z' then (c as int - 32) as char else c
  }

  /** `String.toLowerCase` with ASCII case folding. */
  function Lower(s: string): (r: string)
    ensures |r| == |s|
  {
    if |s| == 0 then [] else [LowerChar(s[0])] + Lower(s[1..])
  }

  /** `String.toUpperCase` with ASCII case folding. */
  function Upper(s: string): (r: string)
    ensures |r| == |s|
  {
    if |s| == 0 then [] else [UpperChar(s[0])] + Upper(s[1..])
  }

  lemma {:induction false} LowerAt(s: string, i: nat)
    requires i < |s|
    ensures Lower(s)[i] == LowerChar(s[i])
  {
    if i > 0 { LowerAt(s[1..], i - 1); }
  }

  lemma LowerIdempotent(s: string)
    ensures Lower(Lower(s)) == Lower(s)
  {
  }

  lemma LowerAppend(a: string, b: string)
    ensures Lower(a + b) == Lower(a) + Lower(b)
  {
    if |a| > 0 {
      assert (a + b)[0] == a[0];
      assert (a + b)[1..] == a[1..] + b;
      LowerAppend(a[1..], b);
    } else {
      assert a + b == b;
    }
  }

  /** `String.equalsIgnoreCase` under ASCII folding. */
  predicate EqualsIgnoreCase(a: string, b: string) {
    Lower(a) == Lower(b)
  }

  predicate StartsWith(s: string, p: string) {
    |p| <= |s| && s[..|p|] == p
  }

  predicate EndsWith(s: string, p: string) {
    |p| <= |s| && s[|s| - |p|..] == p
  }

  predicate OccursAt(s: string, t: string, k: int) {
    0 <= k && k + |t| <= |s| && s[k..k + |t|] == t
  }

  /** `String.indexOf(t, from)`: the first occurrence at or after `from`. */
  function IndexOfFrom(s: string, t: string, from: nat): (r: Option<nat>)
    decreases |s| - from
    ensures r.Some? ==> from <= r.value && OccursAt(s, t, r.value)
    ensures r.Some? ==> forall k :: from <= k < r.value ==> !OccursAt(s, t, k)
    ensures r.None? ==> forall k :: from <= k ==> !OccursAt(s, t, k)
  {
    if from + |t| > |s| then None
    else if s[from..from + |t|] == t then Some(from)
    else IndexOfFrom(s, t, from + 1)
  }

  function IndexOf(s: string, t: string): Option<nat> {
    IndexOfFrom(s, t, 0)
  }

  /** `String.contains`. */
  predicate Contains(s: string, t: string) {
    IndexOf(s, t).Some?
  }

  lemma ContainsIff(s: string, t: string)
    ensures Contains(s, t) <==> exists k :: OccursAt(s, t, k)
  {
  }

  lemma ContainsAt(s: string, t: string, k: int)
    requires OccursAt(s, t, k)
    ensures Contains(s, t)
  {
  }

  /** `String.replace(pat, rep)`: every occurrence of `pat`, scanning left to
      right without overlap, is replaced by `rep`. */
  function Replace(s: string, pat: string, rep: string): string
    requires |pat| > 0
  {
    if |s| < |pat| then s
    else if s[..|pat|] == pat then rep + Replace(s[|pat|..], pat, rep)
    else [s[0]] + Replace(s[1..], pat, rep)
  }

  /** Replacing a pattern that does not occur changes nothing. */
  lemma {:induction false} ReplaceAbsent(s: string, pat: string, rep: string)
    requires |pat| > 0
    requires forall k :: !OccursAt(s, pat, k)
    ensures Replace(s, pat, rep) == s
  {
    if |s| >= |pat| {
      assert !OccursAt(s, pat, 0);
      forall k ensures !OccursAt(s[1..], pat, k) {
        OccursShift(s, pat, k);
      }
      ReplaceAbsent(s[1..], pat, rep);
    }
  }

  /** An occurrence in the tail is an occurrence one unit later in the whole. */
  lemma OccursShift(s: string, t: string, k: int)
    requires |s| > 0
    ensures OccursAt(s[1..], t, k) ==> OccursAt(s, t, k + 1)
  {
    if 0 <= k && k + |t| <= |s| - 1 {
      assert s[1..][k..k + |t|] == s[k + 1..k + 1 + |t|];
    }
  }

  /** The suffix of `s` after its leading `\s` run. */
  function SkipSpaces(s: string): (r: string)
    ensures |r| <= |s| && r == s[|s| - |r|..]
    ensures forall i :: 0 <= i < |s| - |r| ==> IsRegexSpace(s[i])
    ensures r == [] || !IsRegexSpace(r[0])
  {
    if |s| > 0 && IsRegexSpace(s[0]) then SkipSpaces(s[1..]) else s
  }

  predicate NoRegexSpace(s: string) {
    forall i :: 0 <= i < |s| ==> !IsRegexSpace(s[i])
  }

  /** `replaceAll("\\s+", " ")`: every maximal `\s` run becomes one space. */
  function CollapseWhitespace(s: string): (r: string)
    ensures |r| <= |s|
    ensures forall i :: 0 <= i < |r| ==> IsRegexSpace(r[i]) ==> r[i] == ' '
    ensures forall i :: 0 <= i < |r| - 1 ==> !(r[i] == ' ' && r[i + 1] == ' ')
    ensures |s| > 0 ==> |r| > 0 && (IsRegexSpace(s[0]) <==> r[0] == ' ')
  {
    if |s| == 0 then []
    else if IsRegexSpace(s[0]) then " " + CollapseWhitespace(SkipSpaces(s))
    else [s[0]] + CollapseWhitespace(s[1..])
  }

  /** `String.join(sep, parts)`. */
  function Join(parts: seq<string>, sep: string): string {
    if |parts| == 0 then ""
    else if |parts| == 1 then parts[0]
    else parts[0] + sep + Join(parts[1..], sep)
  }

  lemma {:induction false} JoinAppend(parts: seq<string>, x: string, sep: string)
    requires |parts| > 0
    ensures Join(parts + [x], sep) == Join(parts, sep) + sep + x
  {
    if |parts| == 1 {
      assert parts + [x] == [parts[0], x];
    } else {
      assert (parts + [x])[1..] == parts[1..] + [x];
      JoinAppend(parts[1..], x, sep);
    }
  }

  /** The word being collected, if any, as a list of zero or one words. */
  function Flush(cur: string): seq<string> {
    if cur == [] then [] else [cur]
  }

  /** Scan `s`, extending the word `cur` until a `\s` unit ends it. */
  function WordsFrom(s: string, cur: string): seq<string>
    decreases |s|
  {
    if |s| == 0 then Flush(cur)
    else if IsRegexSpace(s[0]) then Flush(cur) + WordsFrom(s[1..], [])
    else WordsFrom(s[1..], cur + [s[0]])
  }

  /** The non-empty pieces of `split("\\s+")`: the maximal runs of units
      outside `\s`, in order. */
  function Words(s: string): seq<string> {
    WordsFrom(s, [])
  }

  /** Words are non-empty, contain no `\s` unit, and consist of units of
      the text that satisfy whatever all of the text's units satisfy. */
  lemma {:induction false} WordsFromKeep(s: string, cur: string, P: char -> bool)
    requires forall i :: 0 <= i < |s| ==> P(s[i])
    requires forall i :: 0 <= i < |cur| ==> P(cur[i]) && !IsRegexSpace(cur[i])
    ensures forall k :: 0 <= k < |WordsFrom(s, cur)| ==>
              |WordsFrom(s, cur)[k]| > 0 && NoRegexSpace(WordsFrom(s, cur)[k])
              && forall i :: 0 <= i < |WordsFrom(s, cur)[k]| ==> P(WordsFrom(s, cur)[k][i])
    decreases |s|
  {
    if |s| > 0 {
      if IsRegexSpace(s[0]) {
        WordsFromKeep(s[1..], [], P);
      } else {
        var next := cur + [s[0]];
        assert forall i :: 0 <= i < |next| ==> next[i] == if i < |cur| then cur[i] else s[0];
        WordsFromKeep(s[1..], next, P);
      }
    }
  }

  lemma WordsKeep(s: string, P: char -> bool)
    requires forall i :: 0 <= i < |s| ==> P(s[i])
    ensures forall k :: 0 <= k < |Words(s)| ==>
              |Words(s)[k]| > 0 && NoRegexSpace(Words(s)[k])
              && forall i :: 0 <= i < |Words(s)[k]| ==> P(Words(s)[k][i])
  {
    WordsFromKeep(s, [], P);
  }

  lemma WordsShape(s: string)
    ensures forall k :: 0 <= k < |Words(s)| ==> |Words(s)[k]| > 0 && NoRegexSpace(Words(s)[k])
  {
    WordsKeep(s, c => true);
  }

  /** Words of two texts joined at a `\s` boundary. */
  lemma {:induction false} WordsFromAppend(a: string, s: string, cur: string)
    requires |s| > 0 && IsRegexSpace(s[0])
    ensures WordsFrom(a + s, cur) == WordsFrom(a, cur) + WordsFrom(s, [])
    decreases |a|
  {
    if |a| == 0 {
      assert a + s == s;
    } else {
      assert (a + s)[0] == a[0];
      assert (a + s)[1..] == a[1..] + s;
      if IsRegexSpace(a[0]) {
        WordsFromAppend(a[1..], s, []);
      } else {
        WordsFromAppend(a[1..], s, cur + [a[0]]);
      }
    }
  }

  lemma WordsAppend(a: string, s: string)
    requires |s| > 0 && IsRegexSpace(s[0])
    ensures Words(a + s) == Words(a) + Words(s)
  {
    WordsFromAppend(a, s, []);
  }

  /** A leading `\s` unit does not change the words. */
  lemma WordsOfSpaced(s: string)
    ensures Words(" " + s) == Words(s)
  {
    assert (" " + s)[1..] == s;
  }

  lemma {:induction false} WordsFromWord(w: string, t: string, cur: string)
    requires NoRegexSpace(w)
    ensures WordsFrom(w + t, cur) == WordsFrom(t, cur + w)
    decreases |w|
  {
    if |w| == 0 {
      assert w + t == t;
      assert cur + w == cur;
    } else {
      assert (w + t)[0] == w[0];
      assert (w + t)[1..] == w[1..] + t;
      assert cur + [w[0]] + w[1..] == cur + w;
      WordsFromWord(w[1..], t, cur + [w[0]]);
    }
  }

  lemma WordsOfWord(w: string)
    requires |w| > 0 && NoRegexSpace(w)
    ensures Words(w) == [w]
  {
    WordsFromWord(w, [], []);
    assert w + [] == w;
    assert [] + w == w;
  }

  /** Splitting a space-joined list of words gives the list back. */
  lemma {:induction false} WordsOfJoin(ws: seq<string>)
    requires forall i :: 0 <= i < |ws| ==> |ws[i]| > 0 && NoRegexSpace(ws[i])
    ensures Words(Join(ws, " ")) == ws
  {
    if |ws| == 1 {
      WordsOfWord(ws[0]);
    } else if |ws| > 1 {
      var w := ws[0];
      var rest := Join(ws[1..], " ");
      assert Join(ws, " ") == w + (" " + rest);
      WordsFromWord(w, " " + rest, []);
      assert [] + w == w;
      assert (" " + rest)[1..] == rest;
      assert WordsFrom(" " + rest, w) == [w] + WordsFrom(rest, []);
      WordsOfJoin(ws[1..]);
    }
  }

  /** `String.indexOf(c)`: the first position of `c`. */
  function IndexOfChar(s: string, c: char): (r: Option<nat>)
    ensures r.None? <==> c !in s
    ensures r.Some? ==> r.value < |s| && s[r.value] == c && c !in s[..r.value]
  {
    if |s| == 0 then None
    else if s[0] == c then Some(0)
    else
      var r := IndexOfChar(s[1..], c);
      if r.Some? then
        assert s[..r.value + 1] == [s[0]] + s[1..][..r.value];
        Some(r.value + 1)
      else
        assert s == [s[0]] + s[1..];
        None
  }

  /** The pieces of `s` between occurrences of `c`, all of them, empty ones
      included. */
  function SplitOn(s: string, c: char): (r: seq<string>)
    ensures |r| > 0
    ensures forall i :: 0 <= i < |r| ==> c !in r[i]
    decreases |s|
  {
    match IndexOfChar(s, c)
    case None => [s]
    case Some(i) => [s[..i]] + SplitOn(s[i + 1..], c)
  }

  /** Joining the pieces with `c` gives the text back. */
  lemma {:induction false} JoinSplitOn(s: string, c: char)
    ensures Join(SplitOn(s, c), [c]) == s
    decreases |s|
  {
    match IndexOfChar(s, c)
    case None =>
    case Some(i) =>
      var rest := SplitOn(s[i + 1..], c);
      JoinSplitOn(s[i + 1..], c);
      assert SplitOn(s, c) == [s[..i]] + rest;
      assert ([s[..i]] + rest)[1..] == rest;
      assert s == s[..i] + [c] + s[i + 1..];
  }

  /** Splitting a join of pieces free of `c` gives the pieces back. */
  lemma {:induction false} SplitOnJoin(ps: seq<string>, c: char)
    requires |ps| > 0
    requires forall i :: 0 <= i < |ps| ==> c !in ps[i]
    ensures SplitOn(Join(ps, [c]), c) == ps
  {
    if |ps| > 1 {
      var rest := Join(ps[1..], [c]);
      var s := ps[0] + [c] + rest;
      assert Join(ps, [c]) == s;
      assert s[..|ps[0]|] == ps[0];
      assert s[|ps[0]|] == c;
      assert IndexOfChar(s, c) == Some(|ps[0]|);
      assert s[|ps[0]| + 1..] == rest;
      SplitOnJoin(ps[1..], c);
    }
  }

  /** Everything after the last non-empty piece removed. */
  function DropTrailingEmpty(ps: seq<string>): (r: seq<string>)
    ensures |r| <= |ps| && r == ps[..|r|]
    ensures forall i :: |r| <= i < |ps| ==> ps[i] == ""
    ensures r == [] || r[|r| - 1] != ""
  {
    if |ps| > 0 && ps[|ps| - 1] == "" then DropTrailingEmpty(ps[..|ps| - 1]) else ps
  }

  /** `String.split` on a one-character literal pattern: the pieces between
      occurrences with trailing empty pieces removed; a text without the
      character is its own only piece. */
  function JavaSplit(s: string, c: char): (r: seq<string>)
    ensures c !in s ==> r == [s]
    ensures c in s ==> r == DropTrailingEmpty(SplitOn(s, c))
  {
    if c !in s then [s] else DropTrailingEmpty(SplitOn(s, c))
  }

  function DigitChar(d: int): char
    requires 0 <= d < 10
  {
    ('0' as int + d) as char
  }

  function NatToString(n: nat): (r: string)
    ensures |r| > 0
    ensures forall i :: 0 <= i < |r| ==> IsDigit(r[i])
  {
    if n < 10 then [DigitChar(n)] else NatToString(n / 10) + [DigitChar(n % 10)]
  }

  /** `Integer.toString`: decimal digits with a leading minus for negatives. */
  function IntToString(n: int): string {
    if n < 0 then "-" + NatToString(-n) else NatToString(n)
  }

  /** A run of decimal digits read as a number. */
  function DigitsValue(s: string): nat
    requires forall i :: 0 <= i < |s| ==> IsDigit(s[i])
  {
    if |s| == 0 then 0
    else
      assert IsDigit(s[|s| - 1]);
      var d := s[|s| - 1] as int - '0' as int;
      DigitsValue(s[..|s| - 1]) * 10 + d
  }
}
