/** The regular expressions the enrichment step runs over every text source,
    written out as small matchers. Every pattern is compiled with `(?i)`, so
    literal words compare under ASCII case folding. `…At(s, i)` says whether
    the pattern matches starting exactly at `i` and what its groups capture,
    with Java's backtracking resolved by hand (each function's comment says
    why the greedy choice it makes is the only one that can succeed);
    `Find` is `Matcher.find()`: the leftmost match. */
module TextPatterns {
  import opened Wrappers
  import opened JavaText

  /** `s` spells the lower-case word `w` from `i` on, ignoring case. */
  predicate WordAt(s: string, i: nat, w: string)
    decreases |w|
    ensures WordAt(s, i, w) ==> i + |w| <= |s|
  {
    if |w| == 0 then i <= |s| else i < |s| && LowerChar(s[i]) == w[0] && WordAt(s, i + 1, w[1..])
  }

  /** An alternation of words: the first alternative, in pattern order, that
      matches at `i`. */
  function FirstWordAt(s: string, i: nat, ws: seq<string>): (r: Option<string>)
    ensures r.Some? ==> r.value in ws && WordAt(s, i, r.value)
    ensures r.None? ==> forall w :: w in ws ==> !WordAt(s, i, w)
  {
    if |ws| == 0 then None
    else if WordAt(s, i, ws[0]) then Some(ws[0])
    else FirstWordAt(s, i, ws[1..])
  }

  /** The end of the longest run of characters satisfying `P` from `i`: a
      greedy `P*`. */
  function RunEnd(s: string, i: nat, P: char -> bool): (r: nat)
    requires i <= |s|
    decreases |s| - i
    ensures i <= r <= |s|
    ensures forall k :: i <= k < r ==> P(s[k])
    ensures r == |s| || !P(s[r])
  {
    if i < |s| && P(s[i]) then RunEnd(s, i + 1, P) else i
  }

  predicate NotDigit(c: char) {
    !IsDigit(c)
  }

  predicate NotWordChar(c: char) {
    !IsWordChar(c)
  }

  predicate IsDigitOrComma(c: char) {
    IsDigit(c) || c == ','
  }

  /** The end of `\s*` from `i`. */
  function SpacesEnd(s: string, i: nat): nat
    requires i <= |s|
  {
    RunEnd(s, i, IsRegexSpace)
  }

  /** The end of `\d*` from `i`. */
  function DigitsEnd(s: string, i: nat): nat
    requires i <= |s|
  {
    RunEnd(s, i, IsDigit)
  }

  predicate AllDigits(t: string) {
    forall k :: 0 <= k < |t| ==> IsDigit(t[k])
  }

  /** `\b`: exactly one of the characters around position `k` is a word
      character. */
  predicate Boundary(s: string, k: nat) {
    (0 < k <= |s| && IsWordChar(s[k - 1])) != (k < |s| && IsWordChar(s[k]))
  }

  /** `Matcher.find()` from `i`: the leftmost position at which `at` matches,
      with what it captured. */
  function FindFrom<T>(n: nat, at: nat -> Option<T>, i: nat): (r: Option<(nat, T)>)
    requires i <= n
    decreases n - i
    ensures r.Some? ==> i <= r.value.0 < n && at(r.value.0) == Some(r.value.1)
    ensures r.Some? ==> forall k :: i <= k < r.value.0 ==> at(k).None?
    ensures r.None? ==> forall k :: i <= k < n ==> at(k).None?
  {
    if i == n then None
    else match at(i)
      case Some(v) => Some((i, v))
      case None => FindFrom(n, at, i + 1)
  }

  /** The captures of the leftmost match in `s`. None of the patterns here
      matches the empty string, so no match starts at `|s|`. */
  function Find<T>(s: string, at: nat -> Option<T>): (r: Option<T>)
    ensures r.Some? ==> exists i :: 0 <= i < |s| && at(i) == r && forall k :: 0 <= k < i ==> at(k).None?
    ensures r.None? ==> forall k :: 0 <= k < |s| ==> at(k).None?
  {
    match FindFrom(|s|, at, 0)
    case Some((i, v)) => Some(v)
    case None => None
  }

  /** The leftmost match is the one `Find` reports, whatever comes after it. */
  lemma FindIs<T>(s: string, at: nat -> Option<T>, i: nat)
    requires i < |s| && at(i).Some?
    requires forall k :: 0 <= k < i ==> at(k).None?
    ensures Find(s, at) == at(i)
  {
    FindSome(s, at, i);
    var j :| 0 <= j < |s| && at(j) == Find(s, at) && forall k :: 0 <= k < j ==> at(k).None?;
    assert !(j < i);
    assert !(i < j);
  }

  /** `find()` succeeds as soon as some position matches. */
  lemma FindSome<T>(s: string, at: nat -> Option<T>, i: nat)
    requires i < |s| && at(i).Some?
    ensures Find(s, at).Some?
  {
  }

  // ---------------------------------------------------------------- display

  /** The alternatives of `(lcd|led|vfd|oled|vacuum\s+fluorescent|dot\s+matrix|segmented)`,
      each a list of words that the pattern separates by `\s+`. */
  const DisplayKinds: seq<seq<string>> :=
    [["lcd"], ["led"], ["vfd"], ["oled"], ["vacuum", "fluorescent"], ["dot", "matrix"], ["segmented"]]

  /** The end of a phrase matched at `i`. Between two words the `\s+` run is
      taken whole: the next word starts with a letter, so giving back a space
      cannot help. */
  function PhraseEnd(s: string, i: nat, words: seq<string>): (r: Option<nat>)
    requires i <= |s|
    decreases |words|
    ensures r.Some? ==> i <= r.value <= |s|
  {
    if |words| == 0 || !WordAt(s, i, words[0]) then None
    else if |words| == 1 then Some(i + |words[0]|)
    else
      var j := SpacesEnd(s, i + |words[0]|);
      if j == i + |words[0]| then None else PhraseEnd(s, j, words[1..])
  }

  /** The group followed by the closing `\b`: alternatives are tried in order
      and the first one that ends on a word boundary is taken. */
  function BoundedAlternative(s: string, i: nat, alts: seq<seq<string>>): (r: Option<nat>)
    requires i <= |s|
    ensures r.Some? ==> i <= r.value <= |s| && Boundary(s, r.value)
    ensures r.Some? ==> exists a :: a in alts && PhraseEnd(s, i, a) == r
    ensures r.None? ==> forall a :: a in alts && PhraseEnd(s, i, a).Some? ==> !Boundary(s, PhraseEnd(s, i, a).value)
  {
    if |alts| == 0 then None
    else match PhraseEnd(s, i, alts[0])
      case Some(e) => if Boundary(s, e) then Some(e) else BoundedAlternative(s, i, alts[1..])
      case None => BoundedAlternative(s, i, alts[1..])
  }

  /** `\b(lcd|…|segmented)\b` at `i`; the value is the matched text upper-cased,
      the "Display Type" entry. */
  function DisplayAt(s: string, i: nat, kinds: seq<seq<string>>): (r: Option<string>)
    ensures r.Some? ==> i < |s| && Boundary(s, i)
    ensures r.Some? ==> exists a :: a in kinds && PhraseEnd(s, i, a).Some? && Boundary(s, PhraseEnd(s, i, a).value)
    ensures r.None? && i < |s| && Boundary(s, i) ==>
              forall a :: a in kinds && PhraseEnd(s, i, a).Some? ==> !Boundary(s, PhraseEnd(s, i, a).value)
    ensures r.Some? ==> exists e :: i <= e <= |s| && Boundary(s, e) && r.value == Upper(s[i..e])
  {
    if i < |s| && Boundary(s, i) then
      match BoundedAlternative(s, i, kinds)
      case Some(e) => Some(Upper(s[i..e]))
      case None => None
    else None
  }

  // ------------------------------------------------------------------ width

  const WidthKeywords: seq<string> := ["display", "screen", "width", "size"]

  /** The word alternatives after the digits; `character` and `segments?`
      match exactly when their prefixes `char` and `segment` do. */
  const WidthUnits: seq<string> := ["digit", "char", "dot", "pixel", "segment"]

  /** The alternative `\s*x\s*\d+`, at the end of the outer `\s*`. */
  predicate TimesDigitsAt(s: string, w: nat)
    requires w <= |s|
  {
    w < |s| && LowerChar(s[w]) == 'x' && SpacesEnd(s, w + 1) < |s| && IsDigit(s[SpacesEnd(s, w + 1)])
  }

  /** `(?:display|screen|width|size)[^\d]*(\d+)\s*(?:digit|…|\s*x\s*\d+)` at
      `i`, capturing the digits. `[^\d]*` must stop at the first digit and
      `\d+` must take the whole digit run: any shorter choice leaves a digit
      where the next element needs a letter, a space or `x`. */
  function WidthAt(s: string, i: nat): (r: Option<string>)
    ensures r.Some? ==> |r.value| > 0 && AllDigits(r.value)
    ensures r.Some? ==> exists w :: w in WidthKeywords && WordAt(s, i, w)
  {
    match FirstWordAt(s, i, WidthKeywords)
    case None => None
    case Some(kw) =>
      var d := RunEnd(s, i + |kw|, NotDigit);
      if d == |s| then None
      else
        var e := DigitsEnd(s, d);
        var w := SpacesEnd(s, e);
        if FirstWordAt(s, w, WidthUnits).Some? || TimesDigitsAt(s, w) then Some(s[d..e]) else None
  }

  // ------------------------------------------------------------- resolution

  const ResolutionUnits: seq<string> := ["pixel", "dot", "resolution"]

  /** The digit run from `i` is all digits and starts the rest of `s`. */
  lemma DigitRun(s: string, i: nat)
    requires i <= |s|
    ensures i <= DigitsEnd(s, i) <= |s|
    ensures AllDigits(s[i..DigitsEnd(s, i)]) && StartsWith(s[i..], s[i..DigitsEnd(s, i)])
  {
    var e := DigitsEnd(s, i);
    assert s[i..][..e - i] == s[i..e];
  }

    /** `(\d+)\s*x\s*(\d+)\s*(?:pixel|dot|resolution)` at `i`: the width and the
      height digits. Every run is taken whole, as a shorter one leaves a digit
      or a space where `x` or a letter is needed. */
  function ResolutionAt(s: string, i: nat): (r: Option<(string, string)>)
    ensures r.Some? ==> |r.value.0| > 0 && AllDigits(r.value.0) && |r.value.1| > 0 && AllDigits(r.value.1)
    ensures r.Some? ==> i < |s| && StartsWith(s[i..], r.value.0)
  {
    if i >= |s| || !IsDigit(s[i]) then None
    else
      var e1 := DigitsEnd(s, i);
      var w1 := SpacesEnd(s, e1);
      if w1 == |s| || LowerChar(s[w1]) != 'x' then None
      else
        var w2 := SpacesEnd(s, w1 + 1);
        var e2 := DigitsEnd(s, w2);
        if e2 == w2 || FirstWordAt(s, SpacesEnd(s, e2), ResolutionUnits).None? then None
        else
          DigitRun(s, i);
          DigitRun(s, w2);
          Some((s[i..e1], s[w2..e2]))
  }

  // ---------------------------------------------------------------- battery

  /** `AA|AAA|button|coin|cell|batteries?` in pattern order, with the greedy
      `s?` tried first. */
  const BatteryKinds: seq<string> := ["aa", "aaa", "button", "coin", "cell", "batteries", "batterie"]

  /** `(\d+)\s*(?:x\s*)?(?:AA|…|batteries?)` at `i`: the count, and the battery
      word as written in the text (which the pattern itself does not
      capture). The optional `x\s*` is taken when present: no battery word
      starts with `x`, so skipping it cannot help. */
  function BatteryAt(s: string, i: nat, kinds: seq<string>): (r: Option<(string, string)>)
    ensures r.Some? ==> i < |s| && |r.value.0| > 0 && AllDigits(r.value.0)
    ensures r.Some? ==> exists w :: w in kinds && |r.value.1| == |w| && WordAt(r.value.1, 0, w)
  {
    if i >= |s| || !IsDigit(s[i]) then None
    else
      var e := DigitsEnd(s, i);
      var w := SpacesEnd(s, e);
      var t := if w < |s| && LowerChar(s[w]) == 'x' then SpacesEnd(s, w + 1) else w;
      match FirstWordAt(s, t, kinds)
      case None => None
      case Some(kind) =>
        WordAtSlice(s, t, kind, t, t + |kind|);
        Some((s[i..e], s[t..t + |kind|]))
  }

  /** A word matched inside `s` is matched at the same place in any slice
      around it. */
  lemma {:induction false} WordAtSlice(s: string, i: nat, w: string, j: nat, k: nat)
    requires WordAt(s, i, w) && j <= i && i + |w| <= k <= |s|
    ensures WordAt(s[j..k], i - j, w)
    decreases |w|
  {
    if |w| > 0 {
      WordAtSlice(s, i + 1, w[1..], j, k);
    }
  }

  // ------------------------------------------------------------------ dates

  const DateVerbs: seq<string> := ["introduced", "released", "discontinued", "manufactured", "produced"]

  predicate FourDigitsAt(s: string, k: nat) {
    k + 4 <= |s| && AllDigits(s[k..k + 4])
  }

  /** `(?:in\s+)?(\d{4})` at `w`: where the year starts. The `in\s+` branch
      is tried first; its `\s+` is taken whole, as a shorter run leaves a
      space where a digit is needed. */
  function YearStart(s: string, w: nat): (r: Option<nat>)
    requires w <= |s|
    ensures r.Some? ==> w <= r.value && FourDigitsAt(s, r.value)
    ensures FourDigitsAt(s, w) ==> r.Some?
  {
    var y := if w + 2 <= |s| then SpacesEnd(s, w + 2) else w;
    if WordAt(s, w, "in") && y > w + 2 && FourDigitsAt(s, y) then Some(y)
    else if FourDigitsAt(s, w) then Some(w)
    else None
  }

  /** `(introduced|…|produced)\s+(?:in\s+)?(\d{4})` at `i`: where the match
      ends and the fact "<verb as written> <year>". The `\s+` after the verb
      is taken whole, as a shorter run leaves a space where `in` or a digit
      is needed. */
  function DateAt(s: string, i: nat, verbs: seq<string>): (r: Option<(nat, string)>)
    ensures r.Some? ==> i < r.value.0 <= |s| && 4 <= r.value.0 && FourDigitsAt(s, r.value.0 - 4)
    ensures r.Some? ==> exists v :: v in verbs && WordAt(s, i, v)
                                 && r.value.1 == s[i..i + |v|] + " " + s[r.value.0 - 4..r.value.0]
  {
    match FirstWordAt(s, i, verbs)
    case None => None
    case Some(v) => YearAfter(s, i, i + |v|)
  }

  /** The rest of a date match once the verb `s[i..j]` is matched. */
  function YearAfter(s: string, i: nat, j: nat): (r: Option<(nat, string)>)
    requires i <= j <= |s|
    ensures r.Some? ==> j < r.value.0 <= |s| && 4 <= r.value.0 && FourDigitsAt(s, r.value.0 - 4)
    ensures r.Some? ==> r.value.1 == s[i..j] + " " + s[r.value.0 - 4..r.value.0]
  {
    var w := SpacesEnd(s, j);
    if w == j then None
    else match YearStart(s, w)
      case None => None
      case Some(y) =>
        assert y + 4 - 4 == y;
        Some((y + 4, s[i..j] + " " + s[y..y + 4]))
  }

  /** `while (find()) add(...)`: every non-overlapping date match from `i`, in
      order, each search resuming where the previous match ended. */
  function DatesFrom(s: string, i: nat, verbs: seq<string>): (r: seq<string>)
    decreases |s| - i
    ensures forall f :: f in r ==> exists k :: i <= k < |s| && DateAt(s, k, verbs).Some? && DateAt(s, k, verbs).value.1 == f
    ensures r == [] <==> forall k :: i <= k < |s| ==> DateAt(s, k, verbs).None?
  {
    if i >= |s| then []
    else match DateAt(s, i, verbs)
      case Some((e, f)) => [f] + DatesFrom(s, e, verbs)
      case None => DatesFrom(s, i + 1, verbs)
  }

  /** The search from `i` finds the first match at or after `i`, adds its
      fact and resumes where that match ended. */
  lemma DatesFromFirst(s: string, i: nat, verbs: seq<string>, k: nat)
    requires i <= k < |s| && DateAt(s, k, verbs).Some?
    requires forall j :: i <= j < k ==> DateAt(s, j, verbs).None?
    ensures DatesFrom(s, i, verbs) == [DateAt(s, k, verbs).value.1] + DatesFrom(s, DateAt(s, k, verbs).value.0, verbs)
  {
    forall j | i <= j < k
      ensures DatesFrom(s, j, verbs) == DatesFrom(s, j + 1, verbs)
    {
      DatesFromSkip(s, j, verbs);
    }
    SameFrom(i, k, j => DatesFrom(s, j, verbs));
    DatesFromMatch(s, k, verbs);
  }

  /** A function of the position that does not change from one position to
      the next over a range has the same value at both ends. */
  lemma {:induction false} SameFrom<T>(i: nat, k: nat, f: nat -> T)
    requires i <= k
    requires forall j :: i <= j < k ==> f(j) == f(j + 1)
    ensures f(i) == f(k)
    decreases k - i
  {
    if i < k {
      SameFrom(i + 1, k, f);
    }
  }

  lemma DatesFromSkip(s: string, i: nat, verbs: seq<string>)
    requires i < |s| && DateAt(s, i, verbs).None?
    ensures DatesFrom(s, i, verbs) == DatesFrom(s, i + 1, verbs)
  {
  }

  lemma DatesFromMatch(s: string, i: nat, verbs: seq<string>)
    requires i < |s| && DateAt(s, i, verbs).Some?
    ensures DatesFrom(s, i, verbs) == [DateAt(s, i, verbs).value.1] + DatesFrom(s, DateAt(s, i, verbs).value.0, verbs)
  {
  }

  // ------------------------------------------------------------------ price

  /** `\$?([\d,]+(?:\.\d{2})?)` at `t`: the amount. The `$` is taken when
      present, since `[\d,]` cannot match it. */
  function AmountAt(s: string, t: nat): (r: Option<string>)
    ensures r.Some? ==> |r.value| > 0 && IsDigitOrComma(r.value[0])
  {
    if t > |s| then None
    else
      var u := if t < |s| && s[t] == '$' then t + 1 else t;
      var e := RunEnd(s, u, IsDigitOrComma);
      if e == u then None
      else if e + 3 <= |s| && s[e] == '.' && IsDigit(s[e + 1]) && IsDigit(s[e + 2]) then Some(s[u..e + 3])
      else Some(s[u..e])
  }

  /** `price(?:\s+of)?\s+\$?([\d,]+(?:\.\d{2})?)` at `i`: the amount. When
      `of` follows, only the branch that takes it can succeed, because
      without it the amount would have to start at the `o`. The pattern's
      optional `retail\s+` prefix is left out: it only moves where a match
      starts, no `price` can start inside it, so the leftmost match captures
      the same amount with or without it. */
  function PriceAt(s: string, i: nat): (r: Option<string>)
    ensures r.Some? ==> WordAt(s, i, "price") && |r.value| > 0
  {
    if !WordAt(s, i, "price") then None
    else
      var w := SpacesEnd(s, i + 5);
      if w == i + 5 then None
      else if WordAt(s, w, "of") then
        var w2 := SpacesEnd(s, w + 2);
        if w2 == w + 2 then None else AmountAt(s, w2)
      else AmountAt(s, w)
  }

  // ----------------------------------------------------------- power supply

  const MissingGroup: string := "IndexOutOfBoundsException: No group 2"

  /** The power-supply test chain, past its battery branch. */
  function PowerFromWords(lower: string): (r: Option<string>)
    ensures r == Some("Solar powered") <==> Contains(lower, "solar")
    ensures r.None? <==> !Contains(lower, "solar") && !(Contains(lower, "usb") && Contains(lower, "power"))
                         && !(Contains(lower, "external") && Contains(lower, "power"))
                         && !(Contains(lower, "ac") && Contains(lower, "adapter"))
  {
    if Contains(lower, "solar") then Some("Solar powered")
    else if Contains(lower, "usb") && Contains(lower, "power") then Some("USB powered")
    else if Contains(lower, "external") && Contains(lower, "power") then Some("External power supply")
    else if Contains(lower, "ac") && Contains(lower, "adapter") then Some("AC adapter")
    else None
  }

  /** The "Power Supply" value of one text as the code is written, for a
      table that does not hold the key yet: a text mentioning "batter" in
      which the count pattern matches reaches `group(2)` on a pattern with a
      single group, which throws. */
  function PowerSupplyAsWritten(s: string): (r: Result<Option<string>>)
    ensures r.Err? <==> Contains(Lower(s), "batter") && Find(s, (i: nat) => BatteryAt(s, i, BatteryKinds)).Some?
    ensures Contains(Lower(s), "batter") && r.Ok? ==> r.value == Some("Batteries")
    ensures !Contains(Lower(s), "batter") ==> r == Ok(PowerFromWords(Lower(s)))
  {
    if Contains(Lower(s), "batter") then
      if Find(s, (i: nat) => BatteryAt(s, i, BatteryKinds)).Some? then Err(MissingGroup) else Ok(Some("Batteries"))
    else Ok(PowerFromWords(Lower(s)))
  }

  /** The same with the battery word captured as the second group, which the
      `"batteries"` fallback for a missing group shows was meant: the count,
      "x " and the word as written. It never fails. */
  function PowerSupply(s: string): (r: Option<string>)
    ensures Contains(Lower(s), "batter") ==> r.Some?
    ensures Contains(Lower(s), "batter") && Find(s, (i: nat) => BatteryAt(s, i, BatteryKinds)).Some? ==>
              r == Some(Find(s, (i: nat) => BatteryAt(s, i, BatteryKinds)).value.0 + "x " + Find(s, (i: nat) => BatteryAt(s, i, BatteryKinds)).value.1)
    ensures Contains(Lower(s), "batter") && Find(s, (i: nat) => BatteryAt(s, i, BatteryKinds)).None? ==> r == Some("Batteries")
    ensures PowerSupplyAsWritten(s).Ok? ==> r == PowerSupplyAsWritten(s).value
  {
    if Contains(Lower(s), "batter") then
      match Find(s, (i: nat) => BatteryAt(s, i, BatteryKinds))
      case Some(b) => Some(b.0 + "x " + b.1)
      case None => Some("Batteries")
    else PowerFromWords(Lower(s))
  }

  /** As written, a text that mentions "batter" and holds a count such as
      "2 AA" makes the whole extraction fail. */
  lemma BatteryCountAborts(s: string, i: nat)
    requires Contains(Lower(s), "batter")
    requires BatteryAt(s, i, BatteryKinds).Some?
    ensures PowerSupplyAsWritten(s).Err?
  {
    FindSome(s, (k: nat) => BatteryAt(s, k, BatteryKinds), i);
  }

  /** With the battery word captured, the same text gives "<count>x <word>"
      from the leftmost count match. */
  lemma BatteryCountReported(s: string, i: nat)
    requires Contains(Lower(s), "batter")
    requires BatteryAt(s, i, BatteryKinds).Some?
    requires forall k :: 0 <= k < i ==> BatteryAt(s, k, BatteryKinds).None?
    ensures PowerSupply(s) == Some(BatteryAt(s, i, BatteryKinds).value.0 + "x " + BatteryAt(s, i, BatteryKinds).value.1)
  {
    FindIs(s, (k: nat) => BatteryAt(s, k, BatteryKinds), i);
  }
}
