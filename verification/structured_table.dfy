/** `parseStructuredTable`: reading key/value pairs out of the text a Brave
    result describes a calculator with. Lines are scanned once a table
    header or a markdown separator has been seen; each line is tried as a
    tab row, a pipe row and a colon row, in that order. When no line yields
    an entry, a keyword pattern is searched for in longer texts. */
module StructuredTable {
  import opened Wrappers
  import opened JavaText
  import opened OrderedMap

  // ---------------------------------------------------------------------
  // Line classification

  /** A unit of the separator class `[|\s-:]`. */
  predicate IsSeparatorUnit(c: char) {
    c == '|' || c == '-' || c == ':' || IsRegexSpace(c)
  }

  /** `line.matches("^[|\\s-:]+$")`. */
  predicate IsSeparatorLine(line: string) {
    |line| > 0 && forall i :: 0 <= i < |line| ==> IsSeparatorUnit(line[i])
  }

  /** A table header mentions both "keywords" and "labels", in any case. */
  predicate IsHeaderLine(line: string) {
    Contains(Lower(line), "keywords") && Contains(Lower(line), "labels")
  }

  /** What every row parser demands of the pair it stores. */
  predicate IsTableEntry(key: string, value: string) {
    key != "" && value != "" && key != value && Trim(key) == key && Trim(value) == value
  }

  /** Both parts trimmed, non-empty and different. */
  function Accept(rawKey: string, rawValue: string): (r: Option<(string, string)>)
    ensures r.Some? ==> IsTableEntry(r.value.0, r.value.1)
    ensures r.Some? <==> Trim(rawKey) != "" && Trim(rawValue) != "" && Trim(rawKey) != Trim(rawValue)
    ensures r.Some? ==> r.value == (Trim(rawKey), Trim(rawValue))
  {
    var key := Trim(rawKey);
    var value := Trim(rawValue);
    TrimIdempotent(rawKey);
    TrimIdempotent(rawValue);
    if key != "" && value != "" && key != value then Some((key, value)) else None
  }

  /** Method 1: the first two tab-separated cells. */
  function TabRow(line: string): (r: Option<(string, string)>)
    ensures r.Some? ==> IsTableEntry(r.value.0, r.value.1) && '\t' in line
  {
    if '\t' !in line then None
    else
      var parts := JavaSplit(line, '\t');
      if |parts| >= 2 then Accept(parts[0], parts[1]) else None
  }

  /** Method 2: the second and third pipe-separated cells, unless the key
      names the header columns. */
  function PipeRow(line: string): (r: Option<(string, string)>)
    ensures r.Some? ==> IsTableEntry(r.value.0, r.value.1) && '|' in line
    ensures r.Some? ==> !Contains(Lower(r.value.0), "keyword") && !Contains(Lower(r.value.0), "label")
  {
    if '|' !in line then None
    else
      var parts := JavaSplit(line, '|');
      if |parts| < 3 then None
      else
        var kv := Accept(parts[1], parts[2]);
        if kv.Some? && !Contains(Lower(kv.value.0), "keyword") && !Contains(Lower(kv.value.0), "label")
        then kv else None
  }

  /** Method 3: split at the first colon, which must have text on both
      sides. */
  function ColonRow(line: string): (r: Option<(string, string)>)
    ensures r.Some? ==> IsTableEntry(r.value.0, r.value.1) && ':' in line
  {
    match IndexOfChar(line, ':')
    case None => None
    case Some(i) =>
      if 0 < i < |line| - 1 then Accept(line[..i], line[i + 1..]) else None
  }

  /** The three methods in order; the first that yields a pair wins. */
  function ParseRow(line: string): (r: Option<(string, string)>)
    ensures r.Some? ==> IsTableEntry(r.value.0, r.value.1)
    ensures TabRow(line).Some? ==> r == TabRow(line)
    ensures TabRow(line).None? && PipeRow(line).Some? ==> r == PipeRow(line)
    ensures TabRow(line).None? && PipeRow(line).None? ==> r == ColonRow(line)
  {
    var tab := TabRow(line);
    if tab.Some? then tab
    else
      var pipe := PipeRow(line);
      if pipe.Some? then pipe else ColonRow(line)
  }

  // ---------------------------------------------------------------------
  // The line scan

  datatype Scan = Scan(data: Dict<string, string>, foundTable: bool, skipNext: bool)

  const Start: Scan := Scan(Empty(), false, false)

  predicate AllTableEntries(d: Dict<string, string>) {
    forall k :: k in d.values ==> IsTableEntry(k, d.values[k])
  }

  /** One line of the loop. Blank, separator and header lines store
      nothing; any other line is parsed only after a header or right after
      a separator or header, and a parsed pair overwrites an earlier value
      under the same key. */
  function ScanLine(st: Scan, raw: string): (r: Scan)
    requires Valid(st.data)
    ensures Valid(r.data)
    ensures AllTableEntries(st.data) ==> AllTableEntries(r.data)
    ensures var line := Trim(raw);
      && (line == "" ==> r == st)
      && (IsSeparatorLine(line) ==> r == st.(skipNext := true))
      && (line != "" && !IsSeparatorLine(line) && IsHeaderLine(line) ==> r == Scan(st.data, true, true))
      && (r.data != st.data ==> st.foundTable || st.skipNext)
      && (line != "" && !IsSeparatorLine(line) && !IsHeaderLine(line) && (st.foundTable || st.skipNext) ==>
            && !r.skipNext && r.foundTable == st.foundTable
            && (ParseRow(line).None? ==> r.data == st.data)
            && (ParseRow(line).Some? ==> r.data == Put(st.data, ParseRow(line).value.0, ParseRow(line).value.1)))
  {
    var line := Trim(raw);
    if line == "" then st
    else if IsSeparatorLine(line) then st.(skipNext := true)
    else if IsHeaderLine(line) then Scan(st.data, true, true)
    else if st.foundTable || st.skipNext then
      match ParseRow(line)
      case None => Scan(st.data, st.foundTable, false)
      case Some(kv) =>
        assert AllTableEntries(st.data) ==> AllTableEntries(Put(st.data, kv.0, kv.1)) by {
          if AllTableEntries(st.data) { TablePut(st.data, kv.0, kv.1); }
        }
        Scan(Put(st.data, kv.0, kv.1), st.foundTable, false)
    else st
  }

  lemma TablePut(data: Dict<string, string>, key: string, v: string)
    requires Valid(data) && AllTableEntries(data) && IsTableEntry(key, v)
    ensures AllTableEntries(Put(data, key, v))
  {
    var r := Put(data, key, v);
    forall k | k in r.values ensures IsTableEntry(k, r.values[k]) {
      if k != key { assert Get(r, k) == Get(data, k); }
    }
  }

  function ScanLines(st: Scan, lines: seq<string>): (r: Scan)
    requires Valid(st.data)
    ensures Valid(r.data)
    ensures AllTableEntries(st.data) ==> AllTableEntries(r.data)
    decreases |lines|
  {
    if |lines| == 0 then st else ScanLines(ScanLine(st, lines[0]), lines[1..])
  }

  /** Scanning from the start never stores a header name or a blank. */
  lemma ScanFromStartEntries(lines: seq<string>)
    ensures Valid(ScanLines(Start, lines).data)
    ensures AllTableEntries(ScanLines(Start, lines).data)
  {
  }

  // ---------------------------------------------------------------------
  // The keyword fallback
  //
  // The pattern is `(?i)(Model|Manufacturer|...)[:\s]+([^\n]+)`, found
  // repeatedly from left to right. It is matched here by hand: a keyword
  // (ASCII case-insensitive, alternatives in order), a non-empty run of
  // colons and `\s` units, and the rest of the line. When the run reaches
  // the end of the text the greedy run gives units back until the value
  // can start at a unit other than a line feed.

  const FallbackKeywords: seq<string> :=
    ["model", "manufacturer", "year", "type", "display", "power", "size",
     "weight", "functions", "keys", "features", "successor", "historical"]

  /** `kw` (lower case) occurs at `i`, ignoring case. */
  predicate KeywordAt(text: string, i: nat, kw: string) {
    i + |kw| <= |text| && Lower(text[i..i + |kw|]) == kw
  }

  /** A key the fallback can produce: one of the keywords in any case. */
  predicate IsFallbackKey(key: string) {
    exists n :: 0 <= n < |FallbackKeywords| && Lower(key) == FallbackKeywords[n]
  }

  predicate IsRunUnit(c: char) {
    c == ':' || IsRegexSpace(c)
  }

  /** The end of the run of colons and `\s` units starting at `j`. */
  function RunEnd(text: string, j: nat): (r: nat)
    requires j <= |text|
    ensures j <= r <= |text|
    ensures forall k :: j <= k < r ==> IsRunUnit(text[k])
    ensures r == |text| || !IsRunUnit(text[r])
    decreases |text| - j
  {
    if j < |text| && IsRunUnit(text[j]) then RunEnd(text, j + 1) else j
  }

  /** The position of the next line feed at or after `j`, or the end. */
  function LineEnd(text: string, j: nat): (r: nat)
    requires j <= |text|
    ensures j <= r <= |text|
    ensures forall k :: j <= k < r ==> text[k] != '\n'
    ensures r == |text| || text[r] == '\n'
    decreases |text| - j
  {
    if j < |text| && text[j] != '\n' then LineEnd(text, j + 1) else j
  }

  /** The last position in `[lo, hi)` that is not a line feed. */
  function LastNonLineFeed(text: string, lo: nat, hi: nat): (r: Option<nat>)
    requires lo <= hi <= |text|
    ensures r.Some? ==> lo <= r.value < hi && text[r.value] != '\n'
                        && forall k :: r.value < k < hi ==> text[k] == '\n'
    ensures r.None? ==> forall k :: lo <= k < hi ==> text[k] == '\n'
    decreases hi - lo
  {
    if lo == hi then None
    else if text[hi - 1] != '\n' then Some(hi - 1)
    else LastNonLineFeed(text, lo, hi - 1)
  }

  datatype Hit = Hit(key: string, value: string, end: nat)

  /** Where the value starts when the pattern matches after a keyword
      ending at `j`. */
  function ValueStart(text: string, j: nat): (r: Option<nat>)
    requires j <= |text|
    ensures r.Some? ==> j < r.value < |text| && text[r.value] != '\n'
                        && forall k :: j <= k < r.value ==> IsRunUnit(text[k])
  {
    var e := RunEnd(text, j);
    if e == j then None
    else if e < |text| then Some(e)
    else LastNonLineFeed(text, j + 1, e)
  }

  /** The match starting at `i`, trying the alternatives from `n` on. */
  function MatchFrom(text: string, i: nat, n: nat): (r: Option<Hit>)
    requires i <= |text|
    ensures r.Some? ==> IsFallbackKey(r.value.key) && i < r.value.end <= |text|
    ensures r.Some? ==> |r.value.value| > 0 && '\n' !in r.value.value
    decreases |FallbackKeywords| - n
  {
    if n >= |FallbackKeywords| then None
    else
      var kw := FallbackKeywords[n];
      if KeywordAt(text, i, kw) then
        match ValueStart(text, i + |kw|)
        case Some(p) =>
          var e := LineEnd(text, p);
          assert Lower(text[i..i + |kw|]) == FallbackKeywords[n];
          assert forall k :: 0 <= k < e - p ==> text[p..e][k] == text[p + k];
          Some(Hit(text[i..i + |kw|], text[p..e], e))
        case None => MatchFrom(text, i, n + 1)
      else MatchFrom(text, i, n + 1)
  }

  predicate AllFallbackEntries(d: Dict<string, string>) {
    forall k :: k in d.values ==> IsFallbackKey(k) && d.values[k] != "" && Trim(d.values[k]) == d.values[k]
  }

  /** The `while (matcher.find())` loop: each match with a non-blank value
      is stored under the keyword as written in the text. */
  function FindAll(text: string, pos: nat, data: Dict<string, string>): (r: Dict<string, string>)
    requires pos <= |text| && Valid(data)
    ensures Valid(r)
    ensures AllFallbackEntries(data) ==> AllFallbackEntries(r)
    decreases |text| - pos
  {
    if pos == |text| then data
    else
      match MatchFrom(text, pos, 0)
      case None => FindAll(text, pos + 1, data)
      case Some(h) =>
        var v := Trim(h.value);
        TrimIdempotent(h.value);
        var next := Store(data, h);
        assert AllFallbackEntries(data) ==> AllFallbackEntries(next) by {
          if AllFallbackEntries(data) && v != "" { FallbackPut(data, h.key, v); }
        }
        FindAll(text, h.end, next)
  }

  /** One match: its trimmed value is put under its key unless blank. */
  function Store(data: Dict<string, string>, h: Hit): (r: Dict<string, string>)
    requires Valid(data)
    ensures Valid(r)
  {
    if Trim(h.value) != "" then Put(data, h.key, Trim(h.value)) else data
  }

  /** The matches the loop visits from `pos`: the leftmost match, then the
      next one from where it ended. */
  function Hits(text: string, pos: nat): (r: seq<Hit>)
    requires pos <= |text|
    decreases |text| - pos
  {
    if pos == |text| then []
    else
      match MatchFrom(text, pos, 0)
      case None => Hits(text, pos + 1)
      case Some(h) => [h] + Hits(text, h.end)
  }

  /** The trimmed value of the last hit under `key` whose value is not
      blank: the one a map written hit by hit ends up holding. */
  function LastValue(hits: seq<Hit>, key: string): Option<string> {
    if |hits| == 0 then None
    else
      var later := LastValue(hits[1..], key);
      if later.Some? then later
      else if hits[0].key == key && Trim(hits[0].value) != "" then Some(Trim(hits[0].value))
      else None
  }

  /** Last match wins: after the loop a key holds the trimmed value of the
      last match under it with a non-blank value, and otherwise what it held
      before. */
  lemma {:induction false} FindAllLastWins(text: string, pos: nat, data: Dict<string, string>, key: string)
    requires pos <= |text| && Valid(data)
    ensures Get(FindAll(text, pos, data), key)
            == if LastValue(Hits(text, pos), key).Some? then LastValue(Hits(text, pos), key) else Get(data, key)
    decreases |text| - pos
  {
    if pos < |text| {
      var m := MatchFrom(text, pos, 0);
      if m.None? {
        FindAllSkip(text, pos, data);
        FindAllLastWins(text, pos + 1, data, key);
      } else {
        var h := m.value;
        FindAllHit(text, pos, data);
        FindAllLastWins(text, h.end, Store(data, h), key);
        LastWinsStep(data, h, Hits(text, h.end), FindAll(text, h.end, Store(data, h)), key);
      }
    }
  }

  lemma FindAllSkip(text: string, pos: nat, data: Dict<string, string>)
    requires pos < |text| && Valid(data) && MatchFrom(text, pos, 0).None?
    ensures FindAll(text, pos, data) == FindAll(text, pos + 1, data)
    ensures Hits(text, pos) == Hits(text, pos + 1)
  {
  }

  lemma FindAllHit(text: string, pos: nat, data: Dict<string, string>)
    requires pos < |text| && Valid(data) && MatchFrom(text, pos, 0).Some?
    ensures var h := MatchFrom(text, pos, 0).value;
      FindAll(text, pos, data) == FindAll(text, h.end, Store(data, h)) && Hits(text, pos) == [h] + Hits(text, h.end)
  {
  }

  /** A match in front of the rest: what the rest leaves, or else this
      match's value, or else the old entry. */
  lemma LastWinsStep(data: Dict<string, string>, h: Hit, rest: seq<Hit>, after: Dict<string, string>, key: string)
    requires Valid(data)
    requires Get(after, key) == if LastValue(rest, key).Some? then LastValue(rest, key) else Get(Store(data, h), key)
    ensures Get(after, key) == if LastValue([h] + rest, key).Some? then LastValue([h] + rest, key) else Get(data, key)
  {
    assert ([h] + rest)[1..] == rest;
  }

  lemma FallbackPut(data: Dict<string, string>, key: string, v: string)
    requires Valid(data) && AllFallbackEntries(data)
    requires IsFallbackKey(key) && v != "" && Trim(v) == v
    ensures AllFallbackEntries(Put(data, key, v))
  {
    var r := Put(data, key, v);
    forall k | k in r.values
      ensures IsFallbackKey(k) && r.values[k] != "" && Trim(r.values[k]) == r.values[k]
    {
      if k != key { assert Get(r, k) == Get(data, k); }
    }
  }

  // ---------------------------------------------------------------------
  // The whole parser

  /** The pairs the line scan finds. */
  function TableData(text: string): (r: Dict<string, string>)
    ensures Valid(r) && AllTableEntries(r)
  {
    ScanFromStartEntries(JavaSplit(text, '\n'));
    ScanLines(Start, JavaSplit(text, '\n')).data
  }

  /** `parseStructuredTable(text)`. */
  function ParseStructuredTable(text: Option<string>): (r: Dict<string, string>)
    ensures Valid(r)
    ensures text.None? || Trim(text.value) == "" ==> r == Empty()
    ensures text.Some? && Trim(text.value) != "" && Size(TableData(text.value)) > 0 ==>
              r == TableData(text.value)
    ensures text.Some? && Trim(text.value) != "" && Size(TableData(text.value)) == 0 ==>
              AllFallbackEntries(r) && (|text.value| <= 50 ==> r == Empty())
    ensures AllTableEntries(r) || AllFallbackEntries(r)
  {
    if text.None? || Trim(text.value) == "" then Empty()
    else
      var d := TableData(text.value);
      if Size(d) == 0 then Fallback(text.value, d) else d
  }

  /** When the line scan found nothing: the keyword search, for texts
      longer than 50 units. */
  function Fallback(text: string, d: Dict<string, string>): (r: Dict<string, string>)
    requires Valid(d) && Size(d) == 0
    ensures Valid(r) && AllFallbackEntries(r)
    ensures |text| <= 50 ==> r == Empty()
    ensures |text| > 50 ==> r == FindAll(text, 0, Empty())
  {
    SizeZero(d);
    if |text| > 50 then FindAll(text, 0, d) else d
  }

  // ---------------------------------------------------------------------
  // The markdown table of the source's documentation, line by line

  /** A table row `| key | value |`. */
  function PipeLine(key: string, value: string): string {
    "| " + key + " | " + value + " |"
  }

  const ExampleHeader: string := PipeLine("Keywords", "Labels")
  const ExampleRule: string := "|---|---|"
  const ExampleModel: string := PipeLine("Model", "HP-35")
  const ExampleYear: string := PipeLine("Year", "1972")
  /** `| Keywords | Labels |`, `|---|---|`, `| Model | HP-35 |` and
      `| Year | 1972 |` on four lines. */
  const ExampleText: string := Join([ExampleHeader, ExampleRule, ExampleModel, ExampleYear], "\n")

  /** A text without the first unit of `t` does not contain `t`. */
  lemma AbsentFirstUnit(s: string, t: string)
    requires |t| > 0 && t[0] !in s
    ensures !Contains(s, t)
  {
    ContainsIff(s, t);
    forall k ensures !OccursAt(s, t, k) {
      if 0 <= k && k + |t| <= |s| {
        assert s[k..k + |t|][0] == s[k];
      }
    }
  }

  /** A text no longer than `t` and different from it does not contain
      `t`. */
  lemma NotLonger(s: string, t: string)
    requires |s| <= |t| && s != t
    ensures !Contains(s, t)
  {
    ContainsIff(s, t);
    forall k ensures !OccursAt(s, t, k) {
      if 0 <= k && k + |t| <= |s| {
        assert s[k..k + |t|] == s;
      }
    }
  }

  /** A cell a pipe row can carry through unchanged. */
  predicate PlainCell(x: string) {
    && |x| > 0 && !IsTrimmed(x[0]) && !IsTrimmed(x[|x| - 1])
    && '|' !in x && '\t' !in x && '\n' !in x
  }

  /** A cell whose lower-case form has no `k`. */
  predicate NoK(x: string) {
    forall i :: 0 <= i < |x| ==> LowerChar(x[i]) != 'k'
  }

  lemma PaddedCellTrim(x: string)
    requires PlainCell(x)
    ensures Trim(" " + x + " ") == x
  {
    var p := " " + x + " ";
    assert p[1..] == x + " ";
    assert TrimStart(x + " ") == x + " ";
    assert TrimStart(p) == x + " ";
    assert (x + " ")[..|x|] == x;
    assert TrimEnd(x + " ") == TrimEnd(x);
    TrimOfTrimmed(x);
  }

  lemma PipeLineSplit(key: string, value: string)
    requires PlainCell(key) && PlainCell(value)
    ensures JavaSplit(PipeLine(key, value), '|') == ["", " " + key + " ", " " + value + " "]
  {
    var pieces := ["", " " + key + " ", " " + value + " ", ""];
    var line := PipeLine(key, value);
    assert Join(pieces[3..], "|") == "";
    assert Join(pieces[2..], "|") == " " + value + " " + "|" + "";
    assert Join(pieces[1..], "|") == " " + key + " " + "|" + (" " + value + " " + "|" + "");
    assert Join(pieces, "|") == "" + "|" + Join(pieces[1..], "|");
    assert Join(pieces, "|") == line;
    assert forall i :: 0 <= i < |pieces| ==> '|' !in pieces[i];
    SplitOnJoin(pieces, '|');
    assert line[0] == '|';
  }

  lemma PipeLineNotHeader(key: string, value: string)
    requires NoK(key) && NoK(value)
    ensures !IsHeaderLine(PipeLine(key, value))
  {
    var line := PipeLine(key, value);
    var low := Lower(line);
    forall i | 0 <= i < |line| ensures low[i] != 'k' {
      LowerAt(line, i);
      if 2 <= i < 2 + |key| {
        assert line[i] == key[i - 2];
      } else if 5 + |key| <= i < 5 + |key| + |value| {
        assert line[i] == value[i - 5 - |key|];
      }
    }
    AbsentFirstUnit(low, "keywords");
  }

  lemma PaddedAccept(key: string, value: string)
    requires PlainCell(key) && PlainCell(value) && key != value
    ensures Accept(" " + key + " ", " " + value + " ") == Some((key, value))
  {
    PaddedCellTrim(key);
    PaddedCellTrim(value);
  }

  lemma PipeLinePipe(key: string, value: string)
    requires PlainCell(key) && PlainCell(value) && key != value
    requires NoK(key) && !Contains(Lower(key), "label")
    ensures PipeRow(PipeLine(key, value)) == Some((key, value))
  {
    var line := PipeLine(key, value);
    assert '|' in line by { assert line[0] == '|'; }
    PipeLineSplit(key, value);
    PaddedAccept(key, value);
    NoKeywordIn(key);
  }

  /** A cell without a `k` in any case cannot contain "keyword". */
  lemma NoKeywordIn(key: string)
    requires NoK(key)
    ensures !Contains(Lower(key), "keyword")
  {
    assert 'k' !in Lower(key) by {
      forall i | 0 <= i < |key| ensures Lower(key)[i] != 'k' { LowerAt(key, i); }
    }
    AbsentFirstUnit(Lower(key), "keyword");
  }

  lemma PipeLineParses(key: string, value: string)
    requires PlainCell(key) && PlainCell(value) && key != value
    requires NoK(key) && !Contains(Lower(key), "label")
    ensures ParseRow(PipeLine(key, value)) == Some((key, value))
  {
    assert '\t' !in PipeLine(key, value);
    assert TabRow(PipeLine(key, value)).None?;
    PipeLinePipe(key, value);
  }

  /** A row `| key | value |` after a header or separator stores `value`
      under `key`. */
  lemma PipeLineRow(st: Scan, key: string, value: string)
    requires Valid(st.data) && (st.foundTable || st.skipNext)
    requires PlainCell(key) && PlainCell(value) && key != value
    requires NoK(key) && NoK(value) && !Contains(Lower(key), "label")
    requires !IsSeparatorUnit(key[0])
    ensures ScanLine(st, PipeLine(key, value)) == Scan(Put(st.data, key, value), st.foundTable, false)
  {
    var line := PipeLine(key, value);
    assert line[0] == '|' && line[|line| - 1] == '|';
    TrimOfTrimmed(line);
    assert !IsSeparatorLine(line) by { assert line[2] == key[0]; }
    PipeLineNotHeader(key, value);
    PipeLineParses(key, value);
  }

  lemma ExampleTextLines()
    ensures JavaSplit(ExampleText, '\n') == [ExampleHeader, ExampleRule, ExampleModel, ExampleYear]
  {
    var ls := [ExampleHeader, ExampleRule, ExampleModel, ExampleYear];
    assert forall i :: 0 <= i < |ls| ==> '\n' !in ls[i];
    SplitOnJoin(ls, '\n');
    assert '\n' in ExampleText by {
      assert ExampleText == ExampleHeader + "\n" + Join(ls[1..], "\n");
      assert ExampleText[|ExampleHeader|] == '\n';
    }
  }

  /** The lower-case cells of a pipe row occur in its lower-case form. */
  lemma PipeLineLower(key: string, value: string)
    ensures OccursAt(Lower(PipeLine(key, value)), Lower(key), 2)
    ensures OccursAt(Lower(PipeLine(key, value)), Lower(value), 5 + |key|)
  {
    var line := PipeLine(key, value);
    var low := Lower(line);
    forall i | 0 <= i < |key| ensures low[2 + i] == Lower(key)[i] {
      LowerAt(line, 2 + i);
      LowerAt(key, i);
      assert line[2 + i] == key[i];
    }
    assert low[2..2 + |key|] == Lower(key);
    forall i | 0 <= i < |value| ensures low[5 + |key| + i] == Lower(value)[i] {
      LowerAt(line, 5 + |key| + i);
      LowerAt(value, i);
      assert line[5 + |key| + i] == value[i];
    }
    assert low[5 + |key|..5 + |key| + |value|] == Lower(value);
  }

  lemma LowerKeywords()
    ensures Lower("Keywords") == "keywords"
  {
    forall i | 0 <= i < 8 ensures Lower("Keywords")[i] == "keywords"[i] {
      LowerAt("Keywords", i);
    }
  }

  lemma LowerLabels()
    ensures Lower("Labels") == "labels"
  {
    forall i | 0 <= i < 6 ensures Lower("Labels")[i] == "labels"[i] {
      LowerAt("Labels", i);
    }
  }

  lemma ExampleHeaderIsHeader()
    ensures IsHeaderLine(ExampleHeader)
  {
    PipeLineLower("Keywords", "Labels");
    LowerKeywords();
    LowerLabels();
    ContainsAt(Lower(ExampleHeader), "keywords", 2);
    ContainsAt(Lower(ExampleHeader), "labels", 13);
  }

  lemma ExampleHeaderShape()
    ensures Trim(ExampleHeader) == ExampleHeader
    ensures !IsSeparatorLine(ExampleHeader)
  {
    var line := ExampleHeader;
    assert line[0] == '|' && line[|line| - 1] == '|';
    TrimOfTrimmed(line);
    assert line[2] == 'K';
  }

  lemma ExampleHeaderLine(st: Scan)
    requires Valid(st.data)
    ensures ScanLine(st, ExampleHeader) == Scan(st.data, true, true)
  {
    ExampleHeaderShape();
    ExampleHeaderIsHeader();
  }

  lemma ExampleRuleLine(st: Scan)
    requires Valid(st.data)
    ensures ScanLine(st, ExampleRule) == st.(skipNext := true)
  {
    TrimOfTrimmed(ExampleRule);
    assert IsSeparatorLine(ExampleRule);
  }

  lemma ExampleModelLine(st: Scan)
    requires Valid(st.data) && (st.foundTable || st.skipNext)
    ensures ScanLine(st, ExampleModel) == Scan(Put(st.data, "Model", "HP-35"), st.foundTable, false)
  {
    assert PlainCell("Model") && PlainCell("HP-35") && NoK("Model") && NoK("HP-35");
    assert Lower("Model") == "model";
    assert "model"[0] != "label"[0];
    NotLonger("model", "label");
    PipeLineRow(st, "Model", "HP-35");
  }

  lemma ExampleYearLine(st: Scan)
    requires Valid(st.data) && (st.foundTable || st.skipNext)
    ensures ScanLine(st, ExampleYear) == Scan(Put(st.data, "Year", "1972"), st.foundTable, false)
  {
    assert PlainCell("Year") && PlainCell("1972") && NoK("Year") && NoK("1972");
    NotLonger(Lower("Year"), "label");
    PipeLineRow(st, "Year", "1972");
  }

  lemma ScanLinesCons(st: Scan, line: string, rest: seq<string>)
    requires Valid(st.data)
    ensures ScanLines(st, [line] + rest) == ScanLines(ScanLine(st, line), rest)
  {
    assert ([line] + rest)[1..] == rest;
  }

  lemma ExampleTextNotBlank()
    ensures Trim(ExampleText) != ""
  {
    var ls := [ExampleHeader, ExampleRule, ExampleModel, ExampleYear];
    assert ExampleText == ExampleHeader + "\n" + Join(ls[1..], "\n");
    assert ExampleText[2] == 'K';
    TrimEmptyIff(ExampleText);
  }

  lemma ExampleScan()
    ensures ScanLines(Start, [ExampleHeader, ExampleRule, ExampleModel, ExampleYear]).data
            == Put(Put(Empty(), "Model", "HP-35"), "Year", "1972")
  {
    var s1 := Scan(Empty(), true, true);
    ExampleHeaderLine(Start);
    ExampleRuleLine(s1);
    ExampleModelLine(s1);
    var s3 := Scan(Put(s1.data, "Model", "HP-35"), true, false);
    ExampleYearLine(s3);
    ScanLinesCons(s3, ExampleYear, []);
    ScanLinesCons(s1, ExampleModel, [ExampleYear]);
    ScanLinesCons(s1, ExampleRule, [ExampleModel, ExampleYear]);
    ScanLinesCons(Start, ExampleHeader, [ExampleRule, ExampleModel, ExampleYear]);
  }

  /** A text whose lines yield a pair is read by the line scan alone. */
  lemma ParseOfTable(text: string)
    requires Trim(text) != "" && Size(TableData(text)) > 0
    ensures ParseStructuredTable(Some(text)) == TableData(text)
  {
  }

  lemma ExampleData()
    ensures Put(Put(Empty(), "Model", "HP-35"), "Year", "1972")
            == Dict(["Model", "Year"], map["Model" := "HP-35", "Year" := "1972"])
  {
    assert "Model" != "Year" by { assert |"Model"| != |"Year"|; }
  }

  lemma ExampleTableData()
    ensures TableData(ExampleText) == Put(Put(Empty(), "Model", "HP-35"), "Year", "1972")
  {
    ExampleTextLines();
    ExampleScan();
  }

  /** The documented example reads as the two rows under the header. */
  lemma ExampleTableParse()
    ensures ParseStructuredTable(Some(ExampleText)) ==
            Dict(["Model", "Year"], map["Model" := "HP-35", "Year" := "1972"])
  {
    var d := Dict(["Model", "Year"], map["Model" := "HP-35", "Year" := "1972"]);
    assert TableData(ExampleText) == d by {
      ExampleTableData();
      ExampleData();
    }
    assert Trim(ExampleText) != "" by { ExampleTextNotBlank(); }
    ParseOfTable(ExampleText);
  }
}
