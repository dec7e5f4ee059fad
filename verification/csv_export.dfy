/** `ExportService.exportUserCollectionAsCsv`: a fixed header and one line
    per collection item, fields separated by commas. Fields that need it
    are escaped after rules 6 and 7 of section 2 of RFC 4180: the value is
    enclosed in double quotes and each double quote inside it is doubled.
    Lines end in a line feed, not CRLF, and a carriage return alone does
    not cause quoting, so the reader here is the one the export suits:
    quoted fields as in that section, records ended by a line feed, and any
    other character, carriage return included, allowed in an unquoted
    field. It gets every field back. */
module CsvExport {
  import opened Wrappers
  import opened JavaText
  import Clock

  // ------------------------------------------------------------- escaping

  /** A value that must be enclosed in double quotes: it holds a comma, a
      double quote or a line feed. A carriage return alone does not count. */
  predicate NeedsQuoting(v: string) {
    ',' in v || '"' in v || '\n' in v
  }

  /** `value.replace("\"", "\"\"")`: every double quote doubled. */
  function Doubled(v: string): (r: string)
    ensures |r| >= |v|
    ensures '"' !in v ==> r == v
    decreases |v|
  {
    if |v| == 0 then ""
    else (if v[0] == '"' then "\"\"" else [v[0]]) + Doubled(v[1..])
  }

  /** Doubling the quotes is Java's `replace` of one quote by two. */
  lemma {:induction false} DoubledIsReplace(v: string)
    ensures Doubled(v) == Replace(v, "\"", "\"\"")
    decreases |v|
  {
    if |v| > 0 {
      DoubledIsReplace(v[1..]);
      assert v[..1] == [v[0]];
    }
  }

  /** `escapeCsv`: "" for null, the value itself when nothing in it needs
      quoting, and otherwise the value quoted with its quotes doubled. */
  function EscapeCsv(value: Option<string>): (r: string)
    ensures value.None? ==> r == ""
    ensures value.Some? && !NeedsQuoting(value.value) ==> r == value.value
    ensures value.Some? && NeedsQuoting(value.value) ==>
              |r| >= |value.value| + 2 && r[0] == '"' && r[|r| - 1] == '"'
  {
    if value.None? then ""
    else if NeedsQuoting(value.value) then "\"" + Doubled(value.value) + "\""
    else value.value
  }

  // -------------------------------------------------------------- reading
  //
  // A reader of records ended by a line feed: a field is either enclosed
  // in double quotes, with `""` standing for one quote, or runs up to the
  // next comma or line feed.

  /** A field not enclosed in quotes, and what follows it. */
  function Unquoted(s: string): (r: (string, string))
    ensures r.0 + r.1 == s
    ensures ',' !in r.0 && '\n' !in r.0
    ensures |r.1| > 0 ==> r.1[0] == ',' || r.1[0] == '\n'
    decreases |s|
  {
    if |s| == 0 || s[0] == ',' || s[0] == '\n' then ("", s)
    else
      var (f, rest) := Unquoted(s[1..]);
      ([s[0]] + f, rest)
  }

  /** The inside of a quoted field, read after its opening quote, and what
      follows the closing quote; nothing when the closing quote is
      missing. */
  function QuotedBody(s: string): (r: Option<(string, string)>)
    ensures r.Some? ==> |r.value.1| < |s|
    decreases |s|
  {
    if |s| == 0 then None
    else if s[0] == '"' then
      if |s| >= 2 && s[1] == '"' then
        match QuotedBody(s[2..])
        case None => None
        case Some((f, rest)) => Some(("\"" + f, rest))
      else Some(("", s[1..]))
    else
      match QuotedBody(s[1..])
      case None => None
      case Some((f, rest)) => Some(([s[0]] + f, rest))
  }

  /** One field and what follows it. */
  function ParseField(s: string): (r: Option<(string, string)>)
    ensures r.Some? ==> |r.value.1| <= |s|
  {
    if |s| > 0 && s[0] == '"' then QuotedBody(s[1..]) else Some(Unquoted(s))
  }

  /** `n` fields separated by commas and ended by a line break, and what
      follows the line break. */
  function ParseRecord(s: string, n: nat): (r: Option<(seq<string>, string)>)
    requires n > 0
    ensures r.Some? ==> |r.value.0| == n && |r.value.1| < |s|
    decreases n
  {
    match ParseField(s)
    case None => None
    case Some((f, rest)) =>
      if n == 1 then
        if |rest| > 0 && rest[0] == '\n' then Some(([f], rest[1..])) else None
      else if |rest| > 0 && rest[0] == ',' then
        match ParseRecord(rest[1..], n - 1)
        case None => None
        case Some((fs, tail)) => Some(([f] + fs, tail))
      else None
  }

  /** A whole document of eight-field records. */
  function ParseCsv(s: string): Option<seq<seq<string>>> {
    ParseRecords(s, 8)
  }

  /** A whole document of `n`-field records. */
  function ParseRecords(s: string, n: nat): (r: Option<seq<seq<string>>>)
    requires n > 0
    decreases |s|
  {
    if |s| == 0 then Some([])
    else match ParseRecord(s, n)
      case None => None
      case Some((fs, rest)) =>
        match ParseRecords(rest, n)
        case None => None
        case Some(rs) => Some([fs] + rs)
  }

  // ---------------------------------------------------- reading it back

  /** A field free of commas, quotes and line feeds is written as it is. */
  predicate Plain(v: string) {
    forall i :: 0 <= i < |v| ==> v[i] != ',' && v[i] != '"' && v[i] != '\n'
  }

  /** A field ends at a comma or a line break. */
  predicate Delimited(rest: string) {
    |rest| > 0 && (rest[0] == ',' || rest[0] == '\n')
  }

  lemma {:induction false} UnquotedOf(v: string, rest: string)
    requires ',' !in v && '\n' !in v && Delimited(rest)
    ensures Unquoted(v + rest) == (v, rest)
    decreases |v|
  {
    if |v| > 0 {
      assert v[0] in v;
      assert (v + rest)[1..] == v[1..] + rest;
      UnquotedOf(v[1..], rest);
      assert [v[0]] + v[1..] == v;
    } else {
      assert v + rest == rest;
    }
  }

  /** The doubled quotes read back as single ones, up to the closing quote. */
  lemma {:induction false} QuotedBodyOf(v: string, rest: string)
    requires |rest| == 0 || rest[0] != '"'
    ensures QuotedBody(Doubled(v) + "\"" + rest) == Some((v, rest))
    decreases |v|
  {
    if |v| == 0 {
      assert Doubled(v) + "\"" + rest == "\"" + rest;
      QuotedBodyClose(rest);
    } else {
      QuotedBodyOf(v[1..], rest);
      if v[0] == '"' {
        QuotedBodyQuoteStep(v, rest);
      } else {
        QuotedBodyCharStep(v, rest);
      }
    }
  }

  lemma QuotedBodyQuoteStep(v: string, rest: string)
    requires |v| > 0 && v[0] == '"'
    requires QuotedBody(Doubled(v[1..]) + "\"" + rest) == Some((v[1..], rest))
    ensures QuotedBody(Doubled(v) + "\"" + rest) == Some((v, rest))
  {
    var t := Doubled(v[1..]) + "\"" + rest;
    assert Doubled(v) + "\"" + rest == "\"\"" + t;
    QuotedBodyQuote(t);
    assert "\"" + v[1..] == v;
  }

  lemma QuotedBodyCharStep(v: string, rest: string)
    requires |v| > 0 && v[0] != '"'
    requires QuotedBody(Doubled(v[1..]) + "\"" + rest) == Some((v[1..], rest))
    ensures QuotedBody(Doubled(v) + "\"" + rest) == Some((v, rest))
  {
    var t := Doubled(v[1..]) + "\"" + rest;
    assert Doubled(v) + "\"" + rest == [v[0]] + t;
    QuotedBodyChar(v[0], t);
    assert [v[0]] + v[1..] == v;
  }

  lemma QuotedBodyClose(rest: string)
    requires |rest| == 0 || rest[0] != '"'
    ensures QuotedBody("\"" + rest) == Some(("", rest))
  {
    assert ("\"" + rest)[1..] == rest;
  }

  lemma QuotedBodyQuote(t: string)
    ensures QuotedBody("\"\"" + t) ==
      match QuotedBody(t)
      case None => None
      case Some((f, rest)) => Some(("\"" + f, rest))
  {
    assert ("\"\"" + t)[2..] == t;
  }

  lemma QuotedBodyChar(c: char, t: string)
    requires c != '"'
    ensures QuotedBody([c] + t) ==
      match QuotedBody(t)
      case None => None
      case Some((f, rest)) => Some(([c] + f, rest))
  {
    assert ([c] + t)[1..] == t;
  }

  /** Every escaped value reads back as itself. */
  lemma FieldRoundTrip(v: string, rest: string)
    requires Delimited(rest)
    ensures ParseField(EscapeCsv(Some(v)) + rest) == Some((v, rest))
  {
    if NeedsQuoting(v) {
      assert EscapeCsv(Some(v)) == "\"" + Doubled(v) + "\"";
      QuotedFieldRoundTrip(v, rest);
    } else {
      assert EscapeCsv(Some(v)) == v;
      PlainFieldRoundTrip(v, rest);
    }
  }

  lemma QuotedFieldRoundTrip(v: string, rest: string)
    requires Delimited(rest)
    ensures ParseField("\"" + Doubled(v) + "\"" + rest) == Some((v, rest))
  {
    var s := "\"" + Doubled(v) + "\"" + rest;
    assert s == "\"" + (Doubled(v) + "\"" + rest);
    assert s[0] == '"';
    assert s[1..] == Doubled(v) + "\"" + rest;
    QuotedBodyOf(v, rest);
  }

  lemma PlainFieldRoundTrip(v: string, rest: string)
    requires ',' !in v && '"' !in v && '\n' !in v && Delimited(rest)
    ensures ParseField(v + rest) == Some((v, rest))
  {
    UnquotedOf(v, rest);
    if |v| > 0 {
      assert v[0] in v;
      assert (v + rest)[0] == v[0];
    } else {
      assert v + rest == rest;
    }
  }

  /** The escaped fields. */
  function Escaped(fields: seq<string>): (r: seq<string>)
    ensures |r| == |fields|
    decreases |fields|
  {
    if |fields| == 0 then [] else [EscapeCsv(Some(fields[0]))] + Escaped(fields[1..])
  }

  lemma {:induction false} EscapedAt(fields: seq<string>, i: nat)
    requires i < |fields|
    ensures Escaped(fields)[i] == EscapeCsv(Some(fields[i]))
    decreases i
  {
    if i > 0 {
      EscapedAt(fields[1..], i - 1);
    }
  }

  /** The pieces from the i-th on, separated by commas and ended by a line
      feed. */
  function Joined(pieces: seq<string>, i: nat): string
    requires i < |pieces|
    decreases |pieces| - i
  {
    pieces[i] + if i + 1 == |pieces| then "\n" else "," + Joined(pieces, i + 1)
  }

  /** A record: the fields escaped, separated by commas, ended by a line
      feed. */
  function RecordText(fields: seq<string>): string
    requires |fields| > 0
  {
    Joined(Escaped(fields), 0)
  }

  /** Reading a written record gives its fields back, whatever follows. */
  lemma {:induction false} RecordRoundTrip(fields: seq<string>, i: nat, rest: string)
    requires i < |fields|
    ensures ParseRecord(Joined(Escaped(fields), i) + rest, |fields| - i) == Some((fields[i..], rest))
    decreases |fields| - i
  {
    var es := Escaped(fields);
    EscapedAt(fields, i);
    if i + 1 == |fields| {
      assert Joined(es, i) + rest == es[i] + ("\n" + rest);
      FieldRoundTrip(fields[i], "\n" + rest);
      assert ("\n" + rest)[1..] == rest;
      assert [fields[i]] == fields[i..];
    } else {
      var tail := Joined(es, i + 1) + rest;
      assert Joined(es, i) + rest == es[i] + ("," + tail);
      FieldRoundTrip(fields[i], "," + tail);
      assert ("," + tail)[1..] == tail;
      RecordRoundTrip(fields, i + 1, rest);
      assert [fields[i]] + fields[i + 1..] == fields[i..];
    }
  }

  lemma RecordTextRoundTrip(fields: seq<string>, rest: string)
    requires |fields| > 0
    ensures ParseRecord(RecordText(fields) + rest, |fields|) == Some((fields, rest))
  {
    RecordRoundTrip(fields, 0, rest);
    assert fields[0..] == fields;
  }

  /** A document starting with a record, followed by records of the same
      width, reads back record by record. */
  function RecordsText(rs: seq<seq<string>>): string
    requires forall i :: 0 <= i < |rs| ==> |rs[i]| > 0
    decreases |rs|
  {
    if |rs| == 0 then "" else RecordText(rs[0]) + RecordsText(rs[1..])
  }

  lemma {:induction false} RecordsRoundTrip(rs: seq<seq<string>>, n: nat)
    requires n > 0 && forall i :: 0 <= i < |rs| ==> |rs[i]| == n
    ensures ParseRecords(RecordsText(rs), n) == Some(rs)
    decreases |rs|
  {
    if |rs| > 0 {
      var tail := RecordsText(rs[1..]);
      RecordTextRoundTrip(rs[0], tail);
      RecordTextNonEmpty(rs[0]);
      assert RecordsText(rs) == RecordText(rs[0]) + tail;
      RecordsRoundTrip(rs[1..], n);
      assert [rs[0]] + rs[1..] == rs;
    }
  }

  lemma RecordTextNonEmpty(fields: seq<string>)
    requires |fields| > 0
    ensures |RecordText(fields)| > 0
  {
    JoinedEndsLine(Escaped(fields), 0);
  }

  lemma {:induction false} JoinedEndsLine(pieces: seq<string>, i: nat)
    requires i < |pieces|
    ensures |Joined(pieces, i)| > 0
  {
  }

  // ---------------------------------------------------------- the export

  /** A link of the calculator, as the export prints it. */
  datatype ExportLink = ExportLink(title: string, url: string)

  /** One collection item with what the repositories return for it: the
      labels' names and the links, in repository order. */
  datatype CollectionRow = CollectionRow(
    calculatorId: int,
    model: string,
    manufacturer: string,
    soldFrom: Option<int>,
    soldTo: Option<int>,
    addedAt: Clock.DateTime,
    labels: seq<string>,
    links: seq<ExportLink>)

  /** `title (url)`. */
  function LinkText(l: ExportLink): string {
    l.title + " (" + l.url + ")"
  }

  /** The links, `title (url)` each, joined with "; ". */
  function LinksText(links: seq<ExportLink>): string {
    Join(seq(|links|, i requires 0 <= i < |links| => LinkText(links[i])), "; ")
  }

  /** A year, or nothing for null. */
  function YearText(y: Option<int>): string {
    if y.Some? then IntToString(y.value) else ""
  }

  /** `n` in decimal, padded with zeros to `width` digits. */
  function Padded(n: nat, width: nat): (r: string)
    ensures |r| >= width
    ensures forall i :: 0 <= i < |r| ==> IsDigit(r[i])
    decreases width
  {
    var digits := NatToString(n);
    if |digits| >= width then digits else "0" + Padded(n, width - 1)
  }

  /** `DateTimeFormatter.ISO_LOCAL_DATE`: `yyyy-MM-dd`; a year beyond four
      digits is signed with `+`, a year before year 0 with `-`. */
  function IsoDate(t: Clock.DateTime): string {
    var year :=
      if t.year > 9999 then "+" + NatToString(t.year)
      else if t.year >= 0 then Padded(t.year, 4)
      else "-" + Padded(-t.year, 4);
    year + "-" + Padded(if t.month < 0 then 0 else t.month, 2) + "-" + Padded(if t.day < 0 then 0 else t.day, 2)
  }

  /** The line of one item, built as the exporter appends it: the id, the
      escaped model and manufacturer, the years, the date the item was
      added, then the escaped labels and links. */
  function RowText(row: CollectionRow): string {
    IntToString(row.calculatorId) + ("," +
    (EscapeCsv(Some(row.model)) + ("," +
    (EscapeCsv(Some(row.manufacturer)) + ("," +
    (YearText(row.soldFrom) + ("," +
    (YearText(row.soldTo) + ("," +
    (IsoDate(row.addedAt) + ("," +
    (EscapeCsv(Some(Join(row.labels, "; "))) + ("," +
    (EscapeCsv(Some(LinksText(row.links))) + "\n"))))))))))))))
  }

  /** The eight values the line of an item holds. */
  function RowFields(row: CollectionRow): (r: seq<string>)
    ensures |r| == 8
  {
    [IntToString(row.calculatorId), row.model, row.manufacturer, YearText(row.soldFrom),
     YearText(row.soldTo), IsoDate(row.addedAt), Join(row.labels, "; "), LinksText(row.links)]
  }

  /** The header line: the column names separated by commas. */
  const Header: string :=
    "Calculator ID" + ("," + ("Model" + ("," + ("Manufacturer" + ("," + ("Sold From" + ("," +
    ("Sold To" + ("," + ("Added At" + ("," + ("Labels" + ("," + ("Links" + "\n"))))))))))))))

  /** The column names of the header. */
  function HeaderFields(): (r: seq<string>)
    ensures |r| == 8
  {
    ["Calculator ID", "Model", "Manufacturer", "Sold From", "Sold To", "Added At", "Labels", "Links"]
  }

  function RowsText(rows: seq<CollectionRow>): string
    decreases |rows|
  {
    if |rows| == 0 then "" else RowText(rows[0]) + RowsText(rows[1..])
  }

  /** `exportUserCollectionAsCsv`: the header, then the items in the order
      the repository returns them (most recently added first). */
  function ExportCsv(rows: seq<CollectionRow>): string {
    Header + RowsText(rows)
  }

  // --------------------------------------------- the export reads back

  lemma NatToStringPlain(n: nat)
    ensures Plain(NatToString(n))
  {
    var s := NatToString(n);
    forall i | 0 <= i < |s| ensures s[i] != ',' && s[i] != '"' && s[i] != '\n' {
      assert IsDigit(s[i]);
    }
  }

  lemma PaddedPlain(n: nat, width: nat)
    ensures Plain(Padded(n, width))
  {
    var s := Padded(n, width);
    forall i | 0 <= i < |s| ensures s[i] != ',' && s[i] != '"' && s[i] != '\n' {
      assert IsDigit(s[i]);
    }
  }

  lemma PlainAppend(a: string, b: string)
    requires Plain(a) && Plain(b)
    ensures Plain(a + b)
  {
    forall i | 0 <= i < |a + b| ensures (a + b)[i] != ',' && (a + b)[i] != '"' && (a + b)[i] != '\n' {
      if i >= |a| {
        assert (a + b)[i] == b[i - |a|];
      }
    }
  }

  /** Numbers, years and dates never need quoting. */
  lemma IntToStringPlain(n: int)
    ensures Plain(IntToString(n))
  {
    if n < 0 {
      NatToStringPlain(-n);
      PlainAppend("-", NatToString(-n));
    } else {
      NatToStringPlain(n);
    }
  }

  lemma YearTextPlain(y: Option<int>)
    ensures Plain(YearText(y))
  {
    if y.Some? {
      IntToStringPlain(y.value);
    }
  }

  lemma IsoDatePlain(t: Clock.DateTime)
    ensures Plain(IsoDate(t))
  {
    var year :=
      if t.year > 9999 then "+" + NatToString(t.year)
      else if t.year >= 0 then Padded(t.year, 4)
      else "-" + Padded(-t.year, 4);
    if t.year > 9999 {
      NatToStringPlain(t.year);
      PlainAppend("+", NatToString(t.year));
    } else if t.year >= 0 {
      PaddedPlain(t.year, 4);
    } else {
      PaddedPlain(-t.year, 4);
      PlainAppend("-", Padded(-t.year, 4));
    }
    var m := Padded(if t.month < 0 then 0 else t.month, 2);
    var d := Padded(if t.day < 0 then 0 else t.day, 2);
    PaddedPlain(if t.month < 0 then 0 else t.month, 2);
    PaddedPlain(if t.day < 0 then 0 else t.day, 2);
    PlainAppend(year, "-");
    PlainAppend(year + "-", m);
    PlainAppend(year + "-" + m, "-");
    PlainAppend(year + "-" + m + "-", d);
  }

  /** A plain value is written as it is. */
  lemma PlainEscape(v: string)
    requires Plain(v)
    ensures EscapeCsv(Some(v)) == v
  {
  }

  /** Four pieces and the rest, written out. */
  lemma JoinedOfFour(ps: seq<string>, i: nat)
    requires i + 4 < |ps|
    ensures Joined(ps, i) ==
              ps[i] + ("," + (ps[i + 1] + ("," + (ps[i + 2] + ("," + (ps[i + 3] + ("," + Joined(ps, i + 4))))))))
  {
    assert Joined(ps, i + 3) == ps[i + 3] + ("," + Joined(ps, i + 4));
    assert Joined(ps, i + 2) == ps[i + 2] + ("," + Joined(ps, i + 3));
    assert Joined(ps, i + 1) == ps[i + 1] + ("," + Joined(ps, i + 2));
  }

  /** Eight pieces written out. */
  lemma JoinedOfEight(ps: seq<string>)
    requires |ps| == 8
    ensures Joined(ps, 0) ==
              ps[0] + ("," + (ps[1] + ("," + (ps[2] + ("," + (ps[3] + ("," +
              (ps[4] + ("," + (ps[5] + ("," + (ps[6] + ("," + (ps[7] + "\n"))))))))))))))
  {
    JoinedOfFour(ps, 0);
    assert Joined(ps, 7) == ps[7] + "\n";
    assert Joined(ps, 6) == ps[6] + ("," + Joined(ps, 7));
    assert Joined(ps, 5) == ps[5] + ("," + Joined(ps, 6));
    assert Joined(ps, 4) == ps[4] + ("," + Joined(ps, 5));
  }

  /** The line of an item is the record of its eight values. */
  lemma RowIsRecord(row: CollectionRow)
    ensures RowText(row) == RecordText(RowFields(row))
  {
    var fs := RowFields(row);
    var es := Escaped(fs);
    forall i | 0 <= i < 8 ensures es[i] == EscapeCsv(Some(fs[i])) {
      EscapedAt(fs, i);
    }
    IntToStringPlain(row.calculatorId);
    YearTextPlain(row.soldFrom);
    YearTextPlain(row.soldTo);
    IsoDatePlain(row.addedAt);
    PlainEscape(fs[0]);
    PlainEscape(fs[3]);
    PlainEscape(fs[4]);
    PlainEscape(fs[5]);
    JoinedOfEight(es);
  }

  /** Plain values are all written as they are. */
  lemma {:induction false} EscapedPlain(fields: seq<string>)
    requires forall i :: 0 <= i < |fields| ==> Plain(fields[i])
    ensures Escaped(fields) == fields
    decreases |fields|
  {
    if |fields| > 0 {
      PlainEscape(fields[0]);
      EscapedPlain(fields[1..]);
    }
  }

  /** The header is the record of the column names. */
  lemma HeaderIsRecord()
    ensures Header == RecordText(HeaderFields())
  {
    var fs := HeaderFields();
    assert Plain(fs[0]) && Plain(fs[1]) && Plain(fs[2]) && Plain(fs[3]);
    assert Plain(fs[4]) && Plain(fs[5]) && Plain(fs[6]) && Plain(fs[7]);
    EscapedPlain(fs);
    JoinedOfEight(fs);
  }

  /** The values of every item, in order. */
  function RowsFields(rows: seq<CollectionRow>): (r: seq<seq<string>>)
    ensures |r| == |rows|
    ensures forall i :: 0 <= i < |r| ==> r[i] == RowFields(rows[i])
  {
    seq(|rows|, i requires 0 <= i < |rows| => RowFields(rows[i]))
  }

  lemma {:induction false} RowsAreRecords(rows: seq<CollectionRow>)
    ensures RowsText(rows) == RecordsText(RowsFields(rows))
    decreases |rows|
  {
    if |rows| > 0 {
      RowIsRecord(rows[0]);
      RowsAreRecords(rows[1..]);
      assert RowsFields(rows)[1..] == RowsFields(rows[1..]);
    }
  }

  /** A header record followed by the items' lines reads back as the
      header's fields and the items' values. */
  lemma DocumentRoundTrip(head: seq<string>, headText: string, rows: seq<CollectionRow>)
    requires |head| == 8 && headText == RecordText(head)
    ensures ParseCsv(headText + RowsText(rows)) == Some([head] + RowsFields(rows))
  {
    RowsAreRecords(rows);
    var rs := [head] + RowsFields(rows);
    assert rs[1..] == RowsFields(rows);
    RecordsRoundTrip(rs, 8);
  }

  /** A reader that ends records at a line feed and unquotes fields as
      section 2 of RFC 4180 does gets back the header's
      column names, then for each item, in order, its id, model,
      manufacturer, years, date, joined labels and joined links, whatever
      commas, quotes or line feeds the texts hold. */
  lemma ExportRoundTrip(rows: seq<CollectionRow>)
    ensures ParseCsv(ExportCsv(rows)) == Some([HeaderFields()] + RowsFields(rows))
  {
    HeaderIsRecord();
    DocumentRoundTrip(HeaderFields(), Header, rows);
  }
}
