/** The JSON documents of `ExportService`: every table of the catalogue,
    and one user's collection. Each record is an object node; a nullable
    field is written only when it is set. The documents are the values the
    pretty printer prints; the printing itself is not modelled. */
module JsonExport {
  import opened Wrappers
  import opened JavaText
  import opened Json
  import opened Catalog
  import Clock
  import CsvExport

  /** A map with `key` set to the value, when there is one. */
  function With(m: map<string, Json>, key: string, v: Option<Json>): (r: map<string, Json>)
    ensures key in r <==> key in m || v.Some?
    ensures v.Some? ==> r[key] == v.value
    ensures forall k :: k in m && k != key ==> k in r && r[k] == m[k]
    ensures v.None? ==> r == m
  {
    if v.Some? then m[key := v.value] else m
  }

  function NumOf(v: Option<int>): Option<Json> {
    if v.Some? then Some(JNum(v.value)) else None
  }

  function StrOf(v: Option<string>): Option<Json> {
    if v.Some? then Some(JStr(v.value)) else None
  }

  // ------------------------------------------------------------ all data

  function ManufacturerNode(id: nat, name: string): (r: Json)
    ensures r.JObj? && r.fields.Keys == {"id", "name"}
    ensures r.fields["id"] == JNum(id) && r.fields["name"] == JStr(name)
  {
    JObj(map["id" := JNum(id), "name" := JStr(name)])
  }

  /** A calculator node: id, model and manufacturer id always, the years,
      the source address and the raw row text only when set. */
  function CalculatorNode(id: nat, cal: Calculator): (r: Json)
    ensures r.JObj?
    ensures {"id", "model", "manufacturerId"} <= r.fields.Keys
    ensures r.fields["id"] == JNum(id) && r.fields["model"] == JStr(cal.model)
    ensures r.fields["manufacturerId"] == JNum(cal.manufacturerId)
    ensures "soldFrom" in r.fields <==> cal.soldFrom.Some?
    ensures "soldTo" in r.fields <==> cal.soldTo.Some?
    ensures "sourceUrl" in r.fields <==> cal.sourceUrl.Some?
    ensures "rawRowText" in r.fields <==> cal.rawRowText.Some?
    ensures cal.soldFrom.Some? ==> r.fields["soldFrom"] == JNum(cal.soldFrom.value)
    ensures cal.soldTo.Some? ==> r.fields["soldTo"] == JNum(cal.soldTo.value)
    ensures cal.sourceUrl.Some? ==> r.fields["sourceUrl"] == JStr(cal.sourceUrl.value)
    ensures cal.rawRowText.Some? ==> r.fields["rawRowText"] == JStr(cal.rawRowText.value)
  {
    var base := map["id" := JNum(id), "model" := JStr(cal.model), "manufacturerId" := JNum(cal.manufacturerId)];
    var m1 := With(base, "soldFrom", NumOf(cal.soldFrom));
    var m2 := With(m1, "soldTo", NumOf(cal.soldTo));
    var m3 := With(m2, "sourceUrl", StrOf(cal.sourceUrl));
    JObj(With(m3, "rawRowText", StrOf(cal.rawRowText)))
  }

  /** A label node: id, name and curation flag always, the description only
      when set. */
  function LabelNode(id: nat, l: Label): (r: Json)
    ensures r.JObj?
    ensures {"id", "name", "isCurated"} <= r.fields.Keys
    ensures r.fields["id"] == JNum(id) && r.fields["name"] == JStr(l.name)
    ensures r.fields["isCurated"] == JBool(l.isCurated)
    ensures "description" in r.fields <==> l.description.Some?
    ensures l.description.Some? ==> r.fields["description"] == JStr(l.description.value)
  {
    var base := map["id" := JNum(id), "name" := JStr(l.name), "isCurated" := JBool(l.isCurated)];
    JObj(With(base, "description", StrOf(l.description)))
  }

  /** A tagging node: the calculator's id and the label's id. */
  function PairNode(p: (nat, nat)): (r: Json)
    ensures r.JObj? && r.fields.Keys == {"calculatorId", "labelId"}
    ensures r.fields["calculatorId"] == JNum(p.0) && r.fields["labelId"] == JNum(p.1)
  {
    JObj(map["calculatorId" := JNum(p.0), "labelId" := JNum(p.1)])
  }

  /** Each table's ids in the order `findAll` returns them. */
  datatype Orders = Orders(manufacturers: seq<nat>, calculators: seq<nat>, labels: seq<nat>, pairs: seq<(nat, nat)>)

  /** Every listed id is one of the table's. */
  predicate OrdersOf(c: Catalog, o: Orders) {
    && (forall i :: 0 <= i < |o.manufacturers| ==> o.manufacturers[i] in c.manufacturers)
    && (forall i :: 0 <= i < |o.calculators| ==> o.calculators[i] in c.calculators)
    && (forall i :: 0 <= i < |o.labels| ==> o.labels[i] in c.labels)
    && (forall i :: 0 <= i < |o.pairs| ==> o.pairs[i] in c.tagged)
  }

  /** `exportAllDataAsJson`: one array per table, with the records in the
      repository's order. */
  function ExportAllData(c: Catalog, o: Orders): (r: Json)
    requires OrdersOf(c, o)
    ensures r.JObj? && r.fields.Keys == {"manufacturers", "calculators", "labels", "calculatorLabels"}
    ensures r.fields["manufacturers"] == JArr(seq(|o.manufacturers|, i requires 0 <= i < |o.manufacturers| =>
              ManufacturerNode(o.manufacturers[i], c.manufacturers[o.manufacturers[i]])))
    ensures r.fields["calculators"] == JArr(seq(|o.calculators|, i requires 0 <= i < |o.calculators| =>
              CalculatorNode(o.calculators[i], c.calculators[o.calculators[i]])))
    ensures r.fields["labels"] == JArr(seq(|o.labels|, i requires 0 <= i < |o.labels| =>
              LabelNode(o.labels[i], c.labels[o.labels[i]])))
    ensures r.fields["calculatorLabels"].JArr? && |r.fields["calculatorLabels"].items| == |o.pairs|
    ensures forall i :: 0 <= i < |o.pairs| ==> r.fields["calculatorLabels"].items[i] == PairNode(o.pairs[i])
  {
    JObj(map[
      "manufacturers" := JArr(seq(|o.manufacturers|, i requires 0 <= i < |o.manufacturers| =>
                           ManufacturerNode(o.manufacturers[i], c.manufacturers[o.manufacturers[i]]))),
      "calculators" := JArr(seq(|o.calculators|, i requires 0 <= i < |o.calculators| =>
                         CalculatorNode(o.calculators[i], c.calculators[o.calculators[i]]))),
      "labels" := JArr(seq(|o.labels|, i requires 0 <= i < |o.labels| =>
                    LabelNode(o.labels[i], c.labels[o.labels[i]]))),
      "calculatorLabels" := JArr(seq(|o.pairs|, i requires 0 <= i < |o.pairs| => PairNode(o.pairs[i])))])
  }

  // ----------------------------------------------------- one collection

  /** The digits of a fraction of a second without its trailing zeros. */
  function DropTrailingZeros(s: string): (r: string)
    ensures |r| <= |s| && r == s[..|r|]
    ensures r == [] || r[|r| - 1] != '0'
    ensures forall i :: |r| <= i < |s| ==> s[i] == '0'
  {
    if s == [] || s[|s| - 1] != '0' then s
    else
      var r := DropTrailingZeros(s[..|s| - 1]);
      assert s[..|s| - 1][..|r|] == s[..|r|];
      r
  }

  /** `DateTimeFormatter.ISO_LOCAL_DATE_TIME`: the date, `T`, hours,
      minutes and seconds, then the nanoseconds as a decimal fraction
      without trailing zeros, left out when they are zero. */
  function IsoDateTime(t: Clock.DateTime): string {
    var fraction :=
      if t.nano <= 0 then ""
      else "." + DropTrailingZeros(CsvExport.Padded(t.nano, 9));
    CsvExport.IsoDate(t) + "T"
      + CsvExport.Padded(if t.hour < 0 then 0 else t.hour, 2) + ":"
      + CsvExport.Padded(if t.minute < 0 then 0 else t.minute, 2) + ":"
      + CsvExport.Padded(if t.second < 0 then 0 else t.second, 2) + fraction
  }

  /** A link as the collection export writes it. */
  datatype LinkOut = LinkOut(url: string, title: string, description: Option<string>)

  /** One collection item with what the repositories return for it. */
  datatype ItemOut = ItemOut(
    calculatorId: nat,
    model: string,
    manufacturer: string,
    soldFrom: Option<int>,
    soldTo: Option<int>,
    addedAt: Clock.DateTime,
    labels: seq<string>,
    links: seq<LinkOut>)

  function LinkNode(l: LinkOut): (r: Json)
    ensures r.JObj? && ("description" in r.fields <==> l.description.Some?)
  {
    JObj(With(map["url" := JStr(l.url), "title" := JStr(l.title)], "description", StrOf(l.description)))
  }

  function Texts(names: seq<string>): (r: seq<Json>)
    ensures |r| == |names| && forall i :: 0 <= i < |names| ==> r[i] == JStr(names[i])
  {
    seq(|names|, i requires 0 <= i < |names| => JStr(names[i]))
  }

  /** An item node: the calculator, its years only when set, when it was
      added, the label names and the links. */
  function ItemNode(it: ItemOut): (r: Json)
    ensures r.JObj?
    ensures {"calculatorId", "labels"} <= r.fields.Keys
    ensures r.fields["calculatorId"] == JNum(it.calculatorId)
    ensures r.fields["labels"] == JArr(Texts(it.labels))
    ensures "soldFrom" in r.fields <==> it.soldFrom.Some?
    ensures "soldTo" in r.fields <==> it.soldTo.Some?
  {
    var base := map[
      "calculatorId" := JNum(it.calculatorId),
      "model" := JStr(it.model),
      "manufacturer" := JStr(it.manufacturer)];
    var m1 := With(base, "soldFrom", NumOf(it.soldFrom));
    var m2 := With(m1, "soldTo", NumOf(it.soldTo));
    JObj(m2["addedAt" := JStr(IsoDateTime(it.addedAt))]
           ["labels" := JArr(Texts(it.labels))]
           ["links" := JArr(seq(|it.links|, i requires 0 <= i < |it.links| => LinkNode(it.links[i])))])
  }

  /** `exportUserCollectionAsJson`: the user, the export time and the items
      in the order the collection lists them. */
  function ExportUserCollection(username: string, now: Clock.DateTime, items: seq<ItemOut>): (r: Json)
    ensures r.JObj? && r.fields.Keys == {"username", "exportDate", "collection"}
    ensures r.fields["username"] == JStr(username)
    ensures r.fields["collection"] == JArr(seq(|items|, i requires 0 <= i < |items| => ItemNode(items[i])))
  {
    JObj(map[
      "username" := JStr(username),
      "exportDate" := JStr(IsoDateTime(now)),
      "collection" := JArr(seq(|items|, i requires 0 <= i < |items| => ItemNode(items[i])))])
  }
}
