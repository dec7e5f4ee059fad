/** `ImportService.importUserCollection`: a collection export read back into
    one user's collection. The operation runs in one transaction, so when it
    throws, nothing it did is kept: the model reads the whole document
    first, failing where the code would fail, and only then applies it. */
module CollectionImport {
  import opened Wrappers
  import opened Json
  import opened Jackson
  import opened Catalog
  import opened Collection
  import Clock
  import JsonExport

  const InvalidFormat: string := "IllegalArgumentException: Invalid collection format"

  // ------------------------------------------------------------- reading

  /** What the loop reads of one item: the calculator id and the names of
      the labels. */
  datatype Request = Request(calculatorId: int, labels: seq<string>)

  /** `labelsNode != null && labelsNode.isArray()`: each element's text;
      anything else gives no labels. */
  function LabelNames(node: Option<Json>): (r: seq<string>)
    ensures IsArray(node) ==> |r| == |node.value.items| && forall i :: 0 <= i < |r| ==> r[i] == AsText(node.value.items[i])
    ensures !IsArray(node) ==> r == []
  {
    if IsArray(node) then
      var items := node.value.items;
      seq(|items|, i requires 0 <= i < |items| => AsText(items[i]))
    else []
  }

  /** `itemNode.get("calculatorId").asLong()`, which throws when the item
      has no such field, and its labels. */
  function ReadItem(node: Json): (r: Result<Request>)
    ensures r.Err? <==> Get(node, "calculatorId").None?
    ensures r.Ok? ==> r.value == Request(AsLong(node.fields["calculatorId"]), LabelNames(Get(node, "labels")))
  {
    var id :- Field(node, "calculatorId");
    Ok(Request(AsLong(id), LabelNames(Get(node, "labels"))))
  }

  /** Every item from position `k` on read, or the first failure. */
  function ReadItemsFrom(nodes: seq<Json>, k: nat): (r: Result<seq<Request>>)
    requires k <= |nodes|
    ensures r.Err? <==> exists i :: k <= i < |nodes| && ReadItem(nodes[i]).Err?
    ensures r.Ok? ==> |r.value| == |nodes| - k && forall i :: k <= i < |nodes| ==> ReadItem(nodes[i]) == Ok(r.value[i - k])
    decreases |nodes| - k
  {
    if k == |nodes| then Ok([])
    else
      match ReadItem(nodes[k])
      case Err(e) => Err(e)
      case Ok(first) =>
        var rest := ReadItemsFrom(nodes, k + 1);
        if rest.Err? then Err(rest.error)
        else
          var r := [first] + rest.value;
          assert |r| == |nodes| - k && r[0] == first && r[1..] == rest.value;
          Ok(r)
  }

  /** Every item read, or the first item's failure. */
  function ReadItems(nodes: seq<Json>): (r: Result<seq<Request>>)
    ensures r.Err? <==> exists i :: 0 <= i < |nodes| && ReadItem(nodes[i]).Err?
    ensures r.Ok? ==> |r.value| == |nodes| && forall i :: 0 <= i < |nodes| ==> ReadItem(nodes[i]) == Ok(r.value[i])
  {
    ReadItemsFrom(nodes, 0)
  }

  /** The document's `collection` array read, or the exception: the
      format error when there is no such array. */
  function ReadCollection(root: Json): (r: Result<seq<Request>>)
    ensures !IsArray(Get(root, "collection")) ==> r == Err(InvalidFormat)
    ensures IsArray(Get(root, "collection")) ==> r == ReadItems(root.fields["collection"].items)
  {
    var node := Get(root, "collection");
    if !IsArray(node) then Err(InvalidFormat) else ReadItems(node.value.items)
  }

  // ------------------------------------------------------------ applying

  /** The calculator a request names, when the catalogue has it. */
  predicate Known(c: Catalog, req: Request) {
    req.calculatorId >= 0 && req.calculatorId in c.calculators
  }

  function NameSet(names: seq<string>): set<string> {
    set i | 0 <= i < |names| :: names[i]
  }

  /** The label loop of one item: each name whose label exists is assigned
      to the calculator unless it already is. */
  function AttachLabels(c: Catalog, id: nat, names: seq<string>, t: set<(nat, nat)>): (r: set<(nat, nat)>)
    requires Valid(c)
    ensures r == t + PairsNamed(c, id, NameSet(names))
    decreases |names|
  {
    if names == [] then
      assert PairsNamed(c, id, NameSet(names)) == {};
      t
    else
      var n := names[0];
      var t1 := if HasLabelNamed(c, n) && (id, LabelNamed(c, n)) !in t then t + {(id, LabelNamed(c, n))} else t;
      var r := AttachLabels(c, id, names[1..], t1);
      assert NameSet(names) == {n} + NameSet(names[1..]) by {
        assert forall i :: 1 <= i < |names| ==> names[i] == names[1..][i - 1];
      }
      assert PairsNamed(c, id, {n}) == if HasLabelNamed(c, n) then {(id, LabelNamed(c, n))} else {};
      r
  }

  /** The pairs the requests ask for: each known calculator with every
      existing label its request names. */
  function Requested(c: Catalog, reqs: seq<Request>): (r: set<(nat, nat)>)
    ensures forall p :: p in r ==> p.0 in c.calculators && p.1 in c.labels
    decreases |reqs|
  {
    if reqs == [] then {}
    else
      var rest := Requested(c, reqs[1..]);
      if Known(c, reqs[0]) then PairsNamed(c, reqs[0].calculatorId as nat, NameSet(reqs[0].labels)) + rest
      else rest
  }

  /** The entry keys of the known calculators requested, in order. */
  function EntryKeys(c: Catalog, user: string, reqs: seq<Request>): (r: seq<(string, nat)>)
    decreases |reqs|
  {
    if reqs == [] then []
    else if Known(c, reqs[0]) then [(user, reqs[0].calculatorId as nat)] + EntryKeys(c, user, reqs[1..])
    else EntryKeys(c, user, reqs[1..])
  }

  function Elems<K>(keys: seq<K>): set<K>
    decreases |keys|
  {
    if keys == [] then {} else {keys[0]} + Elems(keys[1..])
  }

  /** They are the user's entries for the known calculators requested. */
  lemma {:induction false} EntryKeysAre(c: Catalog, user: string, reqs: seq<Request>)
    ensures forall k :: k in Elems(EntryKeys(c, user, reqs)) <==>
              k.0 == user && exists i :: 0 <= i < |reqs| && Known(c, reqs[i]) && reqs[i].calculatorId == k.1
    decreases |reqs|
  {
    if reqs != [] {
      EntryKeysAre(c, user, reqs[1..]);
      assert forall i :: 1 <= i < |reqs| ==> reqs[i] == reqs[1..][i - 1];
    }
  }

  lemma {:induction false} EntryKeysSame(a: Catalog, b: Catalog, user: string, reqs: seq<Request>)
    requires a.calculators == b.calculators
    ensures EntryKeys(a, user, reqs) == EntryKeys(b, user, reqs)
    decreases |reqs|
  {
    if reqs != [] {
      EntryKeysSame(a, b, user, reqs[1..]);
    }
  }

  /** The collection half of the item loop: each key the map lacks is
      added with the value `v`, in order. */
  function AddMissing<K, V>(m: map<K, V>, keys: seq<K>, v: V): (r: map<K, V>)
    ensures r.Keys == m.Keys + Elems(keys)
    ensures forall k :: k in m ==> r[k] == m[k]
    ensures forall k :: k in r && k !in m ==> r[k] == v
    decreases |keys|
  {
    if keys == [] then m
    else if keys[0] in m then AddMissing(m, keys[1..], v)
    else AddMissing(m[keys[0] := v], keys[1..], v)
  }

  /** The loop's counter: one for each key it adds. */
  function MissingCount<K, V>(m: map<K, V>, keys: seq<K>, v: V): (n: nat)
    ensures |AddMissing(m, keys, v)| == |m| + n
    decreases |keys|
  {
    if keys == [] then 0
    else if keys[0] in m then MissingCount(m, keys[1..], v)
    else 1 + MissingCount(m[keys[0] := v], keys[1..], v)
  }

  /** When every key is present the loop changes nothing and counts 0. */
  lemma {:induction false} NoneMissing<K, V>(m: map<K, V>, keys: seq<K>, v: V)
    requires Elems(keys) <= m.Keys
    ensures AddMissing(m, keys, v) == m && MissingCount(m, keys, v) == 0
    decreases |keys|
  {
    if keys != [] {
      NoneMissing(m, keys[1..], v);
    }
  }

  /** The label half of the item loop, from the assignments `t`. */
  function AttachAll(c: Catalog, reqs: seq<Request>, t: set<(nat, nat)>): (r: set<(nat, nat)>)
    requires Valid(c)
    ensures r == t + Requested(c, reqs)
    decreases |reqs|
  {
    if reqs == [] then t
    else if !Known(c, reqs[0]) then AttachAll(c, reqs[1..], t)
    else AttachAll(c, reqs[1..], AttachLabels(c, reqs[0].calculatorId as nat, reqs[0].labels, t))
  }

  /** The item loop. An unknown calculator is skipped. A known one is
      added to the collection, stamped `now`, unless it is there already,
      and gets the existing labels its request names. What one item does to
      the collection and what it does to the assignments do not depend on
      each other, so the two halves are taken one after the other. */
  function ImportItems(c: Catalog, es: Entries, user: string, reqs: seq<Request>, now: Clock.DateTime): (r: (Catalog, Entries, nat))
    requires Valid(c)
    ensures Valid(r.0) && r.0 == c.(tagged := c.tagged + Requested(c, reqs))
    ensures r.1.Keys == es.Keys + Elems(EntryKeys(c, user, reqs))
    ensures forall k :: k in es ==> r.1[k] == es[k]
    ensures forall k :: k in r.1 && k !in es ==> r.1[k] == Entry(None, now)
    ensures |r.1| == |es| + r.2
  {
    var keys := EntryKeys(c, user, reqs);
    (c.(tagged := AttachAll(c, reqs, c.tagged)), AddMissing(es, keys, Entry(None, now)), MissingCount(es, keys, Entry(None, now)))
  }

  /** Only the calculators and the labels decide what is requested. */
  lemma {:induction false} RequestedSameLabels(a: Catalog, b: Catalog, reqs: seq<Request>)
    requires a.calculators == b.calculators && a.labels == b.labels
    ensures Requested(a, reqs) == Requested(b, reqs)
    decreases |reqs|
  {
    if reqs != [] {
      RequestedSameLabels(a, b, reqs[1..]);
    }
  }

  /** `importUserCollection`: the format error, or the exception of an item
      without a calculator id, with nothing changed; otherwise the items
      applied and the number of entries added. */
  function ImportUserCollection(c: Catalog, es: Entries, root: Json, user: string, now: Clock.DateTime): (r: Result<(Catalog, Entries, nat)>)
    requires Valid(c)
    ensures r.Err? <==> ReadCollection(root).Err?
    ensures !IsArray(Get(root, "collection")) ==> r == Err(InvalidFormat)
    ensures r.Ok? ==> r.value == ImportItems(c, es, user, ReadCollection(root).value, now)
  {
    var reqs :- ReadCollection(root);
    Ok(ImportItems(c, es, user, reqs, now))
  }

  /** Importing the same requests again adds nothing and changes nothing. */
  lemma ImportItemsAgain(c: Catalog, es: Entries, user: string, reqs: seq<Request>, now: Clock.DateTime, later: Clock.DateTime)
    requires Valid(c)
    ensures var (c1, es1, _) := ImportItems(c, es, user, reqs, now);
            ImportItems(c1, es1, user, reqs, later) == (c1, es1, 0)
  {
    var (c1, es1, _) := ImportItems(c, es, user, reqs, now);
    RequestedSameLabels(c, c1, reqs);
    EntryKeysSame(c, c1, user, reqs);
    NoneMissing(es1, EntryKeys(c, user, reqs), Entry(None, later));
  }

  /** So an import that succeeds returns 0 when repeated at once. */
  lemma ImportTwice(c: Catalog, es: Entries, root: Json, user: string, now: Clock.DateTime, later: Clock.DateTime)
    requires Valid(c)
    requires ImportUserCollection(c, es, root, user, now).Ok?
    ensures var (c1, es1, _) := ImportUserCollection(c, es, root, user, now).value;
            ImportUserCollection(c1, es1, root, user, later) == Ok((c1, es1, 0))
  {
    ImportItemsAgain(c, es, user, ReadCollection(root).value, now, later);
  }

  // --------------------------------------------------------- round trip

  /** Reading one exported item gives back its calculator id and its
      label names. */
  lemma ReadItemNode(it: JsonExport.ItemOut)
    requires it.calculatorId < LongHalf
    ensures ReadItem(JsonExport.ItemNode(it)) == Ok(Request(it.calculatorId, it.labels))
  {
    var node := JsonExport.ItemNode(it);
    assert Get(node, "calculatorId") == Some(JNum(it.calculatorId));
    assert AsLong(JNum(it.calculatorId)) == it.calculatorId;
    var texts := JsonExport.Texts(it.labels);
    assert Get(node, "labels") == Some(JArr(texts));
    var names := LabelNames(Some(JArr(texts)));
    assert |names| == |it.labels|;
    assert forall i :: 0 <= i < |names| ==> names[i] == AsText(texts[i]) == it.labels[i];
    assert names == it.labels;
  }

  /** Reading a collection export gives back each item's calculator id and
      label names, in order. */
  lemma ReadExport(username: string, at: Clock.DateTime, items: seq<JsonExport.ItemOut>)
    requires forall i :: 0 <= i < |items| ==> items[i].calculatorId < LongHalf
    ensures ReadCollection(JsonExport.ExportUserCollection(username, at, items))
            == Ok(seq(|items|, i requires 0 <= i < |items| => Request(items[i].calculatorId, items[i].labels)))
  {
    var root := JsonExport.ExportUserCollection(username, at, items);
    var nodes := root.fields["collection"].items;
    var expected := seq(|items|, i requires 0 <= i < |items| => Request(items[i].calculatorId, items[i].labels));
    assert |nodes| == |items|;
    forall i | 0 <= i < |items|
      ensures ReadItem(nodes[i]) == Ok(expected[i])
    {
      assert nodes[i] == JsonExport.ItemNode(items[i]);
      ReadItemNode(items[i]);
    }
    var r := ReadItems(nodes);
    assert r.Ok?;
    assert r.value == expected;
  }
}
