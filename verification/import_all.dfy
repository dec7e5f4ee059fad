/** `ImportService.importAllData`: a full export read back into the
    catalogue, table by table. Manufacturers and labels are matched by name
    and calculators by model and manufacturer; only what is missing is
    created. The operation runs in one transaction, so when a field it
    reads is missing (a `NullPointerException`) nothing it did is kept. */
module DataImport {
  import opened Wrappers
  import opened Json
  import opened Jackson
  import opened Catalog
  import JsonExport

  /** `ImportResult`: how many records of each table were created. */
  datatype ImportResult = ImportResult(manufacturersCreated: nat, calculatorsCreated: nat, labelsCreated: nat)

  /** The elements of the array under `key`, or none when it is missing or
      not an array. */
  function Items(root: Json, key: string): (r: seq<Json>)
    ensures IsArray(Get(root, key)) ==> r == root.fields[key].items
    ensures !IsArray(Get(root, key)) ==> r == []
  {
    var node := Get(root, key);
    if IsArray(node) then node.value.items else []
  }

  // ------------------------------------------------------- manufacturers

  /** The old-to-new id map the calculators are resolved with. */
  type IdMap = map<int, nat>

  /** A manufacturer node has the name and the id the loop reads. */
  predicate ManufacturerReadable(node: Json) {
    Has(node, "name") && Has(node, "id")
  }

  /** The manufacturer of that name, created with the next id when there is
      none, and the node's id mapped to it. */
  function ManufacturerStep(c: Catalog, ids: IdMap, node: Json): (r: Result<(Catalog, IdMap, nat)>)
    requires ManufacturerNamesUnique(c)
    ensures r.Err? <==> !ManufacturerReadable(node)
    ensures r.Ok? ==> ManufacturerNamesUnique(r.value.0)
  {
    var nameNode :- Field(node, "name");
    var name := AsText(nameNode);
    if HasManufacturerNamed(c, name) then
      var idNode :- Field(node, "id");
      Ok((c, ids[AsLong(idNode) := ManufacturerNamed(c, name)], 0))
    else
      var id := c.nextId;
      var d := c.(manufacturers := c.manufacturers[id := name], nextId := id + 1);
      assert d.manufacturers[id] == name;
      var idNode :- Field(node, "id");
      Ok((d, ids[AsLong(idNode) := ManufacturerNamed(d, name)], 1))
  }

  /** What one step does: nothing but mapping the node's id when the name
      is there, otherwise one manufacturer more. */
  lemma ManufacturerStepKept(c: Catalog, ids: IdMap, node: Json)
    requires IdsBelow(c) && ManufacturerNamesUnique(c) && ManufacturerReadable(node)
    ensures var (d, _, n) := ManufacturerStep(c, ids, node).value;
      && IdsBelow(d) && d.calculators == c.calculators && d.labels == c.labels && d.tagged == c.tagged
      && (forall id :: id in c.manufacturers ==> id in d.manufacturers && d.manufacturers[id] == c.manufacturers[id])
      && |d.manufacturers| == |c.manufacturers| + n
      && (n == 0 <==> HasManufacturerNamed(c, AsText(node.fields["name"])))
      && (n == 0 ==> d == c)
  {
    var name := AsText(node.fields["name"]);
    if !HasManufacturerNamed(c, name) {
      var d := ManufacturerStep(c, ids, node).value.0;
      assert d.manufacturers[c.nextId] == name;
    }
  }

  /** The step maps the node's id to the manufacturer of the node's name. */
  lemma ManufacturerStepMapped(c: Catalog, ids: IdMap, node: Json)
    requires ManufacturerNamesUnique(c) && ManufacturerReadable(node)
    ensures var (d, m, _) := ManufacturerStep(c, ids, node).value;
      && ManufacturerNamesUnique(d) && HasManufacturerNamed(d, AsText(node.fields["name"]))
      && m == ids[AsLong(node.fields["id"]) := ManufacturerNamed(d, AsText(node.fields["name"]))]
  {
    var name := AsText(node.fields["name"]);
    if !HasManufacturerNamed(c, name) {
      var d := ManufacturerStep(c, ids, node).value.0;
      assert d.manufacturers[c.nextId] == name;
    }
  }

  /** The manufacturer loop: it fails exactly when some node lacks a field
      it reads. */
  function ImportManufacturers(c: Catalog, ids: IdMap, nodes: seq<Json>): (r: Result<(Catalog, IdMap, nat)>)
    requires ManufacturerNamesUnique(c)
    ensures r.Err? <==> exists i :: 0 <= i < |nodes| && !ManufacturerReadable(nodes[i])
    ensures r.Ok? ==> ManufacturerNamesUnique(r.value.0)
    decreases |nodes|
  {
    if nodes == [] then Ok((c, ids, 0))
    else
      var first :- ManufacturerStep(c, ids, nodes[0]);
      var rest := ImportManufacturers(first.0, first.1, nodes[1..]);
      if rest.Err? then
        var i :| 0 <= i < |nodes[1..]| && !ManufacturerReadable(nodes[1..][i]);
        assert !ManufacturerReadable(nodes[i + 1]);
        Err(rest.error)
      else
        assert forall i :: 1 <= i < |nodes| ==> nodes[i] == nodes[1..][i - 1];
        Ok((rest.value.0, rest.value.1, first.2 + rest.value.2))
  }

  /** The loop keeps every manufacturer there was, counts the ones it
      creates and touches no other table. */
  lemma {:induction false} ManufacturersKept(c: Catalog, ids: IdMap, nodes: seq<Json>)
    requires IdsBelow(c) && ManufacturerNamesUnique(c) && ImportManufacturers(c, ids, nodes).Ok?
    ensures var (d, _, n) := ImportManufacturers(c, ids, nodes).value;
      && IdsBelow(d) && d.calculators == c.calculators && d.labels == c.labels && d.tagged == c.tagged
      && (forall id :: id in c.manufacturers ==> id in d.manufacturers && d.manufacturers[id] == c.manufacturers[id])
      && |d.manufacturers| == |c.manufacturers| + n
    decreases |nodes|
  {
    if nodes != [] {
      ManufacturersUnfold(c, ids, nodes);
      var first := ManufacturerStep(c, ids, nodes[0]).value;
      ManufacturerStepKept(c, ids, nodes[0]);
      ManufacturersKept(first.0, first.1, nodes[1..]);
    }
  }

  /** A manufacturer step keeps the catalogue valid: a new manufacturer
      has a fresh id and a name no other has. */
  lemma ManufacturerStepValid(c: Catalog, ids: IdMap, node: Json)
    requires Valid(c) && ManufacturerReadable(node)
    ensures Valid(ManufacturerStep(c, ids, node).value.0)
  {
  }

  lemma {:induction false} ManufacturersValid(c: Catalog, ids: IdMap, nodes: seq<Json>)
    requires Valid(c) && ImportManufacturers(c, ids, nodes).Ok?
    ensures Valid(ImportManufacturers(c, ids, nodes).value.0)
    decreases |nodes|
  {
    if nodes != [] {
      ManufacturersUnfold(c, ids, nodes);
      var first := ManufacturerStep(c, ids, nodes[0]).value;
      ManufacturerStepValid(c, ids, nodes[0]);
      ManufacturersValid(first.0, first.1, nodes[1..]);
    }
  }

  /** A name stays a manufacturer's while the table only grows. */
  lemma ManufacturerNameStays(a: Catalog, d: Catalog, name: string)
    requires HasManufacturerNamed(a, name)
    requires forall id :: id in a.manufacturers ==> id in d.manufacturers && d.manufacturers[id] == a.manufacturers[id]
    ensures HasManufacturerNamed(d, name)
  {
    var id :| id in a.manufacturers && a.manufacturers[id] == name;
    assert d.manufacturers[id] == name;
  }

  /** Every name the loop read is a manufacturer's afterwards. */
  lemma {:induction false} ManufacturerNamesPresent(c: Catalog, ids: IdMap, nodes: seq<Json>)
    requires IdsBelow(c) && ManufacturerNamesUnique(c) && ImportManufacturers(c, ids, nodes).Ok?
    ensures forall i :: 0 <= i < |nodes| ==>
      HasManufacturerNamed(ImportManufacturers(c, ids, nodes).value.0, AsText(nodes[i].fields["name"]))
    decreases |nodes|
  {
    if nodes != [] {
      ManufacturersUnfold(c, ids, nodes);
      var first := ManufacturerStep(c, ids, nodes[0]).value;
      var d := ImportManufacturers(c, ids, nodes).value.0;
      ManufacturerStepKept(c, ids, nodes[0]);
      ManufacturerNamesPresent(first.0, first.1, nodes[1..]);
      forall i | 0 <= i < |nodes|
        ensures HasManufacturerNamed(d, AsText(nodes[i].fields["name"]))
      {
        if i == 0 {
          ManufacturerStepMapped(c, ids, nodes[0]);
          ManufacturersKept(first.0, first.1, nodes[1..]);
          ManufacturerNameStays(first.0, d, AsText(nodes[0].fields["name"]));
        } else {
          assert nodes[i] == nodes[1..][i - 1];
        }
      }
    }
  }

  /** `findByName` gives the same manufacturer while the table only grows. */
  lemma ManufacturerNamedStays(a: Catalog, d: Catalog, name: string)
    requires ManufacturerNamesUnique(a) && ManufacturerNamesUnique(d) && HasManufacturerNamed(a, name)
    requires forall id :: id in a.manufacturers ==> id in d.manufacturers && d.manufacturers[id] == a.manufacturers[id]
    ensures HasManufacturerNamed(d, name) && ManufacturerNamed(d, name) == ManufacturerNamed(a, name)
  {
    var id := ManufacturerNamed(a, name);
    assert d.manufacturers[id] == name;
  }

  /** The id map read off a catalogue: each readable node's id mapped to
      the manufacturer of its name, a later node winning over an earlier
      one with the same id. */
  function KeyedBy(d: Catalog, ids: IdMap, nodes: seq<Json>): IdMap
    requires ManufacturerNamesUnique(d)
    decreases |nodes|
  {
    if nodes == [] then ids
    else
      var node := nodes[0];
      var next :=
        if ManufacturerReadable(node) && HasManufacturerNamed(d, AsText(node.fields["name"]))
        then ids[AsLong(node.fields["id"]) := ManufacturerNamed(d, AsText(node.fields["name"]))]
        else ids;
      KeyedBy(d, next, nodes[1..])
  }

  /** One turn of the loop: the first node's step, then the rest. */
  lemma ManufacturersUnfold(c: Catalog, ids: IdMap, nodes: seq<Json>)
    requires ManufacturerNamesUnique(c) && nodes != [] && ImportManufacturers(c, ids, nodes).Ok?
    ensures ManufacturerStep(c, ids, nodes[0]).Ok?
    ensures var first := ManufacturerStep(c, ids, nodes[0]).value;
            var rest := ImportManufacturers(first.0, first.1, nodes[1..]);
            && rest.Ok?
            && ImportManufacturers(c, ids, nodes).value == (rest.value.0, rest.value.1, first.2 + rest.value.2)
  {
  }

  /** The step maps the node's id to the manufacturer of its name in any
      later catalogue. */
  lemma ManufacturerStepIds(c: Catalog, ids: IdMap, node: Json, d: Catalog)
    requires IdsBelow(c) && ManufacturerNamesUnique(c) && ManufacturerReadable(node) && ManufacturerNamesUnique(d)
    requires var e := ManufacturerStep(c, ids, node).value.0;
             forall id :: id in e.manufacturers ==> id in d.manufacturers && d.manufacturers[id] == e.manufacturers[id]
    ensures ManufacturerSettled(d, node)
    ensures ManufacturerStep(c, ids, node).value.1 == ids[AsLong(node.fields["id"]) := ManufacturerNamed(d, AsText(node.fields["name"]))]
  {
    ManufacturerStepKept(c, ids, node);
    ManufacturerStepMapped(c, ids, node);
    ManufacturerNamedStays(ManufacturerStep(c, ids, node).value.0, d, AsText(node.fields["name"]));
  }

  /** The loop's id map is the one read off the catalogue it leaves. */
  lemma {:induction false} ManufacturerIdsKeyed(c: Catalog, ids: IdMap, nodes: seq<Json>)
    requires IdsBelow(c) && ManufacturerNamesUnique(c) && ImportManufacturers(c, ids, nodes).Ok?
    ensures var (d, m, _) := ImportManufacturers(c, ids, nodes).value;
            ManufacturerNamesUnique(d) && m == KeyedBy(d, ids, nodes)
    decreases |nodes|
  {
    if nodes != [] {
      ManufacturersUnfold(c, ids, nodes);
      var first := ManufacturerStep(c, ids, nodes[0]).value;
      var d := ImportManufacturers(c, ids, nodes).value.0;
      ManufacturerStepKept(c, ids, nodes[0]);
      ManufacturerIdsKeyed(first.0, first.1, nodes[1..]);
      ManufacturersKept(first.0, first.1, nodes[1..]);
      ManufacturerStepIds(c, ids, nodes[0], d);
    }
  }

  /** Two catalogues with the same manufacturers read off the same map. */
  lemma {:induction false} KeyedBySame(a: Catalog, b: Catalog, ids: IdMap, nodes: seq<Json>)
    requires ManufacturerNamesUnique(a) && ManufacturerNamesUnique(b) && a.manufacturers == b.manufacturers
    ensures KeyedBy(a, ids, nodes) == KeyedBy(b, ids, nodes)
    decreases |nodes|
  {
    if nodes != [] {
      var node := nodes[0];
      if ManufacturerReadable(node) && HasManufacturerNamed(a, AsText(node.fields["name"])) {
        ManufacturerNamedStays(a, b, AsText(node.fields["name"]));
      }
      var next :=
        if ManufacturerReadable(node) && HasManufacturerNamed(a, AsText(node.fields["name"]))
        then ids[AsLong(node.fields["id"]) := ManufacturerNamed(a, AsText(node.fields["name"]))]
        else ids;
      KeyedBySame(a, b, next, nodes[1..]);
    }
  }

  /** A node whose manufacturer is there already. */
  predicate ManufacturerSettled(c: Catalog, node: Json) {
    ManufacturerReadable(node) && HasManufacturerNamed(c, AsText(node.fields["name"]))
  }

  /** The id the step maps a settled node's id to. */
  function SettledIds(c: Catalog, ids: IdMap, node: Json): IdMap
    requires ManufacturerNamesUnique(c) && ManufacturerSettled(c, node)
  {
    ids[AsLong(node.fields["id"]) := ManufacturerNamed(c, AsText(node.fields["name"]))]
  }

  /** A settled node changes nothing but the id map. */
  lemma ManufacturerStepSettled(c: Catalog, ids: IdMap, node: Json)
    requires ManufacturerNamesUnique(c) && ManufacturerSettled(c, node)
    ensures ManufacturerStep(c, ids, node) == Ok((c, SettledIds(c, ids, node), 0))
  {
  }

  /** When every node is readable and every name is there already, the
      loop creates nothing and only maps the ids. */
  lemma {:induction false} ManufacturersSettled(c: Catalog, ids: IdMap, nodes: seq<Json>)
    requires ManufacturerNamesUnique(c)
    requires forall i :: 0 <= i < |nodes| ==> ManufacturerSettled(c, nodes[i])
    ensures ImportManufacturers(c, ids, nodes) == Ok((c, KeyedBy(c, ids, nodes), 0))
    decreases |nodes|
  {
    if nodes != [] {
      ManufacturerStepSettled(c, ids, nodes[0]);
      var next := SettledIds(c, ids, nodes[0]);
      forall i | 0 <= i < |nodes[1..]|
        ensures ManufacturerSettled(c, nodes[1..][i])
      {
        assert nodes[1..][i] == nodes[i + 1];
      }
      ManufacturersSettled(c, next, nodes[1..]);
    }
  }

  /** Every id the map holds names a manufacturer, so the loop's
      `findById` check after the map lookup never skips a calculator. */
  lemma {:induction false} KeyedPresent(d: Catalog, ids: IdMap, nodes: seq<Json>)
    requires ManufacturerNamesUnique(d) && forall k :: k in ids ==> ids[k] in d.manufacturers
    ensures forall k :: k in KeyedBy(d, ids, nodes) ==> KeyedBy(d, ids, nodes)[k] in d.manufacturers
    decreases |nodes|
  {
    if nodes != [] {
      var node := nodes[0];
      var next :=
        if ManufacturerReadable(node) && HasManufacturerNamed(d, AsText(node.fields["name"]))
        then ids[AsLong(node.fields["id"]) := ManufacturerNamed(d, AsText(node.fields["name"]))]
        else ids;
      assert forall k :: k in next ==> next[k] in d.manufacturers;
      KeyedPresent(d, next, nodes[1..]);
      assert KeyedBy(d, ids, nodes) == KeyedBy(d, next, nodes[1..]);
    } else {
      assert KeyedBy(d, ids, nodes) == ids;
    }
  }

  // --------------------------------------------------------- calculators

  /** A calculator node has the model and the manufacturer id the loop
      reads. */
  predicate CalculatorReadable(node: Json) {
    Has(node, "model") && Has(node, "manufacturerId")
  }

  /** Some calculator has this model and manufacturer. */
  predicate HasCalculator(c: Catalog, model: string, mid: nat) {
    exists id :: id in c.calculators && c.calculators[id].model == model && c.calculators[id].manufacturerId == mid
  }

  /** `if (node.has(key)) set(node.get(key).asInt())`: a present key, even
      with a null value, sets the field. */
  function IntField(node: Json, key: string): (r: Option<int>)
    ensures r.Some? <==> Has(node, key)
    ensures r.Some? ==> -IntHalf <= r.value < IntHalf
  {
    if Has(node, key) then Some(AsInt(node.fields[key])) else None
  }

  function TextField(node: Json, key: string): (r: Option<string>)
    ensures r.Some? <==> Has(node, key)
  {
    if Has(node, key) then Some(AsText(node.fields[key])) else None
  }

  /** The calculator the loop builds from a node. */
  function NewCalculator(node: Json, mid: nat): (r: Calculator)
    requires CalculatorReadable(node)
    ensures r.model == AsText(node.fields["model"]) && r.manufacturerId == mid
    ensures r.soldFrom.Some? <==> Has(node, "soldFrom")
    ensures r.soldTo.Some? <==> Has(node, "soldTo")
    ensures r.sourceUrl.Some? <==> Has(node, "sourceUrl")
    ensures r.rawRowText.Some? <==> Has(node, "rawRowText")
  {
    Calculator(AsText(node.fields["model"]), mid,
      IntField(node, "soldFrom"), IntField(node, "soldTo"),
      TextField(node, "sourceUrl"), TextField(node, "rawRowText"))
  }

  /** The manufacturer the node's old id maps to, when it is there. */
  predicate Resolves(c: Catalog, ids: IdMap, node: Json)
    requires CalculatorReadable(node)
  {
    var key := AsLong(node.fields["manufacturerId"]);
    key in ids && ids[key] in c.manufacturers
  }

  /** A node that needs nothing more: its manufacturer does not resolve, or
      a calculator of that model and manufacturer is there. */
  predicate CalculatorSettled(c: Catalog, ids: IdMap, node: Json) {
    && CalculatorReadable(node)
    && (Resolves(c, ids, node) ==>
          HasCalculator(c, AsText(node.fields["model"]), ids[AsLong(node.fields["manufacturerId"])]))
  }

  /** One calculator node: skipped when its manufacturer does not resolve or
      a calculator of that model and manufacturer exists, otherwise created
      with the next id. */
  function CalculatorStep(c: Catalog, ids: IdMap, node: Json): (r: Result<(Catalog, nat)>)
    ensures r.Err? <==> !CalculatorReadable(node)
  {
    var modelNode :- Field(node, "model");
    var model := AsText(modelNode);
    var keyNode :- Field(node, "manufacturerId");
    var key := AsLong(keyNode);
    if key !in ids then Ok((c, 0))
    else if ids[key] !in c.manufacturers then Ok((c, 0))
    else if HasCalculator(c, model, ids[key]) then Ok((c, 0))
    else
      var id := c.nextId;
      Ok((c.(calculators := c.calculators[id := NewCalculator(node, ids[key])], nextId := id + 1), 1))
  }

  /** What one step does: one calculator more exactly when the manufacturer
      resolves and no calculator of that model and manufacturer exists. */
  lemma CalculatorStepKept(c: Catalog, ids: IdMap, node: Json)
    requires IdsBelow(c) && CalculatorReadable(node)
    ensures var (d, n) := CalculatorStep(c, ids, node).value;
      && IdsBelow(d)
      && d.manufacturers == c.manufacturers && d.labels == c.labels && d.tagged == c.tagged
      && (n == 1 <==> Resolves(c, ids, node) && !HasCalculator(c, AsText(node.fields["model"]), ids[AsLong(node.fields["manufacturerId"])]))
      && (n == 0 ==> d == c)
      && (n == 1 ==> d.calculators == c.calculators[c.nextId := NewCalculator(node, ids[AsLong(node.fields["manufacturerId"])])])
      && |d.calculators| == |c.calculators| + n
      && CalculatorSettled(d, ids, node)
  {
    var (d, n) := CalculatorStep(c, ids, node).value;
    if n == 1 {
      assert d.calculators[c.nextId] == NewCalculator(node, ids[AsLong(node.fields["manufacturerId"])]);
    }
  }

  /** The calculator loop: it fails exactly when some node lacks a field it
      reads. */
  function ImportCalculators(c: Catalog, ids: IdMap, nodes: seq<Json>): (r: Result<(Catalog, nat)>)
    ensures r.Err? <==> exists i :: 0 <= i < |nodes| && !CalculatorReadable(nodes[i])
    decreases |nodes|
  {
    if nodes == [] then Ok((c, 0))
    else
      var first :- CalculatorStep(c, ids, nodes[0]);
      var rest := ImportCalculators(first.0, ids, nodes[1..]);
      if rest.Err? then
        var i :| 0 <= i < |nodes[1..]| && !CalculatorReadable(nodes[1..][i]);
        assert !CalculatorReadable(nodes[i + 1]);
        Err(rest.error)
      else
        assert forall i :: 1 <= i < |nodes| ==> nodes[i] == nodes[1..][i - 1];
        Ok((rest.value.0, first.1 + rest.value.1))
  }

  lemma CalculatorsUnfold(c: Catalog, ids: IdMap, nodes: seq<Json>)
    requires nodes != [] && ImportCalculators(c, ids, nodes).Ok?
    ensures CalculatorStep(c, ids, nodes[0]).Ok?
    ensures var first := CalculatorStep(c, ids, nodes[0]).value;
            var rest := ImportCalculators(first.0, ids, nodes[1..]);
            && rest.Ok?
            && ImportCalculators(c, ids, nodes).value == (rest.value.0, first.1 + rest.value.1)
  {
  }

  /** The loop keeps every calculator there was, counts the ones it creates
      and touches no other table. */
  lemma {:induction false} CalculatorsKept(c: Catalog, ids: IdMap, nodes: seq<Json>)
    requires IdsBelow(c) && ImportCalculators(c, ids, nodes).Ok?
    ensures var (d, n) := ImportCalculators(c, ids, nodes).value;
      && d.manufacturers == c.manufacturers && d.labels == c.labels && d.tagged == c.tagged
      && (forall id :: id in c.calculators ==> id in d.calculators && d.calculators[id] == c.calculators[id])
      && |d.calculators| == |c.calculators| + n
    decreases |nodes|
  {
    if nodes != [] {
      CalculatorsUnfold(c, ids, nodes);
      var first := CalculatorStep(c, ids, nodes[0]).value;
      CalculatorStepKept(c, ids, nodes[0]);
      CalculatorsKept(first.0, ids, nodes[1..]);
    }
  }

  /** A calculator step keeps the catalogue valid: a new calculator gets a
      fresh id and a manufacturer that is there. */
  lemma CalculatorStepValid(c: Catalog, ids: IdMap, node: Json)
    requires Valid(c) && CalculatorReadable(node)
    ensures Valid(CalculatorStep(c, ids, node).value.0)
  {
  }

  lemma {:induction false} CalculatorsValid(c: Catalog, ids: IdMap, nodes: seq<Json>)
    requires Valid(c) && ImportCalculators(c, ids, nodes).Ok?
    ensures Valid(ImportCalculators(c, ids, nodes).value.0)
    decreases |nodes|
  {
    if nodes != [] {
      CalculatorsUnfold(c, ids, nodes);
      CalculatorStepValid(c, ids, nodes[0]);
      CalculatorsValid(CalculatorStep(c, ids, nodes[0]).value.0, ids, nodes[1..]);
    }
  }

  /** A settled node stays settled while the calculators only grow. */
  lemma CalculatorSettledStays(a: Catalog, d: Catalog, ids: IdMap, node: Json)
    requires CalculatorSettled(a, ids, node) && d.manufacturers == a.manufacturers
    requires forall id :: id in a.calculators ==> id in d.calculators && d.calculators[id] == a.calculators[id]
    ensures CalculatorSettled(d, ids, node)
  {
    if Resolves(a, ids, node) {
      var model := AsText(node.fields["model"]);
      var mid := ids[AsLong(node.fields["manufacturerId"])];
      var id :| id in a.calculators && a.calculators[id].model == model && a.calculators[id].manufacturerId == mid;
      assert d.calculators[id] == a.calculators[id];
    }
  }

  /** After the loop every node is settled: each resolving model and
      manufacturer has a calculator. */
  lemma {:induction false} CalculatorsSettledAfter(c: Catalog, ids: IdMap, nodes: seq<Json>)
    requires IdsBelow(c) && ImportCalculators(c, ids, nodes).Ok?
    ensures forall i :: 0 <= i < |nodes| ==> CalculatorSettled(ImportCalculators(c, ids, nodes).value.0, ids, nodes[i])
    decreases |nodes|
  {
    if nodes != [] {
      CalculatorsUnfold(c, ids, nodes);
      var first := CalculatorStep(c, ids, nodes[0]).value;
      var d := ImportCalculators(c, ids, nodes).value.0;
      CalculatorsSettledAfter(first.0, ids, nodes[1..]);
      forall i | 0 <= i < |nodes|
        ensures CalculatorSettled(d, ids, nodes[i])
      {
        if i == 0 {
          CalculatorStepKept(c, ids, nodes[0]);
          CalculatorsKept(first.0, ids, nodes[1..]);
          CalculatorSettledStays(first.0, d, ids, nodes[0]);
        } else {
          assert nodes[i] == nodes[1..][i - 1];
        }
      }
    }
  }

  /** A settled node changes nothing. */
  lemma CalculatorStepSettled(c: Catalog, ids: IdMap, node: Json)
    requires CalculatorSettled(c, ids, node)
    ensures CalculatorStep(c, ids, node) == Ok((c, 0))
  {
  }

  /** When every node is settled the loop creates nothing. */
  lemma {:induction false} CalculatorsSettled(c: Catalog, ids: IdMap, nodes: seq<Json>)
    requires forall i :: 0 <= i < |nodes| ==> CalculatorSettled(c, ids, nodes[i])
    ensures ImportCalculators(c, ids, nodes) == Ok((c, 0))
    decreases |nodes|
  {
    if nodes != [] {
      CalculatorStepSettled(c, ids, nodes[0]);
      forall i | 0 <= i < |nodes[1..]|
        ensures CalculatorSettled(c, ids, nodes[1..][i])
      {
        assert nodes[1..][i] == nodes[i + 1];
      }
      CalculatorsSettled(c, ids, nodes[1..]);
    }
  }

  // -------------------------------------------------------------- labels

  /** A label node has the name and the id the loop reads whatever
      happens. */
  predicate LabelReadable(node: Json) {
    Has(node, "name") && Has(node, "id")
  }

  /** What the step reads: the flag too, but only for a name that is new. */
  predicate LabelStepReads(c: Catalog, node: Json) {
    LabelReadable(node) && (HasLabelNamed(c, AsText(node.fields["name"])) || Has(node, "isCurated"))
  }

  /** The label the loop builds from a node: the name, the flag and the
      description when the node has one. */
  function NewLabel(node: Json): (r: Label)
    requires Has(node, "name") && Has(node, "isCurated")
    ensures r.name == AsText(node.fields["name"]) && r.isCurated == AsBoolean(node.fields["isCurated"])
    ensures r.description.Some? <==> Has(node, "description")
  {
    Label(AsText(node.fields["name"]), AsBoolean(node.fields["isCurated"]), TextField(node, "description"))
  }

  /** One label node: nothing when a label has its name, otherwise a new
      label with the next id. The node's id is read in both cases, only to
      fill a map nothing uses afterwards. */
  function LabelStep(c: Catalog, node: Json): (r: Result<(Catalog, nat)>)
    ensures r.Err? <==> !LabelStepReads(c, node)
  {
    var nameNode :- Field(node, "name");
    var name := AsText(nameNode);
    if HasLabelNamed(c, name) then
      var idNode :- Field(node, "id");
      Ok((c, 0))
    else
      var flag :- Field(node, "isCurated");
      var id := c.nextId;
      var d := c.(labels := c.labels[id := NewLabel(node)], nextId := id + 1);
      var idNode :- Field(node, "id");
      Ok((d, 1))
  }

  /** What one step does: one label more exactly when the name is new. */
  lemma LabelStepKept(c: Catalog, node: Json)
    requires IdsBelow(c) && LabelStepReads(c, node)
    ensures var (d, n) := LabelStep(c, node).value;
      && IdsBelow(d)
      && d.manufacturers == c.manufacturers && d.calculators == c.calculators && d.tagged == c.tagged
      && (n == 1 <==> !HasLabelNamed(c, AsText(node.fields["name"])))
      && (n == 0 ==> d == c)
      && (n == 1 ==> d.labels == c.labels[c.nextId := NewLabel(node)])
      && |d.labels| == |c.labels| + n
      && HasLabelNamed(d, AsText(node.fields["name"]))
  {
    var (d, n) := LabelStep(c, node).value;
    if n == 1 {
      assert d.labels[c.nextId] == NewLabel(node);
    }
  }

  /** A label step keeps the catalogue valid: a new label has a fresh id and
      a name no other label has. */
  lemma LabelStepValid(c: Catalog, node: Json)
    requires Valid(c) && LabelStepReads(c, node)
    ensures Valid(LabelStep(c, node).value.0)
  {
  }

  /** The label loop. It fails when some node lacks the name or the id, and
      only when some node lacks one of them or the flag. */
  function ImportLabels(c: Catalog, nodes: seq<Json>): (r: Result<(Catalog, nat)>)
    ensures (exists i :: 0 <= i < |nodes| && !LabelReadable(nodes[i])) ==> r.Err?
    ensures r.Err? ==> exists i :: 0 <= i < |nodes| && (!LabelReadable(nodes[i]) || !Has(nodes[i], "isCurated"))
    decreases |nodes|
  {
    if nodes == [] then Ok((c, 0))
    else
      var first :- LabelStep(c, nodes[0]);
      var rest := ImportLabels(first.0, nodes[1..]);
      if rest.Err? then
        var i :| 0 <= i < |nodes[1..]| && (!LabelReadable(nodes[1..][i]) || !Has(nodes[1..][i], "isCurated"));
        assert nodes[1..][i] == nodes[i + 1];
        Err(rest.error)
      else
        assert forall i :: 1 <= i < |nodes| ==> nodes[i] == nodes[1..][i - 1];
        Ok((rest.value.0, first.1 + rest.value.1))
  }

  lemma LabelsUnfold(c: Catalog, nodes: seq<Json>)
    requires nodes != [] && ImportLabels(c, nodes).Ok?
    ensures LabelStep(c, nodes[0]).Ok?
    ensures var first := LabelStep(c, nodes[0]).value;
            var rest := ImportLabels(first.0, nodes[1..]);
            && rest.Ok?
            && ImportLabels(c, nodes).value == (rest.value.0, first.1 + rest.value.1)
  {
  }

  /** The loop keeps every label there was, counts the ones it creates and
      touches no other table. */
  lemma {:induction false} LabelsKept(c: Catalog, nodes: seq<Json>)
    requires IdsBelow(c) && ImportLabels(c, nodes).Ok?
    ensures var (d, n) := ImportLabels(c, nodes).value;
      && d.manufacturers == c.manufacturers && d.calculators == c.calculators && d.tagged == c.tagged
      && (forall id :: id in c.labels ==> id in d.labels && d.labels[id] == c.labels[id])
      && |d.labels| == |c.labels| + n
    decreases |nodes|
  {
    if nodes != [] {
      LabelsUnfold(c, nodes);
      var first := LabelStep(c, nodes[0]).value;
      LabelStepKept(c, nodes[0]);
      LabelsKept(first.0, nodes[1..]);
    }
  }

  lemma {:induction false} LabelsValid(c: Catalog, nodes: seq<Json>)
    requires Valid(c) && ImportLabels(c, nodes).Ok?
    ensures Valid(ImportLabels(c, nodes).value.0)
    decreases |nodes|
  {
    if nodes != [] {
      LabelsUnfold(c, nodes);
      LabelStepValid(c, nodes[0]);
      LabelsValid(LabelStep(c, nodes[0]).value.0, nodes[1..]);
    }
  }

  /** A name stays a label's while the table only grows. */
  lemma LabelNameStays(a: Catalog, d: Catalog, name: string)
    requires HasLabelNamed(a, name)
    requires forall id :: id in a.labels ==> id in d.labels && d.labels[id] == a.labels[id]
    ensures HasLabelNamed(d, name)
  {
    var id :| id in a.labels && a.labels[id].name == name;
    assert d.labels[id].name == name;
  }

  /** A node the loop needs nothing for: readable, and its name a label's. */
  predicate LabelSettled(c: Catalog, node: Json) {
    LabelReadable(node) && HasLabelNamed(c, AsText(node.fields["name"]))
  }

  /** After the loop every node is settled. */
  lemma {:induction false} LabelsSettledAfter(c: Catalog, nodes: seq<Json>)
    requires IdsBelow(c) && ImportLabels(c, nodes).Ok?
    ensures forall i :: 0 <= i < |nodes| ==> LabelSettled(ImportLabels(c, nodes).value.0, nodes[i])
    decreases |nodes|
  {
    if nodes != [] {
      LabelsUnfold(c, nodes);
      var first := LabelStep(c, nodes[0]).value;
      var d := ImportLabels(c, nodes).value.0;
      LabelsSettledAfter(first.0, nodes[1..]);
      forall i | 0 <= i < |nodes|
        ensures LabelSettled(d, nodes[i])
      {
        if i == 0 {
          LabelStepKept(c, nodes[0]);
          LabelsKept(first.0, nodes[1..]);
          LabelNameStays(first.0, d, AsText(nodes[0].fields["name"]));
        } else {
          assert nodes[i] == nodes[1..][i - 1];
        }
      }
    }
  }

  lemma LabelStepSettled(c: Catalog, node: Json)
    requires LabelSettled(c, node)
    ensures LabelStep(c, node) == Ok((c, 0))
  {
  }

  /** When every node is settled the loop creates nothing. */
  lemma {:induction false} LabelsSettled(c: Catalog, nodes: seq<Json>)
    requires forall i :: 0 <= i < |nodes| ==> LabelSettled(c, nodes[i])
    ensures ImportLabels(c, nodes) == Ok((c, 0))
    decreases |nodes|
  {
    if nodes != [] {
      LabelStepSettled(c, nodes[0]);
      forall i | 0 <= i < |nodes[1..]|
        ensures LabelSettled(c, nodes[1..][i])
      {
        assert nodes[1..][i] == nodes[i + 1];
      }
      LabelsSettled(c, nodes[1..]);
    }
  }

  // ------------------------------------------------------ the operation

  /** `importAllData`: the manufacturers, then the calculators resolved
      through the manufacturers' id map, then the labels. The export's
      label assignments are not read. It fails when a manufacturer, a
      calculator or a label node lacks a field every node is read for, and
      only when some node lacks a field it could be read for. */
  function ImportAllData(c: Catalog, root: Json): (r: Result<(Catalog, ImportResult)>)
    requires Valid(c)
    ensures (|| (exists i :: 0 <= i < |Items(root, "manufacturers")| && !ManufacturerReadable(Items(root, "manufacturers")[i]))
             || (exists i :: 0 <= i < |Items(root, "calculators")| && !CalculatorReadable(Items(root, "calculators")[i]))
             || (exists i :: 0 <= i < |Items(root, "labels")| && !LabelReadable(Items(root, "labels")[i])))
            ==> r.Err?
    ensures r.Err? ==>
            || (exists i :: 0 <= i < |Items(root, "manufacturers")| && !ManufacturerReadable(Items(root, "manufacturers")[i]))
            || (exists i :: 0 <= i < |Items(root, "calculators")| && !CalculatorReadable(Items(root, "calculators")[i]))
            || (exists i :: 0 <= i < |Items(root, "labels")| && (!LabelReadable(Items(root, "labels")[i]) || !Has(Items(root, "labels")[i], "isCurated")))
  {
    var m :- ImportManufacturers(c, map[], Items(root, "manufacturers"));
    var k :- ImportCalculators(m.0, m.1, Items(root, "calculators"));
    var l :- ImportLabels(k.0, Items(root, "labels"));
    Ok((l.0, ImportResult(m.2, k.1, l.1)))
  }

  /** An import keeps the catalogue valid, keeps every record there was,
      leaves the assignments alone and counts exactly the records it adds. */
  lemma ImportAllDataKept(c: Catalog, root: Json)
    requires Valid(c) && ImportAllData(c, root).Ok?
    ensures var (d, res) := ImportAllData(c, root).value;
      && Valid(d) && d.tagged == c.tagged
      && (forall id :: id in c.manufacturers ==> id in d.manufacturers && d.manufacturers[id] == c.manufacturers[id])
      && (forall id :: id in c.calculators ==> id in d.calculators && d.calculators[id] == c.calculators[id])
      && (forall id :: id in c.labels ==> id in d.labels && d.labels[id] == c.labels[id])
      && |d.manufacturers| == |c.manufacturers| + res.manufacturersCreated
      && |d.calculators| == |c.calculators| + res.calculatorsCreated
      && |d.labels| == |c.labels| + res.labelsCreated
  {
    var m := ImportManufacturers(c, map[], Items(root, "manufacturers")).value;
    ManufacturersKept(c, map[], Items(root, "manufacturers"));
    ManufacturersValid(c, map[], Items(root, "manufacturers"));
    var k := ImportCalculators(m.0, m.1, Items(root, "calculators")).value;
    CalculatorsKept(m.0, m.1, Items(root, "calculators"));
    CalculatorsValid(m.0, m.1, Items(root, "calculators"));
    LabelsKept(k.0, Items(root, "labels"));
    LabelsValid(k.0, Items(root, "labels"));
  }

  /** Running the manufacturer loop again, on a catalogue with the same
      manufacturers, creates nothing and rebuilds the same id map. */
  lemma ManufacturersAgain(c: Catalog, ids: IdMap, nodes: seq<Json>, d: Catalog)
    requires Valid(c) && ImportManufacturers(c, ids, nodes).Ok? && Valid(d)
    requires d.manufacturers == ImportManufacturers(c, ids, nodes).value.0.manufacturers
    ensures ImportManufacturers(d, ids, nodes) == Ok((d, ImportManufacturers(c, ids, nodes).value.1, 0))
  {
    var m := ImportManufacturers(c, ids, nodes).value;
    ManufacturerIdsKeyed(c, ids, nodes);
    ManufacturerNamesPresent(c, ids, nodes);
    forall i | 0 <= i < |nodes|
      ensures ManufacturerSettled(d, nodes[i])
    {
      assert HasManufacturerNamed(m.0, AsText(nodes[i].fields["name"]));
    }
    ManufacturersSettled(d, ids, nodes);
    KeyedBySame(m.0, d, ids, nodes);
  }

  /** Running the calculator loop again, with the same id map and on a
      catalogue with the same manufacturers and calculators, creates
      nothing. */
  lemma CalculatorsAgain(c: Catalog, ids: IdMap, nodes: seq<Json>, d: Catalog)
    requires IdsBelow(c) && ImportCalculators(c, ids, nodes).Ok?
    requires d.manufacturers == ImportCalculators(c, ids, nodes).value.0.manufacturers
    requires d.calculators == ImportCalculators(c, ids, nodes).value.0.calculators
    ensures ImportCalculators(d, ids, nodes) == Ok((d, 0))
  {
    var k := ImportCalculators(c, ids, nodes).value;
    CalculatorsSettledAfter(c, ids, nodes);
    forall i | 0 <= i < |nodes|
      ensures CalculatorSettled(d, ids, nodes[i])
    {
      CalculatorSettledStays(k.0, d, ids, nodes[i]);
    }
    CalculatorsSettled(d, ids, nodes);
  }

  /** Running the label loop again, on a catalogue with the same labels,
      creates nothing. */
  lemma LabelsAgain(c: Catalog, nodes: seq<Json>, d: Catalog)
    requires IdsBelow(c) && ImportLabels(c, nodes).Ok?
    requires d.labels == ImportLabels(c, nodes).value.0.labels
    ensures ImportLabels(d, nodes) == Ok((d, 0))
  {
    var l := ImportLabels(c, nodes).value;
    LabelsSettledAfter(c, nodes);
    forall i | 0 <= i < |nodes|
      ensures LabelSettled(d, nodes[i])
    {
      assert LabelSettled(l.0, nodes[i]);
    }
    LabelsSettled(d, nodes);
  }

  /** Importing the same document a second time creates nothing and
      changes nothing. */
  lemma ImportAllDataAgain(c: Catalog, root: Json)
    requires Valid(c) && ImportAllData(c, root).Ok?
    ensures var d := ImportAllData(c, root).value.0;
            Valid(d) && ImportAllData(d, root) == Ok((d, ImportResult(0, 0, 0)))
  {
    var mn, cn, ln := Items(root, "manufacturers"), Items(root, "calculators"), Items(root, "labels");
    var m := ImportManufacturers(c, map[], mn).value;
    var k := ImportCalculators(m.0, m.1, cn).value;
    var d := ImportLabels(k.0, ln).value.0;
    assert ImportAllData(c, root).value.0 == d;
    ManufacturersValid(c, map[], mn);
    CalculatorsKept(m.0, m.1, cn);
    CalculatorsValid(m.0, m.1, cn);
    LabelsKept(k.0, ln);
    LabelsValid(k.0, ln);
    ManufacturersAgain(c, map[], mn, d);
    CalculatorsAgain(m.0, m.1, cn, d);
    LabelsAgain(k.0, ln, d);
  }

  // --------------------------------------------------------- round trip

  /** The manufacturer nodes of an export of `c`. */
  function ManufacturerNodes(c: Catalog, ks: seq<nat>): (r: seq<Json>)
    requires forall i :: 0 <= i < |ks| ==> ks[i] in c.manufacturers
    ensures |r| == |ks| && forall i :: 0 <= i < |ks| ==> r[i] == JsonExport.ManufacturerNode(ks[i], c.manufacturers[ks[i]])
  {
    seq(|ks|, i requires 0 <= i < |ks| => JsonExport.ManufacturerNode(ks[i], c.manufacturers[ks[i]]))
  }

  /** Every exported manufacturer is found by its own name. */
  lemma ExportedManufacturersSettled(c: Catalog, ks: seq<nat>)
    requires Valid(c) && forall i :: 0 <= i < |ks| ==> ks[i] in c.manufacturers
    ensures forall i :: 0 <= i < |ks| ==> ManufacturerSettled(c, ManufacturerNodes(c, ks)[i])
  {
    var nodes := ManufacturerNodes(c, ks);
    forall i | 0 <= i < |ks|
      ensures ManufacturerSettled(c, nodes[i])
    {
      assert AsText(nodes[i].fields["name"]) == c.manufacturers[ks[i]];
    }
  }

  /** Read off the catalogue they came from, the exported manufacturers map
      every old id to itself. */
  lemma {:induction false} ExportedKeysSame(c: Catalog, ids: IdMap, ks: seq<nat>)
    requires Valid(c) && c.nextId <= LongHalf
    requires forall i :: 0 <= i < |ks| ==> ks[i] in c.manufacturers
    requires forall k :: k in ids ==> ids[k] == k
    ensures forall k :: k in KeyedBy(c, ids, ManufacturerNodes(c, ks)) ==> KeyedBy(c, ids, ManufacturerNodes(c, ks))[k] == k
    decreases |ks|
  {
    var nodes := ManufacturerNodes(c, ks);
    if ks == [] {
      assert KeyedBy(c, ids, nodes) == ids;
    } else {
      var k, name := ks[0], c.manufacturers[ks[0]];
      assert AsText(nodes[0].fields["name"]) == name;
      assert AsLong(nodes[0].fields["id"]) == k;
      var next := ids[k := ManufacturerNamed(c, name)];
      assert forall j :: j in next ==> next[j] == j;
      assert nodes[1..] == ManufacturerNodes(c, ks[1..]);
      ExportedKeysSame(c, next, ks[1..]);
      assert KeyedBy(c, ids, nodes) == KeyedBy(c, next, nodes[1..]);
    }
  }

  function CalculatorNodes(c: Catalog, ks: seq<nat>): (r: seq<Json>)
    requires forall i :: 0 <= i < |ks| ==> ks[i] in c.calculators
    ensures |r| == |ks| && forall i :: 0 <= i < |ks| ==> r[i] == JsonExport.CalculatorNode(ks[i], c.calculators[ks[i]])
  {
    seq(|ks|, i requires 0 <= i < |ks| => JsonExport.CalculatorNode(ks[i], c.calculators[ks[i]]))
  }

  /** Every exported calculator is settled under an id map that maps ids to
      themselves: when its manufacturer resolves, the calculator itself has
      that model and manufacturer. */
  lemma ExportedCalculatorsSettled(c: Catalog, ids: IdMap, ks: seq<nat>)
    requires Valid(c) && c.nextId <= LongHalf
    requires forall i :: 0 <= i < |ks| ==> ks[i] in c.calculators
    requires forall k :: k in ids ==> ids[k] == k
    ensures forall i :: 0 <= i < |ks| ==> CalculatorSettled(c, ids, CalculatorNodes(c, ks)[i])
  {
    var nodes := CalculatorNodes(c, ks);
    forall i | 0 <= i < |ks|
      ensures CalculatorSettled(c, ids, nodes[i])
    {
      var cal := c.calculators[ks[i]];
      assert cal.manufacturerId in c.manufacturers;
      assert AsLong(nodes[i].fields["manufacturerId"]) == cal.manufacturerId;
      assert AsText(nodes[i].fields["model"]) == cal.model;
      if Resolves(c, ids, nodes[i]) {
        assert HasCalculator(c, cal.model, cal.manufacturerId);
      }
    }
  }

  function LabelNodes(c: Catalog, ks: seq<nat>): (r: seq<Json>)
    requires forall i :: 0 <= i < |ks| ==> ks[i] in c.labels
    ensures |r| == |ks| && forall i :: 0 <= i < |ks| ==> r[i] == JsonExport.LabelNode(ks[i], c.labels[ks[i]])
  {
    seq(|ks|, i requires 0 <= i < |ks| => JsonExport.LabelNode(ks[i], c.labels[ks[i]]))
  }

  /** Every exported label is found by its own name. */
  lemma ExportedLabelsSettled(c: Catalog, ks: seq<nat>)
    requires forall i :: 0 <= i < |ks| ==> ks[i] in c.labels
    ensures forall i :: 0 <= i < |ks| ==> LabelSettled(c, LabelNodes(c, ks)[i])
  {
    var nodes := LabelNodes(c, ks);
    forall i | 0 <= i < |ks|
      ensures LabelSettled(c, nodes[i])
    {
      assert AsText(nodes[i].fields["name"]) == c.labels[ks[i]].name;
    }
  }

  /** The arrays of a full export, as the import reads them. */
  lemma ExportItems(c: Catalog, o: JsonExport.Orders)
    requires JsonExport.OrdersOf(c, o)
    ensures var root := JsonExport.ExportAllData(c, o);
      && Items(root, "manufacturers") == ManufacturerNodes(c, o.manufacturers)
      && Items(root, "calculators") == CalculatorNodes(c, o.calculators)
      && Items(root, "labels") == LabelNodes(c, o.labels)
  {
  }

  /** Importing a full export into the catalogue it was taken from creates
      nothing and changes nothing, as long as every id fits in a `long`. */
  lemma RestoreUnchanged(c: Catalog, o: JsonExport.Orders)
    requires Valid(c) && JsonExport.OrdersOf(c, o) && c.nextId <= LongHalf
    ensures ImportAllData(c, JsonExport.ExportAllData(c, o)) == Ok((c, ImportResult(0, 0, 0)))
  {
    var root := JsonExport.ExportAllData(c, o);
    var mn := ManufacturerNodes(c, o.manufacturers);
    var cn := CalculatorNodes(c, o.calculators);
    var ln := LabelNodes(c, o.labels);
    ExportItems(c, o);
    ExportedManufacturersSettled(c, o.manufacturers);
    ManufacturersSettled(c, map[], mn);
    var ids := KeyedBy(c, map[], mn);
    ExportedKeysSame(c, map[], o.manufacturers);
    ExportedCalculatorsSettled(c, ids, o.calculators);
    CalculatorsSettled(c, ids, cn);
    ExportedLabelsSettled(c, o.labels);
    LabelsSettled(c, ln);
  }
}
