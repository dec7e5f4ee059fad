/** The catalogue the services share: manufacturers, calculators, labels and
    the assignments of labels to calculators. Each repository becomes a map
    from id to record; ids come from one counter, as identity columns hand
    out values that are never reused. The database's key, uniqueness and
    reference constraints become the validity predicate: ids below the
    counter, unique manufacturer and label names, every calculator's
    manufacturer present, and every assignment pointing at a present
    calculator and label. Column lengths and the not-null constraints of
    the text columns are not part of it. */
module Catalog {
  import opened Wrappers

  datatype Calculator = Calculator(
    model: string,
    manufacturerId: nat,
    soldFrom: Option<int>,
    soldTo: Option<int>,
    sourceUrl: Option<string>,
    rawRowText: Option<string>)

  datatype Label = Label(name: string, isCurated: bool, description: Option<string>)

  datatype Catalog = Catalog(
    manufacturers: map<nat, string>,
    calculators: map<nat, Calculator>,
    labels: map<nat, Label>,
    tagged: set<(nat, nat)>,
    nextId: nat)

  /** Every id was handed out before the counter's current value. */
  predicate IdsBelow(c: Catalog) {
    && (forall id :: id in c.manufacturers ==> id < c.nextId)
    && (forall id :: id in c.calculators ==> id < c.nextId)
    && (forall id :: id in c.labels ==> id < c.nextId)
  }

  /** The unique constraint on `manufacturers.name`. */
  predicate ManufacturerNamesUnique(c: Catalog) {
    forall a, b :: a in c.manufacturers && b in c.manufacturers && c.manufacturers[a] == c.manufacturers[b] ==> a == b
  }

  /** The unique constraints on `manufacturers.name` and `labels.name`. */
  predicate UniqueNames(c: Catalog) {
    && ManufacturerNamesUnique(c)
    && (forall a, b :: a in c.labels && b in c.labels && c.labels[a].name == c.labels[b].name ==> a == b)
  }

  /** The foreign keys of `calculators` and `calculator_labels`. */
  predicate References(c: Catalog) {
    && (forall id :: id in c.calculators ==> c.calculators[id].manufacturerId in c.manufacturers)
    && (forall p :: p in c.tagged ==> p.0 in c.calculators && p.1 in c.labels)
  }

  predicate Valid(c: Catalog) {
    IdsBelow(c) && UniqueNames(c) && References(c)
  }

  /** `labelRepository.findByName(name).isPresent()`. */
  predicate HasLabelNamed(c: Catalog, name: string) {
    exists id :: id in c.labels && c.labels[id].name == name
  }

  /** The id `labelRepository.findByName` finds; the name is unique. */
  function LabelNamed(c: Catalog, name: string): (id: nat)
    requires Valid(c) && HasLabelNamed(c, name)
    ensures id in c.labels && c.labels[id].name == name
    ensures forall other :: other in c.labels && c.labels[other].name == name ==> other == id
  {
    var id :| id in c.labels && c.labels[id].name == name;
    id
  }

  /** `manufacturerRepository.findByName(name).isPresent()`. */
  predicate HasManufacturerNamed(c: Catalog, name: string) {
    exists id :: id in c.manufacturers && c.manufacturers[id] == name
  }

  function ManufacturerNamed(c: Catalog, name: string): (id: nat)
    requires ManufacturerNamesUnique(c) && HasManufacturerNamed(c, name)
    ensures id in c.manufacturers && c.manufacturers[id] == name
    ensures forall other :: other in c.manufacturers && c.manufacturers[other] == name ==> other == id
  {
    var id :| id in c.manufacturers && c.manufacturers[id] == name;
    id
  }

  /** The name of a calculator's manufacturer. */
  function ManufacturerName(c: Catalog, id: nat): string
    requires Valid(c) && id in c.calculators
  {
    c.manufacturers[c.calculators[id].manufacturerId]
  }

  /** The names of the labels assigned to a calculator
      (`findLabelsByCalculatorId`, whose order is unspecified). */
  function LabelNamesOf(c: Catalog, id: nat): (r: set<string>)
    requires Valid(c)
    ensures forall name :: name in r <==> HasLabelNamed(c, name) && (id, LabelNamed(c, name)) in c.tagged
  {
    var r := set p | p in c.tagged && p.0 == id :: c.labels[p.1].name;
    assert forall name :: name in r ==> HasLabelNamed(c, name) && (id, LabelNamed(c, name)) in c.tagged by {
      forall name | name in r ensures HasLabelNamed(c, name) && (id, LabelNamed(c, name)) in c.tagged {
        var p :| p in c.tagged && p.0 == id && c.labels[p.1].name == name;
      }
    }
    r
  }

  /** The assignments of the labels with the given names to one
      calculator. */
  function PairsNamed(c: Catalog, id: nat, names: set<string>): (r: set<(nat, nat)>)
    ensures forall p :: p in r <==> p.0 == id && p.1 in c.labels && c.labels[p.1].name in names
  {
    set l | l in c.labels && c.labels[l].name in names :: (id, l)
  }

  /** Replacing a label keeps the catalogue valid as long as no other
      label has the new name. */
  lemma SetLabelValid(c: Catalog, id: nat, l: Label)
    requires Valid(c) && id in c.labels
    requires forall other :: other in c.labels && other != id ==> c.labels[other].name != l.name
    ensures Valid(c.(labels := c.labels[id := l]))
  {
  }
}
