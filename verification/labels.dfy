/** `LabelService`: creating labels by name, assigning them to calculators
    and removing them again. Label names are unique, so looking a label up
    by name finds at most one. */
module Labels {
  import opened Wrappers
  import opened JavaText
  import opened Catalog

  const NoLabel: string := "IllegalArgumentException: Label not found"
  const NameTaken: string := "DataIntegrityViolationException: label name already exists"

  /** `createOrGetLabel`: the label with the trimmed name, created with the
      given curation flag only when no label has that name. */
  function CreateOrGetLabel(c: Catalog, name: string, isCurated: bool): (r: (Catalog, nat))
    requires Valid(c)
    ensures Valid(r.0) && r.1 in r.0.labels && r.0.labels[r.1].name == Trim(name)
    ensures HasLabelNamed(c, Trim(name)) ==> r == (c, LabelNamed(c, Trim(name)))
    ensures !HasLabelNamed(c, Trim(name)) ==>
              r.1 !in c.labels
              && r.0 == c.(labels := c.labels[r.1 := Label(Trim(name), isCurated, None)], nextId := r.0.nextId)
  {
    var n := Trim(name);
    if HasLabelNamed(c, n) then (c, LabelNamed(c, n))
    else
      var id := c.nextId;
      (c.(labels := c.labels[id := Label(n, isCurated, None)], nextId := id + 1), id)
  }

  /** Asking again for the same name returns the same label and changes
      nothing, whatever curation flag is asked for. */
  lemma CreateOrGetLabelIdempotent(c: Catalog, name: string, isCurated: bool, again: bool)
    requires Valid(c)
    ensures var (c', id) := CreateOrGetLabel(c, name, isCurated);
            CreateOrGetLabel(c', name, again) == (c', id)
  {
    var (c', id) := CreateOrGetLabel(c, name, isCurated);
    assert HasLabelNamed(c', Trim(name));
  }

  /** `createCuratedLabel`: `createOrGetLabel(name, true)`, then the
      description, trimmed, when one is given that is not blank. A label
      that already existed keeps its curation flag. */
  function CreateCuratedLabel(c: Catalog, name: string, description: Option<string>): (r: (Catalog, nat))
    requires Valid(c)
    ensures Valid(r.0) && r.1 in r.0.labels && r.0.labels[r.1].name == Trim(name)
    ensures r.0.labels.Keys == c.labels.Keys + {r.1} && r.0.tagged == c.tagged
    ensures forall id :: id in c.labels && id != r.1 ==> r.0.labels[id] == c.labels[id]
    ensures r.0.labels[r.1].isCurated == (r.1 !in c.labels || c.labels[r.1].isCurated)
    ensures r.0.labels[r.1].description ==
              if description.Some? && Trim(description.value) != "" then Some(Trim(description.value))
              else if r.1 in c.labels then c.labels[r.1].description
              else None
  {
    var (c1, id) := CreateOrGetLabel(c, name, true);
    if description.Some? && Trim(description.value) != "" then
      var l := c1.labels[id].(description := Some(Trim(description.value)));
      SetLabelValid(c1, id, l);
      (c1.(labels := c1.labels[id := l]), id)
    else (c1, id)
  }

  /** `addLabelToCalculator`: true, adding the pair, iff the calculator and
      the label exist and the pair is not there yet; otherwise false and
      nothing changes. A pair is therefore never stored twice. */
  function AddLabelToCalculator(c: Catalog, calculatorId: nat, labelId: nat): (r: (Catalog, bool))
    requires Valid(c)
    ensures Valid(r.0)
    ensures r.1 <==> calculatorId in c.calculators && labelId in c.labels && (calculatorId, labelId) !in c.tagged
    ensures r.1 ==> r.0 == c.(tagged := c.tagged + {(calculatorId, labelId)})
    ensures !r.1 ==> r.0 == c
  {
    if calculatorId !in c.calculators || labelId !in c.labels then (c, false)
    else if (calculatorId, labelId) in c.tagged then (c, false)
    else (c.(tagged := c.tagged + {(calculatorId, labelId)}), true)
  }

  /** After a successful assignment, assigning again is refused. */
  lemma AddLabelTwice(c: Catalog, calculatorId: nat, labelId: nat)
    requires Valid(c)
    ensures var c' := AddLabelToCalculator(c, calculatorId, labelId).0;
            AddLabelToCalculator(c', calculatorId, labelId) == (c', false)
  {
  }

  /** `removeLabelFromCalculator`: true iff the pair existed, removing
      exactly that pair. */
  function RemoveLabelFromCalculator(c: Catalog, calculatorId: nat, labelId: nat): (r: (Catalog, bool))
    requires Valid(c)
    ensures Valid(r.0)
    ensures r.1 <==> (calculatorId, labelId) in c.tagged
    ensures r.0 == c.(tagged := c.tagged - {(calculatorId, labelId)})
  {
    if (calculatorId, labelId) in c.tagged then (c.(tagged := c.tagged - {(calculatorId, labelId)}), true)
    else (c, false)
  }

  /** Adding a pair and removing it again gives back the catalogue it
      started from. */
  lemma AddThenRemove(c: Catalog, calculatorId: nat, labelId: nat)
    requires Valid(c)
    requires AddLabelToCalculator(c, calculatorId, labelId).1
    ensures RemoveLabelFromCalculator(AddLabelToCalculator(c, calculatorId, labelId).0, calculatorId, labelId) == (c, true)
  {
  }

  /** `updateLabel`: fails for an unknown id; otherwise sets the trimmed
      name, and the trimmed description and the curation flag only when
      they are given. A name that another label already has breaks the
      unique constraint and fails as well. */
  function UpdateLabel(c: Catalog, id: nat, name: string, description: Option<string>, isCurated: Option<bool>): (r: Result<Catalog>)
    requires Valid(c)
    ensures r.Err? <==> id !in c.labels || (HasLabelNamed(c, Trim(name)) && LabelNamed(c, Trim(name)) != id)
    ensures r.Ok? ==> Valid(r.value) && r.value == c.(labels := r.value.labels)
    ensures r.Ok? ==> r.value.labels.Keys == c.labels.Keys
    ensures r.Ok? ==> forall other :: other in c.labels && other != id ==> r.value.labels[other] == c.labels[other]
    ensures r.Ok? ==> r.value.labels[id].name == Trim(name)
    ensures r.Ok? ==> r.value.labels[id].description == (if description.Some? then Some(Trim(description.value)) else c.labels[id].description)
    ensures r.Ok? ==> r.value.labels[id].isCurated == (if isCurated.Some? then isCurated.value else c.labels[id].isCurated)
  {
    if id !in c.labels then Err(NoLabel)
    else if HasLabelNamed(c, Trim(name)) && LabelNamed(c, Trim(name)) != id then Err(NameTaken)
    else
      var prev := c.labels[id];
      var l := Label(Trim(name),
                     if isCurated.Some? then isCurated.value else prev.isCurated,
                     if description.Some? then Some(Trim(description.value)) else prev.description);
      SetLabelValid(c, id, l);
      Ok(c.(labels := c.labels[id := l]))
  }

  /** `deleteLabel`: false for an unknown id; otherwise every assignment of
      the label goes, then the label itself. */
  function DeleteLabel(c: Catalog, id: nat): (r: (Catalog, bool))
    requires Valid(c)
    ensures Valid(r.0)
    ensures r.1 <==> id in c.labels
    ensures !r.1 ==> r.0 == c
    ensures r.1 ==> r.0.labels == c.labels - {id} && r.0.calculators == c.calculators
                    && r.0.manufacturers == c.manufacturers
    ensures r.1 ==> forall p :: p in r.0.tagged <==> p in c.tagged && p.1 != id
  {
    if id !in c.labels then (c, false)
    else (c.(labels := c.labels - {id}, tagged := set p | p in c.tagged && p.1 != id), true)
  }
}
