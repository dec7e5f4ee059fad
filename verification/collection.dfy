/** The parts of `CalculatorService` that decide something: the catalogue
    search with its blank-term fallback, and a user's collection, a set of
    (user, calculator) entries with optional notes. */
module Collection {
  import opened Wrappers
  import opened JavaText
  import opened Catalog
  import Clock

  // ----------------------------------------------------------------- search

  /** `LOWER(field) LIKE LOWER(CONCAT('%', term, '%'))`, the term read
      literally. */
  predicate Matches(field: string, term: string) {
    Contains(Lower(field), Lower(term))
  }

  /** `searchCalculators`: every calculator for a null or blank term;
      otherwise those whose model or manufacturer name contains the trimmed
      term, ignoring case. */
  function SearchCalculators(c: Catalog, term: Option<string>): (r: set<nat>)
    requires Valid(c)
    ensures r <= c.calculators.Keys
    ensures term.None? || Trim(term.value) == "" ==> r == c.calculators.Keys
    ensures term.Some? && Trim(term.value) != "" ==>
              forall id :: id in c.calculators ==>
                (id in r <==> Matches(c.calculators[id].model, Trim(term.value)) || Matches(ManufacturerName(c, id), Trim(term.value)))
  {
    if term.None? || Trim(term.value) == "" then c.calculators.Keys
    else
      var t := Trim(term.value);
      set id | id in c.calculators && (Matches(c.calculators[id].model, t) || Matches(ManufacturerName(c, id), t))
  }

  /** A calculator is found by its own model name, written in any case. */
  lemma SearchFindsModel(c: Catalog, id: nat, term: string)
    requires Valid(c) && id in c.calculators
    requires Trim(term) == term && term != "" && Lower(term) == Lower(c.calculators[id].model)
    ensures id in SearchCalculators(c, Some(term))
  {
    var m := Lower(c.calculators[id].model);
    assert m[0..0 + |m|] == m;
    ContainsAt(m, m, 0);
  }

  // -------------------------------------------------------------- collection

  /** One collection entry: its notes and when it was added. */
  datatype Entry = Entry(notes: Option<string>, addedAt: Clock.DateTime)

  type Entries = map<(string, nat), Entry>

  /** `notes != null && !notes.trim().isEmpty() ? notes.trim() : unset`. */
  function InitialNotes(notes: Option<string>): (r: Option<string>)
    ensures r.Some? <==> Filled(notes)
    ensures r.Some? ==> r.value == Trim(notes.value) && r.value != ""
  {
    if notes.Some? && Trim(notes.value) != "" then Some(Trim(notes.value)) else None
  }

  /** `addToCollection`: false, with nothing changed, when the entry exists
      or the calculator does not; otherwise one new entry stamped `now`. */
  function AddToCollection(c: Catalog, es: Entries, user: string, id: nat, notes: Option<string>, now: Clock.DateTime): (r: (Entries, bool))
    ensures r.1 <==> (user, id) !in es && id in c.calculators
    ensures !r.1 ==> r.0 == es
    ensures r.1 ==> r.0 == es[(user, id) := Entry(InitialNotes(notes), now)]
  {
    if (user, id) in es then (es, false)
    else if id !in c.calculators then (es, false)
    else (es[(user, id) := Entry(InitialNotes(notes), now)], true)
  }

  /** `removeFromCollection`: true iff the entry existed; afterwards it is
      gone and every other entry is as it was. */
  function RemoveFromCollection(es: Entries, user: string, id: nat): (r: (Entries, bool))
    ensures r.1 <==> (user, id) in es
    ensures r.0 == es - {(user, id)}
  {
    if (user, id) in es then (es - {(user, id)}, true) else (es, false)
  }

  /** `isInCollection`. */
  predicate IsInCollection(es: Entries, user: string, id: nat) {
    (user, id) in es
  }

  /** `updateCollectionNotes`: false for an absent entry; otherwise the
      notes become the trimmed text, or unset for null. Blank notes are
      stored as the empty string, unlike when the entry is added. */
  function UpdateCollectionNotes(es: Entries, user: string, id: nat, notes: Option<string>): (r: (Entries, bool))
    ensures r.1 <==> (user, id) in es
    ensures r.0.Keys == es.Keys
    ensures forall k :: k in es && k != (user, id) ==> r.0[k] == es[k]
    ensures r.1 ==> r.0[(user, id)].addedAt == es[(user, id)].addedAt
    ensures r.1 ==> r.0[(user, id)].notes == if notes.Some? then Some(Trim(notes.value)) else None
  {
    if (user, id) !in es then (es, false)
    else (es[(user, id) := es[(user, id)].(notes := if notes.Some? then Some(Trim(notes.value)) else None)], true)
  }

  /** An added calculator is in the collection; adding it again is refused
      and removing it takes it out again, leaving the collection as it
      was before the add. */
  lemma AddRemoveRoundTrip(c: Catalog, es: Entries, user: string, id: nat, notes: Option<string>, now: Clock.DateTime, later: Clock.DateTime)
    requires AddToCollection(c, es, user, id, notes, now).1
    ensures var es' := AddToCollection(c, es, user, id, notes, now).0;
            && IsInCollection(es', user, id)
            && AddToCollection(c, es', user, id, notes, later) == (es', false)
            && RemoveFromCollection(es', user, id) == (es, true)
            && !IsInCollection(RemoveFromCollection(es', user, id).0, user, id)
  {
    var es' := AddToCollection(c, es, user, id, notes, now).0;
    assert es' - {(user, id)} == es;
  }

  /** Updating notes twice with the same text changes nothing the second
      time. */
  lemma UpdateNotesIdempotent(es: Entries, user: string, id: nat, notes: Option<string>)
    ensures var es' := UpdateCollectionNotes(es, user, id, notes).0;
            UpdateCollectionNotes(es', user, id, notes) == (es', (user, id) in es)
  {
    var es' := UpdateCollectionNotes(es, user, id, notes).0;
    if (user, id) in es {
      assert es'[(user, id) := es'[(user, id)].(notes := if notes.Some? then Some(Trim(notes.value)) else None)] == es';
    }
  }
}
