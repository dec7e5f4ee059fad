/** `LabelDerivationService`: derives labels from what a calculator's model,
    manufacturer and raw catalogue text mention. Every keyword label is first
    made to exist and be curated; then each calculator gets the labels whose
    keyword occurs in its text, as pairs that were not there yet. */
module LabelDerivation {
  import opened Wrappers
  import opened JavaText
  import opened Catalog
  import Labels
  import opened LabelText
  import opened LabelKeywords

  // ----------------------------------------------------------- the labels

  /** A label with this name exists and is curated. */
  predicate CuratedLabel(c: Catalog, name: string) {
    exists id :: id in c.labels && c.labels[id].name == name && c.labels[id].isCurated
  }

  /** Every label of the list exists and is curated. */
  predicate AllCurated(c: Catalog, names: seq<string>) {
    forall i :: 0 <= i < |names| ==> CuratedLabel(c, names[i])
  }

  /** The label names of the keyword table, in its order. */
  function KeywordLabels(): (r: seq<string>)
    ensures |r| == |Keywords| && forall i :: 0 <= i < |r| ==> r[i] == Keywords[i].1
  {
    seq(|Keywords|, i requires 0 <= i < |Keywords| => Keywords[i].1)
  }

  /** Every keyword label exists and is curated. */
  predicate KeywordLabelsCurated(c: Catalog) {
    AllCurated(c, KeywordLabels())
  }

  /** How the first loop may change the catalogue: labels are only added or
      marked curated, and nothing else changes. */
  predicate LabelsGrown(c: Catalog, r: Catalog) {
    && r.calculators == c.calculators && r.manufacturers == c.manufacturers && r.tagged == c.tagged
    && c.labels.Keys <= r.labels.Keys
    && forall id :: id in c.labels ==> r.labels[id].name == c.labels[id].name && (c.labels[id].isCurated ==> r.labels[id].isCurated)
  }

  lemma CuratedKept(c: Catalog, r: Catalog, name: string)
    requires LabelsGrown(c, r) && CuratedLabel(c, name)
    ensures CuratedLabel(r, name)
  {
    var id :| id in c.labels && c.labels[id].name == name && c.labels[id].isCurated;
    assert id in r.labels && r.labels[id].name == name && r.labels[id].isCurated;
  }

  /** One step of the first loop: a missing label is created curated with
      the derivation description; an existing one is marked curated. */
  function EnsureCurated(c: Catalog, name: string, desc: string): (r: Catalog)
    requires Valid(c) && Trimmed(name) && Trimmed(desc)
    ensures Valid(r) && LabelsGrown(c, r) && CuratedLabel(r, name)
    ensures HasLabelNamed(c, name) ==> r.labels.Keys == c.labels.Keys
    ensures !HasLabelNamed(c, name) ==>
              exists id: nat :: id !in c.labels && r.labels == c.labels[id := Label(name, true, Some(desc))]
    ensures CuratedLabel(c, name) ==> r == c
  {
    TrimOfTrimmed(name);
    if !HasLabelNamed(c, name) then
      TrimOfTrimmed(desc);
      var (r, id) := Labels.CreateCuratedLabel(c, name, Some(desc));
      assert r.labels == c.labels[id := Label(name, true, Some(desc))];
      r
    else
      var id := LabelNamed(c, name);
      if c.labels[id].isCurated then c
      else
        var l := c.labels[id].(isCurated := true);
        SetLabelValid(c, id, l);
        c.(labels := c.labels[id := l])
  }

  lemma AllCuratedSplit(c: Catalog, names: seq<string>)
    requires |names| > 0
    ensures AllCurated(c, names) <==> CuratedLabel(c, names[0]) && AllCurated(c, names[1..])
  {
    assert forall i :: 1 <= i < |names| ==> names[i] == names[1..][i - 1];
  }

  lemma GrownTrans(a: Catalog, b: Catalog, c: Catalog)
    requires LabelsGrown(a, b) && LabelsGrown(b, c)
    ensures LabelsGrown(a, c)
  {
  }

  /** The first loop of `deriveLabelsFromCalculators`, over the label
      names of the keyword table: afterwards every one exists and is
      curated; a catalogue where that already holds is left as it is. */
  function CreateKeywordLabels(c: Catalog, names: seq<string>, desc: string): (r: Catalog)
    requires Valid(c) && Trimmed(desc) && forall i :: 0 <= i < |names| ==> Trimmed(names[i])
    ensures Valid(r) && LabelsGrown(c, r) && AllCurated(r, names)
    ensures AllCurated(c, names) ==> r == c
    decreases |names|
  {
    if names == [] then c
    else
      var c1 := EnsureCurated(c, names[0], desc);
      var rest := names[1..];
      var r := CreateKeywordLabels(c1, rest, desc);
      GrownTrans(c, c1, r);
      CuratedKept(c1, r, names[0]);
      AllCuratedSplit(r, names);
      AllCuratedSplit(c, names);
      r
  }

  // ---------------------------------------------------------- the pairs

  /** The labels matched for a catalogue calculator. */
  function MatchedOf(c: Catalog, id: nat): set<string>
    requires Valid(c) && id in c.calculators
  {
    var cal := c.calculators[id];
    Matched(SearchText(cal.model, ManufacturerName(c, id), cal.rawRowText))
  }

  /** The matched labels of every catalogue calculator. */
  function MatchedAll(c: Catalog): (r: map<nat, set<string>>)
    requires Valid(c)
    ensures r.Keys == c.calculators.Keys && forall id :: id in r ==> r[id] == MatchedOf(c, id)
  {
    map id | id in c.calculators :: MatchedOf(c, id)
  }

  /** Every calculator carries every pair derivation wants for it. */
  predicate PairsDerived(c: Catalog, matches: map<nat, set<string>>) {
    forall id :: id in c.calculators && id in matches ==> PairsNamed(c, id, matches[id]) <= c.tagged
  }

  /** What a complete run leaves behind. */
  predicate Derived(c: Catalog) {
    Valid(c) && KeywordLabelsCurated(c) && PairsDerived(c, MatchedAll(c))
  }

  /** The matched labels depend only on the calculators and the
      manufacturers. */
  lemma MatchedAllSame(a: Catalog, b: Catalog)
    requires Valid(a) && Valid(b)
    requires a.calculators == b.calculators && a.manufacturers == b.manufacturers
    ensures MatchedAll(a) == MatchedAll(b)
  {
    forall id | id in a.calculators
      ensures MatchedOf(a, id) == MatchedOf(b, id)
    {
      assert ManufacturerName(a, id) == ManufacturerName(b, id);
    }
  }

  /** Going from `a` to `b` to `c` adds the pairs of both steps. */
  lemma CountChain(a: set<(nat, nat)>, b: set<(nat, nat)>, c: set<(nat, nat)>)
    requires a <= b <= c
    ensures |c - a| == |b - a| + |c - b|
  {
    assert c - a == (b - a) + (c - b);
    assert (b - a) * (c - b) == {};
  }

  /** Adding pairs that are all there already adds none. */
  lemma NothingAdded(t: set<(nat, nat)>, u: set<(nat, nat)>)
    requires u <= t
    ensures t + u == t && |(t + u) - t| == 0
  {
    assert (t + u) - t == {};
  }

  /** The wanted pairs of every calculator with matched labels. */
  function WantedMap(c: Catalog, matches: map<nat, set<string>>): (r: map<nat, set<(nat, nat)>>)
    ensures r.Keys == matches.Keys && forall id :: id in r ==> r[id] == PairsNamed(c, id, matches[id])
  {
    map id | id in matches :: PairsNamed(c, id, matches[id])
  }

  /** The pairs wanted for the calculators of the list. */
  function WantedAll(wanted: map<nat, set<(nat, nat)>>, order: seq<nat>): set<(nat, nat)>
    requires forall i :: 0 <= i < |order| ==> order[i] in wanted
    decreases |order|
  {
    if order == [] then {} else wanted[order[0]] + WantedAll(wanted, order[1..])
  }

  /** The wanted pairs of the list are exactly those of its calculators. */
  lemma {:induction false} WantedAllIs(wanted: map<nat, set<(nat, nat)>>, order: seq<nat>)
    requires forall i :: 0 <= i < |order| ==> order[i] in wanted
    ensures forall i :: 0 <= i < |order| ==> wanted[order[i]] <= WantedAll(wanted, order)
    ensures forall p :: p in WantedAll(wanted, order) ==> exists i :: 0 <= i < |order| && p in wanted[order[i]]
    decreases |order|
  {
    if order != [] {
      WantedAllIs(wanted, order[1..]);
      assert forall i :: 1 <= i < |order| ==> order[i] == order[1..][i - 1];
      forall p | p in WantedAll(wanted, order)
        ensures exists i :: 0 <= i < |order| && p in wanted[order[i]]
      {
        if p !in wanted[order[0]] {
          var j :| 0 <= j < |order| - 1 && p in wanted[order[1..][j]];
          assert p in wanted[order[j + 1]];
        }
      }
    }
  }

  /** The second loop, over the calculators in the order given, from the
      assignments `t`: each calculator gets its wanted pairs that are not
      there yet, and the count is the number of pairs added. */
  function AssignLabels(wanted: map<nat, set<(nat, nat)>>, order: seq<nat>, t: set<(nat, nat)>): (r: (set<(nat, nat)>, nat))
    requires forall i :: 0 <= i < |order| ==> order[i] in wanted
    ensures r.0 == t + WantedAll(wanted, order)
    ensures r.1 == |r.0 - t|
    decreases |order|
  {
    if order == [] then (t, 0)
    else
      var w := wanted[order[0]];
      var rest := AssignLabels(wanted, order[1..], t + w);
      assert rest.0 == t + WantedAll(wanted, order);
      CountChain(t, t + w, rest.0);
      assert (t + w) - t == w - t;
      (rest.0, |w - t| + rest.1)
  }

  /** Assigning the wanted pairs of every calculator gives a valid
      catalogue where every calculator carries them. */
  lemma AssignedIsDerived(c: Catalog, matches: map<nat, set<string>>, order: seq<nat>, t: set<(nat, nat)>)
    requires Valid(c) && matches.Keys == c.calculators.Keys
    requires forall id :: id in c.calculators <==> id in order
    requires t == c.tagged + WantedAll(WantedMap(c, matches), order)
    ensures Valid(c.(tagged := t)) && PairsDerived(c.(tagged := t), matches)
  {
    var wanted := WantedMap(c, matches);
    var r := c.(tagged := t);
    WantedAllIs(wanted, order);
    forall p | p in t
      ensures p.0 in c.calculators && p.1 in c.labels
    {
      if p !in c.tagged {
        var i :| 0 <= i < |order| && p in wanted[order[i]];
      }
    }
    forall id | id in r.calculators && id in matches
      ensures PairsNamed(r, id, matches[id]) <= r.tagged
    {
      var i :| 0 <= i < |order| && order[i] == id;
      assert wanted[order[i]] <= t;
    }
  }

  /** When every calculator already carries its wanted pairs, the second
      loop adds nothing. */
  lemma AssignOnDerived(c: Catalog, matches: map<nat, set<string>>, order: seq<nat>)
    requires PairsDerived(c, matches) && matches.Keys == c.calculators.Keys
    requires forall i :: 0 <= i < |order| ==> order[i] in matches
    ensures WantedAll(WantedMap(c, matches), order) <= c.tagged
  {
    var wanted := WantedMap(c, matches);
    WantedAllIs(wanted, order);
    forall p | p in WantedAll(wanted, order)
      ensures p in c.tagged
    {
      var i :| 0 <= i < |order| && p in wanted[order[i]];
    }
  }

  /** The first loop over the keyword table. */
  function KeywordStep(c: Catalog): (r: Catalog)
    requires Valid(c)
    ensures Valid(r) && LabelsGrown(c, r) && KeywordLabelsCurated(r)
    ensures KeywordLabelsCurated(c) ==> r == c
  {
    KeywordNamesTrimmed();
    assert Trimmed(DerivedDescription);
    CreateKeywordLabels(c, KeywordLabels(), DerivedDescription)
  }

  /** The second loop leaves a derived catalogue once the keyword labels
      are curated. */
  lemma AssignedDerives(c: Catalog, order: seq<nat>, t: set<(nat, nat)>)
    requires Valid(c) && KeywordLabelsCurated(c)
    requires forall id :: id in c.calculators <==> id in order
    requires t == c.tagged + WantedAll(WantedMap(c, MatchedAll(c)), order)
    ensures Derived(c.(tagged := t))
  {
    var r := c.(tagged := t);
    AssignedIsDerived(c, MatchedAll(c), order, t);
    MatchedAllSame(c, r);
    assert r.labels == c.labels;
  }

  /** The second loop over a catalogue whose keyword labels are curated. */
  function PairStep(c: Catalog, order: seq<nat>): (r: (set<(nat, nat)>, nat))
    requires Valid(c)
    requires forall id :: id in c.calculators <==> id in order
    ensures c.tagged <= r.0
    ensures r.1 == |r.0 - c.tagged|
    ensures KeywordLabelsCurated(c) ==> Derived(c.(tagged := r.0))
    ensures Derived(c) ==> r == (c.tagged, 0)
  {
    var res := AssignLabels(WantedMap(c, MatchedAll(c)), order, c.tagged);
    if Derived(c) then
      AssignedDerives(c, order, res.0);
      AssignOnDerived(c, MatchedAll(c), order);
      NothingAdded(c.tagged, WantedAll(WantedMap(c, MatchedAll(c)), order));
      res
    else if KeywordLabelsCurated(c) then
      AssignedDerives(c, order, res.0);
      res
    else res
  }

  /** `deriveLabelsFromCalculators` over the calculators in the order the
      repository lists them, which is each catalogue calculator once; the
      number is the count of pairs added. Every pair there was stays. A
      run leaves a derived catalogue, and a run on a derived catalogue
      changes nothing and returns 0, so an immediate rerun returns 0. */
  function DeriveLabels(c: Catalog, order: seq<nat>): (r: (Catalog, nat))
    requires Valid(c)
    requires forall id :: id in c.calculators <==> id in order
    ensures Derived(r.0)
    ensures r.0.calculators == c.calculators && r.0.manufacturers == c.manufacturers
    ensures c.labels.Keys <= r.0.labels.Keys && c.tagged <= r.0.tagged
    ensures r.1 == |r.0.tagged - c.tagged|
    ensures Derived(c) ==> r == (c, 0)
  {
    var c1 := KeywordStep(c);
    var (t, n) := PairStep(c1, order);
    (c1.(tagged := t), n)
  }
}
