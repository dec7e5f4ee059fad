/** The start-up load of `DataInitializationService`: an empty catalogue is
    filled from the bundled document of manufacturers, each with a list of
    models. The document is given already read; a missing or unreadable file
    is `None`. The load runs in one transaction: an exception the loop
    throws itself is caught and logged, so what was stored before it stays;
    a failed save marks the transaction for rollback, so nothing stays. */
module DataInit {
  import opened Wrappers
  import opened JavaText
  import opened Json
  import opened Jackson
  import opened Catalog

  // ------------------------------------------------------------- fields

  /** Where the first colon of `s` is. */
  function FirstColon(s: string): (r: Option<nat>)
    ensures r.None? <==> forall k :: 0 <= k < |s| ==> s[k] != ':'
    ensures r.Some? ==> r.value < |s| && s[r.value] == ':'
    ensures r.Some? ==> forall k :: 0 <= k < r.value ==> s[k] != ':'
  {
    var i := IndexOf(s, ":");
    if i.None? then
      assert forall k :: 0 <= k < |s| ==> s[k] != ':' by {
        forall k | 0 <= k < |s| ensures s[k] != ':' {
          assert !OccursAt(s, ":", k);
          assert s[k..k + 1] == [s[k]];
        }
      }
      None
    else
      assert s[i.value..i.value + 1] == [s[i.value]];
      assert forall k :: 0 <= k < i.value ==> s[k] != ':' by {
        forall k | 0 <= k < i.value ensures s[k] != ':' {
          assert !OccursAt(s, ":", k);
          assert s[k..k + 1] == [s[k]];
        }
      }
      i
  }

  /** The manufacturer field split at its first colon into the trimmed name
      and the trimmed model suffix; without a colon, the trimmed field and
      no suffix. */
  function SplitManufacturerField(field: string): (r: (string, Option<string>))
    ensures r.1.None? <==> forall k :: 0 <= k < |field| ==> field[k] != ':'
    ensures r.1.None? ==> r.0 == Trim(field)
    ensures r.1.Some? ==> exists k :: 0 <= k < |field| && field[k] == ':'
                                      && (forall j :: 0 <= j < k ==> field[j] != ':')
                                      && r.0 == Trim(field[..k]) && r.1.value == Trim(field[k + 1..])
  {
    match FirstColon(field)
    case None => (Trim(field), None)
    case Some(k) => (Trim(field[..k]), Some(Trim(field[k + 1..])))
  }

  /** The name part never holds a colon. */
  lemma SplitNameHasNoColon(field: string)
    ensures forall i :: 0 <= i < |SplitManufacturerField(field).0| ==> SplitManufacturerField(field).0[i] != ':'
  {
    var k := FirstColon(field);
    if k.Some? {
      TrimKeeps(field[..k.value], c => c != ':');
    } else {
      TrimKeeps(field, c => c != ':');
    }
  }

  /** A trimmed name without a colon, a colon and a trimmed suffix split back
      into the two. */
  lemma SplitJoined(name: string, suffix: string)
    requires forall i :: 0 <= i < |name| ==> name[i] != ':'
    requires Trim(name) == name && Trim(suffix) == suffix
    ensures SplitManufacturerField(name + ":" + suffix) == (name, Some(suffix))
  {
    var s := name + ":" + suffix;
    ColonAfter(name, suffix);
    assert s[..|name|] == name;
    assert s[|name| + 1..] == suffix;
  }

  lemma ColonAfter(name: string, suffix: string)
    requires forall i :: 0 <= i < |name| ==> name[i] != ':'
    ensures FirstColon(name + ":" + suffix) == Some(|name|)
  {
    var s := name + ":" + suffix;
    assert s[|name|] == ':';
    assert forall i :: 0 <= i < |name| ==> s[i] == name[i];
  }

  /** The model name a calculator gets: the suffix of the manufacturer field
      when the model is null, blank, or looks like a year ("~") while there
      is a suffix; otherwise the model as given. */
  function ModelName(model: Option<string>, suffix: Option<string>): (r: Option<string>)
    ensures r.None? <==> suffix.None? && (model.None? || Trim(model.value) == "")
    ensures r == model || r == suffix
    ensures model.Some? && Trim(model.value) != "" && !StartsWith(Trim(model.value), "~") ==> r == model
    ensures model.Some? && StartsWith(Trim(model.value), "~") && suffix.Some? ==> r == suffix
  {
    if model.None? || Trim(model.value) == "" || (StartsWith(Trim(model.value), "~") && suffix.Some?) then suffix
    else model
  }

  /** Without a suffix a meaningful model is kept, and a year-like one too. */
  lemma ModelNameWithoutSuffix(model: string)
    requires Trim(model) != ""
    ensures ModelName(Some(model), None) == Some(model)
  {
  }

  /** `getTextValue`: null when the field is absent or an explicit null,
      its text otherwise. */
  function TextValue(node: Json, key: string): (r: Option<string>)
    ensures r.Some? <==> Get(node, key).Some? && !Get(node, key).value.JNull?
    ensures r.Some? && node.fields[key].JStr? ==> r.value == node.fields[key].s
  {
    var f := Get(node, key);
    if f.None? || f.value.JNull? then None else Some(AsText(f.value))
  }

  /** `getIntValue`: null when the field is absent or an explicit null, its
      `asInt` otherwise. */
  function IntValue(node: Json, key: string): (r: Option<int>)
    ensures r.Some? <==> Get(node, key).Some? && !Get(node, key).value.JNull?
    ensures r.Some? ==> -IntHalf <= r.value < IntHalf
    ensures r.Some? && node.fields[key].JNum? && -IntHalf <= node.fields[key].n < IntHalf ==> r.value == node.fields[key].n
  {
    var f := Get(node, key);
    if f.None? || f.value.JNull? then None else Some(AsInt(f.value))
  }

  /** The model name one model node gives. */
  function ModelOf(node: Json, suffix: Option<string>): Option<string> {
    ModelName(TextValue(node, "model"), suffix)
  }

  /** The calculator one model node gives, for a node with a model name. */
  function CalculatorOf(node: Json, suffix: Option<string>, mid: nat): (r: Calculator)
    requires ModelOf(node, suffix).Some?
    ensures r.model == ModelOf(node, suffix).value && r.manufacturerId == mid
    ensures r.soldFrom == IntValue(node, "sold_from") && r.soldTo == IntValue(node, "sold_to")
    ensures r.sourceUrl == TextValue(node, "source_url") && r.rawRowText == TextValue(node, "raw_row_text")
  {
    Calculator(ModelOf(node, suffix).value, mid, IntValue(node, "sold_from"), IntValue(node, "sold_to"),
               TextValue(node, "source_url"), TextValue(node, "raw_row_text"))
  }

  // -------------------------------------------------------------- the loop

  /** The save of a calculator whose model is null, which the column
      refuses. */
  const NullModel: string := "DataIntegrityViolationException: model"

  /** The calculators of a models array, one per node in order, when every
      node has a model name. */
  function CalculatorsOf(models: seq<Json>, suffix: Option<string>, mid: nat): (r: Option<seq<Calculator>>)
    ensures r.Some? <==> forall i :: 0 <= i < |models| ==> ModelOf(models[i], suffix).Some?
    ensures r.Some? ==> |r.value| == |models|
    ensures r.Some? ==> forall i :: 0 <= i < |models| ==> r.value[i] == CalculatorOf(models[i], suffix, mid)
  {
    if forall i :: 0 <= i < |models| ==> ModelOf(models[i], suffix).Some? then
      Some(seq(|models|, i requires 0 <= i < |models| => CalculatorOf(models[i], suffix, mid)))
    else None
  }

  /** The ids from `lo` on, `n` of them. */
  function Range(lo: nat, n: nat): (r: set<nat>)
    ensures forall k :: k in r <==> lo <= k < lo + n
  {
    if n == 0 then {} else Range(lo, n - 1) + {lo + n - 1}
  }

  /** The calculators saved one after the other, under consecutive ids from
      the counter on. */
  function Insert(c: Catalog, cals: seq<Calculator>): (r: Catalog)
    requires IdsBelow(c)
    ensures IdsBelow(r) && r.nextId == c.nextId + |cals|
    ensures r.manufacturers == c.manufacturers && r.labels == c.labels && r.tagged == c.tagged
    ensures forall id :: id in r.calculators <==> id in c.calculators || c.nextId <= id < c.nextId + |cals|
    ensures forall id :: id in c.calculators ==> r.calculators[id] == c.calculators[id]
    ensures forall i :: 0 <= i < |cals| ==> r.calculators[c.nextId + i] == cals[i]
  {
    var added := map id | id in Range(c.nextId, |cals|) :: cals[id - c.nextId];
    var m := c.calculators + added;
    assert forall i :: 0 <= i < |cals| ==> m[c.nextId + i] == cals[i] by {
      forall i | 0 <= i < |cals| ensures m[c.nextId + i] == cals[i] {
        assert c.nextId + i in added;
      }
    }
    c.(calculators := m, nextId := c.nextId + |cals|)
  }

  /** The inner loop: the calculators of the models array; a node without a
      model name fails its save, and the rollback keeps none of them. */
  function AddModels(c: Catalog, mid: nat, suffix: Option<string>, models: seq<Json>): (r: Result<Catalog>)
    requires IdsBelow(c)
    ensures r.Ok? <==> forall i :: 0 <= i < |models| ==> ModelOf(models[i], suffix).Some?
    ensures r.Err? ==> r.error == NullModel
    ensures r.Ok? ==> IdsBelow(r.value) && r.value.nextId == c.nextId + |models|
    ensures r.Ok? ==> r.value.manufacturers == c.manufacturers && r.value.labels == c.labels && r.value.tagged == c.tagged
    ensures r.Ok? ==> forall id :: id in r.value.calculators <==> id in c.calculators || c.nextId <= id < c.nextId + |models|
    ensures r.Ok? ==> forall id :: id in c.calculators ==> r.value.calculators[id] == c.calculators[id]
    ensures r.Ok? ==> forall i :: 0 <= i < |models| ==> r.value.calculators[c.nextId + i] == CalculatorOf(models[i], suffix, mid)
  {
    match CalculatorsOf(models, suffix, mid)
    case None => Err(NullModel)
    case Some(cals) => Ok(Insert(c, cals))
  }

  /** Added models keep the catalogue valid when their manufacturer
      exists. */
  lemma AddModelsValid(c: Catalog, mid: nat, suffix: Option<string>, models: seq<Json>)
    requires Valid(c) && mid in c.manufacturers && AddModels(c, mid, suffix, models).Ok?
    ensures Valid(AddModels(c, mid, suffix, models).value)
  {
    var d := AddModels(c, mid, suffix, models).value;
    forall id | id in d.calculators ensures d.calculators[id].manufacturerId in d.manufacturers {
      if id !in c.calculators {
        assert d.calculators[c.nextId + (id - c.nextId)] == CalculatorOf(models[id - c.nextId], suffix, mid);
      }
    }
  }

  /** The manufacturer of a name: the cached one, or a new one saved under
      the next id and cached. */
  function Enter(c: Catalog, cache: map<string, nat>, name: string): (r: (Catalog, map<string, nat>, nat))
    requires IdsBelow(c)
    ensures IdsBelow(r.0) && r.0.calculators == c.calculators && c.nextId <= r.0.nextId
    ensures name in cache ==> r == (c, cache, cache[name])
    ensures name !in cache ==> r.2 == c.nextId && r.1 == cache[name := c.nextId]
                               && r.0.manufacturers == c.manufacturers[c.nextId := name]
  {
    if name in cache then (c, cache, cache[name])
    else (c.(manufacturers := c.manufacturers[c.nextId := name], nextId := c.nextId + 1),
          cache[name := c.nextId], c.nextId)
  }

  /** Entering a name keeps the cache matching the table and yields the
      manufacturer of that name. */
  lemma EnterKeeps(c: Catalog, cache: map<string, nat>, name: string)
    requires IdsBelow(c) && CacheMatches(c, cache)
    ensures var (d, cache', mid) := Enter(c, cache, name);
            && CacheMatches(d, cache') && mid in d.manufacturers && d.manufacturers[mid] == name
            && cache.Keys <= cache'.Keys && (forall n :: n in cache ==> cache'[n] == cache[n])
            && |cache'.Keys| <= |cache.Keys| + 1
  {
    if name !in cache {
      EnterNewMatches(c, cache, name);
      assert cache[name := c.nextId].Keys == cache.Keys + {name};
    }
  }

  /** Entering a name keeps the catalogue valid. */
  lemma EnterValid(c: Catalog, cache: map<string, nat>, name: string)
    requires Valid(c) && CacheMatches(c, cache)
    ensures Valid(Enter(c, cache, name).0)
  {
    if name !in cache {
      EnterNewValid(c, cache, name);
    }
  }

  /** A new name saved under the next id keeps the cache matching. */
  lemma EnterNewMatches(c: Catalog, cache: map<string, nat>, name: string)
    requires IdsBelow(c) && CacheMatches(c, cache) && name !in cache
    ensures CacheMatches(c.(manufacturers := c.manufacturers[c.nextId := name], nextId := c.nextId + 1),
                         cache[name := c.nextId])
  {
    assert c.nextId !in c.manufacturers;
  }

  /** A new name saved under the next id keeps the catalogue valid. */
  lemma EnterNewValid(c: Catalog, cache: map<string, nat>, name: string)
    requires Valid(c) && CacheMatches(c, cache) && name !in cache
    ensures Valid(c.(manufacturers := c.manufacturers[c.nextId := name], nextId := c.nextId + 1))
  {
    assert c.nextId !in c.manufacturers;
  }

  /** What one manufacturer entry leads to: the next state, a stop that
      keeps what was stored, or a rollback of everything. */
  datatype Step = Next(c: Catalog, cache: map<string, nat>) | Stop(error: string) | Rollback(error: string)

  /** One manufacturer entry: a missing manufacturer field throws; an entry
      without a models array is skipped; otherwise the name is looked up in
      the run's cache, saved once if new, and its models are added. */
  function EntryStep(c: Catalog, cache: map<string, nat>, node: Json): (r: Step)
    requires IdsBelow(c)
    ensures Get(node, "manufacturer").None? ==> r == Stop(NullPointer)
    ensures Get(node, "manufacturer").Some? && !IsArray(Get(node, "models")) ==> r == Next(c, cache)
    ensures r.Rollback? ==> r.error == NullModel
    ensures r.Next? ==> IdsBelow(r.c) && c.nextId <= r.c.nextId
  {
    var field := Get(node, "manufacturer");
    if field.None? then Stop(NullPointer)
    else
      var models := Get(node, "models");
      if !IsArray(models) then Next(c, cache)
      else
        var (name, suffix) := SplitManufacturerField(AsText(field.value));
        var (c1, cache1, mid) := Enter(c, cache, name);
        match AddModels(c1, mid, suffix, models.value.items)
        case Err(e) => Rollback(e)
        case Ok(c2) => Next(c2, cache1)
  }

  /** How the loop ended. */
  datatype Ending = Finished | Stopped(error: string) | RolledBack(error: string)

  /** The outer loop over the manufacturer entries. */
  function RunEntries(c: Catalog, cache: map<string, nat>, nodes: seq<Json>): (r: (Catalog, map<string, nat>, Ending))
    requires IdsBelow(c)
    decreases |nodes|
    ensures IdsBelow(r.0) && c.nextId <= r.0.nextId
    ensures r.2.RolledBack? ==> r.2.error == NullModel
    ensures |nodes| == 0 ==> r == (c, cache, Finished)
  {
    if |nodes| == 0 then (c, cache, Finished)
    else
      match EntryStep(c, cache, nodes[0])
      case Stop(e) => (c, cache, Stopped(e))
      case Rollback(e) => (c, cache, RolledBack(e))
      case Next(c1, cache1) => RunEntries(c1, cache1, nodes[1..])
  }

  /** The outcome of the whole start-up load. */
  datatype Status =
    | AlreadyLoaded
    | NoFile
    | NoManufacturersArray
    | Loaded
    | StoppedEarly(error: string)
    | Failed(error: string)

  /** `run`: nothing when a manufacturer exists, the file is missing or its
      root has no "manufacturers" array; otherwise the loop. A stop keeps
      the entries stored before it; a rollback keeps nothing and ends the
      start-up with the exception. */
  function Run(c: Catalog, file: Option<Json>): (r: (Catalog, Status))
    requires IdsBelow(c)
    ensures |c.manufacturers| > 0 ==> r == (c, AlreadyLoaded)
    ensures |c.manufacturers| == 0 && file.None? ==> r == (c, NoFile)
    ensures |c.manufacturers| == 0 && file.Some? && !IsArray(Get(file.value, "manufacturers")) ==> r == (c, NoManufacturersArray)
    ensures r.1.Failed? ==> r.0 == c && r.1.error == NullModel
    ensures IdsBelow(r.0)
  {
    if |c.manufacturers| > 0 then (c, AlreadyLoaded)
    else if file.None? then (c, NoFile)
    else
      var ms := Get(file.value, "manufacturers");
      if !IsArray(ms) then (c, NoManufacturersArray)
      else
        match RunEntries(c, map[], ms.value.items)
        case (c1, _, Finished) => (c1, Loaded)
        case (c1, _, Stopped(e)) => (c1, StoppedEarly(e))
        case (_, _, RolledBack(e)) => (c, Failed(e))
  }

  // ------------------------------------------------------------ properties

  /** The run's cache and the manufacturer table describe each other: every
      manufacturer is cached under its name, and every cached name leads to
      its manufacturer. */
  predicate CacheMatches(c: Catalog, cache: map<string, nat>) {
    && (forall id :: id in c.manufacturers ==> c.manufacturers[id] in cache && cache[c.manufacturers[id]] == id)
    && (forall n :: n in cache ==> cache[n] in c.manufacturers && c.manufacturers[cache[n]] == n)
  }

  /** A cache that matches the table leaves no name saved twice. */
  lemma CacheMatchesUnique(c: Catalog, cache: map<string, nat>)
    requires CacheMatches(c, cache)
    ensures ManufacturerNamesUnique(c)
  {
  }

  /** One entry keeps the cache and the table in step, and creates a
      manufacturer only for a name the cache does not hold yet. */
  lemma EntryStepCache(c: Catalog, cache: map<string, nat>, node: Json)
    requires IdsBelow(c) && CacheMatches(c, cache)
    requires EntryStep(c, cache, node).Next?
    ensures var r := EntryStep(c, cache, node);
            && CacheMatches(r.c, r.cache)
            && cache.Keys <= r.cache.Keys
            && (forall n :: n in cache ==> r.cache[n] == cache[n])
            && |r.cache.Keys| <= |cache.Keys| + 1
  {
    var models := Get(node, "models");
    if IsArray(models) {
      var (name, suffix) := SplitManufacturerField(AsText(Get(node, "manufacturer").value));
      EnterKeeps(c, cache, name);
      var (c1, cache1, mid) := Enter(c, cache, name);
    }
  }

  /** One entry keeps the catalogue valid: a new manufacturer's name is not
      yet taken, and every new calculator points at the entry's
      manufacturer. */
  lemma EntryStepValid(c: Catalog, cache: map<string, nat>, node: Json)
    requires Valid(c) && CacheMatches(c, cache)
    requires EntryStep(c, cache, node).Next?
    ensures Valid(EntryStep(c, cache, node).c)
  {
    var models := Get(node, "models");
    if IsArray(models) {
      var (name, suffix) := SplitManufacturerField(AsText(Get(node, "manufacturer").value));
      EnterKeeps(c, cache, name);
      EnterValid(c, cache, name);
      var (c1, cache1, mid) := Enter(c, cache, name);
      AddModelsValid(c1, mid, suffix, models.value.items);
    }
  }

  /** The loop keeps the catalogue valid and every manufacturer name
      unique: each distinct name is saved exactly once. */
  lemma {:induction false} RunEntriesValid(c: Catalog, cache: map<string, nat>, nodes: seq<Json>)
    requires Valid(c) && CacheMatches(c, cache)
    decreases |nodes|
    ensures var r := RunEntries(c, cache, nodes);
            Valid(r.0) && CacheMatches(r.0, r.1)
  {
    if |nodes| > 0 {
      var s := EntryStep(c, cache, nodes[0]);
      if s.Next? {
        EntryStepCache(c, cache, nodes[0]);
        EntryStepValid(c, cache, nodes[0]);
        RunEntriesValid(s.c, s.cache, nodes[1..]);
      }
    }
  }

  /** A load keeps the catalogue valid, and the manufacturers it stores are
      exactly the names it cached, each once. */
  lemma RunValid(c: Catalog, file: Option<Json>)
    requires Valid(c)
    ensures Valid(Run(c, file).0)
  {
    if |c.manufacturers| == 0 && file.Some? && IsArray(Get(file.value, "manufacturers")) {
      assert CacheMatches(c, map[]);
      RunEntriesValid(c, map[], Get(file.value, "manufacturers").value.items);
    }
  }

  /** Entries whose name is already cached add no manufacturer: two entries
      naming the same maker (with different suffixes) share one record. */
  lemma SameNameSharesRecord(c: Catalog, cache: map<string, nat>, node: Json)
    requires IdsBelow(c) && CacheMatches(c, cache)
    requires Get(node, "manufacturer").Some? && IsArray(Get(node, "models"))
    requires SplitManufacturerField(AsText(Get(node, "manufacturer").value)).0 in cache
    requires EntryStep(c, cache, node).Next?
    ensures EntryStep(c, cache, node).c.manufacturers == c.manufacturers
    ensures EntryStep(c, cache, node).cache == cache
  {
  }

  /** The loop over two runs of entries is the loop over the first, then,
      if it finished, over the second from where the first left off. */
  lemma {:induction false} RunEntriesAppend(c: Catalog, cache: map<string, nat>, a: seq<Json>, b: seq<Json>)
    requires IdsBelow(c)
    decreases |a|
    ensures var r := RunEntries(c, cache, a);
            RunEntries(c, cache, a + b) == if r.2.Finished? then RunEntries(r.0, r.1, b) else r
  {
    if |a| == 0 {
      assert a + b == b;
    } else {
      assert (a + b)[0] == a[0] && (a + b)[1..] == a[1..] + b;
      var s := EntryStep(c, cache, a[0]);
      if s.Next? {
        RunEntriesAppend(s.c, s.cache, a[1..], b);
      }
    }
  }

  /** An entry without a manufacturer field ends the loop: what the entries
      before it stored stays, and the entries after it are never read. */
  lemma StopKeepsPrefix(c: Catalog, cache: map<string, nat>, before: seq<Json>, bad: Json, after: seq<Json>)
    requires IdsBelow(c) && Get(bad, "manufacturer").None?
    requires RunEntries(c, cache, before).2.Finished?
    ensures var r := RunEntries(c, cache, before);
            RunEntries(c, cache, before + [bad] + after) == (r.0, r.1, Stopped(NullPointer))
  {
    var r := RunEntries(c, cache, before);
    assert before + [bad] + after == before + ([bad] + after);
    RunEntriesAppend(c, cache, before, [bad] + after);
    StopAtHead(r.0, r.1, [bad] + after);
  }

  lemma StopAtHead(c: Catalog, cache: map<string, nat>, nodes: seq<Json>)
    requires IdsBelow(c) && |nodes| > 0 && Get(nodes[0], "manufacturer").None?
    ensures RunEntries(c, cache, nodes) == (c, cache, Stopped(NullPointer))
  {
  }
}
