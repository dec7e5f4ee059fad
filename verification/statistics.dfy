/** `StatisticsService.getCollectionStatistics`: counts over the calculators
    of one user's collection, by manufacturer, by sales period and by label,
    and their total. The repository reads become the input: for each
    collection calculator its manufacturer's name, its two sales years and
    the names of its labels. */
module Statistics {
  import opened Wrappers

  /** What the statistics read of one collection calculator. */
  datatype Item = Item(manufacturer: string, soldFrom: Option<int>, soldTo: Option<int>, labels: seq<string>)

  // ------------------------------------------------------------- tallies

  /** `map.getOrDefault(key, 0L)`. */
  function Get(m: map<string, nat>, key: string): nat {
    if key in m then m[key] else 0
  }

  /** How often a name occurs in a list. */
  function Occurrences(names: seq<string>, key: string): (r: nat)
    ensures r <= |names|
    ensures r == 0 <==> key !in names
  {
    if names == [] then 0
    else (if names[0] == key then 1 else 0) + Occurrences(names[1..], key)
  }

  /** Adding one to a name's count for each name of the list, the way both
      `Collectors.counting()` and the `byLabel` loop build their maps. */
  function Tally(m: map<string, nat>, names: seq<string>): (r: map<string, nat>)
    ensures r.Keys == m.Keys + set i | 0 <= i < |names| :: names[i]
    decreases |names|
  {
    if names == [] then m
    else
      var rest := Tally(m[names[0] := Get(m, names[0]) + 1], names[1..]);
      assert forall i :: 1 <= i < |names| ==> names[i] == names[1..][i - 1];
      rest
  }

  /** Each count rises by the number of times its name is listed. */
  lemma {:induction false} TallyCounts(m: map<string, nat>, names: seq<string>, key: string)
    ensures Get(Tally(m, names), key) == Get(m, key) + Occurrences(names, key)
    decreases |names|
  {
    if names != [] {
      TallyCounts(m[names[0] := Get(m, names[0]) + 1], names[1..], key);
    }
  }

  /** The sum of a map's counts. */
  ghost function Sum(m: map<string, nat>): nat
    decreases |m.Keys|
  {
    if m == map[] then 0
    else
      var k :| k in m;
      m[k] + Sum(m - {k})
  }

  /** The sum does not depend on which key is taken out first. */
  lemma {:induction false} SumRemove(m: map<string, nat>, key: string)
    requires key in m
    ensures Sum(m) == m[key] + Sum(m - {key})
    decreases |m.Keys|
  {
    var k :| k in m && Sum(m) == m[k] + Sum(m - {k});
    if k != key {
      var a := m - {k};
      var b := m - {key};
      assert |a.Keys| < |m.Keys| by { assert a.Keys == m.Keys - {k}; }
      assert |b.Keys| < |m.Keys| by { assert b.Keys == m.Keys - {key}; }
      SumRemove(a, key);
      SumRemove(b, k);
      assert a - {key} == b - {k};
    }
  }

  /** Raising one count by one raises the sum by one. */
  lemma SumBump(m: map<string, nat>, key: string)
    ensures Sum(m[key := Get(m, key) + 1]) == Sum(m) + 1
  {
    var n := m[key := Get(m, key) + 1];
    SumRemove(n, key);
    if key in m {
      SumRemove(m, key);
      assert n - {key} == m - {key};
    } else {
      assert n - {key} == m;
    }
  }

  /** A tally adds one to the sum per name listed. */
  lemma {:induction false} TallySum(m: map<string, nat>, names: seq<string>)
    ensures Sum(Tally(m, names)) == Sum(m) + |names|
    decreases |names|
  {
    if names != [] {
      var m1 := m[names[0] := Get(m, names[0]) + 1];
      TallySum(m1, names[1..]);
      TallySumStep(m, names);
    }
  }

  /** One turn of the tally adds one to the sum. */
  lemma TallySumStep(m: map<string, nat>, names: seq<string>)
    requires names != []
    requires var m1 := m[names[0] := Get(m, names[0]) + 1];
             Sum(Tally(m1, names[1..])) == Sum(m1) + |names[1..]|
    ensures Sum(Tally(m, names)) == Sum(m) + |names|
  {
    var m1 := m[names[0] := Get(m, names[0]) + 1];
    assert Tally(m, names) == Tally(m1, names[1..]);
    SumBump(m, names[0]);
  }

  // ------------------------------------------------------ by manufacturer

  /** The manufacturer names of the items, in order. */
  function Makers(items: seq<Item>): (r: seq<string>)
    ensures |r| == |items| && forall i :: 0 <= i < |items| ==> r[i] == items[i].manufacturer
  {
    seq(|items|, i requires 0 <= i < |items| => items[i].manufacturer)
  }

  /** `groupingBy(manufacturer name, counting())`. */
  function ByManufacturer(items: seq<Item>): (r: map<string, nat>)
    ensures r.Keys == set i | 0 <= i < |items| :: items[i].manufacturer
  {
    var r := Tally(map[], Makers(items));
    assert r.Keys == set i | 0 <= i < |items| :: items[i].manufacturer by {
      assert forall i :: 0 <= i < |items| ==> Makers(items)[i] == items[i].manufacturer;
    }
    r
  }

  /** How many items have this manufacturer. */
  function MadeBy(items: seq<Item>, name: string): (r: nat)
    ensures r <= |items|
  {
    if items == [] then 0
    else (if items[0].manufacturer == name then 1 else 0) + MadeBy(items[1..], name)
  }

  lemma {:induction false} MakersCount(items: seq<Item>, name: string)
    ensures Occurrences(Makers(items), name) == MadeBy(items, name)
    decreases |items|
  {
    if items != [] {
      assert Makers(items)[1..] == Makers(items[1..]);
      MakersCount(items[1..], name);
    }
  }

  /** Each manufacturer's count is the number of its calculators, and the
      counts add up to the total. */
  lemma ByManufacturerCounts(items: seq<Item>)
    ensures forall name :: Get(ByManufacturer(items), name) == MadeBy(items, name)
    ensures Sum(ByManufacturer(items)) == |items|
  {
    forall name
      ensures Get(ByManufacturer(items), name) == MadeBy(items, name)
    {
      TallyCounts(map[], Makers(items), name);
      MakersCount(items, name);
    }
    TallySum(map[], Makers(items));
    assert Sum(map[]) == 0;
  }

  // ------------------------------------------------------------ by period

  /** The seven periods of `byPeriod`. */
  datatype Period = Unknown | Pre1970 | Decade(start: int) | Since2010

  const Periods: seq<Period> :=
    [Unknown, Pre1970, Decade(1970), Decade(1980), Decade(1990), Decade(2000), Since2010]

  const PeriodNames: seq<string> :=
    ["Unknown", "Pre-1970", "1970s", "1980s", "1990s", "2000s", "2010s+"]

  /** `soldFrom`, or `soldTo` when that is missing. */
  function From(it: Item): (r: Option<int>)
    ensures r.None? <==> it.soldFrom.None? && it.soldTo.None?
  {
    if it.soldFrom.Some? then it.soldFrom else it.soldTo
  }

  /** `soldTo`, or `soldFrom` when that is missing. */
  function To(it: Item): (r: Option<int>)
    ensures r.None? <==> it.soldFrom.None? && it.soldTo.None?
  {
    if it.soldTo.Some? then it.soldTo else it.soldFrom
  }

  /** The filter of each period. A decade takes a calculator when either
      year lies in it or the years span it. */
  predicate InPeriod(it: Item, p: Period) {
    match p
    case Unknown => it.soldFrom.None? && it.soldTo.None?
    case Pre1970 => it.soldTo.Some? && it.soldTo.value < 1970
    case Decade(d) =>
      && From(it).Some? && To(it).Some?
      && var (f, t) := (From(it).value, To(it).value);
         (d <= f < d + 10) || (d <= t < d + 10) || (f < d && t >= d + 10)
    case Since2010 => From(it).Some? && From(it).value >= 2010
  }

  /** How many items a period's filter keeps: some exactly when one of them
      is in the period, all exactly when every one is. */
  function CountIn(items: seq<Item>, p: Period): (r: nat)
    ensures r <= |items|
    ensures r > 0 <==> exists i :: 0 <= i < |items| && InPeriod(items[i], p)
    ensures r == |items| <==> forall i :: 0 <= i < |items| ==> InPeriod(items[i], p)
  {
    if items == [] then 0
    else
      assert forall i :: 1 <= i < |items| ==> items[1..][i - 1] == items[i];
      (if InPeriod(items[0], p) then 1 else 0) + CountIn(items[1..], p)
  }

  /** `byPeriod`: the seven periods in their fixed order with their counts. */
  function ByPeriod(items: seq<Item>): (r: seq<(string, nat)>)
    ensures |r| == 7
    ensures forall k :: 0 <= k < 7 ==> r[k] == (PeriodNames[k], CountIn(items, Periods[k]))
    ensures forall k :: 0 <= k < 7 ==> r[k].1 <= |items|
  {
    seq(7, k requires 0 <= k < 7 => (PeriodNames[k], CountIn(items, Periods[k])))
  }

  /** A calculator with neither year is counted as Unknown and nowhere else. */
  lemma UnknownAlone(it: Item, p: Period)
    requires InPeriod(it, Unknown) && p != Unknown
    ensures !InPeriod(it, p)
  {
  }

  /** So Unknown and any other period never count more than the total. */
  lemma {:induction false} UnknownDisjoint(items: seq<Item>, p: Period)
    requires p != Unknown
    ensures CountIn(items, Unknown) + CountIn(items, p) <= |items|
  {
    if items != [] {
      UnknownDisjoint(items[1..], p);
      if InPeriod(items[0], Unknown) {
        UnknownAlone(items[0], p);
      }
    }
  }

  /** Pre-1970 looks at the end year alone: a calculator first sold before
      1970 with no end year is not counted there. */
  lemma Pre1970NeedsEnd(it: Item)
    ensures InPeriod(it, Pre1970) <==> it.soldTo.Some? && it.soldTo.value < 1970
    ensures it.soldTo.None? ==> !InPeriod(it, Pre1970)
  {
  }

  /** For years in order, a decade takes exactly the calculators whose
      sales interval meets it. */
  lemma DecadeIsOverlap(it: Item, d: int)
    requires From(it).Some? && To(it).Some? && From(it).value <= To(it).value
    ensures InPeriod(it, Decade(d)) <==> From(it).value < d + 10 && To(it).value >= d
  {
  }

  /** With one year given, a decade takes the calculator iff that year
      lies in it. */
  lemma DecadeOfOneYear(it: Item, d: int)
    requires it.soldFrom.None? != it.soldTo.None?
    ensures var y := if it.soldFrom.Some? then it.soldFrom.value else it.soldTo.value;
            InPeriod(it, Decade(d)) <==> d <= y < d + 10
  {
  }

  /** 2010s+ looks at the start year alone: one sold from 2005 to 2015 is a
      2000s calculator but not a 2010s+ one. */
  lemma Since2010ByStart(it: Item)
    ensures InPeriod(it, Since2010) <==> From(it).Some? && From(it).value >= 2010
    ensures it.soldFrom == Some(2005) && it.soldTo == Some(2015) ==> !InPeriod(it, Since2010) && InPeriod(it, Decade(2000))
  {
  }

  /** A calculator falls in none of the seven periods exactly when it has
      no end year and no start year from 1970 on. */
  lemma NoPeriodGap(it: Item)
    ensures (forall k :: 0 <= k < |Periods| ==> !InPeriod(it, Periods[k]))
            <==> it.soldTo.None? && it.soldFrom.Some? && it.soldFrom.value < 1970
  {
    if it.soldTo.None? && it.soldFrom.Some? && it.soldFrom.value < 1970 {
      forall k | 0 <= k < |Periods|
        ensures !InPeriod(it, Periods[k])
      {
      }
    } else if it.soldFrom.None? && it.soldTo.None? {
      assert InPeriod(it, Periods[0]);
    } else {
      var f, t := From(it).value, To(it).value;
      if it.soldTo.Some? && t < 1970 {
        assert InPeriod(it, Periods[1]);
      } else if f >= 2010 {
        assert InPeriod(it, Periods[6]);
      } else if 1970 <= f < 1980 || (f < 1970 && t >= 1980) {
        assert InPeriod(it, Periods[2]);
      } else if 1980 <= f < 1990 {
        assert InPeriod(it, Periods[3]);
      } else if 1990 <= f < 2000 {
        assert InPeriod(it, Periods[4]);
      } else if 2000 <= f < 2010 {
        assert InPeriod(it, Periods[5]);
      } else {
        assert f < 1970 && 1970 <= t < 1980;
        assert InPeriod(it, Periods[2]);
      }
    }
  }

  /** The periods overlap, so their counts can add up to more than the
      total: one calculator sold from 1975 to 1985 is counted twice. */
  lemma PeriodsOverlap()
    ensures var items := [Item("HP", Some(1975), Some(1985), [])];
            CountIn(items, Decade(1970)) + CountIn(items, Decade(1980)) > |items|
  {
    var items := [Item("HP", Some(1975), Some(1985), [])];
    assert items[1..] == [];
    assert InPeriod(items[0], Decade(1970)) && InPeriod(items[0], Decade(1980));
  }

  // ------------------------------------------------------------- by label

  /** The `byLabel` loop over every collection calculator's labels. */
  function TallyLabels(m: map<string, nat>, items: seq<Item>): map<string, nat>
    decreases |items|
  {
    if items == [] then m else TallyLabels(Tally(m, items[0].labels), items[1..])
  }

  function ByLabel(items: seq<Item>): (r: map<string, nat>)
    ensures forall name :: name in r ==> exists i :: 0 <= i < |items| && name in items[i].labels
  {
    var r := TallyLabels(map[], items);
    LabelKeys(map[], items);
    r
  }

  lemma {:induction false} LabelKeys(m: map<string, nat>, items: seq<Item>)
    ensures forall name :: name in TallyLabels(m, items) ==>
              name in m || exists i :: 0 <= i < |items| && name in items[i].labels
    decreases |items|
  {
    if items != [] {
      var m1 := Tally(m, items[0].labels);
      LabelKeys(m1, items[1..]);
      forall name | name in TallyLabels(m, items) && name !in m
        ensures exists i :: 0 <= i < |items| && name in items[i].labels
      {
        if name in m1 {
          assert name in items[0].labels;
        } else {
          var i :| 0 <= i < |items[1..]| && name in items[1..][i].labels;
          assert name in items[i + 1].labels;
        }
      }
    }
  }

  /** A list with no name twice, as a calculator's labels are. */
  predicate NoRepeats(names: seq<string>) {
    forall i, j :: 0 <= i < j < |names| ==> names[i] != names[j]
  }

  lemma {:induction false} OnceAtMost(names: seq<string>, key: string)
    requires NoRepeats(names)
    ensures Occurrences(names, key) == if key in names then 1 else 0
    decreases |names|
  {
    if names != [] {
      OnceAtMost(names[1..], key);
      if names[0] == key {
        assert key !in names[1..] by {
          forall j | 0 <= j < |names[1..]| ensures names[1..][j] != key {
            assert names[1..][j] == names[j + 1];
          }
        }
      }
    }
  }

  /** How many items carry the label. */
  function Carrying(items: seq<Item>, name: string): (r: nat)
    ensures r <= |items|
  {
    if items == [] then 0
    else (if name in items[0].labels then 1 else 0) + Carrying(items[1..], name)
  }

  lemma {:induction false} TallyLabelsCounts(m: map<string, nat>, items: seq<Item>, name: string)
    requires forall i :: 0 <= i < |items| ==> NoRepeats(items[i].labels)
    ensures Get(TallyLabels(m, items), name) == Get(m, name) + Carrying(items, name)
    decreases |items|
  {
    if items != [] {
      TallyCounts(m, items[0].labels, name);
      OnceAtMost(items[0].labels, name);
      TallyLabelsCounts(Tally(m, items[0].labels), items[1..], name);
    }
  }

  /** Each label's count is the number of collection calculators carrying
      it, since a calculator carries a label at most once. */
  lemma ByLabelCounts(items: seq<Item>, name: string)
    requires forall i :: 0 <= i < |items| ==> NoRepeats(items[i].labels)
    ensures Get(ByLabel(items), name) == Carrying(items, name)
  {
    TallyLabelsCounts(map[], items, name);
  }

  // ----------------------------------------------------------- the whole

  datatype Stats = Stats(
    byManufacturer: map<string, nat>,
    byPeriod: seq<(string, nat)>,
    byLabel: map<string, nat>,
    total: nat)

  /** `getCollectionStatistics` over the collection's calculators. */
  function CollectionStatistics(items: seq<Item>): (r: Stats)
    ensures r.total == |items| && Sum(r.byManufacturer) == r.total
    ensures forall name :: Get(r.byManufacturer, name) == MadeBy(items, name)
    ensures |r.byPeriod| == 7 && forall k :: 0 <= k < 7 ==> r.byPeriod[k].0 == PeriodNames[k] && r.byPeriod[k].1 <= r.total
    ensures forall k :: 0 <= k < 7 ==> r.byPeriod[k].1 == CountIn(items, Periods[k])
    ensures (forall i :: 0 <= i < |items| ==> NoRepeats(items[i].labels)) ==>
              forall name :: Get(r.byLabel, name) == Carrying(items, name)
  {
    ByManufacturerCounts(items);
    if forall i :: 0 <= i < |items| ==> NoRepeats(items[i].labels) then
      forall name | true
        ensures Get(ByLabel(items), name) == Carrying(items, name)
      {
        ByLabelCounts(items, name);
      }
      Stats(ByManufacturer(items), ByPeriod(items), ByLabel(items), |items|)
    else
      Stats(ByManufacturer(items), ByPeriod(items), ByLabel(items), |items|)
  }
}
