/** The technical-specification table `enrichCalculator` fills from the
    texts it analyses. Each analysed text offers at most one value per key;
    the texts are visited in order and a key, once set, keeps its first
    value. What a text offers is computed elsewhere (see EnrichAnalysis);
    here a text is represented by its offers. */
module SpecTable {
  import opened Wrappers
  import opened OrderedMap

  /** The six entries of the table, listed as they are tried on a text. */
  datatype SpecKey = DisplayTypeSpec | DisplayWidthSpec | ResolutionSpec | ProcessorSpec | OsSpec | PowerSpec

  /** The key as the description prints it. */
  function KeyName(k: SpecKey): string {
    match k
    case DisplayTypeSpec => "Display Type"
    case DisplayWidthSpec => "Display Width"
    case ResolutionSpec => "Resolution"
    case ProcessorSpec => "Processor"
    case OsSpec => "OS/Firmware"
    case PowerSpec => "Power Supply"
  }

  /** What one text offers for each key of the table. */
  datatype TextOffers = TextOffers(
    display: Option<string>, width: Option<string>, resolution: Option<string>,
    processor: Option<string>, os: Option<string>, power: Option<string>)

  /** The value offered for a key of the table. */
  function Offer(o: TextOffers, key: SpecKey): Option<string> {
    match key
    case DisplayTypeSpec => o.display
    case DisplayWidthSpec => o.width
    case ResolutionSpec => o.resolution
    case ProcessorSpec => o.processor
    case OsSpec => o.os
    case PowerSpec => o.power
  }

  type Specs = Dict<SpecKey, string>

  /** `if (matched && !containsKey(key)) put(key, value)`. */
  function PutOffer(d: Specs, key: SpecKey, v: Option<string>): (r: Specs)
    requires Valid(d)
    ensures Valid(r)
    ensures Get(r, key) == if HasKey(d, key) then Get(d, key) else v
    ensures forall k :: k != key ==> Get(r, k) == Get(d, k)
  {
    if v.Some? then PutIfAbsent(d, key, v.value) else d
  }

  /** The position of a key in the order the patterns are tried; the power
      supply comes last. */
  function Rank(k: SpecKey): nat {
    match k
    case DisplayTypeSpec => 0
    case DisplayWidthSpec => 1
    case ResolutionSpec => 2
    case ProcessorSpec => 3
    case OsSpec => 4
    case PowerSpec => 5
  }

  /** The key tried after `k`. */
  function Next(k: SpecKey): (r: SpecKey)
    requires k != PowerSpec
    ensures Rank(r) == Rank(k) + 1
  {
    match k
    case DisplayTypeSpec => DisplayWidthSpec
    case DisplayWidthSpec => ResolutionSpec
    case ResolutionSpec => ProcessorSpec
    case ProcessorSpec => OsSpec
    case OsSpec => PowerSpec
  }

  /** The pattern offers from key `k` on, each stored unless its key is
      already present. */
  function PatternsFrom(d: Specs, o: TextOffers, k: SpecKey): (r: Specs)
    requires Valid(d) && k != PowerSpec
    ensures Valid(r)
    ensures forall k' :: Get(r, k') == if Rank(k) <= Rank(k') < Rank(PowerSpec) && !HasKey(d, k') then Offer(o, k') else Get(d, k')
    decreases Rank(PowerSpec) - Rank(k)
  {
    var d1 := PutOffer(d, k, Offer(o, k));
    assert forall k' :: HasKey(d1, k') <==> Get(d1, k').Some?;
    if k == OsSpec then d1 else PatternsFrom(d1, o, Next(k))
  }

  /** One text's pass over the table: the five patterns, then the power
      supply. */
  function SpecsFrom(d: Specs, o: TextOffers): (r: Specs)
    requires Valid(d)
    ensures Valid(r)
  {
    PutOffer(PatternsFrom(d, o, DisplayTypeSpec), PowerSpec, o.power)
  }

  /** After one text's pass, a key already present keeps its value and an
      absent one takes what this text offers. */
  lemma SpecsFromOffer(d: Specs, o: TextOffers, k: SpecKey)
    requires Valid(d)
    ensures Get(SpecsFrom(d, o), k) == if HasKey(d, k) then Get(d, k) else Offer(o, k)
  {
    var d5 := PatternsFrom(d, o, DisplayTypeSpec);
    if k == PowerSpec {
      assert HasKey(d5, k) == HasKey(d, k);
    }
  }

  /** The passes of the analysed texts, in order. */
  function SpecsOver(d: Specs, offers: seq<TextOffers>): (r: Specs)
    requires Valid(d)
    ensures Valid(r)
    decreases |offers|
  {
    if |offers| == 0 then d else SpecsOver(SpecsFrom(d, offers[0]), offers[1..])
  }

  /** The value of the first text that offers one for `key`. */
  function FirstOffer(offers: seq<TextOffers>, key: SpecKey): Option<string> {
    if |offers| == 0 then None
    else if Offer(offers[0], key).Some? then Offer(offers[0], key)
    else FirstOffer(offers[1..], key)
  }

  lemma {:induction false} SpecsOverFirstWins(d: Specs, offers: seq<TextOffers>, key: SpecKey)
    requires Valid(d)
    ensures Get(SpecsOver(d, offers), key) == if HasKey(d, key) then Get(d, key) else FirstOffer(offers, key)
    decreases |offers|
  {
    if |offers| > 0 {
      SpecsFromOffer(d, offers[0], key);
      SpecsOverFirstWins(SpecsFrom(d, offers[0]), offers[1..], key);
    }
  }

  /** The table of a run of texts, starting empty. */
  function BuildSpecs(offers: seq<TextOffers>): (r: Specs)
    ensures Valid(r)
  {
    SpecsOver(Empty(), offers)
  }

  /** First wins: every entry of the table is the value of the earliest text
      offering one for its key, and a key no text offers is absent. */
  lemma BuildSpecsFirstWins(offers: seq<TextOffers>, key: SpecKey)
    ensures Get(BuildSpecs(offers), key) == FirstOffer(offers, key)
  {
    SpecsOverFirstWins(Empty(), offers, key);
  }

  // ------------------------------------------- the battery branch as written

  /** The passes as the code is written: the power-supply chain of a text
      runs only while the key is absent, and there it can throw, which ends
      the whole extraction. `powers[i]` is what the chain does on the i-th
      text: the value it returns, or the exception it throws. */
  function SpecsOverAsWritten(d: Specs, offers: seq<TextOffers>, powers: seq<Result<Option<string>>>): (r: Result<Specs>)
    requires Valid(d) && |powers| == |offers|
    ensures r.Ok? ==> r.value == SpecsOver(d, offers)
    decreases |offers|
  {
    if |offers| == 0 then Ok(d)
    else if !HasKey(d, PowerSpec) && powers[0].Err? then Err(powers[0].error)
    else SpecsOverAsWritten(SpecsFrom(d, offers[0]), offers[1..], powers[1..])
  }

  /** As written, the extraction fails as soon as a text whose power-supply
      chain throws is reached while no earlier text has set the power
      supply. */
  lemma {:induction false} ThrowingSourceAborts(d: Specs, offers: seq<TextOffers>, powers: seq<Result<Option<string>>>, i: nat)
    requires Valid(d) && |powers| == |offers| && i < |offers|
    requires powers[i].Err? && !HasKey(d, PowerSpec)
    requires forall j :: 0 <= j < i ==> offers[j].power.None?
    ensures SpecsOverAsWritten(d, offers, powers).Err?
    decreases i
  {
    if i > 0 && powers[0].Ok? {
      var d1 := SpecsFrom(d, offers[0]);
      PowerStaysAbsent(d, offers[0]);
      NoPowerShift(offers, i);
      assert powers[1..][i - 1] == powers[i];
      ThrowingSourceAborts(d1, offers[1..], powers[1..], i - 1);
      AsWrittenStep(d, offers, powers);
    } else {
      assert SpecsOverAsWritten(d, offers, powers) == Err(powers[0].error);
    }
  }

  lemma NoPowerShift(offers: seq<TextOffers>, i: nat)
    requires 0 < i <= |offers|
    requires forall j :: 0 <= j < i ==> offers[j].power.None?
    ensures forall j :: 0 <= j < i - 1 ==> offers[1..][j].power.None?
  {
    forall j | 0 <= j < i - 1 ensures offers[1..][j].power.None? {
      assert offers[1..][j] == offers[j + 1];
    }
  }

  /** A failure after a text passed without the chain throwing is a
      failure of the whole run. */
  lemma AsWrittenStep(d: Specs, offers: seq<TextOffers>, powers: seq<Result<Option<string>>>)
    requires Valid(d) && |powers| == |offers| > 0
    ensures powers[0].Ok? && SpecsOverAsWritten(SpecsFrom(d, offers[0]), offers[1..], powers[1..]).Err? ==>
              SpecsOverAsWritten(d, offers, powers).Err?
  {
  }

  /** A text that offers no power supply leaves it absent. */
  lemma PowerStaysAbsent(d: Specs, o: TextOffers)
    requires Valid(d) && !HasKey(d, PowerSpec) && o.power.None?
    ensures !HasKey(SpecsFrom(d, o), PowerSpec)
  {
    SpecsFromOffer(d, o, PowerSpec);
  }
}
