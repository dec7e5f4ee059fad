/** `WishlistService`: a user's wish list of calculators, each item with
    notes and one search query per marketplace, the default query built from
    the calculator, and the marketplace search URLs. */
module Wishlist {
  import opened Wrappers
  import opened JavaText
  import opened Catalog
  import Clock
  import SearchQuery
  import FormEncoding

  // ------------------------------------------------------------- type word

  /** The type word from a calculator's label names: "mechanical" when
      any is Mechanical ignoring case, else "electromechanical" when any is
      Electromechanical, else "electronic". The names are compared in lower
      case, so "mechanical" stands for `"Mechanical".toLowerCase()`. */
  function TypeOf(names: set<string>): (r: string)
    ensures r == "mechanical" <==> exists n :: n in names && Lower(n) == "mechanical"
    ensures r == "electromechanical" <==>
              (forall n :: n in names ==> Lower(n) != "mechanical")
              && exists n :: n in names && Lower(n) == "electromechanical"
  {
    if exists n :: n in names && Lower(n) == "mechanical" then "mechanical"
    else if exists n :: n in names && Lower(n) == "electromechanical" then "electromechanical"
    else "electronic"
  }

  /** The label loop of `generateDefaultSearchQuery`, over the labels in
      the order the repository lists them: it stops at Mechanical and only
      notes Electromechanical. Whatever the order, the outcome is the type
      word of the set of names, which is also the word the enrichment query
      uses. */
  method LabelLoop(labels: seq<string>) returns (t: string)
    ensures t == TypeOf(set i | 0 <= i < |labels| :: labels[i])
    ensures t == SearchQuery.TypeWord(labels)
  {
    SearchQuery.TypeWordPriority(labels);
    t := "electronic";
    var i := 0;
    while i < |labels|
      invariant 0 <= i <= |labels|
      invariant forall j :: 0 <= j < i ==> Lower(labels[j]) != "mechanical"
      invariant t == if exists j :: 0 <= j < i && Lower(labels[j]) == "electromechanical" then "electromechanical" else "electronic"
    {
      if Lower(labels[i]) == "mechanical" {
        t := "mechanical";
        break;
      } else if Lower(labels[i]) == "electromechanical" {
        t := "electromechanical";
      }
      i := i + 1;
    }
    ghost var names := set i | 0 <= i < |labels| :: labels[i];
    if t == "mechanical" {
      assert labels[i] in names;
    } else {
      assert forall n :: n in names ==> Lower(n) != "mechanical";
      if t == "electromechanical" {
        var j :| 0 <= j < |labels| && Lower(labels[j]) == "electromechanical";
        assert labels[j] in names;
      } else {
        assert forall n :: n in names ==> Lower(n) != "electromechanical";
      }
    }
  }

  // ----------------------------------------------------------- default query

  /** The query is prefixed with "vintage" unless the calculator was first
      sold after 2000. */
  predicate IsVintage(soldFrom: Option<int>) {
    soldFrom.None? || soldFrom.value <= 2000
  }

  /** The builder of `generateDefaultSearchQuery`, step by step, then
      trimmed; null when nothing was appended. `lead` is "vintage " or
      nothing, `m` and `d` are the trimmed manufacturer name and model, and
      `tail` is what the type step appends. */
  function Steps(lead: string, m: string, d: string, tail: string): Option<string> {
    var q1 := lead + m;
    var q2 := if d != "" then (if |q1| > 0 && !EndsWith(q1, " ") then q1 + " " else q1) + d else q1;
    var q3 := if |q2| > 0 then q2 + tail else q2;
    if |q3| > 0 then Some(Trim(q3)) else None
  }

  /** What the type step appends: a space, the type word, " calculator". */
  function Tail(typeWord: string): string {
    " " + (typeWord + (" " + "calculator"))
  }

  /** `generateDefaultSearchQuery` for a calculator with the given first
      sale year, manufacturer name, model and type word. */
  function DefaultQuery(soldFrom: Option<int>, manufacturer: string, model: string, typeWord: string): Option<string> {
    Steps(if IsVintage(soldFrom) then "vintage" + " " else "", Trim(manufacturer), Trim(model), Tail(typeWord))
  }

  // Words separated by single spaces.

  function Spaced(ws: seq<string>): string
    requires |ws| > 0
    decreases |ws|
  {
    if |ws| == 1 then ws[0] else ws[0] + (" " + Spaced(ws[1..]))
  }

  lemma Assoc(a: string, b: string, c: string)
    ensures (a + b) + c == a + (b + c)
  {
  }

  /** `String.join(" ", ws)` is the words separated by single spaces. */
  lemma {:induction false} JoinIsSpaced(ws: seq<string>)
    requires |ws| > 0
    ensures Join(ws, " ") == Spaced(ws)
    decreases |ws|
  {
    if |ws| > 1 {
      JoinIsSpaced(ws[1..]);
      Assoc(ws[0], " ", Spaced(ws[1..]));
    }
  }

  /** A trimmed word: not empty, and neither end blank. */
  predicate Word(s: string) {
    s != "" && !IsTrimmed(s[0]) && !IsTrimmed(s[|s| - 1])
  }

  /** Words separated by spaces start and end with a unit trimming keeps. */
  lemma {:induction false} SpacedEnds(ws: seq<string>)
    requires |ws| > 0 && forall i :: 0 <= i < |ws| ==> Word(ws[i])
    ensures Word(Spaced(ws))
    decreases |ws|
  {
    if |ws| > 1 {
      SpacedEnds(ws[1..]);
      var r := Spaced(ws[1..]);
      var s := ws[0] + (" " + r);
      assert s[0] == ws[0][0];
      assert s[|s| - 1] == r[|r| - 1];
    }
  }

  lemma SpacedTrimmed(ws: seq<string>)
    requires |ws| > 0 && forall i :: 0 <= i < |ws| ==> Word(ws[i])
    ensures Trim(Spaced(ws)) == Spaced(ws)
  {
    SpacedEnds(ws);
    TrimOfTrimmed(Spaced(ws));
  }

  /** A word does not end with a space. */
  lemma NoSpaceAtEnd(s: string)
    requires Word(s)
    ensures !EndsWith(s, " ")
  {
    assert s[|s| - 1..] == [s[|s| - 1]];
  }

  /** The query words: the lead word when there is one, then the trimmed
      manufacturer name and model when not blank. */
  function Words(lead: seq<string>, m: string, d: string): seq<string> {
    lead + (if m != "" then [m] else []) + (if d != "" then [d] else [])
  }

  /** The type step's text: a space, then the type word and the final
      word separated by a space. */
  lemma TailSpaced(t: string, c: string)
    ensures " " + (t + (" " + c)) == " " + Spaced([t, c])
  {
    assert [t, c][1..] == [c];
  }

  /** Without a lead word: the words separated by single spaces, and null
      when neither manufacturer nor model is there. */
  lemma NoLeadShape(m: string, d: string, t: string, c: string)
    requires (m == "" || Word(m)) && (d == "" || Word(d)) && Word(t) && Word(c)
    ensures m == "" && d == "" ==> Steps("", m, d, " " + (t + (" " + c))).None?
    ensures m != "" || d != "" ==> Steps("", m, d, " " + (t + (" " + c))) == Some(Spaced(Words([], m, d) + [t, c]))
  {
    TailSpaced(t, c);
    var tail := " " + Spaced([t, c]);
    assert "" + m == m;
    if m == "" && d != "" {
      var ws := [d, t, c];
      assert "" + d == d;
      assert Words([], m, d) + [t, c] == ws && ws[1..] == [t, c];
      SpacedTrimmed(ws);
    } else if m != "" && d == "" {
      var ws := [m, t, c];
      assert Words([], m, d) + [t, c] == ws && ws[1..] == [t, c];
      SpacedTrimmed(ws);
    } else if m != "" {
      var ws := [m, d, t, c];
      assert Words([], m, d) + [t, c] == ws && ws[1..] == [d, t, c] && ws[1..][1..] == [t, c];
      NoSpaceAtEnd(m);
      Assoc(m + " ", d, tail);
      Assoc(m, " ", d + tail);
      SpacedTrimmed(ws);
    }
  }

  /** With the lead word `w` alone: a double space before the type. */
  lemma LeadAlone(w: string, t: string, c: string)
    requires Word(w) && Word(t) && Word(c)
    ensures Steps(w + " ", "", "", " " + (t + (" " + c))) == Some(w + (" " + (" " + (t + (" " + c)))))
  {
    TailSpaced(t, c);
    var tc := Spaced([t, c]);
    var tail := " " + tc;
    var v := w + " ";
    assert v + "" == v;
    Assoc(w, " ", tail);
    SpacedEnds([t, c]);
    var s := w + (" " + tail);
    assert s[0] == w[0];
    assert s[|s| - 1] == tc[|tc| - 1];
    TrimOfTrimmed(s);
  }

  /** With the lead word `w` and one more word `x`: single spaces. */
  lemma LeadAndOne(w: string, m: string, d: string, t: string, c: string)
    requires Word(w) && Word(t) && Word(c)
    requires (m == "" && Word(d)) || (Word(m) && d == "")
    ensures Steps(w + " ", m, d, " " + (t + (" " + c))) == Some(Spaced(Words([w], m, d) + [t, c]))
  {
    TailSpaced(t, c);
    var tail := " " + Spaced([t, c]);
    var v := w + " ";
    var x := if m == "" then d else m;
    assert EndsWith(v, " ") by { assert v[|v| - 1..] == " "; }
    assert v + "" == v;
    var ws := [w, x, t, c];
    assert Words([w], m, d) + [t, c] == ws && ws[1..] == [x, t, c] && ws[1..][1..] == [t, c];
    Assoc(v, x, tail);
    Assoc(w, " ", x + tail);
    SpacedTrimmed(ws);
  }

  /** With the lead word, the manufacturer and the model: single spaces. */
  lemma LeadAndTwo(w: string, m: string, d: string, t: string, c: string)
    requires Word(w) && Word(m) && Word(d) && Word(t) && Word(c)
    ensures Steps(w + " ", m, d, " " + (t + (" " + c))) == Some(Spaced(Words([w], m, d) + [t, c]))
  {
    TailSpaced(t, c);
    var tail := " " + Spaced([t, c]);
    var v := w + " ";
    var ws := [w, m, d, t, c];
    assert Words([w], m, d) + [t, c] == ws && ws[1..] == [m, d, t, c];
    assert ws[1..][1..] == [d, t, c] && ws[1..][1..][1..] == [t, c];
    var q1 := v + m;
    assert q1[0] == w[0] && q1[|q1| - 1] == m[|m| - 1];
    NoSpaceAtEnd(q1);
    var rest := " " + (d + tail);
    assert !EndsWith(q1, " ");
    Assoc(q1 + " ", d, tail);
    Assoc(q1, " ", d + tail);
    Assoc(v, m, rest);
    Assoc(w, " ", m + rest);
    assert Spaced(ws[1..][1..]) == d + tail;
    assert Spaced(ws[1..]) == m + rest;
    assert Spaced(ws) == w + (" " + (m + rest));
    SpacedTrimmed(ws);
  }

  /** The words the default query starts with. */
  function QueryWords(soldFrom: Option<int>, manufacturer: string, model: string): seq<string> {
    Words(if IsVintage(soldFrom) then ["vintage"] else [], Trim(manufacturer), Trim(model))
  }

  /** The default query: "vintage" when it applies, the trimmed
      manufacturer name and the trimmed model when not blank, then the type
      word and "calculator", joined by single spaces; null when there is
      none of the first three. The one exception is a vintage calculator
      whose manufacturer and model are both blank: its query has two spaces
      after "vintage", since the model step sees the trailing space and adds
      none but the type step adds one regardless. */
  lemma DefaultQueryShape(soldFrom: Option<int>, manufacturer: string, model: string, typeWord: string)
    requires Word(typeWord)
    ensures var ws := QueryWords(soldFrom, manufacturer, model);
            var q := DefaultQuery(soldFrom, manufacturer, model, typeWord);
            var odd := IsVintage(soldFrom) && Trim(manufacturer) == "" && Trim(model) == "";
            && (ws == [] <==> q.None?)
            && (odd ==> q == Some("vintage" + (" " + Tail(typeWord))))
            && (ws != [] && !odd ==> q == Some(Join(ws + [typeWord, "calculator"], " ")))
  {
    var m, d := Trim(manufacturer), Trim(model);
    assert Word("calculator") && Word("vintage");
    var ws := QueryWords(soldFrom, manufacturer, model);
    if IsVintage(soldFrom) {
      if m == "" && d == "" {
        LeadAlone("vintage", typeWord, "calculator");
      } else if m == "" || d == "" {
        LeadAndOne("vintage", m, d, typeWord, "calculator");
      } else {
        LeadAndTwo("vintage", m, d, typeWord, "calculator");
      }
    } else {
      NoLeadShape(m, d, typeWord, "calculator");
    }
    if ws != [] {
      JoinIsSpaced(ws + [typeWord, "calculator"]);
    }
  }

  /** The default query of a catalogue calculator. */
  function DefaultQueryOf(c: Catalog, id: nat): Option<string>
    requires Valid(c) && id in c.calculators
  {
    var cal := c.calculators[id];
    DefaultQuery(cal.soldFrom, ManufacturerName(c, id), cal.model, TypeOf(LabelNamesOf(c, id)))
  }

  // ---------------------------------------------------------------- items

  datatype Item = Item(
    notes: Option<string>,
    marktplaatsQuery: Option<string>,
    ebayQuery: Option<string>,
    etsyQuery: Option<string>,
    addedAt: Clock.DateTime)

  type Items = map<(string, nat), Item>

  /** The three queries all set to the default when there is a non-blank
      one, and all unset otherwise. */
  function WithDefaults(item: Item, query: Option<string>): (r: Item)
    ensures r.notes == item.notes && r.addedAt == item.addedAt
    ensures r.marktplaatsQuery == r.ebayQuery == r.etsyQuery
    ensures r.marktplaatsQuery == if Filled(query) then query else None
  {
    if Filled(query) then item.(marktplaatsQuery := query, ebayQuery := query, etsyQuery := query)
    else item.(marktplaatsQuery := None, ebayQuery := None, etsyQuery := None)
  }

  /** `addToWishlist`: false, with nothing changed, when the item exists or
      the calculator does not; otherwise a new item with the trimmed notes
      (unset when blank) and every query set to the default query. */
  function AddToWishlist(c: Catalog, items: Items, user: string, id: nat, notes: Option<string>, now: Clock.DateTime): (r: (Items, bool))
    requires Valid(c)
    ensures r.1 <==> (user, id) !in items && id in c.calculators
    ensures !r.1 ==> r.0 == items
    ensures r.1 ==> r.0.Keys == items.Keys + {(user, id)} && forall k :: k in items ==> r.0[k] == items[k]
    ensures r.1 ==> var item := r.0[(user, id)];
              && item.addedAt == now
              && (item.notes.Some? <==> Filled(notes))
              && (item.notes.Some? ==> item.notes.value == Trim(notes.value))
              && item.marktplaatsQuery == item.ebayQuery == item.etsyQuery == DefaultQueryOf(c, id)
  {
    if (user, id) in items then (items, false)
    else if id !in c.calculators then (items, false)
    else
      DefaultQueryFilled(c, id);
      (items[(user, id) := NewItem(notes, DefaultQueryOf(c, id), now)], true)
  }

  /** A new item: trimmed notes, unset when blank, and every query set to
      the given one. */
  function NewItem(notes: Option<string>, query: Option<string>, now: Clock.DateTime): (r: Item)
    requires query.Some? ==> Filled(query)
    ensures r.addedAt == now
    ensures r.notes.Some? <==> Filled(notes)
    ensures r.notes.Some? ==> r.notes.value == Trim(notes.value)
    ensures r.marktplaatsQuery == r.ebayQuery == r.etsyQuery == query
  {
    WithDefaults(Item(if Filled(notes) then Some(Trim(notes.value)) else None, None, None, None, now), query)
  }

  /** The builder's text, when there is one, ends with the last unit of
      the tail, so it is never blank. */
  lemma StepsFilled(lead: string, m: string, d: string, t: string, c: string)
    requires Word(c)
    ensures var q := Steps(lead, m, d, " " + (t + (" " + c)));
            q.Some? ==> Filled(q)
  {
    var tail := " " + (t + (" " + c));
    assert tail[|tail| - 1] == c[|c| - 1];
    var q1 := lead + m;
    var q2 := if d != "" then (if |q1| > 0 && !EndsWith(q1, " ") then q1 + " " else q1) + d else q1;
    if |q2| > 0 {
      var q3 := q2 + tail;
      assert q3[|q3| - 1] == tail[|tail| - 1];
      TrimNonEmptyAt(q3, |q3| - 1);
      TrimIdempotent(q3);
    }
  }

  /** A default query, when there is one, is never blank: it ends with
      "calculator". */
  lemma DefaultQueryFilled(c: Catalog, id: nat)
    requires Valid(c) && id in c.calculators
    ensures DefaultQueryOf(c, id).Some? ==> Filled(DefaultQueryOf(c, id))
  {
    var cal := c.calculators[id];
    var t := TypeOf(LabelNamesOf(c, id));
    assert Word("calculator");
    StepsFilled(if IsVintage(cal.soldFrom) then "vintage" + " " else "", Trim(ManufacturerName(c, id)), Trim(cal.model), t, "calculator");
  }

  /** `removeFromWishlist`: true iff the item existed; afterwards
      `isInWishlist` is false and every other item is as it was. */
  function RemoveFromWishlist(items: Items, user: string, id: nat): (r: (Items, bool))
    ensures r.1 <==> (user, id) in items
    ensures r.0 == items - {(user, id)}
    ensures !IsInWishlist(r.0, user, id)
  {
    if (user, id) in items then (items - {(user, id)}, true) else (items, false)
  }

  /** `isInWishlist`. */
  predicate IsInWishlist(items: Items, user: string, id: nat) {
    (user, id) in items
  }

  /** `updateWishlistNotes`: false for an absent item; otherwise the notes
      become the trimmed text, or unset for null. */
  function UpdateWishlistNotes(items: Items, user: string, id: nat, notes: Option<string>): (r: (Items, bool))
    ensures r.1 <==> (user, id) in items
    ensures r.0.Keys == items.Keys
    ensures forall k :: k in items && k != (user, id) ==> r.0[k] == items[k]
    ensures r.1 ==> r.0[(user, id)] == items[(user, id)].(notes := if notes.Some? then Some(Trim(notes.value)) else None)
  {
    if (user, id) !in items then (items, false)
    else (items[(user, id) := items[(user, id)].(notes := if notes.Some? then Some(Trim(notes.value)) else None)], true)
  }

  /** A query as the form gives it: trimmed, and unset when blank. */
  function CleanQuery(q: Option<string>): (r: Option<string>)
    ensures r.Some? <==> Filled(q)
    ensures r.Some? ==> r.value == Trim(q.value) && Trim(r.value) == r.value && r.value != ""
  {
    if q.Some? && Trim(q.value) != "" then TrimIdempotent(q.value); Some(Trim(q.value)) else None
  }

  /** Cleaning is idempotent: a cleaned query is cleaned to itself. */
  lemma CleanQueryIdempotent(q: Option<string>)
    ensures CleanQuery(CleanQuery(q)) == CleanQuery(q)
  {
  }

  /** `updateWishlistSearchQueries`: false for an absent item; otherwise the
      three queries, each cleaned. */
  function UpdateWishlistSearchQueries(items: Items, user: string, id: nat,
                                       marktplaats: Option<string>, ebay: Option<string>, etsy: Option<string>): (r: (Items, bool))
    ensures r.1 <==> (user, id) in items
    ensures r.0.Keys == items.Keys
    ensures forall k :: k in items && k != (user, id) ==> r.0[k] == items[k]
    ensures r.1 ==> var item := r.0[(user, id)];
              && item.notes == items[(user, id)].notes && item.addedAt == items[(user, id)].addedAt
              && item.marktplaatsQuery == CleanQuery(marktplaats)
              && item.ebayQuery == CleanQuery(ebay)
              && item.etsyQuery == CleanQuery(etsy)
  {
    if (user, id) !in items then (items, false)
    else
      var item := items[(user, id)];
      (items[(user, id) := item.(marktplaatsQuery := CleanQuery(marktplaats), ebayQuery := CleanQuery(ebay),
                                 etsyQuery := CleanQuery(etsy))], true)
  }

  /** `resetWishlistSearchQueriesToDefault`: false for an absent item;
      otherwise all three queries become the default query of the item's
      calculator, or all unset when it has none. */
  function ResetWishlistSearchQueries(c: Catalog, items: Items, user: string, id: nat): (r: (Items, bool))
    requires Valid(c)
    requires forall k :: k in items ==> k.1 in c.calculators
    ensures r.1 <==> (user, id) in items
    ensures r.0.Keys == items.Keys
    ensures forall k :: k in items && k != (user, id) ==> r.0[k] == items[k]
    ensures r.1 ==> var item := r.0[(user, id)];
              && item.notes == items[(user, id)].notes
              && item.marktplaatsQuery == item.ebayQuery == item.etsyQuery == DefaultQueryOf(c, id)
  {
    if (user, id) !in items then (items, false)
    else
      DefaultQueryFilled(c, id);
      (items[(user, id) := WithDefaults(items[(user, id)], DefaultQueryOf(c, id))], true)
  }

  /** Resetting right after adding changes nothing: a new item already
      holds the default queries. */
  lemma ResetAfterAdd(c: Catalog, items: Items, user: string, id: nat, notes: Option<string>, now: Clock.DateTime)
    requires Valid(c) && forall k :: k in items ==> k.1 in c.calculators
    requires AddToWishlist(c, items, user, id, notes, now).1
    ensures var items' := AddToWishlist(c, items, user, id, notes, now).0;
            ResetWishlistSearchQueries(c, items', user, id) == (items', true)
  {
    var items' := AddToWishlist(c, items, user, id, notes, now).0;
    DefaultQueryFilled(c, id);
    assert items'[(user, id) := WithDefaults(items'[(user, id)], DefaultQueryOf(c, id))] == items';
  }

  // -------------------------------------------------------------------- URLs

  /** A marketplace search URL: null for a null or blank query, otherwise
      the prefix, the form-encoded trimmed query and the suffix. */
  function SearchUrl(prefix: string, suffix: string, query: Option<string>): (r: Option<string>)
    ensures r.None? <==> !Filled(query)
    ensures r.Some? ==>
              && |r.value| >= |prefix| + |suffix| && StartsWith(r.value, prefix) && EndsWith(r.value, suffix)
              && FormEncoding.Decode(r.value[|prefix|..|r.value| - |suffix|]) == Some(Trim(query.value))
  {
    if query.None? || Trim(query.value) == "" then None
    else
      var e := FormEncoding.Encode(Trim(query.value));
      var u := prefix + e + suffix;
      Framed(prefix, e, suffix);
      FormEncoding.DecodeEncode(Trim(query.value));
      Some(u)
  }

  lemma Framed(p: string, e: string, s: string)
    ensures StartsWith(p + e + s, p) && EndsWith(p + e + s, s)
    ensures (p + e + s)[|p|..|p + e + s| - |s|] == e
  {
    var u := p + e + s;
    assert u[..|p|] == p && u[|u| - |s|..] == s;
  }

  /** `generateMarktplaatsUrl`. */
  function MarktplaatsUrl(query: Option<string>): Option<string> {
    SearchUrl("https://www.marktplaats.nl/q/", "/", query)
  }

  /** `generateEbayUrl`. */
  function EbayUrl(query: Option<string>): Option<string> {
    SearchUrl("https://www.ebay.nl/sch/i.html?_nkw=", "", query)
  }

  /** `generateEtsyUrl`. */
  function EtsyUrl(query: Option<string>): Option<string> {
    SearchUrl("https://www.etsy.com/nl/search?q=", "", query)
  }
}
