/** The store of web links attached to calculators and the operations of
    the link service. The repository becomes a map from link id to link;
    ids are handed out from a counter, as the database's identity column
    does. Which calculators exist is a parameter. */
module LinkStore {
  import opened Wrappers

  datatype Link = Link(
    calculatorId: int,
    url: string,
    title: string,
    description: Option<string>,
    addedBy: string,
    addedAt: int)

  datatype Store = Store(links: map<nat, Link>, nextId: nat)

  /** Every stored id was handed out before the counter's current value. */
  predicate Valid(st: Store) {
    forall id :: id in st.links ==> id < st.nextId
  }

  const NoCalculator: string := "IllegalArgumentException: Calculator not found"
  const NoLink: string := "IllegalArgumentException: Link not found"

  /** `existsByCalculatorIdAndUrl`. */
  predicate HasUrl(st: Store, calculatorId: int, url: string) {
    exists id :: id in st.links && st.links[id].calculatorId == calculatorId && st.links[id].url == url
  }

  /** `addLink`: fails for an unknown calculator; otherwise stores one new
      link under a fresh id, stamped with `now`, and leaves every other link
      as it was. */
  function AddLink(st: Store, calculators: set<int>, calculatorId: int, url: string, title: string,
                   description: Option<string>, addedBy: string, now: int): (r: Result<(Store, nat)>)
    requires Valid(st)
    ensures r.Err? <==> calculatorId !in calculators
    ensures r.Ok? ==> Valid(r.value.0) && r.value.1 !in st.links
    ensures r.Ok? ==> r.value.0.links == st.links[r.value.1 := Link(calculatorId, url, title, description, addedBy, now)]
  {
    if calculatorId !in calculators then Err(NoCalculator)
    else
      var id := st.nextId;
      Ok((Store(st.links[id := Link(calculatorId, url, title, description, addedBy, now)], id + 1), id))
  }

  /** `addLinkIfNotExists`: null, with the store unchanged, when the
      calculator already has a link with this URL; otherwise `addLink`. */
  function AddLinkIfNotExists(st: Store, calculators: set<int>, calculatorId: int, url: string, title: string,
                              description: Option<string>, addedBy: string, now: int): (r: Result<(Store, Option<nat>)>)
    requires Valid(st)
    ensures HasUrl(st, calculatorId, url) ==> r == Ok((st, None))
    ensures !HasUrl(st, calculatorId, url) ==> (r.Err? <==> calculatorId !in calculators)
    ensures r.Ok? ==> Valid(r.value.0) && HasUrl(r.value.0, calculatorId, url)
    ensures r.Ok? && r.value.1.Some? ==>
              r.value.1.value !in st.links
              && r.value.0.links == st.links[r.value.1.value := Link(calculatorId, url, title, description, addedBy, now)]
  {
    if HasUrl(st, calculatorId, url) then Ok((st, None))
    else
      match AddLink(st, calculators, calculatorId, url, title, description, addedBy, now)
      case Err(e) => Err(e)
      case Ok((st', id)) =>
        assert st'.links[id].calculatorId == calculatorId && st'.links[id].url == url;
        Ok((st', Some(id)))
  }

  /** Two identical calls add at most one link: the second finds the first's
      link and changes nothing. */
  lemma AddLinkIfNotExistsOnce(st: Store, calculators: set<int>, calculatorId: int, url: string, title: string,
                               description: Option<string>, addedBy: string, now: int, later: int)
    requires Valid(st)
    requires AddLinkIfNotExists(st, calculators, calculatorId, url, title, description, addedBy, now).Ok?
    ensures var st' := AddLinkIfNotExists(st, calculators, calculatorId, url, title, description, addedBy, now).value.0;
            AddLinkIfNotExists(st', calculators, calculatorId, url, title, description, addedBy, later) == Ok((st', None))
  {
  }

  /** `updateLink`: fails for an unknown id; otherwise replaces the URL,
      title and description and keeps the owner, calculator and time. Any
      caller may update. */
  function UpdateLink(st: Store, linkId: nat, url: string, title: string, description: Option<string>): (r: Result<Store>)
    requires Valid(st)
    ensures r.Err? <==> linkId !in st.links
    ensures r.Ok? ==> Valid(r.value) && r.value.links.Keys == st.links.Keys && r.value.nextId == st.nextId
    ensures r.Ok? ==> r.value.links[linkId] == st.links[linkId].(url := url, title := title, description := description)
    ensures r.Ok? ==> forall id :: id in st.links && id != linkId ==> r.value.links[id] == st.links[id]
  {
    if linkId !in st.links then Err(NoLink)
    else Ok(st.(links := st.links[linkId := st.links[linkId].(url := url, title := title, description := description)]))
  }

  /** Whether `username` may delete the link: only the user who added it. */
  predicate OwnedBy(st: Store, linkId: nat, username: string) {
    linkId in st.links && st.links[linkId].addedBy == username
  }

  /** `deleteLink`: true, removing exactly that link, iff it exists and the
      caller added it; otherwise false and nothing changes. */
  function DeleteLink(st: Store, linkId: nat, username: string): (r: (Store, bool))
    requires Valid(st)
    ensures r.1 <==> OwnedBy(st, linkId, username)
    ensures Valid(r.0) && r.0.nextId == st.nextId
    ensures r.1 ==> r.0.links == st.links - {linkId}
    ensures !r.1 ==> r.0 == st
  {
    if OwnedBy(st, linkId, username) then (st.(links := st.links - {linkId}), true) else (st, false)
  }

  /** `adminDeleteLink`: removes any existing link whoever added it. */
  function AdminDeleteLink(st: Store, linkId: nat): (r: (Store, bool))
    requires Valid(st)
    ensures r.1 <==> linkId in st.links
    ensures Valid(r.0) && r.0.links == st.links - {linkId} && r.0.nextId == st.nextId
  {
    if linkId in st.links then (st.(links := st.links - {linkId}), true) else (st, false)
  }

  /** The links of a bulk request that the caller owns in `st`. */
  function OwnedAmong(st: Store, ids: seq<nat>, username: string): set<nat> {
    set id | id in ids && OwnedBy(st, id, username)
  }

  /** `bulkDeleteLinks`: 0 for a null or empty list; otherwise each listed
      link the caller owns is deleted, a repeated id counting once, and the
      count is the number of links deleted. */
  function BulkDeleteLinks(st: Store, ids: Option<seq<nat>>, username: string): (r: (Store, nat))
    requires Valid(st)
    ensures ids.None? ==> r == (st, 0)
    ensures ids.Some? ==> r.0.links == st.links - OwnedAmong(st, ids.value, username)
                          && r.1 == |OwnedAmong(st, ids.value, username)|
    ensures Valid(r.0) && r.0.nextId == st.nextId
  {
    if ids.None? || |ids.value| == 0 then (st, 0)
    else DeleteEach(st, ids.value, username)
  }

  /** The loop of `bulkDeleteLinks` over the remaining ids. */
  function DeleteEach(st: Store, ids: seq<nat>, username: string): (r: (Store, nat))
    requires Valid(st)
    decreases |ids|
    ensures r.0.links == st.links - OwnedAmong(st, ids, username)
    ensures r.1 == |OwnedAmong(st, ids, username)|
    ensures Valid(r.0) && r.0.nextId == st.nextId
  {
    if |ids| == 0 then (st, 0)
    else
      var (st1, deleted) := DeleteLink(st, ids[0], username);
      var (st2, n) := DeleteEach(st1, ids[1..], username);
      OwnedAfterDelete(st, ids, username);
      (st2, if deleted then n + 1 else n)
  }

  /** What is left to delete after the first id of the list is handled. */
  lemma OwnedAfterDelete(st: Store, ids: seq<nat>, username: string)
    requires Valid(st) && |ids| > 0
    ensures var st1 := DeleteLink(st, ids[0], username).0;
            && OwnedAmong(st1, ids[1..], username) == OwnedAmong(st, ids, username) - {ids[0]}
            && (OwnedBy(st, ids[0], username) ==> ids[0] in OwnedAmong(st, ids, username))
            && (!OwnedBy(st, ids[0], username) ==> ids[0] !in OwnedAmong(st, ids, username))
  {
    var st1 := DeleteLink(st, ids[0], username).0;
    forall id | id in OwnedAmong(st, ids, username) - {ids[0]}
      ensures id in OwnedAmong(st1, ids[1..], username)
    {
      var k :| 0 <= k < |ids| && ids[k] == id;
      assert ids[1..][k - 1] == id;
    }
  }
}
