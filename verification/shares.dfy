/** Shared collections of `ShareService`: a user publishes part of their
    collection under a token, anybody holding the token may view it until it
    expires, and only its owner may withdraw it. The share table becomes a
    map keyed by the token, which the database keeps unique; the join table
    of shared calculators becomes a list of rows in insertion order. The
    token is the random UUID the caller drew, and "now" is a parameter. */
module Shares {
  import opened Wrappers
  import opened JavaText
  import Clock
  import Collection

  datatype Share = Share(
    sharedBy: string,
    title: Option<string>,
    description: Option<string>,
    isPublic: bool,
    sharedAt: Clock.DateTime,
    expiresAt: Option<Clock.DateTime>)

  /** One `SharedCollectionCalculator`: a calculator put into a share. */
  datatype Row = Row(token: string, calculatorId: nat)

  datatype Store = Store(shares: map<string, Share>, rows: seq<Row>)

  /** Every row belongs to a stored share. */
  predicate Valid(st: Store) {
    forall k :: 0 <= k < |st.rows| ==> st.rows[k].token in st.shares
  }

  /** `existsByUsernameAndCalculatorId` for a requested id. */
  predicate InCollection(es: Collection.Entries, user: string, id: int) {
    id >= 0 && Collection.IsInCollection(es, user, id as nat)
  }

  /** The position of the first requested id the user does not own. */
  function FirstMissing(es: Collection.Entries, user: string, ids: seq<int>): (r: Option<nat>)
    ensures r.None? <==> forall i :: 0 <= i < |ids| ==> InCollection(es, user, ids[i])
    ensures r.Some? ==> r.value < |ids| && !InCollection(es, user, ids[r.value])
    ensures r.Some? ==> forall j :: 0 <= j < r.value ==> InCollection(es, user, ids[j])
  {
    if |ids| == 0 then None
    else if !InCollection(es, user, ids[0]) then Some(0)
    else
      match FirstMissing(es, user, ids[1..])
      case None => None
      case Some(i) => Some(i + 1)
  }

  function NotInCollection(id: int): string {
    "IllegalArgumentException: Calculator " + IntToString(id) + " is not in your collection"
  }

  /** The unique constraint on the token column, broken by a reused token. */
  const TokenTaken: string := "DataIntegrityViolationException: share_token"

  /** The requested ids whose calculator exists, in the requested order and
      with repetitions kept. */
  function Existing(ids: seq<int>, calculators: set<nat>): (r: seq<nat>)
    ensures |r| <= |ids|
    ensures forall k :: 0 <= k < |r| ==> r[k] in calculators && r[k] as int in ids
    ensures forall i :: 0 <= i < |ids| && ids[i] >= 0 && ids[i] as nat in calculators ==> ids[i] as nat in r
    ensures (forall i :: 0 <= i < |ids| ==> ids[i] >= 0 && ids[i] as nat in calculators) ==> |r| == |ids|
  {
    if |ids| == 0 then []
    else
      var rest := Existing(ids[1..], calculators);
      assert forall k :: 0 <= k < |rest| ==> rest[k] as int in ids by {
        forall k | 0 <= k < |rest| ensures rest[k] as int in ids {
          var i :| 0 <= i < |ids[1..]| && ids[1..][i] == rest[k] as int;
          assert ids[i + 1] == rest[k] as int;
        }
      }
      if ids[0] >= 0 && ids[0] as nat in calculators then [ids[0] as nat] + rest else rest
  }

  /** One row per calculator, all in the share `token`. */
  function RowsFor(token: string, xs: seq<nat>): (r: seq<Row>)
    ensures |r| == |xs|
    ensures forall k :: 0 <= k < |xs| ==> r[k] == Row(token, xs[k])
  {
    seq(|xs|, k requires 0 <= k < |xs| => Row(token, xs[k]))
  }

  /** The expiry of a new share: `daysValid` days after now when that is a
      positive number, none otherwise. */
  function ExpiryOf(daysValid: Option<int>, now: Clock.DateTime): (r: Option<Clock.DateTime>)
    requires Clock.Valid(now)
    ensures r.Some? <==> daysValid.Some? && daysValid.value > 0
    ensures r.Some? ==> Clock.Valid(r.value) && Clock.IsAfter(r.value, now)
  {
    if daysValid.Some? && daysValid.value > 0 then Some(Clock.PlusDays(now, daysValid.value)) else None
  }

  /** `createShare`: the first requested id that is not in the user's
      collection fails the call before anything is stored; otherwise one
      share under the token and one row for every requested id whose
      calculator exists. A token already in use breaks the unique column
      and rolls everything back. */
  function CreateShare(st: Store, es: Collection.Entries, calculators: set<nat>, username: string, ids: seq<int>,
                       title: Option<string>, description: Option<string>, daysValid: Option<int>, isPublic: bool,
                       token: string, now: Clock.DateTime): (r: Result<(Store, Share)>)
    requires Clock.Valid(now)
    ensures FirstMissing(es, username, ids).Some? ==>
              r == Err(NotInCollection(ids[FirstMissing(es, username, ids).value]))
    ensures FirstMissing(es, username, ids).None? ==> (r.Err? <==> token in st.shares)
    ensures r.Ok? ==> r.value.0.shares == st.shares[token := r.value.1]
    ensures r.Ok? ==> r.value.0.rows == st.rows + RowsFor(token, Existing(ids, calculators))
    ensures r.Ok? ==> var s := r.value.1;
                      && s.sharedBy == username && s.title == title && s.description == description
                      && s.isPublic == isPublic && s.sharedAt == now
                      && s.expiresAt == ExpiryOf(daysValid, now)
  {
    match FirstMissing(es, username, ids)
    case Some(i) => Err(NotInCollection(ids[i]))
    case None =>
      if token in st.shares then Err(TokenTaken)
      else
        var share := Share(username, title, description, isPublic, now, ExpiryOf(daysValid, now));
        Ok((Store(st.shares[token := share], st.rows + RowsFor(token, Existing(ids, calculators))), share))
  }

  /** The expiry lies strictly before now. */
  predicate Expired(s: Share, now: Clock.DateTime) {
    s.expiresAt.Some? && Clock.IsBefore(s.expiresAt.value, now)
  }

  /** `getSharedCollection`: the share of a known token that has not
      expired. */
  function GetSharedCollection(st: Store, token: string, now: Clock.DateTime): (r: Option<Share>)
    ensures r.Some? <==> token in st.shares && !Expired(st.shares[token], now)
    ensures r.Some? ==> r.value == st.shares[token]
  {
    if token !in st.shares then None
    else if Expired(st.shares[token], now) then None
    else Some(st.shares[token])
  }

  /** The calculators of the rows of one share, in row order. */
  function CalculatorsOf(rows: seq<Row>, token: string): (r: seq<nat>)
    ensures |r| <= |rows|
    ensures forall x :: x in r ==> Row(token, x) in rows
    ensures forall k :: 0 <= k < |rows| && rows[k].token == token ==> rows[k].calculatorId in r
  {
    if |rows| == 0 then []
    else
      var rest := CalculatorsOf(rows[1..], token);
      if rows[0].token == token then [rows[0].calculatorId] + rest else rest
  }

  /** `getSharedCalculators`: the calculators of the token's rows. It reads
      the rows directly and so does not look at the expiry. */
  function GetSharedCalculators(st: Store, token: string): (r: seq<nat>)
    ensures forall x :: x in r ==> Row(token, x) in st.rows
    ensures forall k :: 0 <= k < |st.rows| && st.rows[k].token == token ==> st.rows[k].calculatorId in r
  {
    CalculatorsOf(st.rows, token)
  }

  /** The condition of `findActiveBySharedBy`: no expiry, or one strictly
      after now. */
  predicate Active(s: Share, now: Clock.DateTime) {
    s.expiresAt.None? || Clock.IsAfter(s.expiresAt.value, now)
  }

  /** `getUserShares`: the tokens of the user's active shares. */
  function GetUserShares(st: Store, username: string, now: Clock.DateTime): (r: set<string>)
    ensures forall t :: t in r <==> t in st.shares && st.shares[t].sharedBy == username && Active(st.shares[t], now)
  {
    set t | t in st.shares && st.shares[t].sharedBy == username && Active(st.shares[t], now)
  }

  /** The rows of every other share. */
  function Without(rows: seq<Row>, token: string): (r: seq<Row>)
    ensures |r| <= |rows|
    ensures forall k :: 0 <= k < |r| ==> r[k].token != token && r[k] in rows
    ensures forall k :: 0 <= k < |rows| && rows[k].token != token ==> rows[k] in r
  {
    if |rows| == 0 then []
    else
      var rest := Without(rows[1..], token);
      if rows[0].token == token then rest else [rows[0]] + rest
  }

  /** `deleteShare`: false, changing nothing, unless the token is known and
      the caller owns the share; then the share and all its rows go. */
  function DeleteShare(st: Store, token: string, username: string): (r: (Store, bool))
    ensures r.1 <==> token in st.shares && st.shares[token].sharedBy == username
    ensures !r.1 ==> r.0 == st
    ensures r.1 ==> r.0.shares == st.shares - {token} && r.0.rows == Without(st.rows, token)
  {
    if token !in st.shares || st.shares[token].sharedBy != username then (st, false)
    else (Store(st.shares - {token}, Without(st.rows, token)), true)
  }

  // ------------------------------------------------------------ properties

  lemma {:induction false} CalculatorsOfAppend(a: seq<Row>, b: seq<Row>, token: string)
    ensures CalculatorsOf(a + b, token) == CalculatorsOf(a, token) + CalculatorsOf(b, token)
  {
    if |a| > 0 {
      assert (a + b)[1..] == a[1..] + b;
      CalculatorsOfAppend(a[1..], b, token);
    } else {
      assert a + b == b;
    }
  }

  lemma {:induction false} CalculatorsOfRowsFor(token: string, xs: seq<nat>)
    ensures CalculatorsOf(RowsFor(token, xs), token) == xs
  {
    if |xs| > 0 {
      assert RowsFor(token, xs)[1..] == RowsFor(token, xs[1..]);
      CalculatorsOfRowsFor(token, xs[1..]);
    }
  }

  lemma {:induction false} CalculatorsOfAbsent(rows: seq<Row>, token: string)
    requires forall k :: 0 <= k < |rows| ==> rows[k].token != token
    ensures CalculatorsOf(rows, token) == []
  {
    if |rows| > 0 {
      CalculatorsOfAbsent(rows[1..], token);
    }
  }

  /** Removing one share's rows leaves every other share's calculators, in
      their order. */
  lemma {:induction false} CalculatorsOfWithout(rows: seq<Row>, token: string, other: string)
    requires other != token
    ensures CalculatorsOf(Without(rows, token), other) == CalculatorsOf(rows, other)
  {
    if |rows| > 0 {
      CalculatorsOfWithout(rows[1..], token, other);
    }
  }

  /** A created share keeps the rows tied to stored shares. */
  lemma CreateShareValid(st: Store, es: Collection.Entries, calculators: set<nat>, username: string, ids: seq<int>,
                         title: Option<string>, description: Option<string>, daysValid: Option<int>, isPublic: bool,
                         token: string, now: Clock.DateTime)
    requires Valid(st) && Clock.Valid(now)
    requires CreateShare(st, es, calculators, username, ids, title, description, daysValid, isPublic, token, now).Ok?
    ensures Valid(CreateShare(st, es, calculators, username, ids, title, description, daysValid, isPublic, token, now).value.0)
  {
    var st' := CreateShare(st, es, calculators, username, ids, title, description, daysValid, isPublic, token, now).value.0;
    var added := RowsFor(token, Existing(ids, calculators));
    forall k | 0 <= k < |st'.rows| ensures st'.rows[k].token in st'.shares {
      if k >= |st.rows| {
        assert st'.rows[k] == added[k - |st.rows|];
      }
    }
  }

  lemma DeleteShareValid(st: Store, token: string, username: string)
    requires Valid(st)
    ensures Valid(DeleteShare(st, token, username).0)
  {
    var (st', ok) := DeleteShare(st, token, username);
    if ok {
      forall k | 0 <= k < |st'.rows| ensures st'.rows[k].token in st'.shares {
        var j :| 0 <= j < |st.rows| && st.rows[j] == st'.rows[k];
      }
    }
  }

  /** A new share is visible at once through its token, lists exactly the
      requested calculators that exist, and is among its owner's active
      shares. */
  lemma CreateThenView(st: Store, es: Collection.Entries, calculators: set<nat>, username: string, ids: seq<int>,
                       title: Option<string>, description: Option<string>, daysValid: Option<int>, isPublic: bool,
                       token: string, now: Clock.DateTime)
    requires Valid(st) && Clock.Valid(now)
    requires CreateShare(st, es, calculators, username, ids, title, description, daysValid, isPublic, token, now).Ok?
    ensures var (st', share) := CreateShare(st, es, calculators, username, ids, title, description, daysValid, isPublic, token, now).value;
            && GetSharedCollection(st', token, now) == Some(share)
            && GetSharedCalculators(st', token) == Existing(ids, calculators)
            && token in GetUserShares(st', username, now)
  {
    var (st', share) := CreateShare(st, es, calculators, username, ids, title, description, daysValid, isPublic, token, now).value;
    var xs := Existing(ids, calculators);
    assert GetSharedCalculators(st', token) == xs by {
      CalculatorsOfAppend(st.rows, RowsFor(token, xs), token);
      CalculatorsOfAbsent(st.rows, token);
      CalculatorsOfRowsFor(token, xs);
    }
    Clock.BeforeIrreflexive(now);
  }

  /** At the very instant of its expiry a share is still shown through its
      token, but no longer counted among its owner's active shares; any
      later it is shown by neither. */
  lemma ExpiryInstant(st: Store, token: string, now: Clock.DateTime)
    requires token in st.shares && st.shares[token].expiresAt == Some(now)
    ensures GetSharedCollection(st, token, now) == Some(st.shares[token])
    ensures token !in GetUserShares(st, st.shares[token].sharedBy, now)
  {
    Clock.BeforeIrreflexive(now);
  }

  /** An active share is never expired. */
  lemma ActiveVisible(st: Store, token: string, now: Clock.DateTime)
    requires token in st.shares && Active(st.shares[token], now)
    ensures GetSharedCollection(st, token, now) == Some(st.shares[token])
  {
    var s := st.shares[token];
    if s.expiresAt.Some? {
      assert Clock.IsBefore(now, s.expiresAt.value);
      if Clock.IsBefore(s.expiresAt.value, now) {
        Clock.BeforeTransitive(now, s.expiresAt.value, now);
        Clock.BeforeIrreflexive(now);
      }
    }
  }

  /** The owner's delete removes the share and its calculators and leaves
      every other share's calculators as they were. */
  lemma DeleteThenGone(st: Store, token: string, other: string, now: Clock.DateTime)
    requires token in st.shares && other != token
    ensures var st' := DeleteShare(st, token, st.shares[token].sharedBy).0;
            && GetSharedCollection(st', token, now).None?
            && GetSharedCalculators(st', token) == []
            && GetSharedCalculators(st', other) == GetSharedCalculators(st, other)
  {
    var st' := DeleteShare(st, token, st.shares[token].sharedBy).0;
    CalculatorsOfAbsent(st'.rows, token);
    CalculatorsOfWithout(st.rows, token, other);
  }
}
