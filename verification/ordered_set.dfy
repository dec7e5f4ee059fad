/** An insertion-ordered set as a list without repetitions: the
    `LinkedHashSet` the enrichment collects facts in. Adding an element that
    is already present changes nothing; a new one goes to the end. */
module OrderedSet {

  /** No element occurs twice. */
  predicate Distinct<T(==)>(s: seq<T>) {
    forall i, j :: 0 <= i < j < |s| ==> s[i] != s[j]
  }

  /** `add` of each element of `xs` in turn. */
  function AddAll<T(==,!new)>(acc: seq<T>, xs: seq<T>): (r: seq<T>)
    requires Distinct(acc)
    ensures Distinct(r)
    ensures |acc| <= |r| && r[..|acc|] == acc
    decreases |xs|
  {
    if |xs| == 0 then acc
    else
      var acc' := if xs[0] in acc then acc else acc + [xs[0]];
      var r := AddAll(acc', xs[1..]);
      assert acc'[..|acc|] == acc;
      assert r[..|acc|] == r[..|acc'|][..|acc|];
      r
  }

  /** The set holds what it held before and every element added. */
  lemma {:induction false} AddAllMembers<T(!new)>(acc: seq<T>, xs: seq<T>)
    requires Distinct(acc)
    ensures forall x :: x in AddAll(acc, xs) <==> x in acc || x in xs
    decreases |xs|
  {
    if |xs| > 0 {
      var acc' := if xs[0] in acc then acc else acc + [xs[0]];
      AddAllMembers(acc', xs[1..]);
      assert forall x :: x in xs <==> x == xs[0] || x in xs[1..];
    }
  }

  /** The lists one after the other, repetitions included. */
  function Flatten<T>(xss: seq<seq<T>>): seq<T> {
    if |xss| == 0 then [] else xss[0] + Flatten(xss[1..])
  }

  /** An element of the flattened lists is an element of one of them. */
  lemma {:induction false} FlattenMembers<T(!new)>(xss: seq<seq<T>>, x: T)
    ensures x in Flatten(xss) <==> exists i :: 0 <= i < |xss| && x in xss[i]
    decreases |xss|
  {
    if |xss| > 0 {
      FlattenMembers(xss[1..], x);
      if x in Flatten(xss[1..]) {
        var i :| 0 <= i < |xss[1..]| && x in xss[1..][i];
        assert x in xss[i + 1];
      }
      if exists i :: 0 <= i < |xss| && x in xss[i] {
        var i :| 0 <= i < |xss| && x in xss[i];
        if i > 0 {
          assert x in xss[1..][i - 1];
        }
      }
    }
  }

  /** `add` of every element of every list, in order. */
  function AddEach<T(==,!new)>(acc: seq<T>, xss: seq<seq<T>>): (r: seq<T>)
    requires Distinct(acc)
    ensures Distinct(r)
    ensures |acc| <= |r| && r[..|acc|] == acc
    decreases |xss|
  {
    if |xss| == 0 then acc
    else
      var acc' := AddAll(acc, xss[0]);
      var r := AddEach(acc', xss[1..]);
      assert r[..|acc|] == r[..|acc'|][..|acc|];
      r
  }

  /** The set holds what it held before and every element of every list. */
  lemma {:induction false} AddEachMembers<T(!new)>(acc: seq<T>, xss: seq<seq<T>>)
    requires Distinct(acc)
    ensures forall x :: x in AddEach(acc, xss) <==> x in acc || x in Flatten(xss)
    decreases |xss|
  {
    if |xss| > 0 {
      AddAllMembers(acc, xss[0]);
      AddEachMembers(AddAll(acc, xss[0]), xss[1..]);
      assert forall x :: x in Flatten(xss) <==> x in xss[0] || x in Flatten(xss[1..]);
    }
  }

  /** Insertion order: the set built from a prefix of `xs` is a prefix of
      the set built from `xs`. */
  lemma AddAllPrefix<T(!new)>(xs: seq<T>, n: nat)
    requires n <= |xs|
    ensures |AddAll([], xs[..n])| <= |AddAll([], xs)|
    ensures AddAll([], xs)[..|AddAll([], xs[..n])|] == AddAll([], xs[..n])
  {
    AddAllSplitAt([], xs, n);
  }

  /** Adding `xs` is adding its first `n` elements, then the rest. */
  lemma {:induction false} AddAllSplitAt<T(!new)>(acc: seq<T>, xs: seq<T>, n: nat)
    requires Distinct(acc) && n <= |xs|
    ensures AddAll(acc, xs) == AddAll(AddAll(acc, xs[..n]), xs[n..])
    decreases n
  {
    if n == 0 {
      assert xs[..0] == [] && xs[0..] == xs;
    } else {
      var acc' := if xs[0] in acc then acc else acc + [xs[0]];
      calc {
        AddAll(AddAll(acc, xs[..n]), xs[n..]);
        { assert xs[..n][0] == xs[0]; }
        AddAll(AddAll(acc', xs[..n][1..]), xs[n..]);
        { assert xs[..n][1..] == xs[1..][..n - 1] && xs[n..] == xs[1..][n - 1..]; }
        AddAll(AddAll(acc', xs[1..][..n - 1]), xs[1..][n - 1..]);
        { AddAllSplitAt(acc', xs[1..], n - 1); }
        AddAll(acc', xs[1..]);
      }
    }
  }

  // ------------------------------------------------------ first occurrences

  /** The elements of `xs` from index `i` on that do not occur before
      their own index, in order: a reference definition of what a
      `LinkedHashSet` fed with `xs` iterates over. */
  function FirstsFrom<T(==)>(xs: seq<T>, i: nat): seq<T>
    requires i <= |xs|
    decreases |xs| - i
  {
    if i == |xs| then []
    else (if xs[i] in xs[..i] then [] else [xs[i]]) + FirstsFrom(xs, i + 1)
  }

  function FirstOccurrences<T(==)>(xs: seq<T>): seq<T> {
    FirstsFrom(xs, 0)
  }

  /** Adding the elements of `xs` from index `i` on to a set that holds
      exactly those before `i` appends their first occurrences. */
  lemma {:induction false} AddAllFirsts<T(!new)>(acc: seq<T>, xs: seq<T>, i: nat)
    requires Distinct(acc) && i <= |xs|
    requires forall x :: x in acc <==> x in xs[..i]
    ensures AddAll(acc, xs[i..]) == acc + FirstsFrom(xs, i)
    decreases |xs| - i
  {
    if i < |xs| {
      var step := if xs[i] in xs[..i] then [] else [xs[i]];
      var acc' := acc + step;
      assert xs[i..][0] == xs[i] && xs[i..][1..] == xs[i + 1..];
      assert xs[i] in acc <==> xs[i] in xs[..i];
      assert acc' == if xs[i] in acc then acc else acc + [xs[i]];
      assert xs[..i + 1] == xs[..i] + [xs[i]];
      assert forall x :: x in acc' <==> x in xs[..i + 1];
      calc {
        AddAll(acc, xs[i..]);
        AddAll(acc', xs[i + 1..]);
        { AddAllFirsts(acc', xs, i + 1); }
        acc' + FirstsFrom(xs, i + 1);
        { ConcatAssoc(acc, step, FirstsFrom(xs, i + 1)); }
        acc + (step + FirstsFrom(xs, i + 1));
      }
    } else {
      assert xs[i..] == [];
    }
  }

  lemma ConcatAssoc<T>(a: seq<T>, b: seq<T>, c: seq<T>)
    ensures (a + b) + c == a + (b + c)
  {
  }

  /** Adding list after list is adding their concatenation. */
  lemma {:induction false} AddEachFlat<T(!new)>(acc: seq<T>, xss: seq<seq<T>>)
    requires Distinct(acc)
    ensures AddEach(acc, xss) == AddAll(acc, Flatten(xss))
    decreases |xss|
  {
    if |xss| > 0 {
      var xs := xss[0] + Flatten(xss[1..]);
      AddEachFlat(AddAll(acc, xss[0]), xss[1..]);
      assert xs[..|xss[0]|] == xss[0] && xs[|xss[0]|..] == Flatten(xss[1..]);
      AddAllSplitAt(acc, xs, |xss[0]|);
    }
  }

  /** The set built from the lists holds the first occurrences of their
      elements, in order. */
  lemma AddEachFirstOccurrences<T(!new)>(xss: seq<seq<T>>)
    ensures AddEach([], xss) == FirstOccurrences(Flatten(xss))
  {
    AddEachFlat([], xss);
    AddAllFirsts([], Flatten(xss), 0);
    assert Flatten(xss)[0..] == Flatten(xss);
  }
}
