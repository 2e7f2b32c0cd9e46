/** Lists as Python's insertion-ordered dictionaries use them. */
module Sequences {

  ghost predicate Distinct<T(!new)>(xs: seq<T>) {
    forall i, j :: 0 <= i < j < |xs| ==> xs[i] != xs[j]
  }

  function Elements<T>(xs: seq<T>): set<T> {
    set x | x in xs
  }

  /** The keys of a dictionary filled with `xs` in order: first occurrences only. */
  function FirstSeen<T(==)>(xs: seq<T>): seq<T> {
    if xs == [] then []
    else
      var before, last := FirstSeen(xs[..|xs| - 1]), xs[|xs| - 1];
      if last in before then before else before + [last]
  }

  /** The elements of `xs` that are not in `ys`. */
  function Without<T(==)>(xs: seq<T>, ys: seq<T>): seq<T> {
    if xs == [] then []
    else Without(xs[..|xs| - 1], ys) + if xs[|xs| - 1] in ys then [] else [xs[|xs| - 1]]
  }

  /** The elements that pass, in order. */
  function Filter<T>(xs: seq<T>, keep: T -> bool): seq<T> {
    if xs == [] then []
    else Filter(xs[..|xs| - 1], keep) + if keep(xs[|xs| - 1]) then [xs[|xs| - 1]] else []
  }

  lemma {:induction false} FilterConcat<T>(a: seq<T>, b: seq<T>, keep: T -> bool)
    ensures Filter(a + b, keep) == Filter(a, keep) + Filter(b, keep)
    decreases |b|
  {
    if b == [] {
      assert a + b == a;
    } else {
      assert (a + b)[..|a + b| - 1] == a + b[..|b| - 1];
      FilterConcat(a, b[..|b| - 1], keep);
    }
  }

  /** A list all of whose elements fare alike is kept whole or dropped whole. */
  lemma {:induction false} FilterUniform<T>(xs: seq<T>, keep: T -> bool, all: bool)
    requires forall x :: x in xs ==> keep(x) == all
    ensures Filter(xs, keep) == if all then xs else []
  {
    if xs != [] {
      assert xs == xs[..|xs| - 1] + [xs[|xs| - 1]];
      FilterUniform(xs[..|xs| - 1], keep, all);
    }
  }

  /** What passes is kept as often as it was there, and nothing else is. */
  lemma {:induction false} FilterElements<T>(xs: seq<T>, keep: T -> bool, x: T)
    ensures multiset(Filter(xs, keep))[x] == if keep(x) then multiset(xs)[x] else 0
    ensures x in Filter(xs, keep) <==> x in xs && keep(x)
  {
    if xs != [] {
      assert xs == xs[..|xs| - 1] + [xs[|xs| - 1]];
      FilterElements(xs[..|xs| - 1], keep, x);
    }
  }

  function Reverse<T>(xs: seq<T>): seq<T> {
    if xs == [] then [] else [xs[|xs| - 1]] + Reverse(xs[..|xs| - 1])
  }

  lemma {:induction false} FirstSeenElements<T(!new)>(xs: seq<T>)
    ensures Distinct(FirstSeen(xs))
    ensures Elements(FirstSeen(xs)) == Elements(xs)
    ensures forall x :: x in FirstSeen(xs) <==> x in xs
  {
    if xs != [] {
      var before := xs[..|xs| - 1];
      FirstSeenElements(before);
      assert xs == before + [xs[|xs| - 1]];
      forall x ensures x in FirstSeen(xs) <==> x in xs {
        assert x in xs <==> x in before || x == xs[|xs| - 1];
      }
    }
  }

  /** Of two listed elements, the earlier one turns up in `xs` before the other does. */
  lemma {:induction false} FirstSeenOrder<T(!new)>(xs: seq<T>, i: nat, j: nat) returns (k: nat)
    requires i < j < |FirstSeen(xs)|
    ensures k < |xs| && xs[k] == FirstSeen(xs)[i]
    ensures forall m :: 0 <= m <= k ==> xs[m] != FirstSeen(xs)[j]
  {
    var before := xs[..|xs| - 1];
    FirstSeenElements(before);
    if j < |FirstSeen(before)| {
      k := FirstSeenOrder(before, i, j);
      forall m | 0 <= m <= k ensures xs[m] != FirstSeen(xs)[j] {
        assert xs[m] == before[m];
      }
    } else {
      assert FirstSeen(before)[i] in before;
      k :| 0 <= k < |before| && before[k] == FirstSeen(before)[i];
      forall m | 0 <= m <= k ensures xs[m] != FirstSeen(xs)[j] {
        assert xs[m] == before[m] && before[m] in before;
      }
    }
  }

  /** What is left keeps its order. */
  lemma {:induction false} WithoutOrder<T>(xs: seq<T>, ys: seq<T>, i: nat, j: nat) returns (p: nat, q: nat)
    requires i < j < |Without(xs, ys)|
    ensures p < q < |xs| && xs[p] == Without(xs, ys)[i] && xs[q] == Without(xs, ys)[j]
  {
    var front := xs[..|xs| - 1];
    if j < |Without(front, ys)| {
      p, q := WithoutOrder(front, ys, i, j);
    } else {
      p := WithoutFrom(front, ys, i);
      q := |xs| - 1;
    }
  }

  lemma {:induction false} WithoutFrom<T>(xs: seq<T>, ys: seq<T>, i: nat) returns (p: nat)
    requires i < |Without(xs, ys)|
    ensures p < |xs| && xs[p] == Without(xs, ys)[i]
  {
    var front := xs[..|xs| - 1];
    if i < |Without(front, ys)| {
      p := WithoutFrom(front, ys, i);
    } else {
      p := |xs| - 1;
    }
  }

  lemma {:induction false} WithoutElements<T(!new)>(xs: seq<T>, ys: seq<T>)
    ensures forall x :: x in Without(xs, ys) <==> x in xs && x !in ys
    ensures Distinct(xs) ==> Distinct(Without(xs, ys))
  {
    if xs != [] {
      var before := xs[..|xs| - 1];
      WithoutElements(before, ys);
      assert xs == before + [xs[|xs| - 1]];
      assert Distinct(xs) ==> Distinct(before) && forall x :: x in before ==> x != xs[|xs| - 1];
    }
  }
}
