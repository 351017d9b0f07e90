/** Sorting a finite set by a ranking of its elements. */
module Sorting {

  predicate Distinct<T(==)>(xs: seq<T>) {
    forall i, j :: 0 <= i < j < |xs| ==> xs[i] != xs[j]
  }

  function Elements<T>(xs: seq<T>): set<T> {
    set x | x in xs
  }

  lemma ElementsOfConcatenation<T>(xs: seq<T>, ys: seq<T>)
    ensures Elements(xs + ys) == Elements(xs) + Elements(ys)
  {
  }

  lemma {:induction false} DistinctSize<T>(xs: seq<T>)
    requires Distinct(xs)
    ensures |Elements(xs)| == |xs|
  {
    if xs != [] {
      var n := |xs| - 1;
      DistinctSize(xs[..n]);
      assert xs == xs[..n] + [xs[n]];
      assert Elements(xs) == Elements(xs[..n]) + {xs[n]};
    }
  }

  /** `leq` orders any two values, ties included. */
  ghost predicate Ranks<T(!new)>(leq: (T, T) -> bool) {
    && (forall a, b :: leq(a, b) || leq(b, a))
    && (forall a, b, c :: leq(a, b) && leq(b, c) ==> leq(a, c))
  }

  ghost predicate Sorted<T>(leq: (T, T) -> bool, xs: seq<T>) {
    forall i, j :: 0 <= i < j < |xs| ==> leq(xs[i], xs[j])
  }

  method Insert<T(==, !new)>(one: T, xs: seq<T>, leq: (T, T) -> bool) returns (ys: seq<T>)
    requires Ranks(leq) && Sorted(leq, xs) && Distinct(xs) && one !in xs
    ensures Sorted(leq, ys) && Distinct(ys) && Elements(ys) == Elements(xs) + {one}
  {
    var at := 0;
    while at < |xs| && leq(xs[at], one)
      invariant 0 <= at <= |xs|
      invariant forall i :: 0 <= i < at ==> leq(xs[i], one)
    {
      at := at + 1;
    }
    ys := xs[..at] + [one] + xs[at..];
    InsertedInPlace(one, xs, at, leq);
    InsertedAmong(one, xs, at);
  }

  lemma InsertedAmong<T>(one: T, xs: seq<T>, at: nat)
    requires at <= |xs|
    ensures Elements(xs[..at] + [one] + xs[at..]) == Elements(xs) + {one}
    ensures Distinct(xs) && one !in xs ==> Distinct(xs[..at] + [one] + xs[at..])
  {
    assert xs == xs[..at] + xs[at..];
    ElementsOfConcatenation(xs[..at], xs[at..]);
    ElementsOfConcatenation(xs[..at], [one]);
    ElementsOfConcatenation(xs[..at] + [one], xs[at..]);
    var ys := xs[..at] + [one] + xs[at..];
    assert forall i :: 0 <= i < |ys| ==> ys[i] == if i < at then xs[i] else if i == at then one else xs[i - 1];
  }

  lemma InsertedInPlace<T(!new)>(one: T, xs: seq<T>, at: nat, leq: (T, T) -> bool)
    requires Ranks(leq) && Sorted(leq, xs) && at <= |xs|
    requires (forall i :: 0 <= i < at ==> leq(xs[i], one)) && (at < |xs| ==> leq(one, xs[at]))
    ensures Sorted(leq, xs[..at] + [one] + xs[at..])
  {
    var ys := xs[..at] + [one] + xs[at..];
    forall i | at <= i < |xs|
      ensures leq(one, xs[i])
    {
      assert i > at ==> leq(xs[at], xs[i]);
    }
    assert forall i :: 0 <= i < |ys| ==> ys[i] == if i < at then xs[i] else if i == at then one else xs[i - 1];
  }

  /** The elements of a set, in rank order. */
  method Sort<T(==, !new)>(items: set<T>, leq: (T, T) -> bool) returns (xs: seq<T>)
    requires Ranks(leq)
    ensures Sorted(leq, xs) && Distinct(xs) && Elements(xs) == items
  {
    xs := [];
    var todo := items;
    while todo != {}
      invariant todo <= items
      invariant Sorted(leq, xs) && Distinct(xs) && Elements(xs) == items - todo
      decreases |todo|
    {
      var one :| one in todo;
      assert one !in Elements(xs);
      xs := Insert(one, xs, leq);
      todo := todo - {one};
    }
  }

  // The one sorted form of a set.

  ghost predicate IsLeast<T(!new)>(least: T, items: set<T>, leq: (T, T) -> bool) {
    least in items && forall x :: x in items ==> leq(least, x)
  }

  lemma {:induction false} LeastExists<T(!new)>(items: set<T>, leq: (T, T) -> bool) returns (least: T)
    requires items != {} && Ranks(leq)
    ensures IsLeast(least, items, leq)
  {
    least :| least in items;
    if items == {least} {
      assert leq(least, least);
    } else {
      var other := LeastExists(items - {least}, leq);
      if leq(least, other) {
        forall x | x in items
          ensures leq(least, x)
        {
          assert x == least || leq(other, x);
        }
      } else {
        least := other;
      }
    }
  }

  lemma SomeLeast<T(!new)>(items: set<T>, leq: (T, T) -> bool)
    requires items != {} && Ranks(leq)
    ensures exists least :: IsLeast(least, items, leq)
  {
    var least := LeastExists(items, leq);
  }

  ghost function Canonical<T(!new)>(items: set<T>, leq: (T, T) -> bool): (xs: seq<T>)
    requires Ranks(leq)
    ensures Sorted(leq, xs) && Distinct(xs) && Elements(xs) == items
  {
    if items == {} then []
    else
      SomeLeast(items, leq);
      var least :| IsLeast(least, items, leq);
      var rest := Canonical(items - {least}, leq);
      LeastFirst(least, items, rest, leq);
      [least] + rest
  }

  lemma LeastFirst<T(!new)>(least: T, items: set<T>, rest: seq<T>, leq: (T, T) -> bool)
    requires IsLeast(least, items, leq)
    requires Sorted(leq, rest) && Distinct(rest) && Elements(rest) == items - {least}
    ensures Sorted(leq, [least] + rest) && Distinct([least] + rest) && Elements([least] + rest) == items
  {
    assert forall i :: 0 <= i < |rest| ==> rest[i] in Elements(rest);
    forall x
      ensures x in [least] + rest <==> x in items
    {
      assert x in rest <==> x in Elements(rest);
    }
  }

  /** Where no two different values tie, a set has only one sorted form. */
  lemma {:induction false} SortedFormIsUnique<T(!new)>(xs: seq<T>, ys: seq<T>, leq: (T, T) -> bool)
    requires Ranks(leq) && forall a, b :: leq(a, b) && leq(b, a) ==> a == b
    requires Sorted(leq, xs) && Distinct(xs) && Sorted(leq, ys) && Distinct(ys) && Elements(xs) == Elements(ys)
    ensures xs == ys
  {
    if xs == [] {
      assert forall i :: 0 <= i < |ys| ==> ys[i] in Elements(xs);
    } else {
      assert xs[0] in Elements(xs) && xs[0] in ys;
      assert ys[0] in Elements(ys) && ys[0] in xs;
      assert leq(xs[0], xs[0]) && leq(ys[0], ys[0]);
      assert xs[0] == ys[0];
      forall x
        ensures x in Elements(xs[1..]) <==> x in Elements(xs) && x != xs[0]
        ensures x in Elements(ys[1..]) <==> x in Elements(ys) && x != ys[0]
      {
        assert xs == [xs[0]] + xs[1..] && ys == [ys[0]] + ys[1..];
      }
      SortedFormIsUnique(xs[1..], ys[1..], leq);
    }
  }
}
