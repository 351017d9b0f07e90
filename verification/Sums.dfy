/** Sums over finite sets. */
module Sums {

  ghost function Sum(items: set<string>, weight: string -> nat): (total: nat)
  {
    if items == {} then 0
    else
      var one :| one in items;
      weight(one) + Sum(items - {one}, weight)
  }

  lemma {:induction false} SumWithout(items: set<string>, weight: string -> nat, one: string)
    requires one in items
    ensures Sum(items, weight) == weight(one) + Sum(items - {one}, weight)
    decreases items
  {
    var picked :| picked in items && Sum(items, weight) == weight(picked) + Sum(items - {picked}, weight);
    if picked != one {
      SumWithout(items - {picked}, weight, one);
      SumWithout(items - {one}, weight, picked);
      assert items - {picked} - {one} == items - {one} - {picked};
    }
  }

  lemma SumWith(items: set<string>, weight: string -> nat, one: string)
    requires one !in items
    ensures Sum(items + {one}, weight) == Sum(items, weight) + weight(one)
  {
    SumWithout(items + {one}, weight, one);
    assert items + {one} - {one} == items;
  }

  lemma {:induction false} SumOfParts(a: set<string>, b: set<string>, weight: string -> nat)
    requires a !! b
    ensures Sum(a + b, weight) == Sum(a, weight) + Sum(b, weight)
    decreases b
  {
    if b == {} {
      assert a + b == a;
    } else {
      var one :| one in b;
      SumOfParts(a, b - {one}, weight);
      SumWithout(b, weight, one);
      SumWith(a + (b - {one}), weight, one);
      assert a + (b - {one}) + {one} == a + b;
    }
  }

  lemma SumOfSubset(part: set<string>, whole: set<string>, weight: string -> nat)
    requires part <= whole
    ensures Sum(whole, weight) == Sum(part, weight) + Sum(whole - part, weight)
  {
    SumOfParts(part, whole - part, weight);
    assert part + (whole - part) == whole;
  }
}
