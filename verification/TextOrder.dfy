/** Sets of strings in string order. */
module TextOrder {
  import opened Lexicographic
  import opened Sorting

  predicate TextLeq(a: string, b: string) {
    !Before(b, a)
  }

  lemma TextRanks()
    ensures Ranks((a: string, b: string) => TextLeq(a, b))
    ensures forall a: string, b: string :: TextLeq(a, b) && TextLeq(b, a) ==> a == b
    ensures forall a: string, b: string :: TextLeq(a, b) && a != b ==> Before(a, b)
  {
    forall a: string, b: string, c: string
      ensures TextLeq(a, b) || TextLeq(b, a)
      ensures TextLeq(a, b) && TextLeq(b, c) ==> TextLeq(a, c)
      ensures TextLeq(a, b) && TextLeq(b, a) ==> a == b
      ensures TextLeq(a, b) && a != b ==> Before(a, b)
    {
      hide Before;
      BeforeIsTotal(a, b, c);
      BeforeIsTotal(b, c, a);
      BeforeIsTotal(c, a, b);
      BeforeIsTotal(c, b, a);
    }
  }

  ghost function InTextOrder(texts: set<string>): (ordered: seq<string>)
    ensures Distinct(ordered) && Elements(ordered) == texts
    ensures forall i, j :: 0 <= i < j < |ordered| ==> Before(ordered[i], ordered[j])
  {
    TextRanks();
    var ordered := Canonical(texts, (a: string, b: string) => TextLeq(a, b));
    assert forall i, j :: 0 <= i < j < |ordered| ==> TextLeq(ordered[i], ordered[j]) && ordered[i] != ordered[j];
    ordered
  }

  method SortTexts(texts: set<string>) returns (ordered: seq<string>)
    ensures ordered == InTextOrder(texts)
  {
    hide TextLeq, Ranks;
    TextRanks();
    ordered := Sort(texts, (a: string, b: string) => TextLeq(a, b));
    SortedFormIsUnique(ordered, Canonical(texts, (a: string, b: string) => TextLeq(a, b)), (a: string, b: string) => TextLeq(a, b));
  }
}
