/** Merging the manifests of the parts a whole is assembled from. */
module Merging {
  import opened Lexicographic
  import opened Listing
  import opened Manifest
  import opened Options
  import opened Sorting
  import opened TextOrder

  /** A manifest's object for one name: its inode token, if it has one, and everything else. */
  datatype Object = Object(name: string, token: Option<int>, rest: string)

  function Highest(objects: seq<Object>): (highest: int)
    ensures highest >= 0
    ensures forall one :: one in objects && one.token.Some? ==> one.token.value <= highest
  {
    if objects == [] then 0
    else
      var last, before := objects[|objects| - 1].token, Highest(objects[..|objects| - 1]);
      if last.Some? && last.value > before then last.value else before
  }

  /** Where a part's tokens start counting from. */
  function Offset(sources: seq<seq<Object>>, s: nat): (offset: int)
    requires s <= |sources|
    ensures offset >= 0
  {
    if s == 0 then 0 else Offset(sources, s - 1) + Highest(sources[s - 1])
  }

  function Shifted(one: Object, offset: int): Object {
    if one.token.Some? then one.(token := Some(one.token.value + offset)) else one
  }

  predicate Earlier(s: nat, i: nat, t: nat, n: nat) {
    s < t || (s == t && i < n)
  }

  /** Everything that was read before the n-th object of part t, the last of each name. */
  ghost predicate LastBefore(sources: seq<seq<Object>>, s: nat, i: nat, t: nat, n: nat)
    ensures LastBefore(sources, s, i, t, n) ==> s < |sources| && i < |sources[s]|
  {
    && s < |sources| && i < |sources[s]| && Earlier(s, i, t, n)
    && forall u: nat, j: nat :: 0 <= u < |sources| && 0 <= j < |sources[u]| && Earlier(u, j, t, n) && sources[u][j].name == sources[s][i].name ==>
         !Earlier(s, i, u, j)
  }

  ghost predicate HoldsLast(objects: map<string, Object>, sources: seq<seq<Object>>, t: nat, n: nat) {
    && (forall s: nat, i: nat :: 0 <= s < |sources| && 0 <= i < |sources[s]| && Earlier(s, i, t, n) ==> sources[s][i].name in objects)
    && (forall name :: name in objects ==> exists s: nat, i: nat :: LastBefore(sources, s, i, t, n) && sources[s][i].name == name
                                                      && objects[name] == Shifted(sources[s][i], Offset(sources, s)))
  }

  lemma HoldsNothing(sources: seq<seq<Object>>)
    ensures HoldsLast(map[], sources, 0, 0)
  {
  }

  lemma NextIsLast(sources: seq<seq<Object>>, t: nat, n: nat)
    requires t < |sources| && n < |sources[t]|
    ensures LastBefore(sources, t, n, t, n + 1)
  {
  }

  lemma StaysLast(sources: seq<seq<Object>>, s: nat, i: nat, t: nat, n: nat)
    requires t < |sources| && n < |sources[t]| && LastBefore(sources, s, i, t, n)
    requires sources[s][i].name != sources[t][n].name
    ensures LastBefore(sources, s, i, t, n + 1)
  {
  }

  lemma HoldsAnother(objects: map<string, Object>, sources: seq<seq<Object>>, t: nat, n: nat)
    requires t < |sources| && n < |sources[t]| && HoldsLast(objects, sources, t, n)
    ensures HoldsLast(objects[sources[t][n].name := Shifted(sources[t][n], Offset(sources, t))], sources, t, n + 1)
  {
    hide Shifted, Offset, LastBefore;
    var one := sources[t][n];
    var after := objects[one.name := Shifted(one, Offset(sources, t))];
    NextIsLast(sources, t, n);
    forall name | name in after && name != one.name
      ensures exists s: nat, i: nat :: LastBefore(sources, s, i, t, n + 1) && sources[s][i].name == name
                                       && after[name] == Shifted(sources[s][i], Offset(sources, s))
    {
      var s: nat, i: nat :| LastBefore(sources, s, i, t, n) && sources[s][i].name == name
                            && objects[name] == Shifted(sources[s][i], Offset(sources, s));
      StaysLast(sources, s, i, t, n);
    }
  }

  lemma HoldsWholePart(objects: map<string, Object>, sources: seq<seq<Object>>, t: nat)
    requires t < |sources| && HoldsLast(objects, sources, t, |sources[t]|)
    ensures HoldsLast(objects, sources, t + 1, 0)
  {
    hide Shifted, Offset;
    forall name | name in objects
      ensures exists s: nat, i: nat :: LastBefore(sources, s, i, t + 1, 0) && sources[s][i].name == name
                             && objects[name] == Shifted(sources[s][i], Offset(sources, s))
    {
      var s: nat, i: nat :| LastBefore(sources, s, i, t, |sources[t]|) && sources[s][i].name == name
                  && objects[name] == Shifted(sources[s][i], Offset(sources, s));
      assert LastBefore(sources, s, i, t + 1, 0);
    }
  }

  method TakePart(before: map<string, Object>, sources: seq<seq<Object>>, t: nat, offset: int)
    returns (objects: map<string, Object>, highest: int)
    requires t < |sources| && offset == Offset(sources, t) && HoldsLast(before, sources, t, 0)
    ensures HoldsLast(objects, sources, t + 1, 0) && highest == Highest(sources[t])
  {
    hide HoldsLast, Offset;
    objects, highest := before, 0;
    for n := 0 to |sources[t]|
      invariant HoldsLast(objects, sources, t, n) && highest == Highest(sources[t][..n])
    {
      assert sources[t][..n + 1][..n] == sources[t][..n];
      var one := sources[t][n];
      HoldsAnother(objects, sources, t, n);
      if one.token.Some? {
        highest := if highest >= one.token.value then highest else one.token.value;
        objects := objects[one.name := one.(token := Some(one.token.value + offset))];
      } else {
        objects := objects[one.name := one];
      }
    }
    assert sources[t][..|sources[t]|] == sources[t];
    HoldsWholePart(objects, sources, t);
  }

  // What comes out.

  /** The last object of its name in all the parts, its token counting on from the parts before. */
  ghost predicate ComesFrom(sources: seq<seq<Object>>, one: Object, s: nat, i: nat) {
    LastBefore(sources, s, i, |sources|, 0) && one == Shifted(sources[s][i], Offset(sources, s))
  }

  ghost predicate Sourced(sources: seq<seq<Object>>, one: Object) {
    exists s: nat, i: nat :: ComesFrom(sources, one, s, i)
  }

  predicate NameLeq(a: string, b: string) {
    !PathBefore(Split(b), Split(a))
  }

  lemma NameRanks()
    ensures Ranks((a: string, b: string) => NameLeq(a, b))
  {
    hide Split, PathBefore;
    forall a: string, b: string, c: string
      ensures NameLeq(a, b) || NameLeq(b, a)
      ensures NameLeq(a, b) && NameLeq(b, c) ==> NameLeq(a, c)
    {
      PathsAreOrdered(Split(a), Split(b));
      PathsAreOrdered(Split(b), Split(c));
      PathsAreOrdered(Split(c), Split(a));
      if NameLeq(a, b) && NameLeq(b, c) && !NameLeq(a, c) {
        if Split(a) != Split(b) {
          PathOrderIsTransitive(Split(c), Split(a), Split(b));
        }
      }
    }
  }

  method SortNames(names: set<string>) returns (ordered: seq<string>)
    ensures InOrder(ordered) && Elements(ordered) == names
  {
    hide NameLeq;
    NameRanks();
    ordered := Sort(names, (a: string, b: string) => NameLeq(a, b));
    forall i, j | 0 <= i < j < |ordered|
      ensures PathBefore(Split(ordered[i]), Split(ordered[j]))
    {
      OrderedStrictly(ordered[i], ordered[j]);
    }
  }

  lemma OrderedStrictly(a: string, b: string)
    requires NameLeq(a, b) && a != b
    ensures PathBefore(Split(a), Split(b))
  {
    hide Split, PathBefore;
    PathsAreOrdered(Split(a), Split(b));
    if Split(a) == Split(b) {
      SplitIsInjective(a, b);
    }
  }

  function ObjectNames(objects: seq<Object>): (names: seq<string>)
    ensures |names| == |objects| && forall i :: 0 <= i < |objects| ==> names[i] == objects[i].name
  {
    seq(|objects|, i requires 0 <= i < |objects| => objects[i].name)
  }

  /** Write the listing of a whole from those of its parts: every name any of them lists, once, in
      order, as the last of them to list it has it. */
  method Merge(sources: seq<seq<Object>>) returns (out: seq<Object>)
    ensures InOrder(ObjectNames(out))
    ensures forall one :: one in out ==> Sourced(sources, one)
    ensures forall s: nat, i: nat :: 0 <= s < |sources| && 0 <= i < |sources[s]| ==> sources[s][i].name in ObjectNames(out)
  {
    hide InOrder, HoldsLast, Highest, ComesFrom;
    var objects: map<string, Object>, offset := map[], 0;
    HoldsNothing(sources);
    for t := 0 to |sources|
      invariant HoldsLast(objects, sources, t, 0) && offset == Offset(sources, t)
    {
      var highest;
      objects, highest := TakePart(objects, sources, t, offset);
      offset := offset + highest;
    }
    MergedComesFrom(objects, sources);
    var names := SortNames(objects.Keys);
    assert forall name :: name in names <==> name in Elements(names);
    out := seq(|names|, k requires 0 <= k < |names| => objects[names[k]]);
    assert ObjectNames(out) == names;
    assert forall k :: 0 <= k < |out| ==> names[k] in objects && out[k] == objects[names[k]];
  }

  lemma MergedComesFrom(objects: map<string, Object>, sources: seq<seq<Object>>)
    requires HoldsLast(objects, sources, |sources|, 0)
    ensures forall name :: name in objects ==> objects[name].name == name && Sourced(sources, objects[name])
    ensures forall s: nat, i: nat :: 0 <= s < |sources| && 0 <= i < |sources[s]| ==> sources[s][i].name in objects
  {
    hide Offset;
    forall name | name in objects
      ensures objects[name].name == name && Sourced(sources, objects[name])
    {
      var s: nat, i: nat :| LastBefore(sources, s, i, |sources|, 0) && sources[s][i].name == name
                  && objects[name] == Shifted(sources[s][i], Offset(sources, s));
      assert ComesFrom(sources, objects[name], s, i);
    }
  }

  // Tokens.

  ghost predicate CountFromOne(objects: seq<Object>) {
    forall one :: one in objects && one.token.Some? ==> one.token.value >= 1
  }

  lemma {:induction false} OffsetsGrow(sources: seq<seq<Object>>, s: nat, t: nat)
    requires s < t <= |sources|
    ensures Offset(sources, s) + Highest(sources[s]) <= Offset(sources, t)
  {
    if s < t - 1 {
      OffsetsGrow(sources, s, t - 1);
    }
  }

  /** Two names share a token in the whole exactly if they came from one part and shared it there. */
  lemma TokensKeepTheirGroups(sources: seq<seq<Object>>, a: Object, s: nat, i: nat, b: Object, t: nat, j: nat)
    requires forall u :: 0 <= u < |sources| ==> CountFromOne(sources[u])
    requires ComesFrom(sources, a, s, i) && ComesFrom(sources, b, t, j) && a.token.Some? && b.token.Some?
    ensures a.token == b.token <==> s == t && sources[s][i].token == sources[t][j].token
  {
    hide Offset, Highest, LastBefore;
    SourceOf(sources, a, s, i);
    SourceOf(sources, b, t, j);
    if s < t {
      OffsetsGrow(sources, s, t);
    } else if t < s {
      OffsetsGrow(sources, t, s);
    }
  }

  lemma SourceOf(sources: seq<seq<Object>>, one: Object, s: nat, i: nat)
    requires ComesFrom(sources, one, s, i)
    ensures s < |sources| && i < |sources[s]| && sources[s][i] in sources[s]
  {
  }

  /** A part that numbered its inodes from zero could be mixed up with the one before it. */
  lemma TokensFromZeroWouldMix() returns (sources: seq<seq<Object>>, a: Object, b: Object)
    ensures ComesFrom(sources, a, 0, 0) && ComesFrom(sources, b, 1, 0) && a.token.Some? && a.token == b.token
  {
    var x, y := Object("x", Some(1), ""), Object("y", Some(0), "");
    sources := [[x], [y]];
    assert [x][..0] == [];
    assert Highest([x]) == 1 && Offset(sources, 0) == 0 && Offset(sources, 1) == 1;
    a, b := Shifted(x, 0), Shifted(y, 1);
    assert ComesFrom(sources, a, 0, 0) && ComesFrom(sources, b, 1, 0);
  }

  // Counting from one is what keeps parts apart.

  /** An object is the last of its name in its part. */
  ghost predicate IsLast(part: seq<Object>, i: nat) {
    i < |part| && forall k :: i < k < |part| ==> part[k].name != part[i].name
  }

  ghost predicate SurvivorsCountFromOne(part: seq<Object>) {
    forall i: nat :: IsLast(part, i) && part[i].token.Some? ==> part[i].token.value >= 1
  }

  /** Names that come from different parts never share a token. */
  ghost predicate KeptApart(sources: seq<seq<Object>>) {
    forall a, s, i, b, t, j :: ComesFrom(sources, a, s, i) && ComesFrom(sources, b, t, j) && s != t && a.token.Some? ==> a.token != b.token
  }

  function Longest(part: seq<Object>): (n: nat)
    ensures forall one :: one in part ==> |one.name| <= n
  {
    if part == [] then 0
    else
      var rest := Longest(part[..|part| - 1]);
      if |part[|part| - 1].name| > rest then |part[|part| - 1].name| else rest
  }

  /** A part with a token below one is mixed up with some part before it that counts from one. */
  lemma TokensBelowOneMix(part: seq<Object>, i: nat) returns (front: seq<Object>)
    requires IsLast(part, i) && part[i].token.Some? && part[i].token.value < 1
    ensures CountFromOne(front) && !KeptApart([front, part])
  {
    hide Longest;
    var y, n := part[i].token.value, Longest(part);
    var x, z := Object(seq(n + 1, _ => 'x'), Some(1), ""), Object(seq(n + 2, _ => 'x'), Some(1 - y), "");
    front := [x, z];
    var sources := [front, part];
    assert front[..1] == [x] && [x][..0] == [] && Highest([x]) == 1 && Highest(front) == 1 - y;
    assert Offset(sources, 0) == 0 && Offset(sources, 1) == 1 - y;
    var a, b := Shifted(x, 0), Shifted(part[i], 1 - y);
    assert |x.name| == n + 1 && |z.name| == n + 2;
    forall one | one in part
      ensures one.name != x.name && one.name != z.name
    {
    }
    assert ComesFrom(sources, a, 0, 0);
    assert ComesFrom(sources, b, 1, i);
    assert a.token == b.token;
  }

  /** A part stays apart from every part before it that counts from one, exactly if each token that it
      keeps is at least one. */
  lemma PartsKeptApartExactlyIf(part: seq<Object>)
    ensures (forall front :: CountFromOne(front) ==> KeptApart([front, part])) <==> SurvivorsCountFromOne(part)
  {
    hide KeptApart;
    if SurvivorsCountFromOne(part) {
      forall front | CountFromOne(front)
        ensures KeptApart([front, part])
      {
        CountingKeepsApart(front, part);
      }
    } else {
      var i: nat :| IsLast(part, i) && part[i].token.Some? && part[i].token.value < 1;
      var front := TokensBelowOneMix(part, i);
    }
  }

  lemma CountingKeepsApart(front: seq<Object>, part: seq<Object>)
    requires CountFromOne(front) && SurvivorsCountFromOne(part)
    ensures KeptApart([front, part])
  {
    hide Highest;
    var sources := [front, part];
    assert Offset(sources, 0) == 0 && Offset(sources, 1) == Highest(front);
    hide Offset;
    forall a, s, i, b, t, j | ComesFrom(sources, a, s, i) && ComesFrom(sources, b, t, j) && s != t && a.token.Some?
      ensures a.token != b.token
    {
      ApartInOrder(sources, a, s, i);
      if b.token.Some? {
        ApartInOrder(sources, b, t, j);
      }
    }
  }

  lemma ApartInOrder(sources: seq<seq<Object>>, a: Object, s: nat, i: nat)
    requires |sources| == 2 && CountFromOne(sources[0]) && SurvivorsCountFromOne(sources[1])
    requires ComesFrom(sources, a, s, i) && a.token.Some?
    ensures s < 2 && if s == 0 then 1 <= a.token.value <= Highest(sources[0]) else a.token.value > Highest(sources[0])
  {
    hide Highest;
    SourceOf(sources, a, s, i);
    assert Offset(sources, 0) == 0 && Offset(sources, 1) == Highest(sources[0]);
    if s == 1 {
      assert IsLast(sources[1], i);
    }
  }

  /** What a part writes: its entries in the order listed, numbered as hardlinks. */
  function Written(found: seq<Entry>, tokens: map<nat, nat>, rest: Entry -> string): (objects: seq<Object>)
    ensures |objects| == |found|
    ensures forall i :: 0 <= i < |found| ==> objects[i] == ObjectOf(found[i], tokens, rest)
  {
    seq(|found|, i requires 0 <= i < |found| => ObjectOf(found[i], tokens, rest))
  }

  function ObjectOf(entry: Entry, tokens: map<nat, nat>, rest: Entry -> string): Object {
    var id := entry.inode.id;
    Object(entry.name, if id in tokens then Some(tokens[id] as int) else None, rest(entry))
  }

  /** However many parts are merged, two names that are hardlinks of one inode of one part still are
      afterwards, and no two others become so. */
  lemma HardlinksSurviveMerging(parts: seq<seq<Entry>>, tokens: seq<map<nat, nat>>, rest: Entry -> string, sources: seq<seq<Object>>,
                                a: Object, s: nat, i: nat, b: Object, t: nat, j: nat)
    requires |parts| == |tokens| == |sources|
    requires forall u :: 0 <= u < |parts| ==> Numbered(parts[u], |parts[u]|, tokens[u]) && sources[u] == Written(parts[u], tokens[u], rest)
    requires ComesFrom(sources, a, s, i) && ComesFrom(sources, b, t, j) && a.token.Some? && b.token.Some?
    ensures s < |parts| && i < |parts[s]| && t < |parts| && j < |parts[t]|
    ensures a.token == b.token <==> s == t && parts[s][i].inode.id == parts[t][j].inode.id
  {
    hide Offset, Highest, LastBefore;
    SourceOf(sources, a, s, i);
    SourceOf(sources, b, t, j);
    assert Numbered(parts[s], |parts[s]|, tokens[s]) && Numbered(parts[t], |parts[t]|, tokens[t]);
    forall u | 0 <= u < |sources|
      ensures CountFromOne(sources[u])
    {
      assert Numbered(parts[u], |parts[u]|, tokens[u]) && sources[u] == Written(parts[u], tokens[u], rest);
    }
    TokensKeepTheirGroups(sources, a, s, i, b, t, j);
  }
}
