/** The order of a manifest, what it numbers as hardlinks, and how several are merged into one. */
module Manifest {
  import opened Lexicographic
  import opened Options
  import opened Sorting
  import opened TextOrder
  import opened Texts

  // Names and their components.

  function Split(name: string): (parts: seq<string>)
    ensures parts != []
  {
    SplitAt(name, '/')
  }

  function Join(parts: seq<string>): string
    requires parts != []
  {
    JoinWith(parts, '/')
  }

  predicate Components(parts: seq<string>) {
    parts != [] && forall part :: part in parts ==> '/' !in part
  }

  lemma JoinInvertsSplit(name: string)
    ensures Join(Split(name)) == name && Components(Split(name))
  {
    JoinInvertsSplitAt(name, '/');
  }

  lemma SplitOfPrefix(part: string, rest: string)
    requires '/' !in part
    ensures Split(part + "/" + rest) == [part] + Split(rest)
    ensures Split(part) == [part]
  {
    SplitAtFirst(part, rest, '/');
  }

  lemma SplitInvertsJoin(parts: seq<string>)
    requires Components(parts)
    ensures Split(Join(parts)) == parts
  {
    SplitAtInvertsJoin(parts, '/');
  }

  lemma SplitIsInjective(a: string, b: string)
    requires Split(a) == Split(b)
    ensures a == b
  {
    JoinInvertsSplit(a);
    JoinInvertsSplit(b);
  }

  // The order.

  /** The first component that differs decides, and a path comes before what is below it. */
  predicate PathBefore(a: seq<string>, b: seq<string>) {
    b != [] && (a == [] || Before(a[0], b[0]) || (a[0] == b[0] && PathBefore(a[1..], b[1..])))
  }

  lemma {:induction false} PathsAreOrdered(a: seq<string>, b: seq<string>)
    ensures !PathBefore(a, a)
    ensures a == b || PathBefore(a, b) || PathBefore(b, a)
    ensures !(PathBefore(a, b) && PathBefore(b, a))
    decreases |a| + |b|
  {
    hide Before;
    if a != [] {
      BeforeIsTotal(a[0], a[0], a[0]);
      PathsAreOrdered(a[1..], []);
    }
    if a != [] && b != [] {
      BeforeIsTotal(a[0], b[0], a[0]);
      PathsAreOrdered(a[1..], b[1..]);
      assert a[0] == b[0] && a[1..] == b[1..] ==> a == [a[0]] + a[1..] == b;
    }
  }

  lemma {:induction false} PathOrderIsTransitive(a: seq<string>, b: seq<string>, c: seq<string>)
    requires PathBefore(a, b) && PathBefore(b, c)
    ensures PathBefore(a, c)
  {
    hide Before;
    if a != [] && b != [] && c != [] {
      BeforeIsTotal(a[0], b[0], c[0]);
      if a[0] == b[0] == c[0] {
        PathOrderIsTransitive(a[1..], b[1..], c[1..]);
      }
    }
  }

  lemma {:induction false} PrefixComesFirst(directory: seq<string>, path: seq<string>)
    requires directory < path
    ensures PathBefore(directory, path)
  {
    if directory != [] {
      assert path[0] == directory[0] && directory[1..] < path[1..];
      PrefixComesFirst(directory[1..], path[1..]);
    }
  }

  /** Nothing sorts between a directory and something below it but what is below it too. */
  lemma {:induction false} BetweenIsBelow(directory: seq<string>, between: seq<string>, path: seq<string>)
    requires directory < path && PathBefore(directory, between) && PathBefore(between, path)
    ensures directory < between
  {
    hide Before;
    if directory != [] {
      BeforeIsTotal(directory[0], between[0], path[0]);
      BeforeIsTotal(between[0], between[0], between[0]);
      assert directory[1..] < path[1..];
      BetweenIsBelow(directory[1..], between[1..], path[1..]);
      assert directory == [directory[0]] + directory[1..] && between == [between[0]] + between[1..];
    }
  }

  predicate InOrder(names: seq<string>) {
    forall i, j :: 0 <= i < j < |names| ==> PathBefore(Split(names[i]), Split(names[j]))
  }

  /** Whatever names are listed in this order, everything listed below a directory comes right after it,
      with nothing else in between. */
  lemma ContentsFollowTheirDirectory(names: seq<string>, i: nat, k: nat)
    requires InOrder(names) && i < |names| && k < |names| && Split(names[i]) < Split(names[k])
    ensures i < k
    ensures forall j :: i < j <= k ==> Split(names[i]) < Split(names[j])
  {
    hide PathBefore;
    var directory, path := Split(names[i]), Split(names[k]);
    PrefixComesFirst(directory, path);
    PathsAreOrdered(directory, path);
    forall j | i < j < k
      ensures directory < Split(names[j])
    {
      BetweenIsBelow(directory, Split(names[j]), path);
    }
  }

  /** Sorting the names themselves would not do: `a.x` sorts between `a` and what is in it. */
  lemma PlainOrderSeparatesContents()
    ensures Before("a", "a.x") && Before("a.x", "a/x")
    ensures Split("a") < Split("a/x") && !(Split("a") < Split("a.x"))
  {
    hide Order, Split;
    SplitOfPrefix("a", "x");
    SplitOfPrefix("x", "");
    SplitOfPrefix("a.x", "");
    assert "a" + "/" + "x" == "a/x";
    OrderOfCommonPrefix(Codes("a"), [], Codes(".x"));
    OrderOfCommonPrefix(Codes("a"), Codes(".x"), Codes("/x"));
    OrderOfHeads('.' as int, Codes("x"), '/' as int, Codes("x"));
    assert Codes(".x") == ['.' as int] + Codes("x") && Codes("/x") == ['/' as int] + Codes("x");
    assert Codes("a") + [] == Codes("a");
    assert Codes("a") + Codes(".x") == Codes("a.x") && Codes("a") + Codes("/x") == Codes("a/x");
    NothingIsFirst(Codes(".x"));
  }

  lemma NothingIsFirst(codes: seq<int>)
    requires codes != []
    ensures Order([], codes) < 0
  {
  }
}
