/** Listing only what some roots reach. */
module Roots {
  import opened Lexicographic
  import opened Listing
  import opened Manifest
  import opened Options
  import opened Sorting
  import opened TextOrder
  import opened Texts

  /** A name without the separators around it. */
  function Strip(name: string): (bare: string)
    ensures bare != "" ==> bare[0] != '/' && bare[|bare| - 1] != '/'
  {
    if name == "" then ""
    else if name[0] == '/' then Strip(name[1..])
    else if name[|name| - 1] == '/' then Strip(name[..|name| - 1])
    else name
  }

  /** Exactly the separators around a name go. */
  lemma {:induction false} StripTakesSeparators(front: string, bare: string, back: string)
    requires (forall i :: 0 <= i < |front| ==> front[i] == '/') && (forall i :: 0 <= i < |back| ==> back[i] == '/')
    requires bare != "" ==> bare[0] != '/' && bare[|bare| - 1] != '/'
    ensures Strip(front + bare + back) == bare
    decreases |front| + |back|
  {
    var name := front + bare + back;
    if front != "" {
      assert name[1..] == front[1..] + bare + back;
      StripTakesSeparators(front[1..], bare, back);
    } else if back != "" {
      if bare == "" {
        assert name == back && name[1..] == front + bare + back[1..];
        StripTakesSeparators(front, bare, back[1..]);
      } else {
        assert name[0] == bare[0];
        assert name[..|name| - 1] == front + bare + back[..|back| - 1];
        StripTakesSeparators(front, bare, back[..|back| - 1]);
      }
    } else {
      assert name == bare;
    }
  }

  /** A root covers itself and everything below it. */
  predicate Covers(root: string, name: string) {
    name == root || root + "/" <= name
  }

  lemma CoveringComesFirst(root: string, name: string)
    requires Covers(root, name)
    ensures name == root || Before(root, name)
  {
    if name != root {
      var rest := name[|root|..];
      assert name == root + rest && rest != [];
      assert Codes(name) == Codes(root) + Codes(rest) && Codes(root) == Codes(root) + [];
      OrderOfCommonPrefix(Codes(root), [], Codes(rest));
      NothingIsFirst(Codes(rest));
    }
  }

  /** Names kept out of some others, none covered by another, so that they cover all. */
  ghost predicate Scoped(names: seq<string>, kept: seq<string>) {
    (forall name :: name in kept ==> name in names) && CoversAll(names, kept) && Increasing(kept) && Apart(kept)
  }

  ghost predicate CoversAll(names: seq<string>, kept: seq<string>) {
    forall name :: name in names ==> exists i :: 0 <= i < |kept| && Covers(kept[i], name)
  }

  ghost predicate Increasing(kept: seq<string>) {
    forall i, j :: 0 <= i < j < |kept| ==> Before(kept[i], kept[j])
  }

  ghost predicate Apart(kept: seq<string>) {
    forall i, j :: 0 <= i < |kept| && 0 <= j < |kept| && i != j ==> !Covers(kept[i], kept[j])
  }

  lemma ScopesAnother(names: seq<string>, kept: seq<string>, name: string, covered: bool)
    requires Scoped(names, kept) && forall one :: one in names ==> Before(one, name)
    requires covered <==> exists i :: 0 <= i < |kept| && Covers(kept[i], name)
    ensures Scoped(names + [name], if covered then kept else kept + [name])
  {
    hide Before, Covers;
    CoversItself(name);
    forall one | one in kept
      ensures Before(one, name) && !Covers(name, one)
    {
      BeforeIsTotal(name, one, name);
      if Covers(name, one) {
        CoveringComesFirst(name, one);
      }
    }
    if !covered {
      var after := kept + [name];
      forall other | other in names + [name]
        ensures exists i :: 0 <= i < |after| && Covers(after[i], other)
      {
        if other in names {
          var i :| 0 <= i < |kept| && Covers(kept[i], other);
          assert after[i] == kept[i];
        } else {
          assert after[|kept|] == name;
        }
      }
    }
  }

  function Stripped(roots: seq<string>): set<string> {
    set root | root in roots :: Strip(root)
  }

  predicate IsCovered(kept: seq<string>, name: string) {
    exists i :: 0 <= i < |kept| && Covers(kept[i], name)
  }

  /** Names, less those that one before them covers. */
  function Uncovered(names: seq<string>): seq<string> {
    if names == [] then []
    else
      var kept, name := Uncovered(names[..|names| - 1]), names[|names| - 1];
      if IsCovered(kept, name) then kept else kept + [name]
  }

  ghost function ScopeOf(roots: seq<string>): seq<string> {
    if "" in Stripped(roots) then [""] else Uncovered(InTextOrder(Stripped(roots)))
  }

  /** The paths to list: deduplicated, ordered, and none covered by another. */
  method Scope(roots: seq<string>) returns (kept: seq<string>)
    ensures kept == ScopeOf(roots)
  {
    hide IsCovered, InTextOrder;
    var names := SortTexts(Stripped(roots));
    assert forall name :: name in names <==> name in Elements(names);
    if "" in names {
      return [""];
    }
    kept := [];
    for n := 0 to |names|
      invariant kept == Uncovered(names[..n])
    {
      assert names[..n + 1][..n] == names[..n];
      var covered := Covered(kept, names[n]);
      if !covered {
        kept := kept + [names[n]];
      }
    }
    assert names[..|names|] == names;
  }

  lemma {:induction false} UncoveredIsScoped(names: seq<string>)
    requires Increasing(names)
    ensures Scoped(names, Uncovered(names))
  {
    hide Before, Covers, Scoped;
    if names == [] {
      NothingScoped();
    } else {
      var n := |names| - 1;
      UncoveredIsScoped(names[..n]);
      assert names == names[..n] + [names[n]];
      ScopesAnother(names[..n], Uncovered(names[..n]), names[n], IsCovered(Uncovered(names[..n]), names[n]));
    }
  }

  /** Whatever roots are asked for, in whatever order and however often: all of them are covered, nothing
      else is kept, and nothing kept covers anything else that is. */
  lemma ScopeCoversRoots(roots: seq<string>)
    ensures forall root :: root in roots ==> "" in Stripped(roots) || IsCovered(ScopeOf(roots), Strip(root))
    ensures forall one :: one in ScopeOf(roots) ==> exists root :: root in roots && one == Strip(root)
    ensures Increasing(ScopeOf(roots)) && Apart(ScopeOf(roots))
  {
    hide Covers, InTextOrder, Uncovered, IsCovered, Before;
    assert forall root :: root in roots ==> Strip(root) in Stripped(roots);
    if "" !in Stripped(roots) {
      var names := InTextOrder(Stripped(roots));
      assert forall name :: name in names <==> name in Elements(names);
      InTextOrderIncreases(Stripped(roots));
      UncoveredIsScoped(names);
      CoveredByScope(names, Uncovered(names));
    }
  }

  lemma InTextOrderIncreases(names: set<string>)
    ensures Increasing(InTextOrder(names))
  {
  }

  lemma CoveredByScope(names: seq<string>, kept: seq<string>)
    requires CoversAll(names, kept)
    ensures forall name :: name in names ==> IsCovered(kept, name)
  {
  }

  lemma NothingScoped()
    ensures Scoped([], [])
  {
  }

  lemma CoversItself(name: string)
    ensures Covers(name, name)
  {
  }

  method Covered(kept: seq<string>, name: string) returns (covered: bool)
    ensures covered <==> IsCovered(kept, name)
  {
    for i := 0 to |kept|
      invariant forall j :: 0 <= j < i ==> !Covers(kept[j], name)
    {
      if Covers(kept[i], name) {
        return true;
      }
    }
    return false;
  }

  // What roots reach.

  /** What is found at a path from the top of a tree. Symlinks above it are followed, wherever they lead:
      nothing here depends on where that is. */
  type Finder = string -> Option<Node>

  /** Where no symlink is in the way, it is the node of that path. */
  function Within(node: Node): Finder {
    name => NodeAt(node, Split(name))
  }

  ghost predicate FindsProper(at: Finder) {
    forall name :: at(name).Some? ==> Proper(at(name).value)
  }

  lemma WithinFindsProper(node: Node)
    requires Proper(node)
    ensures FindsProper(Within(node))
  {
    forall name | Within(node)(name).Some?
      ensures Proper(Within(node)(name).value)
    {
      PartsOfProperAreProper(node, Split(name));
    }
  }

  ghost function RootEntries(at: Finder, name: string): seq<Entry> {
    match at(name)
    case None => []
    case Some(root) => [EntryOf(root, Split(name))] + Below(root, Split(name))
  }

  ghost function ListRoots(at: Finder, names: seq<string>): seq<Entry> {
    if names == [] then [] else RootEntries(at, names[0]) + ListRoots(at, names[1..])
  }

  /** The roots the image has; the others are skipped. */
  function Existing(at: Finder, names: seq<string>): seq<string> {
    if names == [] then []
    else (if at(names[0]).Some? then [names[0]] else []) + Existing(at, names[1..])
  }

  /** Yield every inode below a tree, or only those some roots reach. */
  method Entries(node: Node, at: Finder, roots: seq<string>) returns (found: seq<Entry>)
    requires node.Directory?
    ensures found == if roots == [] || "" in Stripped(roots) then Below(node, []) else ListRoots(at, ScopeOf(roots))
  {
    hide Below, ScopeOf, Split, EntryOf;
    if roots == [] {
      found := List(node, "", []);
      return;
    }
    var names := Scope(roots);
    WholeTreeOrNot(roots);
    found := [];
    assert names[0..] == names && [] + ListScope(node, at, names) == ListScope(node, at, names);
    for i := 0 to |names|
      invariant found + ListScope(node, at, names[i..]) == ListScope(node, at, names)
    {
      var more;
      if names[i] == "" {
        more := List(node, "", []);
      } else {
        more := ListRoot(at, names[i]);
      }
      ghost var rest := ListScope(node, at, names[i + 1..]);
      assert names[i..][1..] == names[i + 1..];
      assert found + (more + rest) == found + more + rest;
      found := found + more;
    }
    assert names[|names|..] == [] && found + [] == found;
    ScopeListed(node, at, names);
  }

  /** What each name of a scope yields, the whole tree for the empty one. */
  ghost function ListScope(node: Node, at: Finder, names: seq<string>): seq<Entry> {
    if names == [] then []
    else (if names[0] == "" then Below(node, []) else RootEntries(at, names[0])) + ListScope(node, at, names[1..])
  }

  lemma WholeTreeOrNot(roots: seq<string>)
    ensures ScopeOf(roots) == [""] || "" !in ScopeOf(roots)
    ensures ScopeOf(roots) == [""] <==> "" in Stripped(roots)
  {
    ScopeCoversRoots(roots);
    hide Uncovered, InTextOrder;
    assert "" in [""];
    if "" in ScopeOf(roots) {
      var root :| root in roots && "" == Strip(root);
      assert "" in Stripped(roots);
    }
  }

  lemma {:induction false} ScopeListed(node: Node, at: Finder, names: seq<string>)
    ensures names == [""] ==> ListScope(node, at, names) == Below(node, [])
    ensures "" !in names ==> ListScope(node, at, names) == ListRoots(at, names)
  {
    hide Below, RootEntries;
    if names == [""] {
      assert names[1..] == [] && Below(node, []) + [] == Below(node, []);
    } else if names != [] {
      ScopeListed(node, at, names[1..]);
      assert "" !in names ==> names[0] != "" && "" !in names[1..];
    }
  }

  method ListRoot(at: Finder, name: string) returns (found: seq<Entry>)
    ensures found == RootEntries(at, name)
  {
    hide Below, Split;
    var root := at(name);
    if root.None? {
      return [];
    }
    JoinInvertsSplit(name);
    found := [Entry(name, root.value.inode, root.value.Directory?)];
    if root.value.Directory? {
      var more := List(root.value, name + "/", Split(name));
      found := found + more;
    } else {
      LeafHasNothingBelow(root.value, Split(name));
    }
  }

  lemma LeafHasNothingBelow(node: Node, path: seq<string>)
    requires node.Leaf?
    ensures Below(node, path) == []
  {
  }

  // Whether that is in manifest order.

  lemma ApartByComponents(a: string, b: string)
    requires !Covers(a, b)
    ensures !(Split(a) <= Split(b))
  {
    hide SplitAt, JoinWith;
    if Split(a) <= Split(b) {
      var rest := Split(b)[|Split(a)|..];
      assert Split(b) == Split(a) + rest;
      JoinInvertsSplit(a);
      JoinInvertsSplit(b);
      assert rest == [] ==> Split(a) + rest == Split(a);
      if rest != [] {
        JoinOfConcatenation(Split(a), rest, '/');
      }
    }
  }

  /** Where two paths are in order and neither leads to the other, so is everything they lead to. */
  lemma {:induction false} OrderExtends(a: seq<string>, b: seq<string>, x: seq<string>, y: seq<string>)
    requires PathBefore(a, b) && !(a <= b) && a <= x && b <= y
    ensures PathBefore(x, y)
  {
    hide Before;
    if a[0] == b[0] {
      assert a == [a[0]] + a[1..] && b == [b[0]] + b[1..];
      BeforeIsTotal(a[0], a[0], a[0]);
      assert a[1..] <= x[1..] && b[1..] <= y[1..];
      OrderExtends(a[1..], b[1..], x[1..], y[1..]);
    }
  }

  lemma RootIsListedFirst(at: Finder, name: string)
    requires at(name).Some? ==> Proper(at(name).value)
    ensures var found := RootEntries(at, name);
            InOrder(NamesOf(found)) && forall i :: 0 <= i < |found| ==> Split(name) <= Split(found[i].name)
    ensures at(name).Some? ==> RootEntries(at, name) != [] && RootEntries(at, name)[0].name == name
  {
    hide Split, PathBefore, Below, Join;
    if at(name).Some? {
      var root := at(name).value;
      JoinInvertsSplit(name);
      BelowIsOrdered(root, Split(name));
      var below := Below(root, Split(name));
      var found := [EntryOf(root, Split(name))] + below;
      forall i, j | 0 <= i < j < |found|
        ensures PathBefore(Split(found[i].name), Split(found[j].name))
      {
        if i == 0 {
          PrefixComesFirst(Split(name), Split(found[j].name));
        } else {
          assert PathBefore(Split(NamesOf(below)[i - 1]), Split(NamesOf(below)[j - 1]));
        }
      }
    }
  }

  ghost predicate ProperNodeAt(node: Node, path: seq<string>) {
    NodeAt(node, path).Some? ==> Proper(NodeAt(node, path).value)
  }

  lemma {:induction false} PartsOfProperAreProper(node: Node, path: seq<string>)
    requires Proper(node)
    ensures ProperNodeAt(node, path)
  {
    if path != [] && node.Directory? && path[0] in node.kids {
      PartsOfProperAreProper(node.kids[path[0]], path[1..]);
    }
  }

  ghost predicate LeadsOn(roots: seq<string>, name: string) {
    exists k :: 0 <= k < |roots| && Split(roots[k]) <= Split(name)
  }

  /** These entries are those of these roots and what is below them. */
  ghost predicate ListedFor(found: seq<Entry>, roots: seq<string>) {
    && (forall i :: 0 <= i < |found| ==> LeadsOn(roots, found[i].name))
    && (forall root :: root in roots ==> root in NamesOf(found))
  }

  lemma ListedForOneMore(first: seq<Entry>, rest: seq<Entry>, name: string, roots: seq<string>)
    requires ListedFor(rest, roots) && first != [] && first[0].name == name
    requires forall i :: 0 <= i < |first| ==> Split(name) <= Split(first[i].name)
    ensures ListedFor(first + rest, [name] + roots)
  {
    hide Split;
    var all, after := first + rest, [name] + roots;
    assert NamesOf(all) == NamesOf(first) + NamesOf(rest) && NamesOf(first)[0] == name;
    forall i | 0 <= i < |all|
      ensures LeadsOn(after, all[i].name)
    {
      if i < |first| {
        assert after[0] == name && all[i] == first[i];
      } else {
        assert all[i] == rest[i - |first|] && LeadsOn(roots, rest[i - |first|].name);
        var k :| 0 <= k < |roots| && Split(roots[k]) <= Split(rest[i - |first|].name);
        assert after[k + 1] == roots[k];
      }
    }
    forall root | root in after
      ensures root in NamesOf(all)
    {
      assert root == name || root in NamesOf(rest);
    }
  }

  /** Everything listed for some roots is one of those the image has, or below it. */
  lemma {:induction false} ListedFromRoots(at: Finder, names: seq<string>)
    requires FindsProper(at)
    ensures ListedFor(ListRoots(at, names), Existing(at, names))
  {
    hide Split, RootEntries, LeadsOn;
    if names != [] {
      var first, rest, more := RootEntries(at, names[0]), ListRoots(at, names[1..]), Existing(at, names[1..]);
      RootIsListedFirst(at, names[0]);
      ListedFromRoots(at, names[1..]);
      if at(names[0]).None? {
        NoRootNoEntries(at, names[0]);
        assert [] + rest == rest && [] + more == more;
      } else {
        ListedForOneMore(first, rest, names[0], more);
      }
    }
  }

  lemma NoRootNoEntries(at: Finder, name: string)
    requires at(name).None?
    ensures RootEntries(at, name) == []
  {
  }

  lemma ConcatenatedInOrder(a: seq<Entry>, b: seq<Entry>)
    ensures InOrder(NamesOf(a + b)) <==>
            && InOrder(NamesOf(a)) && InOrder(NamesOf(b))
            && forall i, j :: 0 <= i < |a| && 0 <= j < |b| ==> PathBefore(Split(a[i].name), Split(b[j].name))
  {
    hide PathBefore, Split;
    var names := NamesOf(a + b);
    assert NamesOf(a) == names[..|a|] && NamesOf(b) == names[|a|..];
    if InOrder(names) {
      forall i, j | 0 <= i < |a| && 0 <= j < |b|
        ensures PathBefore(Split(a[i].name), Split(b[j].name))
      {
        assert names[i] == a[i].name && names[|a| + j] == b[j].name;
      }
    }
    if InOrder(NamesOf(a)) && InOrder(NamesOf(b))
       && forall i, j :: 0 <= i < |a| && 0 <= j < |b| ==> PathBefore(Split(a[i].name), Split(b[j].name)) {
      forall i, j | 0 <= i < j < |names|
        ensures PathBefore(Split(names[i]), Split(names[j]))
      {
        if j < |a| {
          assert names[i] == NamesOf(a)[i] && names[j] == NamesOf(a)[j];
        } else if i < |a| {
          assert names[i] == a[i].name && names[j] == b[j - |a|].name;
        } else {
          assert names[i] == NamesOf(b)[i - |a|] && names[j] == NamesOf(b)[j - |a|];
        }
      }
    }
  }

  /** Listing roots that cover none of each other comes out in manifest order exactly if the roots the
      image has are given in it. */
  lemma {:induction false} RootsListInOrderExactlyIf(at: Finder, names: seq<string>)
    requires FindsProper(at) && Apart(names)
    ensures InOrder(NamesOf(ListRoots(at, names))) <==> InOrder(Existing(at, names))
  {
    hide Split, RootEntries, PathBefore, Covers, InOrder;
    if names == [] {
      NothingIsInOrder();
    } else {
      var name, more := names[0], names[1..];
      ApartMore(names);
      RootsListInOrderExactlyIf(at, more);
      RootIsListedFirst(at, name);
      if at(name).None? {
        NoRootNoEntries(at, name);
        assert [] + ListRoots(at, more) == ListRoots(at, more) && [] + Existing(at, more) == Existing(at, more);
        assert ListRoots(at, names) == ListRoots(at, more) && Existing(at, names) == Existing(at, more);
      } else {
        OneMoreRoot(at, name, more);
        assert ListRoots(at, names) == RootEntries(at, name) + ListRoots(at, more);
        assert Existing(at, names) == [name] + Existing(at, more);
      }
    }
  }

  lemma ApartMore(names: seq<string>)
    requires Apart(names) && names != []
    ensures Apart(names[1..]) && forall other :: other in names[1..] ==> !Covers(names[0], other)
  {
    hide Covers;
    assert forall i :: 0 <= i < |names| - 1 ==> names[1..][i] == names[i + 1];
  }

  lemma NothingIsInOrder()
    ensures InOrder([]) && InOrder(NamesOf([]))
  {
  }

  lemma {:induction false} ExistingWereAskedFor(at: Finder, names: seq<string>)
    ensures forall name :: name in Existing(at, names) ==> name in names
  {
    hide NodeAt, Split;
    if names != [] {
      ExistingWereAskedFor(at, names[1..]);
    }
  }

  lemma OneMoreRoot(at: Finder, name: string, more: seq<string>)
    requires FindsProper(at) && at(name).Some?
    requires forall other :: other in more ==> !Covers(name, other)
    requires InOrder(NamesOf(ListRoots(at, more))) <==> InOrder(Existing(at, more))
    ensures InOrder(NamesOf(RootEntries(at, name) + ListRoots(at, more))) <==> InOrder([name] + Existing(at, more))
  {
    hide Split, RootEntries, PathBefore, Covers;
    var first, rest, existing := RootEntries(at, name), ListRoots(at, more), Existing(at, more);
    RootIsListedFirst(at, name);
    ListedFromRoots(at, more);
    ConcatenatedInOrder(first, rest);
    FirstInOrder(name, existing);
    if InOrder(NamesOf(first + rest)) {
      forall k | 0 <= k < |existing|
        ensures PathBefore(Split(name), Split(existing[k]))
      {
        assert existing[k] in existing && existing[k] in NamesOf(rest);
        var i :| 0 <= i < |rest| && NamesOf(rest)[i] == existing[k];
        assert PathBefore(Split(first[0].name), Split(rest[i].name));
      }
    }
    if InOrder([name] + existing) {
      forall i, j | 0 <= i < |first| && 0 <= j < |rest|
        ensures PathBefore(Split(first[i].name), Split(rest[j].name))
      {
        assert LeadsOn(existing, rest[j].name);
        var k :| 0 <= k < |existing| && Split(existing[k]) <= Split(rest[j].name);
        ExistingWereAskedFor(at, more);
        assert existing[k] in existing;
        ApartByComponents(name, existing[k]);
        OrderExtends(Split(name), Split(existing[k]), Split(first[i].name), Split(rest[j].name));
      }
    }
  }

  lemma FirstInOrder(name: string, names: seq<string>)
    ensures InOrder([name] + names) <==>
            InOrder(names) && forall k :: 0 <= k < |names| ==> PathBefore(Split(name), Split(names[k]))
  {
    hide PathBefore, Split;
    var all := [name] + names;
    assert forall k :: 0 <= k < |names| ==> names[k] == all[k + 1];
    if InOrder(all) {
      forall k | 0 <= k < |names|
        ensures PathBefore(Split(name), Split(names[k]))
      {
        assert PathBefore(Split(all[0]), Split(all[k + 1]));
      }
    }
  }

  lemma TwoInOrder(a: string, b: string)
    requires Before(a, b)
    ensures InTextOrder({a, b}) == [a, b]
  {
    hide Before;
    BeforeIsTotal(a, b, a);
    BeforeIsTotal(a, a, a);
    var ordered := InTextOrder({a, b});
    assert a in Elements(ordered) && b in Elements(ordered);
    assert forall k :: 0 <= k < |ordered| ==> ordered[k] in Elements(ordered);
    var i :| 0 <= i < |ordered| && ordered[i] == a;
    var j :| 0 <= j < |ordered| && ordered[j] == b;
    assert i < j;
    DistinctSize(ordered);
    assert |ordered| == 2;
  }

  /** Roots that were scoped need not be: scoping sorts whole names, and `a.x` sorts before `a/x` there. */
  lemma ScopedRootsCanBeOutOfOrder(at: Finder)
    requires FindsProper(at) && at("a.x").Some? && at("a/x").Some?
    ensures ScopeOf(["a/x", "a.x"]) == ["a.x", "a/x"] && !InOrder(NamesOf(ListRoots(at, ScopeOf(["a/x", "a.x"]))))
  {
    hide Split, RootEntries, PathBefore, ListRoots, Before, InTextOrder;
    var names := ["a.x", "a/x"];
    PlainOrderSeparatesContents();
    assert "a" + "/" + "x" == "a/x";
    assert !Covers("a.x", "a/x") && !Covers("a/x", "a.x");
    hide Covers;
    ScopeOfTwo();
    ApartTwo("a.x", "a/x");
    ComponentsDecide("a", "a.x", ["x"]);
    SplitOfPrefix("a", "x");
    SplitOfPrefix("x", "");
    SplitOfPrefix("a.x", "");
    PathsAreOrdered(Split("a/x"), Split("a.x"));
    RootsListInOrderExactlyIf(at, names);
    assert names[1..] == ["a/x"] && names[1..][1..] == [];
    assert Existing(at, ["a/x"]) == ["a/x"] && Existing(at, names) == ["a.x"] + Existing(at, ["a/x"]);
    assert Existing(at, names) == names;
  }

  lemma ApartTwo(a: string, b: string)
    requires !Covers(a, b) && !Covers(b, a)
    ensures Apart([a, b])
  {
  }

  lemma StrippedTwo(a: string, b: string)
    requires Strip(a) == a && Strip(b) == b
    ensures Stripped([a, b]) == {a, b}
  {
    hide Strip;
    assert [a, b][0] in [a, b] && [a, b][1] in [a, b];
  }

  lemma UncoveredTwo(a: string, b: string)
    requires !Covers(a, b)
    ensures Uncovered([a, b]) == [a, b]
  {
    hide Covers;
    assert [a, b][..1] == [a] && [a][..0] == [];
    assert Uncovered([]) == [];
    assert !IsCovered([], a);
    assert Uncovered([a]) == [a];
    assert !IsCovered([a], b);
  }

  lemma ScopeOfTwo()
    ensures ScopeOf(["a/x", "a.x"]) == ["a.x", "a/x"]
  {
    PlainOrderSeparatesContents();
    assert Strip("a/x") == "a/x" && Strip("a.x") == "a.x";
    StrippedTwo("a/x", "a.x");
    assert !Covers("a.x", "a/x");
    hide Before, InTextOrder, Strip, Stripped, Covers, Uncovered, Split;
    TwoInOrder("a.x", "a/x");
    UncoveredTwo("a.x", "a/x");
    assert {"a/x", "a.x"} == {"a.x", "a/x"};
  }

  lemma ComponentsDecide(first: string, second: string, rest: seq<string>)
    requires Before(first, second)
    ensures PathBefore([first] + rest, [second])
  {
  }
}
