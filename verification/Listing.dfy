/** Listing an image tree for its manifest: every inode below it, in order, hardlinks numbered. */
module Listing {
  import opened Lexicographic
  import opened Manifest
  import opened Options
  import opened Sorting
  import opened TextOrder

  /** What `lstat` says that the listing depends on. */
  datatype Inode = Inode(id: nat, links: nat)

  datatype Node = Leaf(inode: Inode) | Directory(inode: Inode, kids: map<string, Node>)

  datatype Entry = Entry(name: string, inode: Inode, directory: bool)

  /** No directory holds a name with a separator in it. */
  ghost predicate Proper(node: Node) {
    node.Directory? ==> forall name :: name in node.kids ==> '/' !in name && Proper(node.kids[name])
  }

  /** What the names below a directory begin with. */
  function PrefixOf(path: seq<string>): string {
    if path == [] then "" else Join(path) + "/"
  }

  lemma {:induction false} PrefixIsJoined(path: seq<string>, name: string)
    ensures PrefixOf(path) + name == Join(path + [name])
  {
    if |path| > 0 {
      PrefixIsJoined(path[1..], name);
      assert (path + [name])[1..] == path[1..] + [name];
    }
  }

  ghost function Below(node: Node, path: seq<string>): seq<Entry>
    decreases node, 1, 0
  {
    if node.Directory? then Children(node, path, InTextOrder(node.kids.Keys)) else []
  }

  ghost function Children(node: Node, path: seq<string>, names: seq<string>): seq<Entry>
    requires node.Directory? && forall name :: name in names ==> name in node.kids
    decreases node, 0, |names|
  {
    if names == [] then []
    else
      var child := node.kids[names[0]];
      [EntryOf(child, path + [names[0]])] + Below(child, path + [names[0]]) + Children(node, path, names[1..])
  }

  function EntryOf(node: Node, path: seq<string>): Entry
    requires path != []
  {
    Entry(Join(path), node.inode, node.Directory?)
  }

  /** Yield everything below a directory, the contents of each directory right after it. */
  method List(node: Node, prefix: string, ghost path: seq<string>) returns (found: seq<Entry>)
    requires node.Directory? && prefix == PrefixOf(path)
    ensures found == Below(node, path)
    decreases node, 1
  {
    hide Join, PrefixOf, InTextOrder, Below, Children, EntryOf;
    var names := SortTexts(node.kids.Keys);
    BelowIsChildren(node, path, names);
    found := [];
    assert names[0..] == names && [] + Below(node, path) == Below(node, path);
    for i := 0 to |names|
      invariant found + Children(node, path, names[i..]) == Below(node, path)
    {
      assert names[i] in names;
      var more := ListChild(node.kids[names[i]], prefix, names[i], path);
      OneMoreChild(node, path, names, i, found, more);
      found := found + more;
    }
    NoMoreChildren(node, path, names, found);
  }

  lemma OneMoreChild(node: Node, path: seq<string>, names: seq<string>, i: nat, found: seq<Entry>, more: seq<Entry>)
    requires node.Directory? && i < |names| && forall name :: name in names ==> name in node.kids
    requires more == [EntryOf(node.kids[names[i]], path + [names[i]])] + Below(node.kids[names[i]], path + [names[i]])
    ensures found + Children(node, path, names[i..]) == (found + more) + Children(node, path, names[i + 1..])
  {
    hide Below, EntryOf;
    assert names[i..][1..] == names[i + 1..] && names[i..][0] == names[i];
    var rest := Children(node, path, names[i + 1..]);
    assert Children(node, path, names[i..]) == more + rest;
    assert found + (more + rest) == (found + more) + rest;
  }

  lemma NoMoreChildren(node: Node, path: seq<string>, names: seq<string>, found: seq<Entry>)
    requires node.Directory?
    ensures found + Children(node, path, names[|names|..]) == found
  {
    assert names[|names|..] == [] && found + [] == found;
  }

  method ListChild(child: Node, prefix: string, childName: string, ghost path: seq<string>) returns (found: seq<Entry>)
    requires prefix == PrefixOf(path)
    ensures found == [EntryOf(child, path + [childName])] + Below(child, path + [childName])
    decreases child, 2
  {
    var name := prefix + childName;
    PrefixIsJoined(path, childName);
    found := [Entry(name, child.inode, child.Directory?)];
    if child.Directory? {
      var more := List(child, name + "/", path + [childName]);
      found := found + more;
    }
  }

  lemma BelowIsChildren(node: Node, path: seq<string>, names: seq<string>)
    requires node.Directory? && names == InTextOrder(node.kids.Keys)
    ensures forall name :: name in names ==> name in node.kids
    ensures Below(node, path) == Children(node, path, names)
  {
    assert forall name :: name in names ==> name in Elements(names);
  }

  // The listing is in manifest order.

  function NamesOf(found: seq<Entry>): (names: seq<string>)
    ensures |names| == |found| && forall i :: 0 <= i < |found| ==> names[i] == found[i].name
  {
    seq(|found|, i requires 0 <= i < |found| => found[i].name)
  }

  predicate NoSeparators(parts: seq<string>) {
    forall part :: part in parts ==> '/' !in part
  }

  /** Two paths part where one names an earlier child. */
  lemma {:induction false} PartsDecide(path: seq<string>, a: seq<string>, b: seq<string>)
    requires path < a && path < b && Before(a[|path|], b[|path|])
    ensures PathBefore(a, b)
  {
    if path != [] {
      assert a[0] == path[0] == b[0];
      assert path[1..] < a[1..] && path[1..] < b[1..];
      PartsDecide(path[1..], a[1..], b[1..]);
    }
  }

  /** Everything listed below a path is named below it, through one of these children. */
  ghost predicate Through(found: seq<Entry>, path: seq<string>, names: seq<string>) {
    forall i :: 0 <= i < |found| ==> path < Split(found[i].name) && Split(found[i].name)[|path|] in names
  }

  lemma {:induction false} BelowIsOrdered(node: Node, path: seq<string>)
    requires Proper(node) && NoSeparators(path)
    ensures InOrder(NamesOf(Below(node, path)))
    ensures forall i :: 0 <= i < |Below(node, path)| ==> path < Split(Below(node, path)[i].name)
    decreases node, 1, 0
  {
    hide Split, PathBefore, Before;
    if node.Directory? {
      var names := InTextOrder(node.kids.Keys);
      BelowIsChildren(node, path, names);
      ChildrenAreOrdered(node, path, names);
    }
  }

  lemma {:induction false} ChildrenAreOrdered(node: Node, path: seq<string>, names: seq<string>)
    requires node.Directory? && Proper(node) && NoSeparators(path)
    requires forall name :: name in names ==> name in node.kids
    requires forall i, j :: 0 <= i < j < |names| ==> Before(names[i], names[j])
    ensures InOrder(NamesOf(Children(node, path, names))) && Through(Children(node, path, names), path, names)
    decreases node, 0, |names|
  {
    hide Split, PathBefore, Before, InTextOrder, Below, Join;
    if names != [] {
      var child, deeper := node.kids[names[0]], path + [names[0]];
      assert '/' !in names[0] && Proper(child);
      ChildrenAreOrdered(node, path, names[1..]);
      BelowIsOrdered(child, deeper);
      SplitInvertsJoin(deeper);
      ChildThenRest(EntryOf(child, deeper), Below(child, deeper), Children(node, path, names[1..]), path, names);
    }
  }

  lemma ChildThenRest(one: Entry, below: seq<Entry>, rest: seq<Entry>, path: seq<string>, names: seq<string>)
    requires names != [] && Split(one.name) == path + [names[0]]
    requires forall i, j :: 0 <= i < j < |names| ==> Before(names[i], names[j])
    requires InOrder(NamesOf(below)) && forall i :: 0 <= i < |below| ==> path + [names[0]] < Split(below[i].name)
    requires InOrder(NamesOf(rest)) && Through(rest, path, names[1..])
    ensures InOrder(NamesOf([one] + below + rest)) && Through([one] + below + rest, path, names)
  {
    hide Split, PathBefore, Before;
    var deeper := path + [names[0]];
    var all := [one] + below + rest;
    var n := 1 + |below|;
    forall i | 0 <= i < n
      ensures path < Split(all[i].name) && Split(all[i].name)[|path|] == names[0]
    {
      assert deeper[|path|] == names[0] && deeper <= Split(all[i].name);
    }
    forall i, j | 0 <= i < j < |all|
      ensures PathBefore(Split(all[i].name), Split(all[j].name))
    {
      if n <= i {
        assert all[i] == rest[i - n] && all[j] == rest[j - n];
        assert PathBefore(Split(NamesOf(rest)[i - n]), Split(NamesOf(rest)[j - n]));
      } else if n <= j {
        assert all[j] == rest[j - n];
        var name := Split(all[j].name)[|path|];
        var k :| 0 <= k < |names[1..]| && names[1..][k] == name;
        assert names[k + 1] == name;
        PartsDecide(path, Split(all[i].name), Split(all[j].name));
      } else if i == 0 {
        PrefixComesFirst(Split(all[0].name), Split(all[j].name));
      } else {
        assert PathBefore(Split(NamesOf(below)[i - 1]), Split(NamesOf(below)[j - 1]));
      }
    }
  }

  // The listing is of everything there is.

  function NodeAt(node: Node, path: seq<string>): Option<Node>
    decreases path
  {
    if path == [] then Some(node)
    else if node.Leaf? || path[0] !in node.kids then None
    else NodeAt(node.kids[path[0]], path[1..])
  }

  lemma {:induction false} ListsWhatIsThere(node: Node, path: seq<string>, rel: seq<string>)
    requires rel != [] && NodeAt(node, rel).Some?
    ensures EntryOf(NodeAt(node, rel).value, path + rel) in Below(node, path)
    decreases node, 1, 0
  {
    hide EntryOf, InTextOrder;
    var names := InTextOrder(node.kids.Keys);
    BelowIsChildren(node, path, names);
    assert rel[0] in Elements(names);
    ChildrenHaveWhatIsThere(node, path, names, rel);
  }

  lemma {:induction false} ChildrenHaveWhatIsThere(node: Node, path: seq<string>, names: seq<string>, rel: seq<string>)
    requires node.Directory? && forall name :: name in names ==> name in node.kids
    requires rel != [] && NodeAt(node, rel).Some? && rel[0] in names
    ensures EntryOf(NodeAt(node, rel).value, path + rel) in Children(node, path, names)
    decreases node, 0, |names|
  {
    hide EntryOf, InTextOrder, Below;
    var child, deeper := node.kids[names[0]], path + [names[0]];
    var one, below, rest := EntryOf(child, deeper), Below(child, deeper), Children(node, path, names[1..]);
    assert Children(node, path, names) == [one] + below + rest;
    if rel[0] != names[0] {
      ChildrenHaveWhatIsThere(node, path, names[1..], rel);
    } else if rel[1..] == [] {
      assert path + rel == deeper;
    } else {
      ListsWhatIsThere(child, deeper, rel[1..]);
      assert deeper + rel[1..] == path + rel;
    }
  }

  lemma {:induction false} ListsNothingElse(node: Node, path: seq<string>, one: Entry)
    requires one in Below(node, path)
    ensures exists rel :: rel != [] && NodeAt(node, rel).Some? && one == EntryOf(NodeAt(node, rel).value, path + rel)
    decreases node, 1, 0
  {
    hide EntryOf, InTextOrder;
    var names := InTextOrder(node.kids.Keys);
    BelowIsChildren(node, path, names);
    ChildrenHaveNothingElse(node, path, names, one);
  }

  lemma {:induction false} ChildrenHaveNothingElse(node: Node, path: seq<string>, names: seq<string>, one: Entry)
    requires node.Directory? && forall name :: name in names ==> name in node.kids
    requires one in Children(node, path, names)
    ensures exists rel :: rel != [] && NodeAt(node, rel).Some? && one == EntryOf(NodeAt(node, rel).value, path + rel)
    decreases node, 0, |names|
  {
    hide EntryOf, InTextOrder, Below;
    var child, deeper := node.kids[names[0]], path + [names[0]];
    if one == EntryOf(child, deeper) {
      assert NodeAt(node, [names[0]]) == Some(child);
    } else if one in Below(child, deeper) {
      ListsNothingElse(child, deeper, one);
      var rel :| rel != [] && NodeAt(child, rel).Some? && one == EntryOf(NodeAt(child, rel).value, deeper + rel);
      assert ([names[0]] + rel)[1..] == rel && deeper + rel == path + ([names[0]] + rel);
      assert NodeAt(node, [names[0]] + rel) == NodeAt(child, rel);
    } else {
      ChildrenHaveNothingElse(node, path, names[1..], one);
    }
  }

  // Hardlinks.

  /** An inode another name may reach too. */
  predicate Linked(entry: Entry) {
    entry.inode.links > 1 && !entry.directory
  }

  /** The inode is reached by at least two names listed, of files that may have others. */
  ghost predicate ReachedTwice(found: seq<Entry>, id: nat) {
    exists i, j :: 0 <= i < j < |found| && found[i].inode.id == id == found[j].inode.id
      && found[i].inode.links > 1 && !found[i].directory && found[j].inode.links > 1 && !found[j].directory
  }

  function Count(found: seq<Entry>, id: nat): nat {
    if found == [] then 0
    else
      var last := found[|found| - 1];
      Count(found[..|found| - 1], id) + if Linked(last) && last.inode.id == id then 1 else 0
  }

  lemma {:induction false} CountsReach(found: seq<Entry>, id: nat)
    ensures Count(found, id) > 0 <==> exists i :: 0 <= i < |found| && Linked(found[i]) && found[i].inode.id == id
  {
    hide Linked;
    if found != [] {
      var n := |found| - 1;
      var front := found[..n];
      CountsReach(front, id);
      assert forall i :: 0 <= i < n ==> found[i] == front[i];
    }
  }

  ghost predicate LinkedTwice(found: seq<Entry>, id: nat) {
    exists i, j :: 0 <= i < j < |found| && Linked(found[i]) && Linked(found[j]) && found[i].inode.id == id == found[j].inode.id
  }

  lemma LinkedTwiceIsReached(found: seq<Entry>, id: nat)
    ensures LinkedTwice(found, id) <==> ReachedTwice(found, id)
  {
    if ReachedTwice(found, id) {
      var i, j :| 0 <= i < j < |found| && found[i].inode.id == id == found[j].inode.id
        && found[i].inode.links > 1 && !found[i].directory && found[j].inode.links > 1 && !found[j].directory;
      assert Linked(found[i]) && Linked(found[j]);
    }
  }

  lemma CountsReaches(found: seq<Entry>, id: nat)
    ensures Count(found, id) > 1 <==> ReachedTwice(found, id)
  {
    CountsTwice(found, id);
    LinkedTwiceIsReached(found, id);
  }

  lemma {:induction false} CountsTwice(found: seq<Entry>, id: nat)
    ensures Count(found, id) > 1 <==> LinkedTwice(found, id)
  {
    hide Linked;
    if found != [] {
      var n := |found| - 1;
      var front := found[..n];
      CountsTwice(front, id);
      CountsReach(front, id);
      if LinkedTwice(front, id) {
        var i, j :| 0 <= i < j < n && Linked(front[i]) && Linked(front[j]) && front[i].inode.id == id == front[j].inode.id;
        assert found[i] == front[i] && found[j] == front[j];
      }
      if Count(front, id) > 0 && Linked(found[n]) && found[n].inode.id == id {
        var i :| 0 <= i < n && Linked(front[i]) && front[i].inode.id == id;
        assert found[i] == front[i];
      }
      assert forall i :: 0 <= i < n ==> found[i] == front[i];
    }
  }

  method CountInodes(found: seq<Entry>) returns (reachable: map<nat, nat>)
    ensures forall id :: (if id in reachable then reachable[id] else 0) == Count(found, id)
  {
    reachable := map[];
    for i := 0 to |found|
      invariant forall id :: (if id in reachable then reachable[id] else 0) == Count(found[..i], id)
    {
      assert found[..i + 1][..i] == found[..i];
      var entry := found[i];
      if Linked(entry) {
        var id := entry.inode.id;
        reachable := reachable[id := (if id in reachable then reachable[id] else 0) + 1];
      }
    }
    assert found[..|found|] == found;
  }

  ghost predicate Reached(found: seq<Entry>, i: nat, id: nat) {
    exists j :: 0 <= j < i && j < |found| && found[j].inode.id == id
  }

  /** Before an entry is reached, every smaller token's inode was. */
  ghost predicate InOrderReached(found: seq<Entry>, n: nat, tokens: map<nat, nat>) {
    forall i, b :: 0 <= i < n && i < |found| && found[i].inode.id in tokens && b in tokens && tokens[b] < tokens[found[i].inode.id] ==>
      Reached(found, i, b)
  }

  /** Tokens count from one, one for each inode, in the order the listing first reaches them. */
  ghost predicate Numbered(found: seq<Entry>, n: nat, tokens: map<nat, nat>) {
    && (forall id :: id in tokens ==> 1 <= tokens[id] <= |tokens|)
    && (forall a, b :: a in tokens && b in tokens && tokens[a] == tokens[b] ==> a == b)
    && InOrderReached(found, n, tokens)
  }

  lemma NumbersAnother(found: seq<Entry>, i: nat, tokens: map<nat, nat>)
    requires i < |found| && found[i].inode.id !in tokens && Numbered(found, i, tokens)
    requires forall b :: b in tokens ==> Reached(found, i, b)
    requires !Reached(found, i, found[i].inode.id)
    ensures Numbered(found, i + 1, tokens[found[i].inode.id := |tokens| + 1])
  {
    hide Reached;
    var id := found[i].inode.id;
    var after := tokens[id := |tokens| + 1];
    forall k, b | 0 <= k < i + 1 && found[k].inode.id in after && b in after && after[b] < after[found[k].inode.id]
      ensures Reached(found, k, b)
    {
      if k < i {
        ReachedBy(found, k, i);
      }
    }
  }

  lemma ReachedBy(found: seq<Entry>, k: nat, i: nat)
    requires k < i && k < |found|
    ensures Reached(found, i, found[k].inode.id)
  {
  }

  lemma NumbersNoMore(found: seq<Entry>, i: nat, tokens: map<nat, nat>)
    requires i < |found| && Numbered(found, i, tokens)
    requires forall b :: b in tokens ==> Reached(found, i, b)
    ensures Numbered(found, i + 1, tokens)
  {
    hide Reached;
  }

  /** Number the inodes that more than one listed name reaches. */
  method HardlinkTokens(found: seq<Entry>) returns (tokens: map<nat, nat>)
    ensures forall id :: id in tokens <==> ReachedTwice(found, id)
    ensures Numbered(found, |found|, tokens)
  {
    hide Numbered, Linked, ReachedTwice, Count, Reached;
    var reachable := CountInodes(found);
    tokens := map[];
    NumbersNothing(found);
    for i := 0 to |found|
      invariant Numbered(found, i, tokens)
      invariant forall id :: id in tokens <==> Count(found, id) > 1 && Reached(found, i, id)
    {
      var id := found[i].inode.id;
      ReachesOneMore(found, i);
      if id in reachable && reachable[id] > 1 && id !in tokens {
        NumbersAnother(found, i, tokens);
        tokens := tokens[id := |tokens| + 1];
      } else {
        NumbersNoMore(found, i, tokens);
      }
    }
    forall id
      ensures id in tokens <==> ReachedTwice(found, id)
    {
      CountsReaches(found, id);
      CountedIsReached(found, id);
    }
  }

  lemma ReachesOneMore(found: seq<Entry>, i: nat)
    requires i < |found|
    ensures forall id :: Reached(found, i + 1, id) <==> Reached(found, i, id) || found[i].inode.id == id
  {
    forall id
      ensures Reached(found, i + 1, id) <==> Reached(found, i, id) || found[i].inode.id == id
    {
      if Reached(found, i, id) {
        var j :| 0 <= j < i && found[j].inode.id == id;
        assert 0 <= j < i + 1 && found[j].inode.id == id;
      }
      if found[i].inode.id == id {
        assert 0 <= i < i + 1 && found[i].inode.id == id;
      }
    }
  }

  lemma CountedIsReached(found: seq<Entry>, id: nat)
    ensures Count(found, id) > 0 ==> Reached(found, |found|, id)
  {
    CountsReaches(found, id);
  }

  lemma NumbersNothing(found: seq<Entry>)
    ensures Numbered(found, 0, map[]) && forall id :: !Reached(found, 0, id)
  {
  }
}
