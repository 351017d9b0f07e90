/** What overlayfs shows for a stack of directory trees.

    Two definitions of the same thing. `Lookup` walks a lowerdir list from the top, the way the
    kernel resolves one path component after another. `Merge` folds the list from the bottom, each
    layer rewriting the view below it; it is what proofs about layers compose over. */
module Overlay {

  /** A layer as it lies on disk: plain files, plus the two states only overlayfs understands. */
  datatype Node =
    | File(data: string)
    | Link(target: string)
    | Whiteout
    | Dir(sealed: bool, kids: map<string, Node>)

  /** What a mount shows at a path, whole subtree included. */
  datatype View =
    | Absent
    | FileView(data: string)
    | LinkView(target: string)
    | Tree(shown: map<string, View>)

  /** What resolving one path in a mount reports. */
  datatype Found = Nothing | FoundFile(data: string) | FoundLink(target: string) | FoundDir

  // The kernel's rule.

  predicate Directories(stack: seq<Node>) {
    forall i :: 0 <= i < |stack| ==> stack[i].Dir?
  }

  /** Only the last directory merged may be opaque: nothing below an opaque one is. */
  predicate Mergeable(stack: seq<Node>) {
    Directories(stack) && forall i :: 0 <= i < |stack| - 1 ==> !stack[i].sealed
  }

  /** The nodes of `name` that take part in its merge, topmost first. A whiteout hides whatever is
      below it, a non-directory ends merging, and an opaque directory is the last one merged. */
  function Collect(stack: seq<Node>, name: string): (found: seq<Node>)
    requires Directories(stack)
    ensures found != [] && found[0].Dir? ==> Mergeable(found)
    ensures forall i :: 0 <= i < |found| ==> !found[i].Whiteout?
    ensures found != [] && !found[0].Dir? ==> |found| == 1
  {
    if stack == [] then []
    else if name !in stack[0].kids then Collect(stack[1..], name)
    else
      var top := stack[0].kids[name];
      match top
      case Whiteout => []
      case File(_) => [top]
      case Link(_) => [top]
      case Dir(sealed, _) =>
        var below := Collect(stack[1..], name);
        if sealed || below == [] || !below[0].Dir? then [top] else [top] + below
  }

  function Lookup(stack: seq<Node>, path: seq<string>): Found
    requires Directories(stack)
    decreases |path|
  {
    if path == [] then FoundDir
    else
      var found := Collect(stack, path[0]);
      if found == [] then Nothing
      else if found[0].Dir? then Lookup(found, path[1..])
      else if |path| > 1 then Nothing
      else if found[0].File? then FoundFile(found[0].data)
      else FoundLink(found[0].target)
  }

  // The fold.

  /** The entry a view shows under a name. */
  function Get(view: View, name: string): View {
    if view.Tree? && name in view.shown then view.shown[name] else Absent
  }

  function Names(view: View): set<string> {
    if view.Tree? then view.shown.Keys else {}
  }

  /** What the mount shows at a path where `node` lies over `below`. */
  function Apply(node: Node, below: View): (view: View)
    ensures node.Dir? ==> view.Tree? && Absent !in view.shown.Values
    decreases node
  {
    match node
    case File(data) => FileView(data)
    case Link(target) => LinkView(target)
    case Whiteout => Absent
    case Dir(sealed, kids) =>
      var base := if sealed then Absent else below;
      var shown := map name | name in kids.Keys + Names(base)
                         :: if name in kids then Apply(kids[name], Get(base, name)) else Get(base, name);
      Tree(map name | name in shown && shown[name] != Absent :: shown[name])
  }

  function Merge(stack: seq<Node>): (view: View)
    ensures Directories(stack) ==> view.Tree? && Absent !in view.shown.Values
  {
    if stack == [] then Tree(map[]) else Apply(stack[0], Merge(stack[1..]))
  }

  function Find(view: View, path: seq<string>): Found
    decreases path
  {
    if path == [] then
      match view
      case Absent => Nothing
      case FileView(data) => FoundFile(data)
      case LinkView(target) => FoundLink(target)
      case Tree(_) => FoundDir
    else Find(Get(view, path[0]), path[1..])
  }

  /** A directory layer decides each name on its own. */
  lemma ApplyGet(node: Node, below: View, name: string)
    requires node.Dir?
    ensures Get(Apply(node, below), name) ==
            (var under := if node.sealed then Absent else Get(below, name);
             if name in node.kids then Apply(node.kids[name], under) else under)
  {
  }

  /** Two directory views that show the same under every name are the same view. */
  lemma SameNamesSameView(a: View, b: View)
    requires a.Tree? && Absent !in a.shown.Values
    requires b.Tree? && Absent !in b.shown.Values
    requires forall name :: Get(a, name) == Get(b, name)
    ensures a == b
  {
    forall name
      ensures name in a.shown <==> name in b.shown
      ensures name in a.shown ==> a.shown[name] == b.shown[name]
    {
      assert Get(a, name) == Get(b, name);
      assert name in a.shown ==> a.shown[name] in a.shown.Values;
      assert name in b.shown ==> b.shown[name] in b.shown.Values;
    }
    assert a.shown == b.shown;
  }

  /** A directory over a non-directory shows what it shows over nothing. */
  lemma DirectoryOverNonDirectory(node: Node, below: View)
    requires node.Dir?
    requires node.sealed || !below.Tree?
    ensures Apply(node, below) == Apply(node, Tree(map[]))
  {
    forall name
      ensures Get(Apply(node, below), name) == Get(Apply(node, Tree(map[])), name)
    {
      ApplyGet(node, below, name);
      ApplyGet(node, Tree(map[]), name);
    }
    SameNamesSameView(Apply(node, below), Apply(node, Tree(map[])));
  }

  function MergeCollected(found: seq<Node>): View {
    if found == [] then Absent
    else if found[0].Dir? then Merge(found)
    else Apply(found[0], Absent)
  }

  lemma MergeOver(top: Node, below: seq<Node>)
    requires top.Dir?
    requires below != [] && !below[0].Dir? ==> |below| == 1 && !below[0].Whiteout?
    ensures Apply(top, MergeCollected(below)) ==
            MergeCollected(if top.sealed || below == [] || !below[0].Dir? then [top] else [top] + below)
  {
    if top.sealed || below == [] || !below[0].Dir? {
      DirectoryOverNonDirectory(top, MergeCollected(below));
      assert [top][1..] == [];
      assert Merge([top]) == Apply(top, Merge([]));
    } else {
      assert ([top] + below)[1..] == below;
    }
  }

  lemma {:induction false} MergeAt(stack: seq<Node>, name: string)
    requires Mergeable(stack)
    ensures Get(Merge(stack), name) == MergeCollected(Collect(stack, name))
  {
    if stack != [] {
      var top, rest := stack[0], stack[1..];
      MergeAt(rest, name);
      ApplyGet(top, Merge(rest), name);
      if name in top.kids {
        assert top.sealed ==> rest == [];
        if top.kids[name].Dir? {
          MergeOver(top.kids[name], Collect(rest, name));
        }
      } else {
        assert top.sealed ==> rest == [];
      }
    }
  }

  /** Walking a stack from the top and folding it from the bottom resolve every path alike. */
  lemma {:induction false} LookupIsFindInMerge(stack: seq<Node>, path: seq<string>)
    requires Mergeable(stack)
    ensures Lookup(stack, path) == Find(Merge(stack), path)
    decreases |path|
  {
    if path != [] {
      MergeAt(stack, path[0]);
      var found := Collect(stack, path[0]);
      if found == [] {
        NothingInAbsent(path[1..]);
      } else if found[0].Dir? {
        LookupIsFindInMerge(found, path[1..]);
      } else if |path| > 1 {
        NothingInAbsent(path[2..]);
        assert path[1..][1..] == path[2..];
      }
    }
  }

  lemma {:induction false} NothingInAbsent(path: seq<string>)
    ensures Find(Absent, path) == Nothing
  {
    if path != [] {
      NothingInAbsent(path[1..]);
    }
  }
}
