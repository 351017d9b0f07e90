/** Following a firmware file's symlinks, so that the part of a tree that is packed resolves it the way
    the whole tree does. */
module Firmware {
  import opened Options
  import opened Sorting

  const LINK_DEPTH := 40

  type Path = seq<string>

  datatype Target = Target(absolute: bool, parts: seq<string>)

  datatype Node = Directory | Regular | Link(target: Target)

  /** A tree by path. The root, which is always a directory, is the empty path and goes without saying. */
  type Tree = map<Path, Node>

  predicate IsLink(tree: Tree, path: Path) {
    path in tree && tree[path].Link?
  }

  function Parent(path: Path): Path {
    if path == [] then [] else path[..|path| - 1]
  }

  function Base(link: Path, target: Target): Path {
    if target.absolute then [] else Parent(link)
  }

  /** Where walking along `todo` from `current` first comes to: a symlink, or the end. */
  datatype Stop = Stop(at: Path, todo: seq<string>, link: bool)

  function Descend(tree: Tree, todo: seq<string>, current: Path): (stop: Stop)
    ensures stop.link ==> IsLink(tree, stop.at) && stop.at != []
    ensures !stop.link ==> stop.todo == []
  {
    if todo == [] then Stop(current, [], false)
    else if todo[0] == ".." then Descend(tree, todo[1..], Parent(current))
    else if todo[0] in {".", "/"} then Descend(tree, todo[1..], current)
    else if IsLink(tree, current + [todo[0]]) then Stop(current + [todo[0]], todo[1..], true)
    else Descend(tree, todo[1..], current + [todo[0]])
  }

  /** Every symlink on the way, and what the last one comes to; nothing if there are too many. */
  function ChaseFrom(tree: Tree, todo: seq<string>, current: Path, depth: nat): (paths: Option<seq<Path>>)
    ensures paths.Some? ==> paths.value != []
    decreases depth
  {
    if depth == 0 then None
    else
      var stop := Descend(tree, todo, current);
      if !stop.link then Some([stop.at])
      else
        var target := tree[stop.at].target;
        var rest := ChaseFrom(tree, target.parts + stop.todo, Base(stop.at, target), depth - 1);
        if rest.None? then None else Some([stop.at] + rest.value)
  }

  /** Take components off `rest` until one of them leads to a symlink. */
  method NextStop(tree: Tree, rest: seq<string>, from: Path) returns (stop: Stop)
    ensures stop == Descend(tree, rest, from)
  {
    var todo, current := rest, from;
    while todo != []
      invariant Descend(tree, todo, current) == Descend(tree, rest, from)
      decreases |todo|
    {
      var part := todo[0];
      if part == ".." {
        current := Parent(current);
      } else if part !in {".", "/"} {
        current := current + [part];
        if IsLink(tree, current) {
          return Stop(current, todo[1..], true);
        }
      }
      todo := todo[1..];
    }
    return Stop(current, [], false);
  }

  /** What a chase comes to after it has already yielded some paths. */
  function After(yielded: seq<Path>, rest: Option<seq<Path>>): Option<seq<Path>> {
    if rest.None? then None else Some(yielded + rest.value)
  }

  lemma ChaseStep(tree: Tree, todo: seq<string>, current: Path, depth: nat, yielded: seq<Path>)
    requires depth > 0
    ensures var stop := Descend(tree, todo, current);
            After(yielded, ChaseFrom(tree, todo, current, depth)) ==
            if !stop.link then Some(yielded + [stop.at])
            else
              var target := tree[stop.at].target;
              After(yielded + [stop.at], ChaseFrom(tree, target.parts + stop.todo, Base(stop.at, target), depth - 1))
  {
    hide Descend;
    var stop := Descend(tree, todo, current);
    if stop.link {
      var target := tree[stop.at].target;
      var rest := ChaseFrom(tree, target.parts + stop.todo, Base(stop.at, target), depth - 1);
      assert rest.Some? ==> yielded + ([stop.at] + rest.value) == yielded + [stop.at] + rest.value;
    }
  }

  /** One component at a time, whether what it leads to is there or not: a name is entered, `..` goes back
      to the directory above, and a link is yielded and replaced by its target, from the root if that is
      absolute and otherwise from the directory the link is in. */
  lemma ChaseWalks(tree: Tree, part: string, rest: seq<string>, dir: Path, depth: nat)
    requires depth > 0
    ensures ChaseFrom(tree, [], dir, depth) == Some([dir])
    ensures var chased, next := ChaseFrom(tree, [part] + rest, dir, depth), dir + [part];
            && (part == ".." ==> chased == ChaseFrom(tree, rest, dir[..if |dir| == 0 then 0 else |dir| - 1], depth))
            && (part == "." || part == "/" ==> chased == ChaseFrom(tree, rest, dir, depth))
            && (part !in {"..", ".", "/"} ==>
                  if next in tree && tree[next].Link? then
                    var target := tree[next].target;
                    var more := ChaseFrom(tree, target.parts + rest, if target.absolute then [] else dir, depth - 1);
                    chased == if more.None? then None else Some([next] + more.value)
                  else chased == ChaseFrom(tree, rest, next, depth))
  {
    assert ([part] + rest)[1..] == rest;
    assert Parent(dir + [part]) == dir;
  }

  method Chase(tree: Tree, rel: seq<string>) returns (paths: Option<seq<Path>>)
    ensures paths == ChaseFrom(tree, rel, [], LINK_DEPTH)
  {
    hide Descend, ChaseFrom;
    var todo, current, yielded := rel, [], [];
    ghost var whole := ChaseFrom(tree, rel, [], LINK_DEPTH);
    assert whole.Some? ==> yielded + whole.value == whole.value;
    for round := 0 to LINK_DEPTH
      invariant whole == After(yielded, ChaseFrom(tree, todo, current, LINK_DEPTH - round))
    {
      ChaseStep(tree, todo, current, LINK_DEPTH - round, yielded);
      var stop := NextStop(tree, todo, current);
      yielded := yielded + [stop.at];
      if !stop.link {
        return Some(yielded);
      }
      var target := tree[stop.at].target;
      todo, current := target.parts + stop.todo, Base(stop.at, target);
    }
    TooManyLinks(tree, todo, current);
    return None;
  }

  lemma TooManyLinks(tree: Tree, todo: seq<string>, current: Path)
    ensures ChaseFrom(tree, todo, current, 0).None?
  {
  }

  // What the chase yields.

  /** No proper ancestor, and no ancestor that is not the path itself, is a symlink. */
  ghost predicate NoLinkAbove(tree: Tree, path: Path) {
    forall n :: 0 <= n < |path| ==> !IsLink(tree, path[..n])
  }

  ghost predicate NoLinkUpTo(tree: Tree, path: Path) {
    NoLinkAbove(tree, path) && !IsLink(tree, path)
  }

  lemma ParentHasNoLinks(tree: Tree, path: Path)
    requires NoLinkAbove(tree, path) && !IsLink(tree, [])
    ensures NoLinkUpTo(tree, Parent(path))
  {
    if path != [] {
      var parent := path[..|path| - 1];
      forall n | 0 <= n < |parent|
        ensures !IsLink(tree, parent[..n])
      {
        assert parent[..n] == path[..n];
      }
    }
  }

  lemma ChildHasNoLinkAbove(tree: Tree, path: Path, name: string)
    requires NoLinkUpTo(tree, path)
    ensures NoLinkAbove(tree, path + [name])
  {
    forall n | 0 <= n < |path + [name]|
      ensures !IsLink(tree, (path + [name])[..n])
    {
      if n < |path| {
        assert (path + [name])[..n] == path[..n];
      } else {
        assert (path + [name])[..n] == path;
      }
    }
  }

  lemma {:induction false} DescendMeetsNoLinks(tree: Tree, todo: seq<string>, current: Path)
    requires NoLinkUpTo(tree, current) && !IsLink(tree, [])
    ensures var stop := Descend(tree, todo, current);
            NoLinkAbove(tree, stop.at) && (!stop.link ==> !IsLink(tree, stop.at))
  {
    hide NoLinkAbove;
    if todo != [] {
      if todo[0] == ".." {
        ParentHasNoLinks(tree, current);
        DescendMeetsNoLinks(tree, todo[1..], Parent(current));
      } else if todo[0] in {".", "/"} {
        DescendMeetsNoLinks(tree, todo[1..], current);
      } else {
        ChildHasNoLinkAbove(tree, current, todo[0]);
        if !IsLink(tree, current + [todo[0]]) {
          DescendMeetsNoLinks(tree, todo[1..], current + [todo[0]]);
        }
      }
    }
  }

  /** Every path the chase yields is spelled without symlinks above it; all but the last are symlinks,
      and the last is none. */
  lemma {:induction false} ChasedPathsAreReal(tree: Tree, todo: seq<string>, current: Path, depth: nat)
    requires ChaseFrom(tree, todo, current, depth).Some?
    requires NoLinkUpTo(tree, current) && !IsLink(tree, [])
    ensures var paths := ChaseFrom(tree, todo, current, depth).value;
            && (forall i :: 0 <= i < |paths| ==> NoLinkAbove(tree, paths[i]))
            && (forall i :: 0 <= i < |paths| - 1 ==> IsLink(tree, paths[i]))
            && !IsLink(tree, paths[|paths| - 1])
    decreases depth
  {
    hide NoLinkAbove;
    var stop := Descend(tree, todo, current);
    DescendMeetsNoLinks(tree, todo, current);
    if stop.link {
      var target := tree[stop.at].target;
      ParentHasNoLinks(tree, stop.at);
      RootHasNoLinks(tree);
      ChasedPathsAreReal(tree, target.parts + stop.todo, Base(stop.at, target), depth - 1);
    }
  }

  lemma RootHasNoLinks(tree: Tree)
    requires !IsLink(tree, [])
    ensures NoLinkUpTo(tree, [])
  {
  }

  // Packing.

  /** A tree cut down to those of some paths that are there, and the directories above them. */
  function Packed(tree: Tree, paths: seq<Path>): Tree {
    map path | path in tree && Leads(tree, paths, path) :: tree[path]
  }

  predicate Leads(tree: Tree, paths: seq<Path>, path: Path) {
    exists i :: 0 <= i < |paths| && paths[i] in tree && path <= paths[i]
  }

  lemma {:induction false} SameDescent(tree: Tree, cut: Tree, todo: seq<string>, current: Path)
    requires forall path :: path in cut ==> path in tree && cut[path] == tree[path]
    requires Descend(tree, todo, current).link ==> Descend(tree, todo, current).at in cut
    ensures Descend(cut, todo, current) == Descend(tree, todo, current)
  {
    if todo != [] {
      if todo[0] == ".." {
        SameDescent(tree, cut, todo[1..], Parent(current));
      } else if todo[0] in {".", "/"} {
        SameDescent(tree, cut, todo[1..], current);
      } else if !IsLink(tree, current + [todo[0]]) {
        SameDescent(tree, cut, todo[1..], current + [todo[0]]);
      }
    }
  }

  lemma {:induction false} SameChase(tree: Tree, cut: Tree, todo: seq<string>, current: Path, depth: nat)
    requires ChaseFrom(tree, todo, current, depth).Some?
    requires forall path :: path in cut ==> path in tree && cut[path] == tree[path]
    requires forall path :: path in ChaseFrom(tree, todo, current, depth).value && path in tree ==> path in cut
    ensures ChaseFrom(cut, todo, current, depth) == ChaseFrom(tree, todo, current, depth)
    decreases depth
  {
    hide Descend;
    var stop := Descend(tree, todo, current);
    SameDescent(tree, cut, todo, current);
    if stop.link {
      var target := tree[stop.at].target;
      SameChase(tree, cut, target.parts + stop.todo, Base(stop.at, target), depth - 1);
    }
  }

  /** Chasing a path in what is packed for it yields the same paths. */
  lemma PackedChaseIsTheSame(tree: Tree, rel: seq<string>)
    requires ChaseFrom(tree, rel, [], LINK_DEPTH).Some?
    ensures ChaseFrom(Packed(tree, ChaseFrom(tree, rel, [], LINK_DEPTH).value), rel, [], LINK_DEPTH) ==
            ChaseFrom(tree, rel, [], LINK_DEPTH)
  {
    hide ChaseFrom;
    var paths := ChaseFrom(tree, rel, [], LINK_DEPTH).value;
    forall path | path in paths && path in tree
      ensures path in Packed(tree, paths)
    {
      var i :| 0 <= i < |paths| && paths[i] == path;
      assert paths[i] in tree && path <= paths[i];
    }
    SameChase(tree, Packed(tree, paths), rel, [], LINK_DEPTH);
  }

  // Opening a path, the way a kernel does.

  /** Every component has to be there, and every one before the last a directory once links are
      followed: an absolute one from the root, a relative one from the directory the link was found in. */
  function Resolve(tree: Tree, todo: seq<string>, current: Path, links: nat): Option<Path>
    decreases links, |todo|
  {
    if todo == [] then Some(current)
    else if todo[0] == ".." then Resolve(tree, todo[1..], if current == [] then [] else current[..|current| - 1], links)
    else if todo[0] in {".", "/"} then Resolve(tree, todo[1..], current, links)
    else
      var next := current + [todo[0]];
      if next !in tree then None
      else
        match tree[next]
        case Directory => Resolve(tree, todo[1..], next, links)
        case Regular => if todo[1..] == [] then Some(next) else None
        case Link(target) =>
          if links == 0 then None
          else if target.absolute then Resolve(tree, target.parts + todo[1..], [], links - 1)
          else Resolve(tree, target.parts + todo[1..], current, links - 1)
  }

  /** Resolving comes to what the chase ends with. */
  lemma {:induction false} ChaseEndsWhereResolved(tree: Tree, todo: seq<string>, current: Path, links: nat, depth: nat)
    requires Resolve(tree, todo, current, links).Some? && ChaseFrom(tree, todo, current, depth).Some?
    ensures var paths := ChaseFrom(tree, todo, current, depth).value;
            Resolve(tree, todo, current, links) == Some(paths[|paths| - 1])
    decreases links, |todo|
  {
    if todo != [] {
      if todo[0] == ".." {
        ChaseEndsWhereResolved(tree, todo[1..], Parent(current), links, depth);
      } else if todo[0] in {".", "/"} {
        ChaseEndsWhereResolved(tree, todo[1..], current, links, depth);
      } else {
        var next := current + [todo[0]];
        match tree[next] {
          case Directory => ChaseEndsWhereResolved(tree, todo[1..], next, links, depth);
          case Regular =>
            assert todo[1..] == [] && Descend(tree, todo, current) == Descend(tree, [], next);
          case Link(target) =>
            ChaseEndsWhereResolved(tree, target.parts + todo[1..], Base(next, target), links - 1, depth - 1);
        }
      }
    }
  }

  /** What resolves is chased to its end, with a turn more than it has links. */
  lemma {:induction false} ResolvedIsChased(tree: Tree, todo: seq<string>, current: Path, links: nat)
    requires Resolve(tree, todo, current, links).Some?
    ensures ChaseFrom(tree, todo, current, links + 1).Some?
    decreases links, |todo|
  {
    if todo != [] {
      if todo[0] == ".." {
        ResolvedIsChased(tree, todo[1..], Parent(current), links);
      } else if todo[0] in {".", "/"} {
        ResolvedIsChased(tree, todo[1..], current, links);
      } else {
        var next := current + [todo[0]];
        assert Parent(next) == current;
        match tree[next] {
          case Directory => ResolvedIsChased(tree, todo[1..], next, links);
          case Regular => assert Descend(tree, todo, current) == Descend(tree, [], next);
          case Link(target) => ResolvedIsChased(tree, target.parts + todo[1..], Base(next, target), links - 1);
        }
      }
    }
  }

  /** The directories that a `..` steps back out of on the way. */
  function BackedOut(tree: Tree, todo: seq<string>, current: Path, links: nat): seq<Path>
    decreases links, |todo|
  {
    if todo == [] then []
    else if todo[0] == ".." then [current] + BackedOut(tree, todo[1..], Parent(current), links)
    else if todo[0] in {".", "/"} then BackedOut(tree, todo[1..], current, links)
    else
      var next := current + [todo[0]];
      if !IsLink(tree, next) then BackedOut(tree, todo[1..], next, links)
      else if links == 0 then []
      else
        var target := tree[next].target;
        BackedOut(tree, target.parts + todo[1..], if target.absolute then [] else current, links - 1)
  }

  /** From anywhere on the way, a directory on the path so far either leads to the next path the chase
      yields, or is stepped back out of first. */
  lemma {:induction false} WalkedOrBackedOut(tree: Tree, todo: seq<string>, current: Path, links: nat, depth: nat, path: Path)
    requires ChaseFrom(tree, todo, current, depth).Some? && depth <= links + 1 && path <= current
    ensures path <= ChaseFrom(tree, todo, current, depth).value[0] || path in BackedOut(tree, todo, current, links)
    decreases links, |todo|
  {
    if todo != [] {
      if todo[0] == ".." {
        if path != current {
          WalkedOrBackedOut(tree, todo[1..], Parent(current), links, depth, path);
        }
      } else if todo[0] in {".", "/"} {
        WalkedOrBackedOut(tree, todo[1..], current, links, depth, path);
      } else if !IsLink(tree, current + [todo[0]]) {
        WalkedOrBackedOut(tree, todo[1..], current + [todo[0]], links, depth, path);
      }
    }
  }

  /** A cut tree that has whatever the chase yields from here, what is above it, and every directory
      stepped back out of, resolves as the whole tree does. */
  lemma {:induction false} EnoughResolves(tree: Tree, cut: Tree, todo: seq<string>, current: Path, links: nat, depth: nat)
    requires Resolve(tree, todo, current, links).Some? && ChaseFrom(tree, todo, current, depth).Some? && depth <= links + 1
    requires forall path :: path in cut ==> path in tree && cut[path] == tree[path]
    requires forall path :: path in ChaseFrom(tree, todo, current, depth).value ==> path in tree || path == []
    requires forall path :: path in tree && Leads(tree, ChaseFrom(tree, todo, current, depth).value, path) ==> path in cut
    requires forall path :: path in tree && path in BackedOut(tree, todo, current, links) ==> path in cut
    ensures Resolve(cut, todo, current, links) == Resolve(tree, todo, current, links)
    decreases links, |todo|
  {
    hide Leads;
    if todo != [] {
      if todo[0] == ".." {
        EnoughResolves(tree, cut, todo[1..], Parent(current), links, depth);
      } else if todo[0] in {".", "/"} {
        EnoughResolves(tree, cut, todo[1..], current, links, depth);
      } else {
        var next := current + [todo[0]];
        var paths := ChaseFrom(tree, todo, current, depth).value;
        match tree[next] {
          case Directory =>
            WalkedOrBackedOut(tree, todo[1..], next, links, depth, next);
            if next <= paths[0] {
              FirstLeads(tree, paths, next);
            }
            EnoughResolves(tree, cut, todo[1..], next, links, depth);
          case Regular =>
            assert todo[1..] == [] && Descend(tree, todo, current) == Descend(tree, [], next);
            FirstLeads(tree, paths, next);
          case Link(target) =>
            var rest := ChaseFrom(tree, target.parts + todo[1..], Base(next, target), depth - 1).value;
            assert paths == [next] + rest;
            LeadsFurther(tree, next, rest, next);
            forall path | path in tree && Leads(tree, rest, path)
              ensures path in cut
            {
              LeadsFurther(tree, next, rest, path);
            }
            EnoughResolves(tree, cut, target.parts + todo[1..], Base(next, target), links - 1, depth - 1);
        }
      }
    }
  }

  lemma FirstLeads(tree: Tree, paths: seq<Path>, path: Path)
    requires paths != [] && path != [] && path <= paths[0] && (paths[0] in tree || paths[0] == [])
    ensures Leads(tree, paths, path)
  {
  }

  ghost predicate AllAbove(tree: Tree, path: Path) {
    forall n :: 0 < n <= |path| ==> path[..n] in tree
  }

  /** A tree that resolves a path has every directory that is stepped back out of. */
  lemma {:induction false} ResolvingNeedsBackedOut(tree: Tree, cut: Tree, todo: seq<string>, current: Path, links: nat)
    requires Resolve(cut, todo, current, links).Some? && AllAbove(cut, current)
    requires forall path :: path in cut ==> path in tree && cut[path] == tree[path]
    requires forall path :: path in cut ==> AllAbove(cut, path)
    ensures forall path :: path in BackedOut(tree, todo, current, links) ==> path == [] || path in cut
    decreases links, |todo|
  {
    if todo != [] {
      if todo[0] == ".." {
        assert current[..|current|] == current;
        ParentIsAbove(cut, current);
        ResolvingNeedsBackedOut(tree, cut, todo[1..], Parent(current), links);
      } else if todo[0] in {".", "/"} {
        ResolvingNeedsBackedOut(tree, cut, todo[1..], current, links);
      } else {
        var next := current + [todo[0]];
        match cut[next] {
          case Directory => ResolvingNeedsBackedOut(tree, cut, todo[1..], next, links);
          case Regular =>
            assert todo[1..] == [];
            assert BackedOut(tree, [], next, links) == [];
          case Link(target) =>
            ParentIsAbove(cut, next);
            ResolvingNeedsBackedOut(tree, cut, target.parts + todo[1..], Base(next, target), links - 1);
        }
      }
    }
  }

  lemma ParentIsAbove(tree: Tree, path: Path)
    requires AllAbove(tree, path)
    ensures AllAbove(tree, Parent(path)) && AllAbove(tree, [])
  {
    forall n | 0 < n <= |Parent(path)|
      ensures Parent(path)[..n] in tree
    {
      assert Parent(path)[..n] == path[..n];
    }
  }

  /** Everything in a tree is below the root, with all that is above it there too. */
  ghost predicate Rooted(tree: Tree) {
    [] !in tree && forall path :: path in tree ==> AllAbove(tree, path)
  }

  lemma PackedIsRooted(tree: Tree, paths: seq<Path>)
    requires Rooted(tree)
    ensures Rooted(Packed(tree, paths))
  {
    forall path, n | path in Packed(tree, paths) && 0 < n <= |path|
      ensures path[..n] in Packed(tree, paths)
    {
      var i :| 0 <= i < |paths| && paths[i] in tree && path <= paths[i];
      assert AllAbove(tree, path);
      assert path[..n] <= paths[i];
    }
  }

  /** Part of a tree, each entry with all that is above it. */
  ghost predicate CutOf(cut: Tree, tree: Tree) {
    Rooted(cut) && forall path :: path in cut ==> path in tree && cut[path] == tree[path]
  }

  /** A cut holds what is packed for some paths. */
  ghost predicate Holds(cut: Tree, tree: Tree, paths: seq<Path>) {
    forall path :: path in tree && Leads(tree, paths, path) ==> path in cut
  }

  /** Any part of the tree that holds what is packed for a path, whatever else it holds, resolves the path
      to what the whole tree does exactly if it has every directory stepped back out of on the way. */
  lemma CutResolvesExactlyIf(tree: Tree, cut: Tree, rel: seq<string>)
    requires Rooted(tree) && Resolve(tree, rel, [], LINK_DEPTH).Some? && ChaseFrom(tree, rel, [], LINK_DEPTH).Some?
    requires CutOf(cut, tree) && Holds(cut, tree, ChaseFrom(tree, rel, [], LINK_DEPTH).value)
    ensures Resolve(cut, rel, [], LINK_DEPTH) == Resolve(tree, rel, [], LINK_DEPTH) <==>
            forall path :: path in BackedOut(tree, rel, [], LINK_DEPTH) ==> path == [] || path in cut
  {
    hide Resolve, ChaseFrom, BackedOut, Leads;
    if Resolve(cut, rel, [], LINK_DEPTH) == Resolve(tree, rel, [], LINK_DEPTH) {
      ResolvingNeedsBackedOut(tree, cut, rel, [], LINK_DEPTH);
    } else if forall path :: path in BackedOut(tree, rel, [], LINK_DEPTH) ==> path == [] || path in cut {
      ResolvedPathsExist(tree, rel, [], LINK_DEPTH, LINK_DEPTH);
      EnoughResolves(tree, cut, rel, [], LINK_DEPTH, LINK_DEPTH);
    }
  }

  /** What is packed for a path, together with what is packed for others, resolves it to what the whole tree
      does exactly if every directory stepped back out of on the way is above something that is packed. */
  lemma PackedResolvesExactlyIf(tree: Tree, rel: seq<string>, all: seq<Path>)
    requires Rooted(tree) && Resolve(tree, rel, [], LINK_DEPTH).Some? && ChaseFrom(tree, rel, [], LINK_DEPTH).Some?
    requires forall path :: path in ChaseFrom(tree, rel, [], LINK_DEPTH).value ==> path in all
    ensures Resolve(Packed(tree, all), rel, [], LINK_DEPTH) == Resolve(tree, rel, [], LINK_DEPTH) <==>
            forall path :: path in BackedOut(tree, rel, [], LINK_DEPTH) ==> path == [] || (path in tree && Leads(tree, all, path))
  {
    hide Resolve, ChaseFrom, BackedOut;
    PackedIsRooted(tree, all);
    LeadsAmongMore(tree, ChaseFrom(tree, rel, [], LINK_DEPTH).value, all);
    hide Leads;
    CutResolvesExactlyIf(tree, Packed(tree, all), rel);
  }

  lemma LeadsAmongMore(tree: Tree, paths: seq<Path>, all: seq<Path>)
    requires forall path :: path in paths ==> path in all
    ensures Holds(Packed(tree, all), tree, paths)
  {
    forall path | path in tree && Leads(tree, paths, path)
      ensures Leads(tree, all, path)
    {
      var i :| 0 <= i < |paths| && paths[i] in tree && path <= paths[i];
      assert paths[i] in all;
    }
  }

  /** Whatever resolves, everything the chase yields for it is there. */
  lemma {:induction false} ResolvedPathsExist(tree: Tree, todo: seq<string>, current: Path, links: nat, depth: nat)
    requires Rooted(tree) && Resolve(tree, todo, current, links).Some? && ChaseFrom(tree, todo, current, depth).Some?
    requires current in tree || current == []
    ensures forall path :: path in ChaseFrom(tree, todo, current, depth).value ==> path in tree || path == []
    decreases links, |todo|
  {
    hide Rooted;
    if todo != [] {
      if todo[0] == ".." {
        ParentExists(tree, current);
        ResolvedPathsExist(tree, todo[1..], Parent(current), links, depth);
      } else if todo[0] in {".", "/"} {
        ResolvedPathsExist(tree, todo[1..], current, links, depth);
      } else {
        var next := current + [todo[0]];
        match tree[next] {
          case Directory => ResolvedPathsExist(tree, todo[1..], next, links, depth);
          case Regular =>
            assert todo[1..] == [] && Descend(tree, todo, current) == Descend(tree, [], next);
          case Link(target) =>
            assert Base(next, target) == if target.absolute then [] else current;
            ResolvedPathsExist(tree, target.parts + todo[1..], Base(next, target), links - 1, depth - 1);
        }
      }
    }
  }

  lemma ParentExists(tree: Tree, path: Path)
    requires Rooted(tree) && (path in tree || path == [])
    ensures Parent(path) in tree || Parent(path) == []
  {
    if |path| > 1 {
      assert AllAbove(tree, path);
      assert path[..|path| - 1] in tree;
    }
  }

  // When that is so.

  predicate Names(part: string) {
    part !in {"..", ".", "/"}
  }

  /** `..` comes before any name. */
  predicate Forward(parts: seq<string>) {
    forall i, j :: 0 <= i < j < |parts| && Names(parts[i]) ==> parts[j] != ".."
  }

  lemma {:induction false} ForwardBacksOutOfAncestors(tree: Tree, todo: seq<string>, current: Path, links: nat, depth: nat)
    requires ChaseFrom(tree, todo, current, depth).Some? && depth <= links + 1
    requires Forward(todo) && forall path :: IsLink(tree, path) ==> Forward(tree[path].target.parts)
    ensures forall path :: path in BackedOut(tree, todo, current, links) ==>
              path <= current || Leads(tree, ChaseFrom(tree, todo, current, depth).value, path)
    ensures ".." !in todo ==> forall path :: path in BackedOut(tree, todo, current, links) ==>
              Leads(tree, ChaseFrom(tree, todo, current, depth).value, path)
    decreases links, |todo|
  {
    hide Leads;
    if todo != [] {
      assert Forward(todo[1..]);
      var paths := ChaseFrom(tree, todo, current, depth).value;
      if todo[0] == ".." {
        ForwardBacksOutOfAncestors(tree, todo[1..], Parent(current), links, depth);
      } else if todo[0] in {".", "/"} {
        ForwardBacksOutOfAncestors(tree, todo[1..], current, links, depth);
      } else {
        var next := current + [todo[0]];
        assert ".." !in todo[1..] by {
          assert Names(todo[0]);
        }
        if !IsLink(tree, next) {
          ForwardBacksOutOfAncestors(tree, todo[1..], next, links, depth);
        } else {
          var target := tree[next].target;
          var rest := ChaseFrom(tree, target.parts + todo[1..], Base(next, target), depth - 1).value;
          assert paths == [next] + rest;
          assert Forward(target.parts + todo[1..]);
          ForwardBacksOutOfAncestors(tree, target.parts + todo[1..], Base(next, target), links - 1, depth - 1);
          forall path | path in BackedOut(tree, todo, current, links)
            ensures Leads(tree, paths, path)
          {
            LeadsFurther(tree, next, rest, path);
          }
        }
      }
    }
  }

  lemma LeadsFurther(tree: Tree, next: Path, rest: seq<Path>, path: Path)
    requires next in tree && (path <= next || Leads(tree, rest, path))
    ensures Leads(tree, [next] + rest, path)
  {
    if path <= next {
      assert ([next] + rest)[0] == next;
    } else {
      var i :| 0 <= i < |rest| && rest[i] in tree && path <= rest[i];
      assert ([next] + rest)[i + 1] == rest[i];
    }
  }

  /** Where `..` only ever comes first, in the path and in every symlink's target, any part of the tree that
      holds what is packed for a path resolves it as the whole tree does. */
  lemma ForwardLinksPackWhole(tree: Tree, cut: Tree, rel: seq<string>)
    requires Rooted(tree) && Resolve(tree, rel, [], LINK_DEPTH).Some? && ChaseFrom(tree, rel, [], LINK_DEPTH).Some?
    requires Forward(rel) && forall path :: IsLink(tree, path) ==> Forward(tree[path].target.parts)
    requires CutOf(cut, tree) && Holds(cut, tree, ChaseFrom(tree, rel, [], LINK_DEPTH).value)
    ensures var paths := ChaseFrom(tree, rel, [], LINK_DEPTH).value;
            Resolve(cut, rel, [], LINK_DEPTH) == Some(paths[|paths| - 1])
  {
    hide Resolve, ChaseFrom, BackedOut, Leads;
    var paths := ChaseFrom(tree, rel, [], LINK_DEPTH).value;
    ForwardBacksOutOfAncestors(tree, rel, [], LINK_DEPTH, LINK_DEPTH);
    CutResolvesExactlyIf(tree, cut, rel);
    ChaseEndsWhereResolved(tree, rel, [], LINK_DEPTH, LINK_DEPTH);
    forall path | path in BackedOut(tree, rel, [], LINK_DEPTH) && path != []
      ensures path in tree
    {
      LeadersExist(tree, paths, path);
    }
  }

  lemma LeadersExist(tree: Tree, paths: seq<Path>, path: Path)
    requires Rooted(tree) && Leads(tree, paths, path) && path != []
    ensures path in tree
  {
    var i :| 0 <= i < |paths| && paths[i] in tree && path <= paths[i];
    assert AllAbove(tree, paths[i]);
    assert paths[i][..|path|] == path;
  }

  /** Walking down directories comes to where they lead. */
  lemma {:induction false} WalksDown(tree: Tree, directory: Path, todo: seq<string>, k: nat, links: nat)
    requires k <= |directory| && forall n :: k < n <= |directory| ==> directory[..n] in tree && tree[directory[..n]] == Directory
    requires forall i :: 0 <= i < |directory| ==> directory[i] !in {"..", ".", "/"}
    ensures Resolve(tree, directory[k..] + todo, directory[..k], links) == Resolve(tree, todo, directory, links)
    ensures Descend(tree, directory[k..] + todo, directory[..k]) == Descend(tree, todo, directory)
    ensures BackedOut(tree, directory[k..] + todo, directory[..k], links) == BackedOut(tree, todo, directory, links)
    decreases |directory| - k
  {
    if k == |directory| {
      assert directory[k..] + todo == todo && directory[..k] == directory;
    } else {
      WalksDown(tree, directory, todo, k + 1, links);
      assert directory[..k] + [directory[k]] == directory[..k + 1];
      assert (directory[k..] + todo)[1..] == directory[k + 1..] + todo && (directory[k..] + todo)[0] == directory[k];
    }
  }

  const FIRMWARE: Path := ["usr", "lib", "firmware"]

  /** A symlink `a` to `d/../b` below the firmware directory. */
  function Outing(): Tree {
    map[["usr"] := Directory, ["usr", "lib"] := Directory, FIRMWARE := Directory, FIRMWARE + ["d"] := Directory,
        FIRMWARE + ["b"] := Regular, FIRMWARE + ["a"] := Link(Target(false, ["d", "..", "b"]))]
  }

  lemma OutingIsRooted()
    ensures Rooted(Outing())
    ensures forall n :: 0 < n <= |FIRMWARE| ==> FIRMWARE[..n] in Outing() && Outing()[FIRMWARE[..n]] == Directory
  {
    var tree := Outing();
    assert FIRMWARE[..1] == ["usr"] && FIRMWARE[..2] == ["usr", "lib"] && FIRMWARE[..3] == FIRMWARE;
    forall path | path in tree
      ensures AllAbove(tree, path)
    {
      assert |path| == 4 ==> path[..3] == FIRMWARE && path[..2] == ["usr", "lib"] && path[..1] == ["usr"] && path[..4] == path;
      assert |path| <= 3 ==> path == FIRMWARE[..|path|] && forall n :: 0 < n <= |path| ==> path[..n] == FIRMWARE[..n];
    }
  }

  lemma BelowFirmware(todo: seq<string>, links: nat)
    ensures var tree := Outing();
            && Resolve(tree, FIRMWARE + todo, [], links) == Resolve(tree, todo, FIRMWARE, links)
            && Descend(tree, FIRMWARE + todo, []) == Descend(tree, todo, FIRMWARE)
            && BackedOut(tree, FIRMWARE + todo, [], links) == BackedOut(tree, todo, FIRMWARE, links)
  {
    OutingIsRooted();
    hide Outing;
    assert FIRMWARE[0..] == FIRMWARE && FIRMWARE[..0] == [];
    WalksDown(Outing(), FIRMWARE, todo, 0, links);
  }

  /** From the firmware directory on, the symlink's target comes to `b` after stepping out of `d`. */
  lemma OutingWalked(links: nat)
    ensures var tree, todo, file := Outing(), ["d", "..", "b"], FIRMWARE + ["b"];
            && Resolve(tree, todo, FIRMWARE, links) == Some(file) && Descend(tree, todo, FIRMWARE) == Stop(file, [], false)
            && BackedOut(tree, todo, FIRMWARE, links) == [FIRMWARE + ["d"]]
  {
    var tree, todo, directory, file := Outing(), ["d", "..", "b"], FIRMWARE + ["d"], FIRMWARE + ["b"];
    assert Parent(directory) == FIRMWARE && todo[1..] == ["..", "b"] && todo[1..][1..] == ["b"] && todo[1..][1..][1..] == [];
    assert directory[3] == "d" && file[3] == "b" && (FIRMWARE + ["a"])[3] == "a";
    assert tree[directory] == Directory && tree[file] == Regular;
    assert Resolve(tree, ["b"], FIRMWARE, links) == Some(file);
    assert Resolve(tree, ["..", "b"], directory, links) == Some(file);
    assert Descend(tree, ["b"], FIRMWARE) == Stop(file, [], false);
    assert Descend(tree, ["..", "b"], directory) == Stop(file, [], false);
    assert BackedOut(tree, ["b"], FIRMWARE, links) == [];
    assert BackedOut(tree, ["..", "b"], directory, links) == [directory] + [];
  }

  /** Not everywhere: a target that walks into a directory and out again needs that directory, which
      nothing packs. */
  lemma SteppingOutLosesAFile() returns (tree: Tree, rel: seq<string>)
    ensures Rooted(tree) && FIRMWARE < rel && ".." !in rel
    ensures Resolve(tree, rel, [], LINK_DEPTH).Some? && ChaseFrom(tree, rel, [], LINK_DEPTH).Some?
    ensures Resolve(Packed(tree, ChaseFrom(tree, rel, [], LINK_DEPTH).value), rel, [], LINK_DEPTH) != Resolve(tree, rel, [], LINK_DEPTH)
  {
    tree, rel := Outing(), FIRMWARE + ["a"];
    var link, todo, file := FIRMWARE + ["a"], ["d", "..", "b"], FIRMWARE + ["b"];
    OutingIsRooted();
    BelowFirmware(["a"], LINK_DEPTH);
    OutingWalked(LINK_DEPTH - 1);
    var target := Target(false, todo);
    assert tree[link] == Link(target) && Base(link, target) == FIRMWARE;
    assert ["a"][1..] == [] && target.parts + ["a"][1..] == todo && todo + [] == todo;
    assert Resolve(tree, ["a"], FIRMWARE, LINK_DEPTH) == Some(file);
    assert Descend(tree, ["a"], FIRMWARE) == Stop(link, [], true);
    assert BackedOut(tree, ["a"], FIRMWARE, LINK_DEPTH) == [FIRMWARE + ["d"]];
    hide Resolve, BackedOut, Descend, Outing;
    assert ChaseFrom(tree, todo, FIRMWARE, LINK_DEPTH - 1) == Some([file]);
    var paths := [link] + [file];
    assert ChaseFrom(tree, rel, [], LINK_DEPTH) == Some(paths);
    hide ChaseFrom;
    PackedResolvesExactlyIf(tree, rel, paths);
    NothingLeadsThere(tree, paths);
    assert (FIRMWARE + ["d"]) in BackedOut(tree, rel, [], LINK_DEPTH);
  }

  lemma NothingLeadsThere(tree: Tree, paths: seq<Path>)
    requires paths == [FIRMWARE + ["a"]] + [FIRMWARE + ["b"]]
    ensures !Leads(tree, paths, FIRMWARE + ["d"])
  {
    assert (FIRMWARE + ["d"])[3] == "d" && (FIRMWARE + ["a"])[3] == "a" && (FIRMWARE + ["b"])[3] == "b";
  }
}
