/** Capturing an upper directory in place, deepest entries first. */
module RootfsCapture {
  import opened Names
  import opened Options
  import opened Overlay
  import opened Rootfs
  import opened RootfsTheorems
  import opened RootfsSteps

  /** Whether an opaque mark at a path is worth a marker file. */
  predicate KeepsMark(lowers: Option<seq<Node>>, path: Path) {
    lowers.None? || InAnyLower(lowers.value, path)
  }

  function Kept(node: Node, at: Path, lowers: Option<seq<Node>>): Node {
    match lowers
    case None => node
    case Some(layers) => DropIdleMarks(node, at, layers)
  }

  /** What capturing one entry does to the directory that holds it: a whiteout becomes a marker
      file, an opaque mark becomes a marker file or nothing, and an unstorable name is escaped. */
  function Rewritten(node: Node, mark: bool): Node {
    match node
    case Whiteout => File("")
    case Dir(true, kids) => Dir(false, if mark then kids[OPAQUE_NAME := File("")] else kids)
    case _ => node
  }

  /** The directory entry a step rewrites is there, and the names it creates are free. */
  predicate Rewritable(tree: Node, rel: Path, name: string)
    decreases |rel|
  {
    && tree.Dir?
    && if rel == [] then
         && name in tree.kids
         && (StoredName(name, tree.kids[name]) == name || StoredName(name, tree.kids[name]) !in tree.kids)
         && (tree.kids[name].Dir? ==> OPAQUE_NAME !in tree.kids[name].kids)
       else rel[0] in tree.kids && Rewritable(tree.kids[rel[0]], rel[1..], name)
  }

  function Rewrite(tree: Node, rel: Path, name: string, mark: bool): Node
    requires Rewritable(tree, rel, name)
    decreases |rel|
  {
    if rel == [] then
      var node := tree.kids[name];
      Dir(tree.sealed, (tree.kids - {name})[StoredName(name, node) := Rewritten(node, mark)])
    else Dir(tree.sealed, tree.kids[rel[0] := Rewrite(tree.kids[rel[0]], rel[1..], name, mark)])
  }

  /** The name an entry has once the entries of `done` have been captured. */
  function NameSoFar(name: string, node: Node, at: Path, done: set<Path>): string {
    if at + [name] in done then StoredName(name, node) else name
  }

  lemma PayloadSoFar(name: string, node: Node, at: Path, done: set<Path>)
    requires Clean(name)
    ensures Payload(NameSoFar(name, node, at, done)) == name
  {
    StoredForms(name);
    PayloadOfStoredName(name, node);
  }

  /** The subtree at `at` once the entries of `done` have been captured. */
  function SoFar(node: Node, at: Path, done: set<Path>, lowers: Option<seq<Node>>): Node
    requires CleanTree(node)
    decreases node
  {
    if at in done then
      KeptIsClean(node, at, lowers);
      Store(Kept(node, at, lowers))
    else
      match node
      case Dir(sealed, kids) =>
        var names := set name | name in kids :: NameSoFar(name, kids[name], at, done);
        Dir(sealed, map now | now in names && Payload(now) in kids
                      :: SoFar(kids[Payload(now)], at + [Payload(now)], done, lowers))
      case _ => node
  }

  lemma KeptIsClean(node: Node, at: Path, lowers: Option<seq<Node>>)
    requires CleanTree(node)
    ensures CleanTree(Kept(node, at, lowers))
  {
    if lowers.Some? {
      DroppingKeepsNames(node, at, lowers.value);
    }
  }

  lemma SoFarHolds(node: Node, at: Path, done: set<Path>, lowers: Option<seq<Node>>, now: string)
    requires CleanTree(node) && node.Dir? && at !in done
    ensures SoFar(node, at, done, lowers).Dir? && SoFar(node, at, done, lowers).sealed == node.sealed
    ensures EntryOf(Some(SoFar(node, at, done, lowers)), now) ==
            (var name := Payload(now);
             if name in node.kids && NameSoFar(name, node.kids[name], at, done) == now
             then Some(SoFar(node.kids[name], at + [name], done, lowers)) else None)
  {
    hide Clean, Payload, Store, StoredName, Kept, NameSoFar;
    var names := set name | name in node.kids :: NameSoFar(name, node.kids[name], at, done);
    if now in names {
      var name :| name in node.kids && NameSoFar(name, node.kids[name], at, done) == now;
      PayloadSoFar(name, node.kids[name], at, done);
    }
  }

  /** Capturing an entry elsewhere does not concern a subtree. */
  lemma {:induction false} SoFarElsewhere(node: Node, at: Path, done: set<Path>, lowers: Option<seq<Node>>, more: Path)
    requires CleanTree(node) && !(at <= more)
    ensures SoFar(node, at, done + {more}, lowers) == SoFar(node, at, done, lowers)
    decreases node
  {
    hide Clean, Payload, Store, StoredName, Kept, SoFar;
    var before, after := SoFar(node, at, done, lowers), SoFar(node, at, done + {more}, lowers);
    SoFarOfDone(node, at, done, lowers);
    SoFarOfDone(node, at, done + {more}, lowers);
    if node.Dir? && at !in done {
      forall now
        ensures EntryOf(Some(after), now) == EntryOf(Some(before), now)
      {
        SoFarHolds(node, at, done, lowers, now);
        SoFarHolds(node, at, done + {more}, lowers, now);
        assert at <= at + [Payload(now)];
        if Payload(now) in node.kids {
          SoFarElsewhere(node.kids[Payload(now)], at + [Payload(now)], done, lowers, more);
        }
      }
      SoFarHolds(node, at, done, lowers, "");
      SoFarHolds(node, at, done + {more}, lowers, "");
      SameEntriesSameKids(after, before);
    }
  }

  lemma SoFarOfDone(node: Node, at: Path, done: set<Path>, lowers: Option<seq<Node>>)
    requires CleanTree(node)
    ensures CleanTree(Kept(node, at, lowers))
    ensures at in done ==> SoFar(node, at, done, lowers) == Store(Kept(node, at, lowers))
    ensures at !in done && !node.Dir? ==> SoFar(node, at, done, lowers) == node
  {
    KeptIsClean(node, at, lowers);
  }

  /** Everything below a node has been captured. */
  ghost predicate CapturedBelow(node: Node, at: Path, done: set<Path>) {
    forall path :: path != [] && IsEntry(node, path) ==> at + path in done
  }

  lemma KeptHolds(node: Node, at: Path, lowers: Option<seq<Node>>, name: string)
    requires node.Dir?
    ensures var kept := Kept(node, at, lowers);
            && kept.Dir? && (kept.sealed <==> node.sealed && KeepsMark(lowers, at))
            && (name in kept.kids <==> name in node.kids)
            && (name in node.kids ==> kept.kids[name] == Kept(node.kids[name], at + [name], lowers))
    ensures name in node.kids ==> (Kept(node.kids[name], at + [name], lowers).Whiteout? <==> node.kids[name].Whiteout?)
  {
  }

  /** An entry whose contents have all been captured is one rewriting away from its stored form. */
  lemma RewrittenIsStored(node: Node, at: Path, done: set<Path>, lowers: Option<seq<Node>>)
    requires CleanTree(node) && at !in done && CapturedBelow(node, at, done)
    ensures CleanTree(Kept(node, at, lowers))
    ensures Rewritten(SoFar(node, at, done, lowers), KeepsMark(lowers, at)) == Store(Kept(node, at, lowers))
    ensures SoFar(node, at, done, lowers).Whiteout? <==> node.Whiteout?
    ensures SoFar(node, at, done, lowers).Dir? ==> OPAQUE_NAME !in SoFar(node, at, done, lowers).kids
  {
    hide Clean, Payload, Store, StoredName, SoFar, KeepsMark, Kept, Classify;
    SoFarOfDone(node, at, done, lowers);
    if node.Dir? {
      var kept, now := Kept(node, at, lowers), SoFar(node, at, done, lowers);
      var mark := KeepsMark(lowers, at);
      SoFarHolds(node, at, done, lowers, OPAQUE_NAME);
      KeptHolds(node, at, lowers, "");
      StoredKids(kept, "");
      OpaqueSeals();
      NoNameIsOpaque(node, at, done);
      forall stored
        ensures stored != OPAQUE_NAME ==> EntryOf(Some(now), stored) == EntryOf(Some(Store(kept)), stored)
      {
        SoFarHolds(node, at, done, lowers, stored);
        StoredKids(kept, stored);
        var name := Payload(stored);
        KeptHolds(node, at, lowers, name);
        StoredNameKept(node, at, lowers, name);
        if name in node.kids {
          assert [name][1..] == [];
          assert IsEntry(node, [name]);
          StoredKids(kept, name);
          SoFarOfDone(node.kids[name], at + [name], done, lowers);
        }
      }
      var rewritten := Rewritten(now, mark);
      assert rewritten.Dir? && !rewritten.sealed;
      forall stored
        ensures EntryOf(Some(rewritten), stored) == EntryOf(Some(Store(kept)), stored)
      {
        StoredKids(kept, stored);
        StoredSeal(kept);
      }
      SameEntriesSameKids(rewritten, Store(kept));
    } else {
      StoredLeaf(node, at, lowers);
    }
  }

  lemma StoredLeaf(node: Node, at: Path, lowers: Option<seq<Node>>)
    requires CleanTree(node) && !node.Dir?
    ensures Kept(node, at, lowers) == node
    ensures Store(node) == if node.Whiteout? then File("") else node
  {
  }

  lemma StoredSeal(node: Node)
    requires CleanTree(node) && node.Dir?
    ensures EntryOf(Some(Store(node)), OPAQUE_NAME) == if node.sealed then Some(File("")) else None
  {
    hide Payload, StoredName, Clean;
    StoredKids(node, "");
  }

  lemma StoredNameKept(node: Node, at: Path, lowers: Option<seq<Node>>, name: string)
    requires node.Dir?
    ensures name in node.kids ==>
              StoredName(name, Kept(node.kids[name], at + [name], lowers)) == StoredName(name, node.kids[name])
  {
    KeptHolds(node, at, lowers, name);
  }

  lemma NoNameIsOpaque(node: Node, at: Path, done: set<Path>)
    requires CleanTree(node) && node.Dir?
    ensures forall name :: name in node.kids ==> NameSoFar(name, node.kids[name], at, done) != OPAQUE_NAME
  {
    hide Payload, StoredName, Clean, Classify;
    OpaqueSeals();
    forall name | name in node.kids
      ensures NameSoFar(name, node.kids[name], at, done) != OPAQUE_NAME
    {
      PayloadOfStoredName(name, node.kids[name]);
    }
  }

  lemma RewriteHolds(tree: Node, rel: Path, name: string, mark: bool, now: string)
    requires Rewritable(tree, rel, name)
    ensures Rewrite(tree, rel, name, mark).Dir?
    ensures EntryOf(Some(Rewrite(tree, rel, name, mark)), now) ==
            if rel != [] then
              if now == rel[0] then Some(Rewrite(tree.kids[rel[0]], rel[1..], name, mark)) else EntryOf(Some(tree), now)
            else if now == StoredName(name, tree.kids[name]) then Some(Rewritten(tree.kids[name], mark))
            else if now == name then None
            else EntryOf(Some(tree), now)
    ensures Rewrite(tree, rel, name, mark).sealed == tree.sealed
  {
    hide StoredName;
  }

  /** Rewriting an entry of the directory itself. */
  lemma CaptureHere(node: Node, at: Path, done: set<Path>, lowers: Option<seq<Node>>, name: string)
    requires CleanTree(node) && node.Dir? && name in node.kids
    requires at !in done && at + [name] !in done
    requires CapturedBelow(node.kids[name], at + [name], done)
    ensures var before, more := SoFar(node, at, done, lowers), at + [name];
            && Rewritable(before, [], name)
            && SoFar(node, at, done + {more}, lowers) == Rewrite(before, [], name, KeepsMark(lowers, more))
  {
    hide Clean, Payload, Store, StoredName, SoFar, KeepsMark, Kept, CapturedBelow, Rewrite, Rewritten;
    var more := at + [name];
    var mark := KeepsMark(lowers, more);
    var before, after := SoFar(node, at, done, lowers), SoFar(node, at, done + {more}, lowers);
    var one := node.kids[name];
    var stored := StoredName(name, one);
    SoFarHolds(node, at, done, lowers, name);
    SoFarHolds(node, at, done, lowers, stored);
    StoredForms(name);
    PayloadOfStoredName(name, one);
    RewrittenIsStored(one, more, done, lowers);
    SoFarOfDone(one, more, done + {more}, lowers);
    assert EntryOf(Some(before), name) == Some(SoFar(one, more, done, lowers));
    StoredNameSame(name, one, before.kids[name]);
    assert Rewritable(before, [], name);
    forall now
      ensures EntryOf(Some(after), now) == EntryOf(Some(Rewrite(before, [], name, mark)), now)
    {
      SoFarHolds(node, at, done, lowers, now);
      SoFarHolds(node, at, done + {more}, lowers, now);
      ElsewhereBeside(node, at, done, lowers, more, Payload(now));
      RewriteHolds(before, [], name, mark, now);
      assert more[|at|] == name;
    }
    RewriteHolds(before, [], name, mark, "");
    SoFarHolds(node, at, done + {more}, lowers, "");
    SameEntriesSameKids(after, Rewrite(before, [], name, mark));
  }

  /** One step of the loop: rewriting the entry at `rel` and `name` captures it. */
  lemma {:induction false} CaptureOne(node: Node, at: Path, done: set<Path>, lowers: Option<seq<Node>>, rel: Path, name: string)
    requires CleanTree(node) && IsEntry(node, rel + [name])
    requires forall n :: 0 <= n <= |rel| ==> at + rel[..n] !in done
    requires at + rel + [name] !in done
    requires CapturedBelow(Entry(node, rel + [name]), at + rel + [name], done)
    ensures var before, more := SoFar(node, at, done, lowers), at + rel + [name];
            && Rewritable(before, rel, name)
            && SoFar(node, at, done + {more}, lowers) == Rewrite(before, rel, name, KeepsMark(lowers, more))
    decreases |rel|
  {
    hide Clean, Payload, Store, StoredName, SoFar, KeepsMark, Kept, CapturedBelow, Rewrite, Rewritten;
    var more := at + rel + [name];
    assert rel[..0] == [] && at + [] == at;
    if rel == [] {
      assert rel + [name] == [name] && [name][1..] == [];
      assert more == at + [name];
      CaptureHere(node, at, done, lowers, name);
    } else {
      var r := rel[0];
      assert (rel + [name])[0] == r && (rel + [name])[1..] == rel[1..] + [name];
      assert at + [r] + rel[1..] + [name] == more;
      forall n | 0 <= n <= |rel[1..]|
        ensures at + [r] + rel[1..][..n] !in done
      {
        assert at + rel[..n + 1] == at + [r] + rel[1..][..n];
      }
      CaptureOne(node.kids[r], at + [r], done, lowers, rel[1..], name);
      assert rel[..1] == [r];
      CaptureThrough(node, at, done, lowers, rel, name);
    }
  }

  lemma CaptureThrough(node: Node, at: Path, done: set<Path>, lowers: Option<seq<Node>>, rel: Path, name: string)
    requires CleanTree(node) && node.Dir? && rel != [] && rel[0] in node.kids
    requires at !in done && at + [rel[0]] !in done
    requires var before, more := SoFar(node.kids[rel[0]], at + [rel[0]], done, lowers), at + rel + [name];
             && Rewritable(before, rel[1..], name)
             && SoFar(node.kids[rel[0]], at + [rel[0]], done + {more}, lowers) ==
                Rewrite(before, rel[1..], name, KeepsMark(lowers, more))
    ensures var before, more := SoFar(node, at, done, lowers), at + rel + [name];
            && Rewritable(before, rel, name)
            && SoFar(node, at, done + {more}, lowers) == Rewrite(before, rel, name, KeepsMark(lowers, more))
  {
    hide Clean, Payload, Store, StoredName, SoFar, KeepsMark, Kept, Rewrite, Rewritten;
    var r, more := rel[0], at + rel + [name];
    var mark := KeepsMark(lowers, more);
    var before, after := SoFar(node, at, done, lowers), SoFar(node, at, done + {more}, lowers);
    StoredForms(r);
    SoFarHolds(node, at, done, lowers, r);
    assert EntryOf(Some(before), r) == Some(SoFar(node.kids[r], at + [r], done, lowers));
    forall now
      ensures EntryOf(Some(after), now) == EntryOf(Some(Rewrite(before, rel, name, mark)), now)
    {
      SoFarHolds(node, at, done, lowers, now);
      SoFarHolds(node, at, done + {more}, lowers, now);
      assert more[|at|] == r && |more| > |at| + 1;
      ElsewhereBeside(node, at, done, lowers, more, Payload(now));
      RewriteHolds(before, rel, name, mark, now);
    }
    RewriteHolds(before, rel, name, mark, "");
    SoFarHolds(node, at, done + {more}, lowers, "");
    SameEntriesSameKids(after, Rewrite(before, rel, name, mark));
  }

  lemma StoredNameSame(name: string, a: Node, b: Node)
    requires a.Whiteout? <==> b.Whiteout?
    ensures StoredName(name, a) == StoredName(name, b)
  {
  }

  lemma ElsewhereBeside(node: Node, at: Path, done: set<Path>, lowers: Option<seq<Node>>, more: Path, name: string)
    requires CleanTree(node) && node.Dir? && |more| > |at|
    ensures name in node.kids && more[|at|] != name ==>
              SoFar(node.kids[name], at + [name], done + {more}, lowers) == SoFar(node.kids[name], at + [name], done, lowers)
              && NameSoFar(name, node.kids[name], at, done + {more}) == NameSoFar(name, node.kids[name], at, done)
  {
    hide SoFar, Clean, StoredName;
    if name in node.kids && more[|at|] != name {
      assert (at + [name])[|at|] == name;
      SoFarElsewhere(node.kids[name], at + [name], done, lowers, more);
    }
  }

  lemma {:induction false} SoFarNothing(node: Node, at: Path, lowers: Option<seq<Node>>)
    requires CleanTree(node)
    ensures SoFar(node, at, {}, lowers) == node
    decreases node
  {
    hide Clean, Payload, Store, StoredName, SoFar, Kept;
    SoFarOfDone(node, at, {}, lowers);
    if node.Dir? {
      forall now
        ensures EntryOf(Some(SoFar(node, at, {}, lowers)), now) == EntryOf(Some(node), now)
      {
        SoFarHolds(node, at, {}, lowers, now);
        if now in node.kids {
          StoredForms(now);
        }
        if Payload(now) in node.kids {
          SoFarNothing(node.kids[Payload(now)], at + [Payload(now)], lowers);
        }
      }
      SoFarHolds(node, at, {}, lowers, "");
      SameEntriesSameKids(SoFar(node, at, {}, lowers), node);
    }
  }

  /** Rewrite an upper directory into its stored delta, entry by entry, deepest first. Every step
      finds its entry under its true name and never writes over another entry. */
  method CaptureInPlace(upper: Node, lowers: Option<seq<Node>>, listing: seq<Path>) returns (tree: Node)
    requires Upper(upper) && Lists(listing, upper)
    requires forall i, j :: 0 <= i < j < |listing| ==> |listing[i]| >= |listing[j]|
    ensures tree == Capture(upper, lowers)
  {
    hide Clean, Payload, Store, StoredName, SoFar, KeepsMark, CapturedBelow, Kept, Rewrite, Rewritable, CleanTree;
    tree := upper;
    SoFarNothing(upper, [], lowers);
    ghost var done: set<Path> := {};
    for i := 0 to |listing|
      invariant done == set j | 0 <= j < i :: listing[j]
      invariant tree == SoFar(upper, [], done, lowers)
    {
      var path := listing[i];
      assert path in listing;
      var rel, name := Parent(path), Last(path);
      assert path == rel + [name] && [] + rel + [name] == path;
      assert done + {path} == set j | 0 <= j < i + 1 :: listing[j];
      ReadyToCapture(upper, listing, i, done);
      CaptureOne(upper, [], done, lowers, rel, name);
      tree := Rewrite(tree, rel, name, KeepsMark(lowers, path));
      done := done + {path};
    }
    CapturedWhole(upper, lowers, done, listing);
  }

  /** Deepest first means that an entry's contents come before it and its parents after. */
  lemma ReadyToCapture(upper: Node, listing: seq<Path>, i: nat, done: set<Path>)
    requires i < |listing| && Lists(listing, upper)
    requires forall i, j :: 0 <= i < j < |listing| ==> |listing[i]| >= |listing[j]|
    requires done == set j | 0 <= j < i :: listing[j]
    ensures listing[i] != [] && listing[i] !in done && IsEntry(upper, listing[i])
    ensures forall n :: 0 <= n < |listing[i]| ==> [] + Parent(listing[i])[..n] !in done
    ensures CapturedBelow(Entry(upper, listing[i]), listing[i], done)
  {
    var path := listing[i];
    assert path in listing;
    forall rest | rest != [] && IsEntry(Entry(upper, path), rest)
      ensures path + rest in done
    {
      EntryBeneath(upper, path, rest);
      assert path + rest in listing;
      var j :| 0 <= j < |listing| && listing[j] == path + rest;
      assert j < i;
    }
  }

  lemma {:induction false} EntryBeneath(node: Node, path: Path, rest: Path)
    requires IsEntry(node, path) && IsEntry(Entry(node, path), rest)
    ensures IsEntry(node, path + rest)
    decreases |path|
  {
    if path == [] {
      assert path + rest == rest;
    } else {
      EntryBeneath(node.kids[path[0]], path[1..], rest);
      assert (path + rest)[1..] == path[1..] + rest;
    }
  }

  lemma CapturedWhole(upper: Node, lowers: Option<seq<Node>>, done: set<Path>, listing: seq<Path>)
    requires Upper(upper) && Lists(listing, upper)
    requires done == set j | 0 <= j < |listing| :: listing[j]
    ensures SoFar(upper, [], done, lowers) == Capture(upper, lowers)
  {
    hide Clean, Payload, StoredName, SoFar, KeepsMark;
    forall path | path != [] && IsEntry(upper, path)
      ensures [] + path in done
    {
      assert [] + path == path;
      assert path in listing;
    }
    assert forall j :: 0 <= j < |listing| ==> listing[j] in listing;
    RewrittenIsStored(upper, [], done, lowers);
    SoFarHolds(upper, [], done, lowers, "");
    KeptIsClean(upper, [], lowers);
  }
}
