/** Opaque marks that capture drops, over layers other than those it was captured over.

    Capture keeps an opaque mark only where one of its lowers has the directory. This module says
    exactly over which views the delta still shows what its native form does. */
module IdleMarks {
  import opened TrueNames = Names
  import opened Options
  import opened Overlay
  import opened Rootfs
  import opened RootfsTheorems

  /** With its idle marks dropped, the tree still hides all that `below` shows: wherever a directory is
      no longer opaque, it has each name that shows beneath it, and each of those does the same. */
  predicate Covers(node: Node, at: seq<string>, lowers: seq<Node>, below: View)
    decreases node
  {
    match node
    case Dir(sealed, kids) =>
      (sealed && InAnyLower(lowers, at))
      || forall name :: name in kids.Keys + Overlay.Names(below) ==>
           if name in kids then Covers(kids[name], at + [name], lowers, Get(below, name)) else Get(below, name) == Absent
    case _ => true
  }

  predicate CoversName(node: Node, at: seq<string>, lowers: seq<Node>, below: View, name: string)
    requires node.Dir?
  {
    if name in node.kids then Covers(node.kids[name], at + [name], lowers, Get(below, name)) else Get(below, name) == Absent
  }

  /** Whether the marks that capture drops hide nothing of `below`. */
  predicate Harmless(node: Node, at: seq<string>, lowers: seq<Node>, below: View)
    decreases node
  {
    match node
    case Dir(sealed, kids) =>
      if sealed then Covers(node, at, lowers, below)
      else forall name :: name in kids ==> Harmless(kids[name], at + [name], lowers, Get(below, name))
    case _ => true
  }

  lemma DroppedHolds(node: Node, at: seq<string>, lowers: seq<Node>, name: string)
    requires node.Dir?
    ensures var dropped := DropIdleMarks(node, at, lowers);
            && dropped.Dir? && (dropped.sealed <==> node.sealed && InAnyLower(lowers, at))
            && dropped.kids.Keys == node.kids.Keys
            && (name in node.kids ==> dropped.kids[name] == DropIdleMarks(node.kids[name], at + [name], lowers))
  {
    hide InAnyLower;
  }

  lemma NothingShows(lowers: seq<Node>, at: seq<string>)
    ensures ShowsOnlyLowers(Absent, at, lowers)
  {
    forall path
      ensures At(Absent, path) == Absent
    {
      NothingAtAbsent(path);
    }
  }

  lemma SealedHidesAll(node: Node, below: View)
    requires node.Dir? && node.sealed
    ensures Apply(node, below) == Apply(node, Absent)
  {
    hide Apply;
    DirectoryOverNonDirectory(node, below);
    DirectoryOverNonDirectory(node, Absent);
  }

  predicate Alike(a: Node, x: View, b: Node, y: View, name: string) {
    Get(Apply(a, x), name) == Get(Apply(b, y), name)
  }

  /** Two directories show the same exactly if they do under every name. */
  lemma SameExactlyIfSameNames(a: Node, x: View, b: Node, y: View)
    requires a.Dir? && b.Dir?
    ensures Apply(a, x) == Apply(b, y) <==> forall name :: Alike(a, x, b, y, name)
  {
    ApplyIsCanonical(a, x);
    ApplyIsCanonical(b, y);
    hide Apply, Get;
    if forall name :: Alike(a, x, b, y, name) {
      assert forall name :: Get(Apply(a, x), name) == Get(Apply(b, y), name) by {
        forall name
          ensures Get(Apply(a, x), name) == Get(Apply(b, y), name)
        {
          assert Alike(a, x, b, y, name);
        }
      }
      SameNamesSameView(Apply(a, x), Apply(b, y));
    }
  }

  lemma {:induction false} CoversExactlyIf(node: Node, at: seq<string>, lowers: seq<Node>, below: View)
    ensures Covers(node, at, lowers, below) <==> Apply(DropIdleMarks(node, at, lowers), below) == Apply(node, Absent)
    decreases node
  {
    if node.Dir? {
      var dropped := DropIdleMarks(node, at, lowers);
      DroppedHolds(node, at, lowers, "");
      if dropped.sealed {
        SealedHidesAll(dropped, below);
        NothingShows(lowers, at);
        DroppingShowsTheSame(node, at, lowers, Absent);
      } else {
        CoversEachName(node, dropped, at, lowers, below);
        SameExactlyIfSameNames(dropped, below, node, Absent);
      }
    }
  }

  lemma CoversOneName(node: Node, at: seq<string>, lowers: seq<Node>, below: View, name: string)
    requires node.Dir? && !(node.sealed && InAnyLower(lowers, at))
    ensures var dropped := DropIdleMarks(node, at, lowers);
            Alike(dropped, below, node, Absent, name) <==> CoversName(node, at, lowers, below, name)
    decreases node, 0
  {
    hide Apply, InAnyLower, Covers, Get;
    var dropped := DropIdleMarks(node, at, lowers);
    DroppedHolds(node, at, lowers, name);
    ApplyGet(dropped, below, name);
    ApplyGet(node, Absent, name);
    GetAbsent(name);
    if name in node.kids {
      CoversExactlyIf(node.kids[name], at + [name], lowers, Get(below, name));
    }
  }

  lemma CoversByName(node: Node, at: seq<string>, lowers: seq<Node>, below: View)
    requires node.Dir? && !(node.sealed && InAnyLower(lowers, at))
    ensures Covers(node, at, lowers, below) <==> forall name :: CoversName(node, at, lowers, below, name)
  {
    hide InAnyLower;
    if Covers(node, at, lowers, below) {
      forall name
        ensures CoversName(node, at, lowers, below, name)
      {
      }
    } else {
      var name :| name in node.kids.Keys + Overlay.Names(below)
                  && !(if name in node.kids then Covers(node.kids[name], at + [name], lowers, Get(below, name))
                       else Get(below, name) == Absent);
      assert !CoversName(node, at, lowers, below, name);
    }
  }

  lemma CoversEachName(node: Node, dropped: Node, at: seq<string>, lowers: seq<Node>, below: View)
    requires node.Dir? && !(node.sealed && InAnyLower(lowers, at)) && dropped == DropIdleMarks(node, at, lowers)
    ensures Covers(node, at, lowers, below) <==> forall name :: Alike(dropped, below, node, Absent, name)
    decreases node, 1
  {
    CoversByName(node, at, lowers, below);
    forall name
      ensures Alike(dropped, below, node, Absent, name) <==> CoversName(node, at, lowers, below, name)
    {
      CoversOneName(node, at, lowers, below, name);
    }
    hide *;
  }

  /** Dropping the idle marks changes nothing over a view exactly if they hid nothing of it. */
  lemma {:induction false} DroppingIsHarmlessExactlyIf(node: Node, at: seq<string>, lowers: seq<Node>, below: View)
    ensures Apply(DropIdleMarks(node, at, lowers), below) == Apply(node, below) <==> Harmless(node, at, lowers, below)
    decreases node
  {
    hide Apply, InAnyLower, Covers;
    if node.Dir? {
      if node.sealed {
        SealedHidesAll(node, below);
        CoversExactlyIf(node, at, lowers, below);
      } else {
        var dropped := DropIdleMarks(node, at, lowers);
        DroppedHolds(node, at, lowers, "");
        SameExactlyIfSameNames(dropped, below, node, below);
        forall name
          ensures Alike(dropped, below, node, below, name) <==>
                  (name in node.kids ==> Harmless(node.kids[name], at + [name], lowers, Get(below, name)))
        {
          DroppedHolds(node, at, lowers, name);
          ApplyGet(dropped, below, name);
          ApplyGet(node, below, name);
          if name in node.kids {
            DroppingIsHarmlessExactlyIf(node.kids[name], at + [name], lowers, Get(below, name));
          }
        }
      }
    }
  }

  /** A delta captured over some lowers and mounted over any view of true names shows what its native
      form shows there exactly if no mark that was dropped hid anything of that view. */
  lemma CapturedElsewhereExactlyIf(upper: Node, lowers: seq<Node>, below: View)
    requires Upper(upper) && CleanView(below)
    ensures Capture(upper, Some(lowers)).Dir?
    ensures var delta := Capture(upper, Some(lowers));
            Over(Above(delta), Apply(delta, Over(Below(delta), below))) == Apply(upper, below) <==>
            Harmless(upper, [], lowers, below)
  {
    hide Apply, Above, Below, Store, Harmless, CleanTree, CleanView;
    RootNeverDropped(upper, lowers, below);
    DroppingKeepsNames(upper, [], lowers);
    SandwichShowsUpper(DropIdleMarks(upper, [], lowers), below);
    DroppingIsHarmlessExactlyIf(upper, [], lowers, below);
  }

  /** The lowers a layer was captured over are such views. */
  lemma HarmlessOverItsLowers(node: Node, at: seq<string>, lowers: seq<Node>, below: View)
    requires ShowsOnlyLowers(below, at, lowers)
    ensures Harmless(node, at, lowers, below)
  {
    DroppingShowsTheSame(node, at, lowers, below);
    DroppingIsHarmlessExactlyIf(node, at, lowers, below);
  }

  lemma FindTwoDeep(node: Node, below: View, sealed: bool)
    requires node == Dir(false, map["d" := Dir(sealed, map[])])
    requires below == Tree(map["d" := Tree(map["f" := FileView("")])])
    ensures Find(Apply(node, below), ["d", "f"]) == if sealed then Nothing else FoundFile("")
  {
    hide Apply;
    var inner := Dir(sealed, map[]);
    ApplyGet(node, below, "d");
    ApplyGet(inner, Tree(map["f" := FileView("")]), "f");
    assert Get(below, "d") == Tree(map["f" := FileView("")]);
    assert ["d", "f"][1..] == ["f"] && ["f"][1..] == [];
    assert Find(Apply(node, below), ["d", "f"]) == Find(Get(Apply(node, below), "d"), ["f"]);
  }

  lemma PlainNamesAreClean()
    ensures Clean("d") && Clean("f")
  {
    assert "d"[0] == 'd' && "f"[0] == 'f' && WHITEOUT_PREFIX[0] == '.' && ESCAPE_PREFIX[0] == '.';
  }

  lemma IdleMarkHidesFile(upper: Node, below: View)
    requires upper == Dir(false, map["d" := Dir(true, map[])])
    requires below == Tree(map["d" := Tree(map["f" := FileView("")])])
    ensures !Harmless(upper, [], [], below)
  {
    var inner, shown := upper.kids["d"], Get(below, "d");
    assert "f" in Overlay.Names(shown) && Get(shown, "f") != Absent;
    assert !InAnyLower([], [] + ["d"]);
    assert !Covers(inner, [] + ["d"], [], shown);
  }

  /** The idle-mark shortcut is only as good as its lowers: captured over nothing and mounted over a
      view that has `d/f`, an opaque `d` shows the `f` its native form hides. */
  lemma IdleMarksNeedTheirLowers(upper: Node, below: View)
    requires upper == Dir(false, map["d" := Dir(true, map[])])
    requires below == Tree(map["d" := Tree(map["f" := FileView("")])])
    ensures CleanTree(upper) && !Harmless(upper, [], [], below)
    ensures var delta := Capture(upper, Some([]));
            && delta.Dir?
            && Find(Apply(upper, below), ["d", "f"]) == Nothing
            && Find(Over(Above(delta), Apply(delta, Over(Below(delta), below))), ["d", "f"]) == FoundFile("")
  {
    IdleMarkHidesFile(upper, below);
    hide Above, Below, Store, Apply, Find, Harmless, Clean;
    var kept := DropIdleMarks(upper, [], []);
    assert kept == Dir(false, map["d" := Dir(false, map[])]);
    PlainNamesAreClean();
    assert CleanTree(upper) && CleanView(below);
    DroppingKeepsNames(upper, [], []);
    assert Capture(upper, Some([])) == Store(kept);
    hide *;
    FindTwoDeep(upper, below, true);
    FindTwoDeep(kept, below, false);
    SandwichShowsUpper(kept, below);
  }
}
