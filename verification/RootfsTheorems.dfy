/** What storing a layer and mounting it again preserve. */
module RootfsTheorems {
  import opened Names
  import opened Options
  import opened Overlay
  import opened Rootfs

  /** The view of an optional layer over another view. */
  function Over(layer: Option<Node>, below: View): View {
    if layer.Some? then Apply(layer.value, below) else below
  }

  /** An optional directory layer that says nothing about a name leaves it alone. */
  function EntryOf(layer: Option<Node>, name: string): Option<Node> {
    if layer.Some? && layer.value.Dir? && name in layer.value.kids then Some(layer.value.kids[name]) else None
  }

  lemma OpaqueSeals()
    ensures Classify(OPAQUE_NAME) == Seals && Literal(OPAQUE_NAME) && !Clean(OPAQUE_NAME)
  {
    MarkersAreNotClean("");
    assert OPAQUE_NAME[1] != ESCAPE_PREFIX[1];
  }

  /** How the stored forms of a true name relate. */
  lemma StoredForms(name: string)
    requires Clean(name)
    ensures Classify(WhiteoutMarker(name)) == Hides(name) && Payload(WhiteoutMarker(name)) == name
    ensures Classify(Escape(name)) == Normal(name) && Payload(Escape(name)) == name
    ensures Classify(name) == Normal(name) && Payload(name) == name && !Literal(name)
    ensures !Clean(WhiteoutMarker(name)) && Literal(WhiteoutMarker(name))
    ensures Escape(name) == name || (!Clean(Escape(name)) && Literal(Escape(name)))
    ensures !(ESCAPE_PREFIX <= name)
  {
    ClassifyInvertsEscape(name);
    ClassifyInvertsWhiteoutMarker(name);
    assert WHITEOUT_PREFIX <= ".wh..opq";
    MarkersAreNotClean(name);
  }

  /** Where a stored entry of a captured directory comes from, and where each entry went. */
  lemma StoredKids(upper: Node, name: string)
    requires CleanTree(upper) && upper.Dir?
    ensures Store(upper).Dir? && !Store(upper).sealed
    ensures OPAQUE_NAME in Store(upper).kids <==> upper.sealed
    ensures name in upper.kids ==>
              (var stored := StoredName(name, upper.kids[name]);
               stored in Store(upper).kids && Store(upper).kids[stored] == Store(upper.kids[name]))
    ensures name in Store(upper).kids && name != OPAQUE_NAME ==>
              Payload(name) in upper.kids && name == StoredName(Payload(name), upper.kids[Payload(name)])
  {
    hide Escape, Unescape, Classify, Payload, StoredName, Clean;
    forall one | one in upper.kids
      ensures Payload(StoredName(one, upper.kids[one])) == one && StoredName(one, upper.kids[one]) != OPAQUE_NAME
    {
      PayloadOfStoredName(one, upper.kids[one]);
    }
  }

  /** What a true name is stored as, read off the stored directory. */
  lemma StoredUnder(upper: Node, name: string)
    requires CleanTree(upper) && upper.Dir? && Clean(name)
    ensures var kids := Store(upper).kids;
            && (WhiteoutMarker(name) in kids <==> name in upper.kids && upper.kids[name].Whiteout?)
            && (Escape(name) in kids <==> name in upper.kids && !upper.kids[name].Whiteout?)
            && (Escape(name) in kids ==> kids[Escape(name)] == Store(upper.kids[name]))
            && (name in kids <==> Escape(name) == name && name in upper.kids && !upper.kids[name].Whiteout?)
            && (name in Decoded(kids) <==> name in upper.kids)
  {
    hide Escape, Unescape, Classify, Payload, Clean, Literal, WhiteoutMarker;
    var kids := Store(upper).kids;
    OpaqueSeals();
    StoredForms(name);
    StoredKids(upper, name);
    StoredKids(upper, WhiteoutMarker(name));
    StoredKids(upper, Escape(name));
    if name in Decoded(kids) {
      var stored :| stored in kids && !Classify(stored).Seals? && Payload(stored) == name;
      StoredKids(upper, stored);
    }
    if name in upper.kids {
      assert StoredName(name, upper.kids[name]) in kids;
    }
  }

  lemma DecodedIsClean(upper: Node, name: string)
    requires CleanTree(upper) && upper.Dir?
    ensures name in Decoded(Store(upper).kids) ==> Clean(name)
  {
    hide Escape, Unescape, Classify, Payload, StoredName;
    OpaqueSeals();
    StoredKids(upper, "");
    var kids := Store(upper).kids;
    if name in Decoded(kids) {
      var stored :| stored in kids && !Classify(stored).Seals? && Payload(stored) == name;
      StoredKids(upper, stored);
    }
  }

  lemma ThawHolds(stored: Node, name: string)
    requires stored.Dir?
    ensures EntryOf(Some(Thaw(stored)), name) ==
            if name !in Decoded(stored.kids) then None
            else if WhiteoutMarker(name) in stored.kids then Some(Whiteout)
            else if Escape(name) in stored.kids then Some(Thaw(stored.kids[Escape(name)]))
            else None
  {
    hide Escape, Classify, Payload, WhiteoutMarker, Decoded;
  }

  /** A stored entry thaws to the native entry it was captured from. */
  lemma {:induction false} ThawInvertsStore(node: Node)
    requires CleanTree(node) && !node.Whiteout?
    ensures Thaw(Store(node)) == node
    decreases node
  {
    hide Escape, Classify, Payload, WhiteoutMarker, Decoded, Clean, StoredName;
    if node.Dir? {
      var back := Thaw(Store(node));
      StoredKids(node, "");
      forall name
        ensures EntryOf(Some(back), name) == EntryOf(Some(node), name)
      {
        ThawHolds(Store(node), name);
        DecodedIsClean(node, name);
        if Clean(name) {
          StoredUnder(node, name);
          if name in node.kids && !node.kids[name].Whiteout? {
            ThawInvertsStore(node.kids[name]);
          }
        }
      }
      SameEntriesSameKids(back, node);
    }
  }

  lemma SameEntriesSameKids(a: Node, b: Node)
    requires a.Dir? && b.Dir?
    requires forall name :: EntryOf(Some(a), name) == EntryOf(Some(b), name)
    ensures a.kids == b.kids
  {
    forall name
      ensures name in a.kids <==> name in b.kids
      ensures name in a.kids ==> a.kids[name] == b.kids[name]
    {
      assert EntryOf(Some(a), name) == EntryOf(Some(b), name);
    }
  }

  lemma AboveHolds(delta: Node, name: string)
    requires delta.Dir?
    ensures Above(delta).Some? ==> Above(delta).value.Dir? && !Above(delta).value.sealed
    ensures EntryOf(Above(delta), name) ==
            if name in delta.kids.Keys + Decoded(delta.kids) then AboveEntry(delta, name) else None
  {
    hide AboveEntry, Decoded;
    var names := delta.kids.Keys + Decoded(delta.kids);
    var kids := map one | one in names && AboveEntry(delta, one).Some? :: AboveEntry(delta, one).value;
    assert Above(delta) == if kids == map[] then None else Some(Dir(false, kids));
    assert name in kids ==> kids != map[];
  }

  lemma BelowHolds(delta: Node, name: string)
    requires delta.Dir?
    ensures EntryOf(Below(delta), name) == BelowEntry(delta, name)
    ensures Below(delta).Some? ==> Below(delta).value.Dir? && (Below(delta).value.sealed <==> OPAQUE_NAME in delta.kids)
    ensures OPAQUE_NAME in delta.kids ==> Below(delta).Some?
  {
    hide BelowEntry;
    var kids := map one | one in delta.kids && BelowEntry(delta, one).Some? :: BelowEntry(delta, one).value;
    assert name in kids ==> kids != map[];
    BelowOutside(delta, name);
  }

  lemma BelowOutside(delta: Node, name: string)
    requires delta.Dir?
    ensures name !in delta.kids ==> BelowEntry(delta, name) == None
  {
  }

  /** What the upper sidecar of a captured directory holds under a true name. */
  lemma AboveUnder(upper: Node, name: string)
    requires CleanTree(upper) && upper.Dir? && Clean(name)
    ensures EntryOf(Above(Store(upper)), name) ==
            if name !in upper.kids then None
            else if upper.kids[name].Whiteout? then Some(Whiteout)
            else if Escape(name) != name then Some(upper.kids[name])
            else if upper.kids[name].Dir? then Above(Store(upper.kids[name]))
            else None
  {
    hide Escape, Classify, Payload, WhiteoutMarker, Decoded, Clean, StoredName, Above, Literal;
    var delta := Store(upper);
    StoredKids(upper, "");
    StoredForms(name);
    StoredUnder(upper, name);
    AboveHolds(delta, name);
    if name in upper.kids && !upper.kids[name].Whiteout? {
      ThawInvertsStore(upper.kids[name]);
    }
  }

  /** Every name that is no true name is hidden by the upper sidecar, if the delta has it. */
  lemma AboveHidesMarkers(upper: Node, name: string)
    requires CleanTree(upper) && upper.Dir? && !Clean(name)
    ensures EntryOf(Above(Store(upper)), name) == if name in Store(upper).kids then Some(Whiteout) else None
  {
    hide Escape, Classify, Payload, WhiteoutMarker, Decoded, Clean, Above, Literal;
    var delta := Store(upper);
    StoredKids(upper, name);
    AboveHolds(delta, name);
    DecodedIsClean(upper, name);
    OpaqueSeals();
    if name in delta.kids && name != OPAQUE_NAME {
      StoredForms(Payload(name));
    }
  }

  lemma OverGet(layer: Option<Node>, below: View, name: string)
    requires layer.Some? ==> layer.value.Dir?
    ensures Get(Over(layer, below), name) ==
            (var under := if layer.Some? && layer.value.sealed then Absent else Get(below, name);
             Over(EntryOf(layer, name), under))
  {
    if layer.Some? {
      ApplyGet(layer.value, below, name);
    }
  }

  /** One name of a stored directory between its sidecars. */
  lemma SandwichGet(delta: Node, below: View, name: string)
    requires delta.Dir? && !delta.sealed
    ensures Get(Over(Above(delta), Apply(delta, Over(Below(delta), below))), name) ==
            (var under := if OPAQUE_NAME in delta.kids then Absent else Get(below, name);
             Over(EntryOf(Above(delta), name),
                  Over(EntryOf(Some(delta), name),
                       Over(BelowEntry(delta, name), under))))
  {
    hide Above, Below, BelowEntry, Apply, Get;
    AboveHolds(delta, name);
    BelowHolds(delta, name);
    OverGet(Below(delta), below, name);
    OverGet(Some(delta), Over(Below(delta), below), name);
    OverGet(Above(delta), Apply(delta, Over(Below(delta), below)), name);
  }

  /** The heart of it: a stored delta between its sidecars shows, over any view of true names,
      exactly what the native directory shows over that view. */
  lemma {:induction false} SandwichShowsUpper(upper: Node, below: View)
    requires CleanTree(upper) && upper.Dir? && CleanView(below)
    ensures Store(upper).Dir?
    ensures var delta := Store(upper);
            Over(Above(delta), Apply(delta, Over(Below(delta), below))) == Apply(upper, below)
    decreases upper, 1
  {
    hide Escape, Clean, CleanTree, CleanView, Above, Below, Apply, Store, Get;
    StoredKids(upper, "");
    var delta := Store(upper);
    AboveHolds(delta, "");
    var shown := Over(Above(delta), Apply(delta, Over(Below(delta), below)));
    forall name
      ensures Get(shown, name) == Get(Apply(upper, below), name)
    {
      if Clean(name) {
        SandwichShowsName(upper, below, name);
      } else {
        SandwichHidesMarkers(upper, below, name);
      }
    }
    SameNamesSameView(shown, Apply(upper, below));
  }

  lemma SandwichHidesMarkers(upper: Node, below: View, name: string)
    requires CleanTree(upper) && upper.Dir? && CleanView(below) && !Clean(name)
    ensures Store(upper).Dir?
    ensures var delta := Store(upper);
            Get(Over(Above(delta), Apply(delta, Over(Below(delta), below))), name) == Get(Apply(upper, below), name)
  {
    hide Escape, Classify, Payload, WhiteoutMarker, Decoded, Clean, Above, Literal, Below, StoredName;
    StoredKids(upper, "");
    SandwichGet(Store(upper), below, name);
    ApplyGet(upper, below, name);
    AboveHidesMarkers(upper, name);
  }

  lemma {:induction false} SandwichShowsName(upper: Node, below: View, name: string)
    requires CleanTree(upper) && upper.Dir? && CleanView(below) && Clean(name)
    ensures Store(upper).Dir?
    ensures var delta := Store(upper);
            Get(Over(Above(delta), Apply(delta, Over(Below(delta), below))), name) == Get(Apply(upper, below), name)
    decreases upper, 0
  {
    hide Escape, Classify, Payload, WhiteoutMarker, Decoded, Clean, Above, Literal, Below, StoredName;
    StoredKids(upper, "");
    SandwichGet(Store(upper), below, name);
    ApplyGet(upper, below, name);
    AboveUnder(upper, name);
    StoredUnder(upper, name);
    StoredForms(name);
    if name in upper.kids && Escape(name) == name && upper.kids[name].Dir? {
      SandwichShowsUpper(upper.kids[name], if upper.sealed then Absent else Get(below, name));
    }
  }

  // Opaque marks that hide nothing.

  function At(view: View, path: seq<string>): View
    decreases |path|
  {
    if path == [] then view else At(Get(view, path[0]), path[1..])
  }

  /** Whether a native layer has something to show at a path. */
  predicate Has(node: Node, path: seq<string>)
    decreases |path|
  {
    if path == [] then !node.Whiteout?
    else node.Dir? && path[0] in node.kids && Has(node.kids[path[0]], path[1..])
  }

  lemma {:induction false} NothingAtAbsent(path: seq<string>)
    ensures At(Absent, path) == Absent
  {
    if path != [] {
      NothingAtAbsent(path[1..]);
    }
  }

  /** Whatever a mount shows at a path, its topmost layer has it or the view below shows it. */
  lemma {:induction false} ShownComesFromSomewhere(node: Node, below: View, path: seq<string>)
    ensures At(Apply(node, below), path) != Absent ==> Has(node, path) || At(below, path) != Absent
    decreases |path|
  {
    NothingAtAbsent(path);
    if path != [] {
      NothingAtAbsent(path[1..]);
      if node.Dir? {
        ApplyGet(node, below, path[0]);
        if path[0] in node.kids {
          var under := if node.sealed then Absent else Get(below, path[0]);
          ShownComesFromSomewhere(node.kids[path[0]], under, path[1..]);
        }
      }
    }
  }

  lemma {:induction false} DroppingKeepsEntries(node: Node, at: seq<string>, lowers: seq<Node>, path: seq<string>)
    ensures Has(DropIdleMarks(node, at, lowers), path) <==> Has(node, path)
    decreases |path|
  {
    if path != [] && node.Dir? && path[0] in node.kids {
      DroppingKeepsEntries(node.kids[path[0]], at + [path[0]], lowers, path[1..]);
    }
  }

  /** In the stored form of a native layer, `InLower` finds exactly what the layer has. */
  lemma {:induction false} StoredHasExactlyIf(upper: Node, path: seq<string>)
    requires CleanTree(upper) && CleanPath(path)
    ensures InLower(Store(upper), path) <==> path == [] || Has(upper, path)
    decreases |path|
  {
    hide Escape, WhiteoutMarker, Decoded, Clean, Store;
    if path != [] && upper.Dir? {
      assert Clean(path[0]);
      StoredKids(upper, "");
      StoredUnder(upper, path[0]);
      if path[0] in upper.kids && !upper.kids[path[0]].Whiteout? {
        StoredHasExactlyIf(upper.kids[path[0]], path[1..]);
      }
    } else if path != [] {
      StoredLeaf(upper);
    }
  }

  lemma StoredLeaf(node: Node)
    requires CleanTree(node)
    ensures Store(node).Dir? <==> node.Dir?
    ensures !node.Dir? && !node.Whiteout? ==> Store(node) == node
  {
  }

  predicate CleanPath(path: seq<string>) {
    forall i :: 0 <= i < |path| ==> Clean(path[i])
  }

  /** Whatever a layer was captured over, and at any depth, its delta has a path exactly if the layer has
      something to show there: neither nothing nor a whiteout. */
  lemma InLowerExactlyIf(upper: Node, lowers: Option<seq<Node>>, path: seq<string>)
    requires Upper(upper) && CleanPath(path)
    ensures InLower(Capture(upper, lowers), path) <==> Has(upper, path)
  {
    hide InLower;
    match lowers
    case None =>
      StoredHasExactlyIf(upper, path);
    case Some(layers) =>
      DroppingKeepsNames(upper, [], layers);
      DroppingKeepsEntries(upper, [], layers, path);
      StoredHasExactlyIf(DropIdleMarks(upper, [], layers), path);
  }

  lemma {:induction false} WhatIsThereIsClean(node: Node, path: seq<string>)
    requires CleanTree(node) && Has(node, path)
    ensures CleanPath(path)
    decreases |path|
  {
    hide Clean;
    if path != [] {
      WhatIsThereIsClean(node.kids[path[0]], path[1..]);
      assert forall i :: 0 < i < |path| ==> path[i] == path[1..][i - 1];
    }
  }

  /** Only entries of the lowers show in `below`, a view of the mount at a path. */
  ghost predicate ShowsOnlyLowers(below: View, at: seq<string>, lowers: seq<Node>) {
    forall path :: At(below, path) != Absent ==> InAnyLower(lowers, at + path)
  }

  lemma ShowsOnlyLowersBeneath(below: View, at: seq<string>, lowers: seq<Node>, name: string)
    requires ShowsOnlyLowers(below, at, lowers)
    ensures ShowsOnlyLowers(Get(below, name), at + [name], lowers)
    ensures ShowsOnlyLowers(Absent, at, lowers)
  {
    hide InAnyLower;
    forall path | At(Get(below, name), path) != Absent
      ensures InAnyLower(lowers, at + [name] + path)
    {
      var whole := [name] + path;
      assert whole[1..] == path;
      assert At(below, whole) != Absent;
      assert at + whole == at + [name] + path;
    }
    forall path
      ensures At(Absent, path) == Absent
    {
      NothingAtAbsent(path);
    }
  }

  /** Dropping a mark changes nothing over a view in which only the lowers' own entries show. */
  lemma {:induction false} DroppingShowsTheSame(node: Node, at: seq<string>, lowers: seq<Node>, below: View)
    requires ShowsOnlyLowers(below, at, lowers)
    ensures Apply(DropIdleMarks(node, at, lowers), below) == Apply(node, below)
    decreases node
  {
    hide Apply, InAnyLower, ShowsOnlyLowers, Get;
    if node.Dir? {
      var dropped := DropIdleMarks(node, at, lowers);
      MarkDropped(node, at, lowers, below);
      forall name
        ensures Get(Apply(dropped, below), name) == Get(Apply(node, below), name)
      {
        ApplyGet(dropped, below, name);
        ApplyGet(node, below, name);
        ShowsOnlyLowersBeneath(below, at, lowers, name);
        GetAbsent(name);
        if name in node.kids {
          ShowsOnlyLowersBeneath(Absent, at, lowers, name);
          DroppingShowsTheSame(node.kids[name], at + [name], lowers, if node.sealed then Absent else Get(below, name));
        }
      }
      ApplyIsCanonical(dropped, below);
      ApplyIsCanonical(node, below);
      SameNamesSameView(Apply(dropped, below), Apply(node, below));
    }
  }

  lemma GetAbsent(name: string)
    ensures Get(Absent, name) == Absent
  {
  }

  lemma ApplyIsCanonical(node: Node, below: View)
    ensures node.Dir? ==> Apply(node, below).Tree? && Absent !in Apply(node, below).shown.Values
  {
  }

  lemma MarkDropped(node: Node, at: seq<string>, lowers: seq<Node>, below: View)
    requires ShowsOnlyLowers(below, at, lowers) && node.Dir?
    ensures node.sealed && !DropIdleMarks(node, at, lowers).sealed ==> below == Absent
    ensures DropIdleMarks(node, at, lowers).sealed ==> node.sealed
  {
    assert At(below, []) == below;
    assert at + [] == at;
  }

  // Whole stacks.

  /** One layer of an image: the upper directory a build left, and whether it was captured with its
      lowers at hand. */
  datatype Layer = Layer(upper: Node, overLowers: bool)

  predicate History(layers: seq<Layer>) {
    forall i :: 0 <= i < |layers| ==> Upper(layers[i].upper)
  }

  function Lowers(layers: seq<Layer>, overLowers: bool): Option<seq<Node>>
    requires History(layers)
    decreases |layers|, 1
  {
    if overLowers then Some(Stored(layers)) else None
  }

  /** The deltas on disk after each layer in turn was captured, bottom first. */
  function Stored(layers: seq<Layer>): (deltas: seq<Node>)
    requires History(layers)
    ensures |deltas| == |layers|
    ensures Directories(deltas)
    decreases |layers|, 0
  {
    if layers == [] then []
    else
      var rest, last := layers[..|layers| - 1], layers[|layers| - 1];
      Stored(rest) + [Capture(last.upper, Lowers(rest, last.overLowers))]
  }

  /** The same layers as overlayfs itself would stack them, topmost first. */
  function Native(layers: seq<Layer>): seq<Node> {
    if layers == [] then []
    else [layers[|layers| - 1].upper] + Native(layers[..|layers| - 1])
  }

  lemma MergeSandwich(delta: Node, rest: seq<Node>)
    requires delta.Dir?
    ensures Merge(Sandwich(delta) + rest) == Over(Above(delta), Apply(delta, Over(Below(delta), Merge(rest))))
  {
    hide Apply, Above, Below;
    var tail := Listed(Below(delta)) + rest;
    assert Merge(tail) == Over(Below(delta), Merge(rest)) by {
      if Below(delta).Some? {
        assert tail[0] == Below(delta).value && tail[1..] == rest;
      } else {
        assert tail == rest;
      }
    }
    var middle := [delta] + tail;
    assert middle[1..] == tail;
    if Above(delta).Some? {
      assert (Sandwich(delta) + rest)[0] == Above(delta).value;
      assert (Sandwich(delta) + rest)[1..] == middle;
    } else {
      assert Sandwich(delta) + rest == middle;
    }
  }

  lemma {:induction false} CleanOverClean(node: Node, below: View)
    requires CleanTree(node) && CleanView(below)
    ensures CleanView(Apply(node, below))
    decreases node
  {
    if node.Dir? {
      forall name | name in Apply(node, below).shown
        ensures Clean(name) && CleanView(Apply(node, below).shown[name])
      {
        ApplyGet(node, below, name);
        if name in node.kids {
          CleanOverClean(node.kids[name], if node.sealed then Absent else Get(below, name));
        }
      }
    }
  }

  lemma ReconstructOnTop(deltas: seq<Node>, delta: Node)
    requires Directories(deltas) && delta.Dir?
    ensures Reconstruct(deltas + [delta]) == Sandwich(delta) + Reconstruct(deltas)
  {
    assert (deltas + [delta])[..|deltas|] == deltas;
  }

  /** Every path a stack of captured layers shows, one of the stored layers has. */
  lemma {:induction false} ShownIsStored(layers: seq<Layer>, path: seq<string>)
    requires History(layers)
    requires path != []
    requires At(Merge(Native(layers)), path) != Absent
    ensures InAnyLower(Stored(layers), path)
    decreases |layers|
  {
    hide Capture, Apply, InLower;
    if layers == [] {
      NothingAtAbsent(path[1..]);
    } else {
      var rest, last := layers[..|layers| - 1], layers[|layers| - 1];
      assert Native(layers)[1..] == Native(rest);
      ShownComesFromSomewhere(last.upper, Merge(Native(rest)), path);
      if Has(last.upper, path) {
        WhatIsThereIsClean(last.upper, path);
        InLowerExactlyIf(last.upper, Lowers(rest, last.overLowers), path);
        assert InLower(Stored(layers)[|layers| - 1], path);
      } else {
        ShownIsStored(rest, path);
        var i :| 0 <= i < |rest| && InLower(Stored(rest)[i], path);
        assert Stored(layers)[i] == Stored(rest)[i];
      }
    }
  }

  /** A captured layer mounted over the stored layers it was captured over shows what its native
      upper directory shows there. */
  lemma CaptureShowsUpper(layers: seq<Layer>, upper: Node, overLowers: bool)
    requires History(layers) && Upper(upper)
    requires CleanView(Merge(Native(layers)))
    ensures var delta := Capture(upper, Lowers(layers, overLowers));
            Over(Above(delta), Apply(delta, Over(Below(delta), Merge(Native(layers))))) ==
            Apply(upper, Merge(Native(layers)))
  {
    hide Apply, Above, Below, Store;
    var below := Merge(Native(layers));
    if overLowers {
      var lowers := Stored(layers);
      var kept := DropIdleMarks(upper, [], lowers);
      DroppingKeepsNames(upper, [], lowers);
      SandwichShowsUpper(kept, below);
      RootNeverDropped(upper, lowers, below);
      forall name
        ensures Get(Apply(kept, below), name) == Get(Apply(upper, below), name)
      {
        ApplyGet(kept, below, name);
        ApplyGet(upper, below, name);
        if name in upper.kids {
          forall path | At(Get(below, name), path) != Absent
            ensures InAnyLower(lowers, [] + [name] + path)
          {
            var whole := [name] + path;
            assert whole[1..] == path;
            ShownIsStored(layers, whole);
            assert [] + [name] + path == whole;
          }
          assert ShowsOnlyLowers(Get(below, name), [] + [name], lowers);
          DroppingShowsTheSame(upper.kids[name], [] + [name], lowers, Get(below, name));
        }
      }
      SameNamesSameView(Apply(kept, below), Apply(upper, below));
    } else {
      SandwichShowsUpper(upper, below);
    }
  }

  lemma RootNeverDropped(upper: Node, lowers: seq<Node>, below: View)
    requires Upper(upper)
    ensures var kept := DropIdleMarks(upper, [], lowers);
            && kept.Dir? && !kept.sealed && kept.kids.Keys == upper.kids.Keys
            && forall name :: name in upper.kids ==>
                 kept.kids[name] == DropIdleMarks(upper.kids[name], [] + [name], lowers)
    ensures Apply(upper, below).Tree? && Absent !in Apply(upper, below).shown.Values
    ensures Apply(DropIdleMarks(upper, [], lowers), below).Tree?
    ensures Absent !in Apply(DropIdleMarks(upper, [], lowers), below).shown.Values
  {
  }

  /** The whole image: mounting the stored form of every layer shows exactly what overlayfs shows
      for the native layers, and only true names. */
  lemma {:induction false} StoredLayersShowNativeLayers(layers: seq<Layer>)
    requires History(layers)
    ensures Merge(Reconstruct(Stored(layers))) == Merge(Native(layers))
    ensures CleanView(Merge(Native(layers)))
    decreases |layers|
  {
    hide Apply, Capture, Above, Below, Sandwich;
    if layers != [] {
      var rest, last := layers[..|layers| - 1], layers[|layers| - 1];
      StoredLayersShowNativeLayers(rest);
      var delta := Capture(last.upper, Lowers(rest, last.overLowers));
      assert delta == Stored(layers)[|layers| - 1];
      ReconstructOnTop(Stored(rest), delta);
      MergeSandwich(delta, Reconstruct(Stored(rest)));
      CaptureShowsUpper(rest, last.upper, last.overLowers);
      assert Native(layers)[1..] == Native(rest);
      CleanOverClean(last.upper, Merge(Native(rest)));
    } else {
      assert Merge([]) == Tree(map[]);
    }
  }

  predicate Roots(stack: seq<Node>) {
    forall i :: 0 <= i < |stack| ==> stack[i].Dir? && !stack[i].sealed
  }

  lemma SandwichedRoots(kept: Node)
    requires CleanTree(kept) && kept.Dir? && !kept.sealed
    ensures Store(kept).Dir? && Roots(Sandwich(Store(kept)))
  {
    hide Store, Above, Below, CleanTree, EntryOf, AboveEntry, BelowEntry, Decoded;
    StoredKids(kept, "");
    AboveHolds(Store(kept), "");
    BelowHolds(Store(kept), "");
  }

  lemma CapturedRoot(upper: Node, lowers: Option<seq<Node>>)
    requires Upper(upper)
    ensures Capture(upper, lowers).Dir? && Roots(Sandwich(Capture(upper, lowers)))
  {
    hide Store, Sandwich, Roots, DropIdleMarks;
    if lowers.Some? {
      DroppingKeepsNames(upper, [], lowers.value);
      RootNeverDropped(upper, lowers.value, Absent);
      SandwichedRoots(DropIdleMarks(upper, [], lowers.value));
    } else {
      SandwichedRoots(upper);
    }
  }

  /** No root in a reconstructed lowerdir list is opaque, so overlayfs merges every one of them. */
  lemma {:induction false} ReconstructedRoots(layers: seq<Layer>)
    requires History(layers)
    ensures Roots(Reconstruct(Stored(layers)))
    decreases |layers|
  {
    hide Capture, Sandwich;
    if layers != [] {
      var rest, last := layers[..|layers| - 1], layers[|layers| - 1];
      ReconstructedRoots(rest);
      var delta := Capture(last.upper, Lowers(rest, last.overLowers));
      CapturedRoot(last.upper, Lowers(rest, last.overLowers));
      assert delta == Stored(layers)[|layers| - 1];
      ReconstructOnTop(Stored(rest), delta);
    }
  }

  lemma {:induction false} FoundNamesAreClean(view: View, path: seq<string>)
    requires CleanView(view) && Find(view, path) != Nothing
    ensures forall i :: 0 <= i < |path| ==> Clean(path[i])
    decreases |path|
  {
    hide Clean;
    if path != [] {
      if Get(view, path[0]) == Absent {
        NothingInAbsent(path[1..]);
      } else {
        FoundNamesAreClean(Get(view, path[0]), path[1..]);
        assert forall i :: 0 < i < |path| ==> path[i] == path[1..][i - 1];
      }
    }
  }

  lemma NativeOnTop(layers: seq<Layer>, layer: Layer)
    ensures Native(layers + [layer]) == [layer.upper] + Native(layers)
  {
    assert (layers + [layer])[..|layers|] == layers;
  }

  /** Capturing an upper directory changes nothing a mount shows: at every path, the lowers with the
      captured delta on top resolve to what the lowers with the native upper on top resolved to, and
      what they resolve to never lies under a marker name. */
  lemma CapturePreservesLookups(layers: seq<Layer>, upper: Node, overLowers: bool, path: seq<string>)
    requires History(layers) && Upper(upper)
    ensures var lowers := Stored(layers);
            var delta := Capture(upper, Lowers(layers, overLowers));
            && Mergeable([upper] + Reconstruct(lowers))
            && Directories(lowers + [delta]) && Mergeable(Reconstruct(lowers + [delta]))
            && Lookup([upper] + Reconstruct(lowers), path) == Lookup(Reconstruct(lowers + [delta]), path)
            && (Lookup(Reconstruct(lowers + [delta]), path) != Nothing ==>
                  forall i :: 0 <= i < |path| ==> Clean(path[i]))
  {
    hide Capture, Lookup, Reconstruct, Apply, Clean, CleanView;
    var lowers := Stored(layers);
    var layer := Layer(upper, overLowers);
    var after := layers + [layer];
    assert after[..|layers|] == layers;
    assert Stored(after) == lowers + [Capture(upper, Lowers(layers, overLowers))];
    ReconstructedRoots(layers);
    ReconstructedRoots(after);
    StoredLayersShowNativeLayers(layers);
    StoredLayersShowNativeLayers(after);
    NativeOnTop(layers, layer);
    var before := [upper] + Reconstruct(lowers);
    assert before[1..] == Reconstruct(lowers);
    var native := Native(after);
    assert native[1..] == Native(layers);
    LookupIsFindInMerge(before, path);
    LookupIsFindInMerge(Reconstruct(Stored(after)), path);
    if Find(Merge(native), path) != Nothing {
      FoundNamesAreClean(Merge(native), path);
    }
  }

  lemma AboveNotEmpty(delta: Node)
    requires delta.Dir?
    ensures Above(delta).Some? ==>
              Above(delta).value.Dir? && !Above(delta).value.sealed && Above(delta).value.kids != map[]
    ensures Below(delta).Some? ==>
              Below(delta).value.Dir? && (Below(delta).value.sealed || Below(delta).value.kids != map[])
  {
    hide AboveEntry, BelowEntry, Decoded;
  }
}
