/** The loops that store a layer and lay out its sidecars, one filesystem entry at a time.

    Trees are values here; each step is one system call's effect on them. The listings a loop walks
    are parameters, because the order a directory is read in is the filesystem's. */
module RootfsSteps {
  import opened Names
  import opened Options
  import opened Overlay
  import opened Rootfs
  import opened RootfsTheorems

  type Path = seq<string>

  predicate IsEntry(node: Node, path: Path)
    decreases |path|
  {
    path == [] || (node.Dir? && path[0] in node.kids && IsEntry(node.kids[path[0]], path[1..]))
  }

  function Entry(node: Node, path: Path): Node
    requires IsEntry(node, path)
    decreases |path|
  {
    if path == [] then node else Entry(node.kids[path[0]], path[1..])
  }

  /** What `rglob("*")` yields: every path below the root, once. */
  ghost predicate Lists(listing: seq<Path>, node: Node) {
    && (forall path :: path in listing <==> path != [] && IsEntry(node, path))
    && (forall i, j :: 0 <= i < j < |listing| ==> listing[i] != listing[j])
  }

  function Parent(path: Path): Path
    requires path != []
  {
    path[..|path| - 1]
  }

  function Last(path: Path): string
    requires path != []
  {
    path[|path| - 1]
  }

  // Thawing.

  /** The children of a directory outside `todo` have been thawed, and no other. */
  ghost predicate Thawed(native: Node, todo: set<string>, sealed: bool, kids: map<string, Node>)
    requires native.Dir?
  {
    && (sealed <==> native.sealed && OPAQUE_NAME !in todo)
    && (forall name :: name in kids <==> name in native.kids && StoredName(name, native.kids[name]) !in todo)
    && (forall name :: name in kids ==> kids[name] == native.kids[name])
  }

  lemma ThawNothing(native: Node)
    requires CleanTree(native) && native.Dir?
    ensures Thawed(native, Store(native).kids.Keys, false, map[])
  {
    hide Escape, Classify, Clean, WhiteoutMarker, Store, StoredName;
    StoredKids(native, "");
    forall name | name in native.kids
      ensures StoredName(name, native.kids[name]) in Store(native).kids
    {
      StoredKids(native, name);
    }
  }

  lemma ThawOne(native: Node, todo: set<string>, sealed: bool, kids: map<string, Node>, child: string)
    requires CleanTree(native) && native.Dir? && child in Store(native).kids
    requires Thawed(native, todo, sealed, kids) && child in todo
    ensures Classify(child).Seals? ==> Thawed(native, todo - {child}, true, kids)
    ensures !Classify(child).Seals? ==>
              Payload(child) in native.kids
              && Thawed(native, todo - {child}, sealed, kids[Payload(child) := native.kids[Payload(child)]])
  {
    hide Escape, Classify, Clean, WhiteoutMarker, Store, StoredName, Payload;
    StoredChild(native, child);
  }

  /** An escaped entry, copied under its true name with its markers decoded. */
  method ThawEntry(src: Node, ghost native: Node) returns (dst: Node)
    requires CleanTree(native) && !native.Whiteout? && src == Store(native)
    ensures dst == Thaw(src)
    decreases native
  {
    hide Escape, Classify, Clean, Thaw, StoredName, Payload, WhiteoutMarker, Thawed;
    ThawInvertsStore(native);
    if !src.Dir? {
      return src;
    }
    var sealed, kids := false, map[];
    var todo := src.kids.Keys;
    ThawNothing(native);
    while todo != {}
      invariant todo <= src.kids.Keys
      invariant Thawed(native, todo, sealed, kids)
      decreases |todo|
    {
      var child :| child in todo;
      ThawOne(native, todo, sealed, kids, child);
      StoredChild(native, child);
      match Classify(child) {
        case Seals =>
          sealed := true;
        case Hides(name) =>
          kids := kids[name := Whiteout];
        case Normal(name) =>
          ThawInvertsStore(native.kids[name]);
          var thawed := ThawEntry(src.kids[child], native.kids[name]);
          kids := kids[name := thawed];
      }
      todo := todo - {child};
    }
    ThawedAll(native, sealed, kids);
    dst := Dir(sealed, kids);
  }

  lemma ThawedAll(native: Node, sealed: bool, kids: map<string, Node>)
    requires native.Dir? && Thawed(native, {}, sealed, kids)
    ensures Dir(sealed, kids) == native
  {
    assert kids == native.kids;
  }

  /** What a stored child decodes to, and that no other entry is stored under its name. */
  lemma StoredChild(native: Node, child: string)
    requires CleanTree(native) && native.Dir? && child in Store(native).kids
    ensures Classify(child).Seals? ==> child == OPAQUE_NAME && native.sealed
    ensures !Classify(child).Seals? ==>
              Classify(child).name == Payload(child) && Payload(child) in native.kids
    ensures Classify(child).Hides? ==>
              native.kids[Payload(child)].Whiteout? && child == WhiteoutMarker(Payload(child))
    ensures Classify(child).Normal? ==>
              !native.kids[Payload(child)].Whiteout? && child == Escape(Payload(child))
              && Store(native).kids[child] == Store(native.kids[Payload(child)])
    ensures !Classify(child).Seals? ==>
              child != OPAQUE_NAME && Payload(child) in native.kids
              && child == StoredName(Payload(child), native.kids[Payload(child)])
    ensures forall name :: name in native.kids && StoredName(name, native.kids[name]) == child ==>
              !Classify(child).Seals? && name == Payload(child)
  {
    OpaqueSeals();
    StoredKids(native, child);
    if child != OPAQUE_NAME {
      PayloadOfStoredName(Payload(child), native.kids[Payload(child)]);
      StoredKids(native, Payload(child));
    }
    forall name | name in native.kids && StoredName(name, native.kids[name]) == child
      ensures !Classify(child).Seals? && name == Payload(child)
    {
      PayloadOfStoredName(name, native.kids[name]);
    }
  }

  // Sidecars.

  /** Whether entries of these names can be created in the directory `rel` of a layer being laid
      out: every existing step is a directory, and none of the names is taken. */
  predicate Room(layer: Option<Node>, rel: Path, names: set<string>)
    decreases |rel|
  {
    && (layer.Some? ==> layer.value.Dir?)
    && if rel == [] then forall name :: name in names ==> EntryOf(layer, name) == None
       else Room(EntryOf(layer, rel[0]), rel[1..], names)
  }

  /** Create entries in the directory `rel` of a layer, making the directories that lead there. */
  function Put(layer: Option<Node>, rel: Path, entries: map<string, Node>): (laid: Node)
    requires Room(layer, rel, entries.Keys)
    ensures laid.Dir? && (laid.sealed <==> layer.Some? && layer.value.sealed)
    decreases |rel|
  {
    var sealed := layer.Some? && layer.value.sealed;
    var kids := if layer.Some? then layer.value.kids else map[];
    if rel == [] then Dir(sealed, kids + entries)
    else Dir(sealed, kids[rel[0] := Put(EntryOf(layer, rel[0]), rel[1..], entries)])
  }

  /** Make the directory `rel` of a layer, and mark it opaque. */
  function Seal(layer: Option<Node>, rel: Path): (laid: Node)
    requires Room(layer, rel, {})
    ensures laid.Dir?
    decreases |rel|
  {
    var sealed := layer.Some? && layer.value.sealed;
    var kids := if layer.Some? then layer.value.kids else map[];
    if rel == [] then Dir(true, kids)
    else Dir(sealed, kids[rel[0] := Seal(EntryOf(layer, rel[0]), rel[1..])])
  }

  /** The upper sidecar once the entries of `done` have been looked at. */
  function AboveSoFarEntry(upper: Node, name: string, at: Path, done: set<Path>): Option<Node>
    requires CleanTree(upper) && upper.Dir?
    decreases upper, 0
  {
    if !Clean(name) then
      if name in Store(upper).kids && at + [name] in done then Some(Whiteout) else None
    else if name !in upper.kids then None
    else if StoredName(name, upper.kids[name]) != name then
      if at + [StoredName(name, upper.kids[name])] in done then Some(upper.kids[name]) else None
    else if upper.kids[name].Dir? then AboveSoFar(upper.kids[name], at + [name], done)
    else None
  }

  function AboveSoFar(upper: Node, at: Path, done: set<Path>): Option<Node>
    requires CleanTree(upper) && upper.Dir?
    decreases upper, 1
  {
    var kids := map name | name in upper.kids.Keys + Store(upper).kids.Keys && AboveSoFarEntry(upper, name, at, done).Some?
                  :: AboveSoFarEntry(upper, name, at, done).value;
    if kids == map[] then None else Some(Dir(false, kids))
  }

  lemma AboveSoFarHolds(upper: Node, at: Path, done: set<Path>, name: string)
    requires CleanTree(upper) && upper.Dir?
    ensures EntryOf(AboveSoFar(upper, at, done), name) == AboveSoFarEntry(upper, name, at, done)
    ensures AboveSoFar(upper, at, done).Some? ==>
              (var layer := AboveSoFar(upper, at, done).value;
               layer.Dir? && !layer.sealed && layer.kids != map[])
  {
    AboveSoFarOutside(upper, at, done, name);
    hide AboveSoFarEntry, Clean, Store;
    var names := upper.kids.Keys + Store(upper).kids.Keys;
    var kids := map one | one in names && AboveSoFarEntry(upper, one, at, done).Some?
                  :: AboveSoFarEntry(upper, one, at, done).value;
    assert AboveSoFar(upper, at, done) == if kids == map[] then None else Some(Dir(false, kids));
    assert name in kids ==> kids != map[];
  }

  lemma AboveSoFarOutside(upper: Node, at: Path, done: set<Path>, name: string)
    requires CleanTree(upper) && upper.Dir?
    ensures name !in upper.kids.Keys + Store(upper).kids.Keys ==> AboveSoFarEntry(upper, name, at, done) == None
  {
    hide Clean, Store, StoredName;
  }

  /** Two layers that are either missing or non-empty plain directories are the same when they hold
      the same under every name. */
  lemma SameEntriesSameLayer(a: Option<Node>, b: Option<Node>)
    requires a.Some? ==> a.value.Dir? && (a.value.sealed || a.value.kids != map[])
    requires b.Some? ==> b.value.Dir? && (b.value.sealed || b.value.kids != map[])
    requires (a.Some? && a.value.sealed) <==> (b.Some? && b.value.sealed)
    requires forall name :: EntryOf(a, name) == EntryOf(b, name)
    ensures a == b
  {
    if a.Some? && a.value.kids != map[] {
      var name :| name in a.value.kids;
      assert EntryOf(b, name) == EntryOf(a, name) != None;
    }
    if b.Some? && b.value.kids != map[] {
      var name :| name in b.value.kids;
      assert EntryOf(a, name) == EntryOf(b, name) != None;
    }
    if a.Some? && b.Some? {
      SameEntriesSameKids(a.value, b.value);
    }
  }

  /** Looking at an entry elsewhere does not concern a directory. */
  lemma {:induction false} AboveElsewhere(upper: Node, at: Path, done: set<Path>, more: Path)
    requires CleanTree(upper) && upper.Dir?
    requires !(at < more)
    ensures AboveSoFar(upper, at, done + {more}) == AboveSoFar(upper, at, done)
    decreases upper
  {
    hide Clean, Store, StoredName, AboveSoFar;
    forall name
      ensures EntryOf(AboveSoFar(upper, at, done + {more}), name) == EntryOf(AboveSoFar(upper, at, done), name)
    {
      AboveSoFarHolds(upper, at, done, name);
      AboveSoFarHolds(upper, at, done + {more}, name);
      assert at < at + [name];
      if name in upper.kids {
        assert at < at + [StoredName(name, upper.kids[name])];
        if upper.kids[name].Dir? {
          AboveElsewhere(upper.kids[name], at + [name], done, more);
        }
      }
    }
    AboveSoFarHolds(upper, at, done, "");
    AboveSoFarHolds(upper, at, done + {more}, "");
    SameEntriesSameLayer(AboveSoFar(upper, at, done + {more}), AboveSoFar(upper, at, done));
  }

  /** What looking at one stored entry adds to the directory of the upper sidecar beside it. */
  function Additions(upper: Node, stored: string): map<string, Node>
    requires CleanTree(upper) && upper.Dir? && stored in Store(upper).kids
  {
    StoredChild(upper, stored);
    if !Literal(stored) then map[]
    else if Classify(stored).Seals? then map[stored := Whiteout]
    else map[Payload(stored) := upper.kids[Payload(stored)], stored := Whiteout]
  }

  /** One name of a directory, when a stored entry of that directory is looked at. */
  lemma AboveAfterEntry(upper: Node, at: Path, done: set<Path>, stored: string, name: string)
    requires CleanTree(upper) && upper.Dir? && stored in Store(upper).kids
    requires Literal(stored) && at + [stored] !in done
    ensures var added := Additions(upper, stored);
            name in added ==> AboveSoFarEntry(upper, name, at, done) == None
                              && AboveSoFarEntry(upper, name, at, done + {at + [stored]}) == Some(added[name])
    ensures name !in Additions(upper, stored) ==>
              AboveSoFarEntry(upper, name, at, done + {at + [stored]}) == AboveSoFarEntry(upper, name, at, done)
  {
    hide Clean, Store, Classify, Escape, Payload, WhiteoutMarker, Literal, AboveSoFar;
    var more := at + [stored];
    StoredChild(upper, stored);
    OpaqueSeals();
    if !Classify(stored).Seals? {
      StoredForms(Payload(stored));
    }
    if name in upper.kids {
      StoredForms(name);
      PayloadOfStoredName(name, upper.kids[name]);
      var own := StoredName(name, upper.kids[name]);
      assert at + [own] == more ==> own == stored by {
        assert (at + [own])[|at|] == own && more[|at|] == stored;
      }
      if upper.kids[name].Dir? {
        AboveElsewhere(upper.kids[name], at + [name], done, more);
      }
    }
    assert at + [name] == more ==> name == stored by {
      assert (at + [name])[|at|] == name && more[|at|] == stored;
    }
  }

  predicate InsideEscaped(rel: Path) {
    exists i :: 0 <= i < |rel| && ESCAPE_PREFIX <= rel[i]
  }

  lemma InsideEscapedSteps(rel: Path)
    requires rel != []
    ensures InsideEscaped(rel) <==> ESCAPE_PREFIX <= rel[0] || InsideEscaped(rel[1..])
  {
    if InsideEscaped(rel) {
      var i :| 0 <= i < |rel| && ESCAPE_PREFIX <= rel[i];
      assert i > 0 ==> rel[1..][i - 1] == rel[i];
    }
    if InsideEscaped(rel[1..]) {
      var i :| 0 <= i < |rel[1..]| && ESCAPE_PREFIX <= rel[1..][i];
      assert rel[i + 1] == rel[1..][i];
    }
  }

  /** A stored directory outside escaped ones lies where the native directory did. */
  lemma StoredDirectory(upper: Node, name: string)
    requires CleanTree(upper) && upper.Dir?
    requires name in Store(upper).kids && Store(upper).kids[name].Dir? && !(ESCAPE_PREFIX <= name)
    ensures Clean(name) && name in upper.kids && upper.kids[name].Dir? && Escape(name) == name
    ensures Store(upper).kids[name] == Store(upper.kids[name])
  {
    hide Escape, Classify, Payload;
    StoredChild(upper, name);
    OpaqueSeals();
    StoredKids(upper, name);
    if !Classify(name).Seals? {
      UnescapeInvertsEscape(Payload(name));
      StoredForms(Payload(name));
      StoredKids(upper, Payload(name));
    }
  }

  lemma {:induction false} NativeDirectory(upper: Node, rel: Path, stored: string)
    requires CleanTree(upper) && upper.Dir? && IsEntry(Store(upper), rel + [stored]) && !InsideEscaped(rel)
    ensures IsEntry(upper, rel) && Entry(upper, rel).Dir? && CleanTree(Entry(upper, rel))
    ensures stored in Store(Entry(upper, rel)).kids
    ensures Entry(Store(upper), rel + [stored]) == Store(Entry(upper, rel)).kids[stored]
    decreases |rel|
  {
    hide Escape, Classify, Payload, Store, Clean;
    var path := rel + [stored];
    if rel == [] {
      assert path[1..] == [];
    } else {
      InsideEscapedSteps(rel);
      assert path[1..] == rel[1..] + [stored];
      StoredDirectory(upper, rel[0]);
      NativeDirectory(upper.kids[rel[0]], rel[1..], stored);
    }
  }

  lemma PutHolds(layer: Option<Node>, rel: Path, entries: map<string, Node>, name: string)
    requires Room(layer, rel, entries.Keys)
    ensures EntryOf(Some(Put(layer, rel, entries)), name) ==
            if rel == [] then (if name in entries then Some(entries[name]) else EntryOf(layer, name))
            else if name == rel[0] then Some(Put(EntryOf(layer, rel[0]), rel[1..], entries))
            else EntryOf(layer, name)
    ensures rel != [] || entries != map[] ==> Put(layer, rel, entries).kids != map[]
  {
    if rel != [] {
      assert rel[0] in Put(layer, rel, entries).kids;
    } else if entries != map[] {
      var one :| one in entries;
      assert one in Put(layer, rel, entries).kids;
    }
  }

  /** Looking at an entry that is no marker, or lies inside an escaped directory, adds nothing. */
  lemma {:induction false} AboveUnchanged(upper: Node, at: Path, done: set<Path>, rel: Path, stored: string)
    requires CleanTree(upper) && upper.Dir? && IsEntry(Store(upper), rel + [stored])
    requires InsideEscaped(rel) || !Literal(stored)
    ensures AboveSoFar(upper, at, done + {at + rel + [stored]}) == AboveSoFar(upper, at, done)
    decreases |rel|
  {
    hide Clean, Store, Escape, Classify, Payload, WhiteoutMarker, Literal, AboveSoFar, InsideEscaped;
    var more := at + rel + [stored];
    if rel == [] {
      NoneInsideNothing();
    } else {
      InsideEscapedSteps(rel);
    }
    forall name
      ensures EntryOf(AboveSoFar(upper, at, done + {more}), name) == EntryOf(AboveSoFar(upper, at, done), name)
    {
      AboveSoFarHolds(upper, at, done, name);
      AboveSoFarHolds(upper, at, done + {more}, name);
      OpaqueSeals();
      if rel == [] && name in Store(upper).kids && !Clean(name) {
        LiteralWhenUnclean(upper, name);
        assert more[|at|] == stored;
        assert (at + [name])[|at|] == name;
      }
      if name in upper.kids {
        StoredForms(name);
        var own := StoredName(name, upper.kids[name]);
        assert (at + [own])[|at|] == own;
        assert rel == [] ==> more[|at|] == stored;
        if upper.kids[name].Dir? {
          if rel != [] && name == rel[0] && !(ESCAPE_PREFIX <= name) {
            assert (rel + [stored])[1..] == rel[1..] + [stored];
            StoredDirectory(upper, name);
            assert at + [name] + rel[1..] + [stored] == more;
            AboveUnchanged(upper.kids[name], at + [name], done, rel[1..], stored);
          } else {
            assert more[|at|] == if rel == [] then stored else rel[0];
            assert (at + [name])[|at|] == name;
            AboveElsewhere(upper.kids[name], at + [name], done, more);
          }
        }
      }
    }
    AboveSoFarHolds(upper, at, done, "");
    AboveSoFarHolds(upper, at, done + {more}, "");
    SameEntriesSameLayer(AboveSoFar(upper, at, done + {more}), AboveSoFar(upper, at, done));
  }

  lemma NoneInsideNothing()
    ensures !InsideEscaped([])
  {
  }

  lemma LiteralWhenUnclean(upper: Node, name: string)
    requires CleanTree(upper) && upper.Dir? && name in Store(upper).kids && !Clean(name)
    ensures Literal(name)
  {
    hide Escape, Classify, Payload, Literal;
    OpaqueSeals();
    StoredChild(upper, name);
    if !Classify(name).Seals? {
      StoredForms(Payload(name));
    }
  }

  /** Looking at a marker or an escaped entry adds exactly its `Additions` beside it. */
  lemma {:induction false} AboveAfter(upper: Node, at: Path, done: set<Path>, rel: Path, stored: string)
    requires CleanTree(upper) && upper.Dir? && IsEntry(Store(upper), rel + [stored])
    requires !InsideEscaped(rel) && Literal(stored) && at + rel + [stored] !in done
    ensures IsEntry(upper, rel) && Entry(upper, rel).Dir? && CleanTree(Entry(upper, rel))
    ensures stored in Store(Entry(upper, rel)).kids
    ensures var added := Additions(Entry(upper, rel), stored);
            && Room(AboveSoFar(upper, at, done), rel, added.Keys)
            && AboveSoFar(upper, at, done + {at + rel + [stored]}) == Some(Put(AboveSoFar(upper, at, done), rel, added))
    decreases |rel|
  {
    hide Clean, Store, Escape, Classify, Payload, WhiteoutMarker, Literal, AboveSoFar, InsideEscaped, Additions, Put;
    NativeDirectory(upper, rel, stored);
    var more := at + rel + [stored];
    var added := Additions(Entry(upper, rel), stored);
    var before, after := AboveSoFar(upper, at, done), AboveSoFar(upper, at, done + {more});
    AboveSoFarHolds(upper, at, done, "");
    AboveSoFarHolds(upper, at, done + {more}, "");
    AdditionsNotEmpty(Entry(upper, rel), stored);
    if rel == [] {
      assert (rel + [stored])[1..] == [];
      assert more == at + [stored];
      forall name
        ensures name in added ==> EntryOf(before, name) == None && EntryOf(after, name) == Some(added[name])
        ensures name !in added ==> EntryOf(after, name) == EntryOf(before, name)
      {
        AboveSoFarHolds(upper, at, done, name);
        AboveSoFarHolds(upper, at, done + {more}, name);
        AboveAfterEntry(upper, at, done, stored, name);
      }
    } else {
      InsideEscapedSteps(rel);
      var r := rel[0];
      assert (rel + [stored])[1..] == rel[1..] + [stored];
      assert at + [r] + rel[1..] + [stored] == more;
      StoredDirectory(upper, r);
      AboveAfter(upper.kids[r], at + [r], done, rel[1..], stored);
      AboveSoFarHolds(upper, at, done, r);
      AboveSoFarHolds(upper, at, done + {more}, r);
      forall name | name != r
        ensures EntryOf(after, name) == EntryOf(before, name)
      {
        AboveSoFarHolds(upper, at, done, name);
        AboveSoFarHolds(upper, at, done + {more}, name);
        if name in upper.kids && upper.kids[name].Dir? {
          assert more[|at|] == r && (at + [name])[|at|] == name;
          AboveElsewhere(upper.kids[name], at + [name], done, more);
        }
      }
    }
    forall name
      ensures EntryOf(after, name) == EntryOf(Some(Put(before, rel, added)), name)
    {
      PutHolds(before, rel, added, name);
    }
    PutHolds(before, rel, added, "");
    SameEntriesSameLayer(after, Some(Put(before, rel, added)));
  }

  lemma AdditionsNotEmpty(upper: Node, stored: string)
    requires CleanTree(upper) && upper.Dir? && stored in Store(upper).kids && Literal(stored)
    ensures stored in Additions(upper, stored)
  {
    hide Store, Classify, Literal;
  }

  lemma {:induction false} AboveOfNothing(upper: Node, at: Path)
    requires CleanTree(upper) && upper.Dir?
    ensures AboveSoFar(upper, at, {}) == None
    decreases upper
  {
    hide Clean, Store, StoredName, AboveSoFar;
    forall name
      ensures EntryOf(AboveSoFar(upper, at, {}), name) == None
    {
      AboveSoFarHolds(upper, at, {}, name);
      if name in upper.kids && upper.kids[name].Dir? {
        AboveOfNothing(upper.kids[name], at + [name]);
      }
    }
    AboveSoFarHolds(upper, at, {}, "");
    SameEntriesSameLayer(AboveSoFar(upper, at, {}), None);
  }

  /** Every entry of a stored directory has been looked at. */
  ghost predicate AllDone(upper: Node, at: Path, done: set<Path>)
    requires CleanTree(upper)
  {
    forall path :: path != [] && IsEntry(Store(upper), path) ==> at + path in done
  }

  lemma AllDoneBeneath(upper: Node, at: Path, done: set<Path>, name: string)
    requires CleanTree(upper) && upper.Dir? && AllDone(upper, at, done)
    ensures name in Store(upper).kids ==> at + [name] in done
    ensures name in upper.kids && Escape(name) == name && upper.kids[name].Dir? ==>
              AllDone(upper.kids[name], at + [name], done)
  {
    hide Escape, Classify, Clean, Store;
    StoredKids(upper, "");
    if name in Store(upper).kids {
      assert [name][1..] == [];
      assert IsEntry(Store(upper), [name]);
    }
    if name in upper.kids && Escape(name) == name && upper.kids[name].Dir? {
      StoredUnder(upper, name);
      forall path | path != [] && IsEntry(Store(upper.kids[name]), path)
        ensures at + [name] + path in done
      {
        var whole := [name] + path;
        assert whole[1..] == path;
        StoredKids(upper, name);
        assert IsEntry(Store(upper), whole);
        assert at + whole == at + [name] + path;
      }
    }
  }

  lemma {:induction false} AboveOfAll(upper: Node, at: Path, done: set<Path>)
    requires CleanTree(upper) && upper.Dir? && AllDone(upper, at, done)
    ensures Store(upper).Dir? && AboveSoFar(upper, at, done) == Above(Store(upper))
    decreases upper
  {
    hide Clean, Store, Escape, Classify, Payload, WhiteoutMarker, AboveSoFar, Above, AllDone, Decoded, Literal, AboveEntry;
    StoredKids(upper, "");
    forall name
      ensures EntryOf(AboveSoFar(upper, at, done), name) == EntryOf(Above(Store(upper)), name)
    {
      AboveSoFarHolds(upper, at, done, name);
      AllDoneBeneath(upper, at, done, name);
      if !Clean(name) {
        AboveHidesMarkers(upper, name);
      } else {
        StoredForms(name);
        AboveUnder(upper, name);
        if name in upper.kids {
          StoredKids(upper, name);
          AllDoneBeneath(upper, at, done, StoredName(name, upper.kids[name]));
          if Escape(name) == name && upper.kids[name].Dir? {
            AboveOfAll(upper.kids[name], at + [name], done);
          }
        }
      }
    }
    AboveSoFarHolds(upper, at, done, "");
    AboveNotEmpty(Store(upper));
    SameEntriesSameLayer(AboveSoFar(upper, at, done), Above(Store(upper)));
  }

  /** The lower sidecar once the entries of `done` have been looked at. */
  function BelowSoFarEntry(upper: Node, name: string, at: Path, done: set<Path>): Option<Node>
    requires CleanTree(upper) && upper.Dir?
    decreases upper, 0
  {
    if name in upper.kids && upper.kids[name].Dir? && Escape(name) == name
    then BelowSoFar(upper.kids[name], at + [name], done)
    else None
  }

  function BelowSoFar(upper: Node, at: Path, done: set<Path>): Option<Node>
    requires CleanTree(upper) && upper.Dir?
    decreases upper, 1
  {
    var sealed := upper.sealed && at + [OPAQUE_NAME] in done;
    var kids := map name | name in upper.kids && BelowSoFarEntry(upper, name, at, done).Some?
                  :: BelowSoFarEntry(upper, name, at, done).value;
    if !sealed && kids == map[] then None else Some(Dir(sealed, kids))
  }

  lemma BelowSoFarHolds(upper: Node, at: Path, done: set<Path>, name: string)
    requires CleanTree(upper) && upper.Dir?
    ensures var layer := BelowSoFar(upper, at, done);
            && EntryOf(layer, name) == BelowSoFarEntry(upper, name, at, done)
            && (layer.Some? ==> layer.value.Dir? && (layer.value.sealed || layer.value.kids != map[]))
            && (layer.Some? && layer.value.sealed <==> upper.sealed && at + [OPAQUE_NAME] in done)
  {
    BelowSoFarOutside(upper, at, done, name);
    hide BelowSoFarEntry, Clean;
    var kids := map one | one in upper.kids && BelowSoFarEntry(upper, one, at, done).Some?
                  :: BelowSoFarEntry(upper, one, at, done).value;
    assert name in kids ==> kids != map[];
  }

  lemma BelowSoFarOutside(upper: Node, at: Path, done: set<Path>, name: string)
    requires CleanTree(upper) && upper.Dir?
    ensures name !in upper.kids ==> BelowSoFarEntry(upper, name, at, done) == None
  {
  }

  lemma {:induction false} BelowElsewhere(upper: Node, at: Path, done: set<Path>, more: Path)
    requires CleanTree(upper) && upper.Dir?
    requires !(at < more)
    ensures BelowSoFar(upper, at, done + {more}) == BelowSoFar(upper, at, done)
    decreases upper
  {
    hide Clean, Escape, BelowSoFar;
    assert at < at + [OPAQUE_NAME];
    forall name
      ensures EntryOf(BelowSoFar(upper, at, done + {more}), name) == EntryOf(BelowSoFar(upper, at, done), name)
    {
      BelowSoFarHolds(upper, at, done, name);
      BelowSoFarHolds(upper, at, done + {more}, name);
      assert at < at + [name];
      if name in upper.kids && upper.kids[name].Dir? {
        BelowElsewhere(upper.kids[name], at + [name], done, more);
      }
    }
    BelowSoFarHolds(upper, at, done, "");
    BelowSoFarHolds(upper, at, done + {more}, "");
    SameEntriesSameLayer(BelowSoFar(upper, at, done + {more}), BelowSoFar(upper, at, done));
  }

  lemma SealHolds(layer: Option<Node>, rel: Path, name: string)
    requires Room(layer, rel, {})
    ensures EntryOf(Some(Seal(layer, rel)), name) ==
            if rel != [] && name == rel[0] then Some(Seal(EntryOf(layer, rel[0]), rel[1..]))
            else EntryOf(layer, name)
    ensures Seal(layer, rel).sealed <==> rel == [] || (layer.Some? && layer.value.sealed)
    ensures Seal(layer, rel).sealed || Seal(layer, rel).kids != map[]
  {
    if rel != [] {
      assert rel[0] in Seal(layer, rel).kids;
    }
  }

  /** Looking at an opaque mark seals its directory in the lower sidecar; looking at anything else
      leaves the sidecar alone. */
  lemma {:induction false} BelowAfter(upper: Node, at: Path, done: set<Path>, rel: Path, stored: string)
    requires CleanTree(upper) && upper.Dir? && IsEntry(Store(upper), rel + [stored])
    ensures InsideEscaped(rel) || !Classify(stored).Seals? ==>
              BelowSoFar(upper, at, done + {at + rel + [stored]}) == BelowSoFar(upper, at, done)
    ensures !InsideEscaped(rel) && Classify(stored).Seals? ==>
              Room(BelowSoFar(upper, at, done), rel, {})
              && BelowSoFar(upper, at, done + {at + rel + [stored]}) == Some(Seal(BelowSoFar(upper, at, done), rel))
    decreases |rel|
  {
    hide Clean, Store, Escape, Classify, Payload, BelowSoFar, InsideEscaped, Seal;
    var more := at + rel + [stored];
    var before, after := BelowSoFar(upper, at, done), BelowSoFar(upper, at, done + {more});
    var sealing := !InsideEscaped(rel) && Classify(stored).Seals?;
    OpaqueSeals();
    if rel == [] {
      NoneInsideNothing();
      StoredChild(upper, stored);
      assert (at + [OPAQUE_NAME])[|at|] == OPAQUE_NAME;
      assert more == at + [stored] && more[|at|] == stored;
    } else {
      InsideEscapedSteps(rel);
      assert |more| > |at| + 1;
      assert (rel + [stored])[1..] == rel[1..] + [stored];
      assert at + [rel[0]] + rel[1..] + [stored] == more;
      if !(ESCAPE_PREFIX <= rel[0]) {
        StoredDirectory(upper, rel[0]);
        BelowAfter(upper.kids[rel[0]], at + [rel[0]], done, rel[1..], stored);
      }
    }
    BelowSoFarHolds(upper, at, done, "");
    BelowSoFarHolds(upper, at, done + {more}, "");
    forall name
      ensures rel == [] || name != rel[0] ==> EntryOf(after, name) == EntryOf(before, name)
    {
      BelowSoFarHolds(upper, at, done, name);
      BelowSoFarHolds(upper, at, done + {more}, name);
      if name in upper.kids && upper.kids[name].Dir? && (rel == [] || name != rel[0]) {
        assert more[|at|] == if rel == [] then stored else rel[0];
        assert (at + [name])[|at|] == name;
        BelowElsewhere(upper.kids[name], at + [name], done, more);
      }
    }
    if rel != [] {
      BelowSoFarHolds(upper, at, done, rel[0]);
      BelowSoFarHolds(upper, at, done + {more}, rel[0]);
      if ESCAPE_PREFIX <= rel[0] && rel[0] in upper.kids {
        StoredForms(rel[0]);
      }
    }
    if sealing {
      forall name
        ensures EntryOf(after, name) == EntryOf(Some(Seal(before, rel)), name)
      {
        SealHolds(before, rel, name);
      }
      SealHolds(before, rel, "");
      SameEntriesSameLayer(after, Some(Seal(before, rel)));
    } else {
      SameEntriesSameLayer(after, before);
    }
  }

  lemma {:induction false} BelowOfNothing(upper: Node, at: Path)
    requires CleanTree(upper) && upper.Dir?
    ensures BelowSoFar(upper, at, {}) == None
    decreases upper
  {
    hide Clean, Escape, BelowSoFar;
    forall name
      ensures EntryOf(BelowSoFar(upper, at, {}), name) == None
    {
      BelowSoFarHolds(upper, at, {}, name);
      if name in upper.kids && upper.kids[name].Dir? {
        BelowOfNothing(upper.kids[name], at + [name]);
      }
    }
    BelowSoFarHolds(upper, at, {}, "");
    SameEntriesSameLayer(BelowSoFar(upper, at, {}), None);
  }

  lemma {:induction false} BelowOfAll(upper: Node, at: Path, done: set<Path>)
    requires CleanTree(upper) && upper.Dir? && AllDone(upper, at, done)
    ensures Store(upper).Dir? && BelowSoFar(upper, at, done) == Below(Store(upper))
    decreases upper
  {
    hide Clean, Store, Escape, Classify, Payload, WhiteoutMarker, BelowSoFar, Below, AllDone, Decoded, Literal;
    StoredKids(upper, "");
    forall name
      ensures EntryOf(BelowSoFar(upper, at, done), name) == EntryOf(Below(Store(upper)), name)
    {
      BelowSoFarHolds(upper, at, done, name);
      BelowHolds(Store(upper), name);
      AllDoneBeneath(upper, at, done, name);
      if name in Store(upper).kids && Store(upper).kids[name].Dir? && !(ESCAPE_PREFIX <= name) {
        StoredDirectory(upper, name);
        BelowOfAll(upper.kids[name], at + [name], done);
      } else if name in upper.kids && upper.kids[name].Dir? && Escape(name) == name {
        StoredUnder(upper, name);
        StoredKids(upper.kids[name], "");
        StoredForms(name);
      }
    }
    BelowSoFarHolds(upper, at, done, "");
    BelowHolds(Store(upper), "");
    AllDoneBeneath(upper, at, done, OPAQUE_NAME);
    AboveNotEmpty(Store(upper));
    SameEntriesSameLayer(BelowSoFar(upper, at, done), Below(Store(upper)));
  }

  lemma PutTwiceHere(layer: Option<Node>, first: map<string, Node>, second: map<string, Node>)
    requires Room(layer, [], (first + second).Keys) && first.Keys !! second.Keys
    ensures Room(layer, [], first.Keys) && Room(Some(Put(layer, [], first)), [], second.Keys)
    ensures Put(Some(Put(layer, [], first)), [], second) == Put(layer, [], first + second)
  {
    assert forall name :: name in second ==> name in (first + second).Keys;
    assert forall name :: name in first ==> name in (first + second).Keys;
  }

  lemma PutBelow(layer: Option<Node>, rel: Path, entries: map<string, Node>)
    requires rel != [] && Room(layer, rel, entries.Keys)
    ensures EntryOf(Some(Put(layer, rel, entries)), rel[0]) == Some(Put(EntryOf(layer, rel[0]), rel[1..], entries))
  {
  }

  lemma {:induction false} PutTwice(layer: Option<Node>, rel: Path, first: map<string, Node>, second: map<string, Node>)
    requires Room(layer, rel, (first + second).Keys) && first.Keys !! second.Keys
    ensures Room(layer, rel, first.Keys)
    ensures Room(Some(Put(layer, rel, first)), rel, second.Keys)
    ensures Put(Some(Put(layer, rel, first)), rel, second) == Put(layer, rel, first + second)
    decreases |rel|
  {
    if rel == [] {
      PutTwiceHere(layer, first, second);
    } else {
      PutTwice(EntryOf(layer, rel[0]), rel[1..], first, second);
      PutBelow(layer, rel, first);
      hide EntryOf;
      var once, kids := Put(layer, rel, first), if layer.Some? then layer.value.kids else map[];
      var inner := Put(EntryOf(layer, rel[0]), rel[1..], first + second);
      assert once.kids[rel[0] := inner] == kids[rel[0] := inner];
    }
  }

  /** The two entries a whiteout or an escaped entry puts into the upper sidecar. */
  lemma AdditionsOfPayload(upper: Node, stored: string)
    requires CleanTree(upper) && upper.Dir? && stored in Store(upper).kids
    requires Literal(stored) && !Classify(stored).Seals?
    ensures Classify(stored).name == Payload(stored) && Payload(stored) in upper.kids && Payload(stored) != stored
    ensures Classify(stored).Hides? ==> upper.kids[Payload(stored)] == Whiteout
    ensures Classify(stored).Normal? ==>
              !upper.kids[Payload(stored)].Whiteout? && Store(upper).kids[stored] == Store(upper.kids[Payload(stored)])
    ensures Additions(upper, stored) == map[Payload(stored) := upper.kids[Payload(stored)]] + map[stored := Whiteout]
  {
    hide Escape, Classify, Payload, Clean, Store, WhiteoutMarker, Literal;
    StoredChild(upper, stored);
    StoredForms(Payload(stored));
  }

  /** Lay out the sidecars of a stored delta, whatever order its entries are listed in. No entry is
      ever created over another: every `Put` finds room. */
  method Markers(delta: Node, ghost upper: Node, listing: seq<Path>) returns (above: Option<Node>, below: Option<Node>)
    requires CleanTree(upper) && upper.Dir? && delta == Store(upper) && Lists(listing, delta)
    ensures delta.Dir? && above == Above(delta) && below == Below(delta)
  {
    hide Escape, Classify, Payload, Clean, Store, WhiteoutMarker, Literal, Additions, Put, Seal, AboveSoFar, BelowSoFar, InsideEscaped, Room;
    above, below := None, None;
    AboveOfNothing(upper, []);
    BelowOfNothing(upper, []);
    ghost var done: set<Path> := {};
    for i := 0 to |listing|
      invariant done == set j | 0 <= j < i :: listing[j]
      invariant above == AboveSoFar(upper, [], done)
      invariant below == BelowSoFar(upper, [], done)
    {
      var path := listing[i];
      assert path in listing;
      var rel, name := Parent(path), Last(path);
      assert path == rel + [name] && [] + rel + [name] == path;
      assert done + {path} == set j | 0 <= j < i + 1 :: listing[j];
      assert path !in done;
      BelowAfter(upper, [], done, rel, name);
      if InsideEscaped(rel) {
        AboveUnchanged(upper, [], done, rel, name);
      } else {
        LiteralCases(name);
        if Literal(name) {
          AboveAfter(upper, [], done, rel, name);
        } else {
          AboveUnchanged(upper, [], done, rel, name);
        }
        NativeDirectory(upper, rel, name);
        ghost var beside := Entry(upper, rel);
        match Classify(name) {
          case Seals =>
            AdditionsOfSeal(beside, name);
            below := Some(Seal(below, rel));
            above := Some(Put(above, rel, map[name := Whiteout]));
          case Hides(payload) =>
            AdditionsOfPayload(beside, name);
            PutTwice(above, rel, map[payload := Whiteout], map[name := Whiteout]);
            above := Some(Put(above, rel, map[payload := Whiteout]));
            above := Some(Put(above, rel, map[name := Whiteout]));
          case Normal(payload) =>
            if ESCAPE_PREFIX <= name {
              AdditionsOfPayload(beside, name);
              ThawInvertsStore(beside.kids[payload]);
              var thawed := ThawEntry(Entry(delta, path), beside.kids[payload]);
              PutTwice(above, rel, map[payload := thawed], map[name := Whiteout]);
              above := Some(Put(above, rel, map[payload := thawed]));
              above := Some(Put(above, rel, map[name := Whiteout]));
            }
        }
      }
      done := done + {path};
    }
    forall path | path != [] && IsEntry(Store(upper), path)
      ensures [] + path in done
    {
      assert path in listing;
      assert [] + path == path;
    }
    AboveOfAll(upper, [], done);
    BelowOfAll(upper, [], done);
  }

  lemma LiteralCases(name: string)
    ensures Literal(name) <==> !Classify(name).Normal? || ESCAPE_PREFIX <= name
  {
  }

  lemma AdditionsOfSeal(upper: Node, stored: string)
    requires CleanTree(upper) && upper.Dir? && stored in Store(upper).kids && Classify(stored).Seals?
    ensures Additions(upper, stored) == map[stored := Whiteout]
  {
    LiteralCases(stored);
    hide Store, Classify, Literal;
  }

  /** What a mount lists for one delta: what its markers hide, the delta, and what they seal. */
  method SandwichList(lower: Node, ghost layers: seq<Layer>, ghost i: nat, listing: seq<Path>) returns (components: seq<Node>)
    requires History(layers) && i < |layers| && lower == Stored(layers)[i] && Lists(listing, lower)
    ensures lower.Dir? && components == Sandwich(lower)
  {
    hide Above, Below, Capture, Store, CleanTree, History, Lists;
    ghost var native := StoredNative(layers, i);
    var above, below := Markers(lower, native, listing);
    components := if above.Some? then [above.value] else [];
    components := components + [lower];
    components := components + (if below.Some? then [below.value] else []);
  }

  /** The lowerdir list of a mount, built by appending, topmost delta first. */
  method ReconstructList(lowers: seq<Node>, ghost layers: seq<Layer>, listings: seq<seq<Path>>)
    returns (components: seq<Node>)
    requires History(layers) && lowers == Stored(layers)
    requires |listings| == |lowers| && forall i :: 0 <= i < |lowers| ==> Lists(listings[i], lowers[i])
    ensures components == Reconstruct(lowers)
    ensures Merge(components) == Merge(Native(layers))
  {
    hide Reconstruct, Above, Below, Capture, Merge, Native, Store, CleanTree;
    components := [];
    var i := |lowers|;
    ReconstructSteps(lowers, i);
    assert [] + Reconstruct(lowers[..i]) == Reconstruct(lowers);
    while i > 0
      invariant 0 <= i <= |lowers|
      invariant components + Reconstruct(lowers[..i]) == Reconstruct(lowers)
    {
      i := i - 1;
      ReconstructSteps(lowers, i + 1);
      var more := SandwichList(lowers[i], layers, i, listings[i]);
      assert components + (more + Reconstruct(lowers[..i])) == components + more + Reconstruct(lowers[..i]);
      components := components + more;
    }
    ReconstructSteps(lowers, 0);
    StoredLayersShowNativeLayers(layers);
  }

  lemma ReconstructSteps(lowers: seq<Node>, i: nat)
    requires Directories(lowers) && i <= |lowers|
    ensures i == 0 ==> Reconstruct(lowers[..i]) == []
    ensures i == |lowers| ==> lowers[..i] == lowers
    ensures i > 0 ==> Reconstruct(lowers[..i]) == Sandwich(lowers[i - 1]) + Reconstruct(lowers[..i - 1])
  {
    if i > 0 {
      assert lowers[..i][..i - 1] == lowers[..i - 1];
    }
  }

  /** The native tree a stored delta is the stored form of. */
  lemma {:induction false} StoredNative(layers: seq<Layer>, i: nat) returns (native: Node)
    requires History(layers) && i < |layers|
    ensures CleanTree(native) && native.Dir? && Stored(layers)[i] == Store(native)
    decreases |layers|
  {
    var rest, last := layers[..|layers| - 1], layers[|layers| - 1];
    if i < |rest| {
      native := StoredNative(rest, i);
    } else {
      match Lowers(rest, last.overLowers)
      case None =>
        native := last.upper;
      case Some(lowers) =>
        DroppingKeepsNames(last.upper, [], lowers);
        native := DropIdleMarks(last.upper, [], lowers);
    }
  }
}
