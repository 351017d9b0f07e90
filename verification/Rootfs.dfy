/** Storing an overlay layer as plain files, and mounting it again.

    `Capture` rewrites a native upper directory into a stored delta. `Above` and `Below` are the two
    sparse sidecar layers that give a stored delta its meaning back when it is mounted between them.
    This module holds what each of them produces; RootfsSteps holds the loops that produce it and
    RootfsTheorems what they preserve. */
module Rootfs {
  import opened Names
  import opened Options
  import opened Overlay

  /** True names only, in a tree and in a view. */
  predicate CleanTree(node: Node)
    decreases node
  {
    node.Dir? ==> forall name :: name in node.kids ==> Clean(name) && CleanTree(node.kids[name])
  }

  predicate CleanView(view: View)
    decreases view
  {
    view.Tree? ==> forall name :: name in view.shown ==> Clean(name) && CleanView(view.shown[name])
  }

  /** What a mount can have as its upper directory: a directory of true names whose root is not
      itself opaque. */
  predicate Upper(node: Node) {
    node.Dir? && !node.sealed && CleanTree(node)
  }

  // Capture.

  function StoredName(name: string, node: Node): string {
    if node.Whiteout? then WhiteoutMarker(name) else Escape(name)
  }

  /** The name a stored entry is about. */
  function Payload(stored: string): string {
    match Classify(stored)
    case Normal(name) => name
    case Hides(name) => name
    case Seals => ""
  }

  lemma PayloadOfStoredName(name: string, node: Node)
    requires Clean(name)
    ensures Classify(StoredName(name, node)) == if node.Whiteout? then Hides(name) else Normal(name)
    ensures Payload(StoredName(name, node)) == name
    ensures StoredName(name, node) != OPAQUE_NAME
  {
    hide Escape, Classify, WhiteoutMarker;
    ClassifyInvertsEscape(name);
    ClassifyInvertsWhiteoutMarker(name);
    OpaqueMarkSeals();
    assert WHITEOUT_PREFIX <= ".wh..opq";
  }

  lemma PayloadsOfStoredNames(kids: map<string, Node>)
    requires forall name :: name in kids ==> Clean(name)
    ensures forall name :: name in kids ==> Payload(StoredName(name, kids[name])) == name
  {
    forall name | name in kids
      ensures Payload(StoredName(name, kids[name])) == name
    {
      PayloadOfStoredName(name, kids[name]);
    }
  }

  function SealMark(sealed: bool): map<string, Node> {
    if sealed then map[OPAQUE_NAME := File("")] else map[]
  }

  /** A native subtree as it is stored, every opaque mark kept. */
  function Store(node: Node): Node
    requires CleanTree(node)
    decreases node
  {
    match node
    case Whiteout => File("")
    case File(_) => node
    case Link(_) => node
    case Dir(sealed, kids) =>
      PayloadsOfStoredNames(kids);
      var names := set name | name in kids :: StoredName(name, kids[name]);
      Dir(false, (map stored | stored in names :: Store(kids[Payload(stored)])) + SealMark(sealed))
  }

  /** Whether a stored layer has an entry at a path of true names. */
  predicate InLower(lower: Node, path: seq<string>)
    decreases |path|
  {
    path == [] || (lower.Dir? && Escape(path[0]) in lower.kids && InLower(lower.kids[Escape(path[0])], path[1..]))
  }

  predicate InAnyLower(lowers: seq<Node>, path: seq<string>) {
    exists i :: 0 <= i < |lowers| && InLower(lowers[i], path)
  }

  /** The tree without the opaque marks that hide nothing, because no lower has the directory. */
  function DropIdleMarks(node: Node, path: seq<string>, lowers: seq<Node>): Node
    decreases node
  {
    match node
    case Dir(sealed, kids) =>
      Dir(sealed && InAnyLower(lowers, path),
          map name | name in kids :: DropIdleMarks(kids[name], path + [name], lowers))
    case _ => node
  }

  lemma {:induction false} DroppingKeepsNames(node: Node, path: seq<string>, lowers: seq<Node>)
    requires CleanTree(node)
    ensures CleanTree(DropIdleMarks(node, path, lowers))
    decreases node
  {
    if node.Dir? {
      forall name | name in node.kids
        ensures CleanTree(DropIdleMarks(node.kids[name], path + [name], lowers))
      {
        DroppingKeepsNames(node.kids[name], path + [name], lowers);
      }
    }
  }

  /** The stored delta of an upper directory, captured over its lowers or on its own. */
  function Capture(upper: Node, lowers: Option<seq<Node>>): Node
    requires CleanTree(upper)
  {
    match lowers
    case None => Store(upper)
    case Some(layers) =>
      DroppingKeepsNames(upper, [], layers);
      Store(DropIdleMarks(upper, [], layers))
  }

  // Mounting a stored delta.

  /** The names a stored directory has anything to say about, decoded. */
  function Decoded(kids: map<string, Node>): set<string> {
    set stored | stored in kids && !Classify(stored).Seals? :: Payload(stored)
  }

  /** A stored entry in native form again. */
  function Thaw(stored: Node): Node
    decreases stored
  {
    match stored
    case Dir(_, kids) =>
      Dir(OPAQUE_NAME in kids,
          map name | name in Decoded(kids) && (WhiteoutMarker(name) in kids || Escape(name) in kids)
            :: if WhiteoutMarker(name) in kids then Whiteout else Thaw(kids[Escape(name)]))
    case _ => stored
  }

  /** Whether a stored name would show up as itself although it is not the entry's true name. */
  predicate Literal(stored: string) {
    !Classify(stored).Normal? || ESCAPE_PREFIX <= stored
  }

  /** What the layer above a delta holds under one name: it hides the marker files themselves and
      the whiteouts' targets, and holds escaped entries under their true names. */
  function AboveEntry(delta: Node, name: string): Option<Node>
    requires delta.Dir?
    decreases delta, 0
  {
    if name in delta.kids && Literal(name) then Some(Whiteout)
    else if WhiteoutMarker(name) in delta.kids then Some(Whiteout)
    else if Escape(name) != name && Escape(name) in delta.kids then Some(Thaw(delta.kids[Escape(name)]))
    else if name in delta.kids && delta.kids[name].Dir? then Above(delta.kids[name])
    else None
  }

  /** The layer above a delta, if the delta has anything in it that needs one. */
  function Above(delta: Node): Option<Node>
    requires delta.Dir?
    decreases delta, 1
  {
    var kids := map name | name in delta.kids.Keys + Decoded(delta.kids) && AboveEntry(delta, name).Some?
                  :: AboveEntry(delta, name).value;
    if kids == map[] then None else Some(Dir(false, kids))
  }

  function BelowEntry(delta: Node, name: string): Option<Node>
    requires delta.Dir?
    decreases delta, 0
  {
    if name in delta.kids && delta.kids[name].Dir? && !(ESCAPE_PREFIX <= name) then Below(delta.kids[name])
    else None
  }

  /** The layer below a delta: its opaque directories, and the directories leading to them. */
  function Below(delta: Node): Option<Node>
    requires delta.Dir?
    decreases delta, 1
  {
    var sealed := OPAQUE_NAME in delta.kids;
    var kids := map name | name in delta.kids && BelowEntry(delta, name).Some? :: BelowEntry(delta, name).value;
    if !sealed && kids == map[] then None else Some(Dir(sealed, kids))
  }

  function Listed(layer: Option<Node>): seq<Node> {
    if layer.Some? then [layer.value] else []
  }

  function Sandwich(delta: Node): seq<Node>
    requires delta.Dir?
  {
    Listed(Above(delta)) + [delta] + Listed(Below(delta))
  }

  /** The lowerdir list, topmost first, for stored deltas given bottom first. */
  function Reconstruct(lowers: seq<Node>): seq<Node>
    requires Directories(lowers)
  {
    if lowers == [] then []
    else Sandwich(lowers[|lowers| - 1]) + Reconstruct(lowers[..|lowers| - 1])
  }
}
