/** Which opaque marks a delta is stored with. */
module OpaqueMarks {
  import opened Names
  import opened Options
  import opened Overlay
  import opened Rootfs
  import opened RootfsTheorems

  /** What a native layer has at a path. */
  function Under(node: Node, path: seq<string>): Option<Node>
    decreases |path|
  {
    if path == [] then Some(node)
    else if node.Dir? && path[0] in node.kids then Under(node.kids[path[0]], path[1..])
    else None
  }

  /** What a delta has stored at a path of true names. */
  function Found(delta: Node, path: seq<string>): Option<Node>
    decreases |path|
  {
    if path == [] then Some(delta)
    else if delta.Dir? && Escape(path[0]) in delta.kids then Found(delta.kids[Escape(path[0])], path[1..])
    else None
  }

  lemma {:induction false} HasIsUnder(node: Node, path: seq<string>)
    ensures Has(node, path) <==> Under(node, path).Some? && !Under(node, path).value.Whiteout?
    decreases |path|
  {
    if path != [] && node.Dir? && path[0] in node.kids {
      HasIsUnder(node.kids[path[0]], path[1..]);
    }
  }

  /** Whether some layer of a history has something to show at a path, in its own native form. */
  predicate SomeLayerHas(layers: seq<Layer>, path: seq<string>) {
    exists i :: 0 <= i < |layers| && Has(layers[i].upper, path)
  }

  lemma {:induction false} StoredIsCaptured(layers: seq<Layer>, i: nat)
    requires History(layers) && i < |layers|
    ensures Stored(layers)[i] == Capture(layers[i].upper, Lowers(layers[..i], layers[i].overLowers))
  {
    hide Capture;
    var n := |layers| - 1;
    if i < n {
      StoredIsCaptured(layers[..n], i);
      assert layers[..n][..i] == layers[..i];
    }
  }

  /** A stored history has a path exactly if one of its layers, in native form, does. */
  lemma StoredHistoryHasExactlyIf(layers: seq<Layer>, path: seq<string>)
    requires History(layers) && CleanPath(path)
    ensures InAnyLower(Stored(layers), path) <==> SomeLayerHas(layers, path)
  {
    hide Capture, InLower, Has;
    forall i | 0 <= i < |layers|
      ensures InLower(Stored(layers)[i], path) <==> Has(layers[i].upper, path)
    {
      StoredIsCaptured(layers, i);
      InLowerExactlyIf(layers[i].upper, Lowers(layers[..i], layers[i].overLowers), path);
    }
  }

  lemma {:induction false} DroppedUnder(node: Node, at: seq<string>, lowers: seq<Node>, path: seq<string>)
    requires Under(node, path).Some?
    ensures Under(DropIdleMarks(node, at, lowers), path) == Some(DropIdleMarks(Under(node, path).value, at + path, lowers))
    decreases |path|
  {
    if path == [] {
      assert at + path == at;
    } else {
      DroppedUnder(node.kids[path[0]], at + [path[0]], lowers, path[1..]);
      assert at + [path[0]] + path[1..] == at + path;
    }
  }

  /** What a native layer has is stored under its true names, escaped. */
  lemma {:induction false} FoundWhereStored(node: Node, path: seq<string>)
    requires CleanTree(node) && Has(node, path)
    ensures Under(node, path).Some? && CleanTree(Under(node, path).value)
    ensures Found(Store(node), path) == Some(Store(Under(node, path).value))
    decreases |path|
  {
    hide Escape, WhiteoutMarker, Decoded, Store;
    if path != [] {
      StoredKids(node, "");
      StoredUnder(node, path[0]);
      FoundWhereStored(node.kids[path[0]], path[1..]);
    }
  }

  /** A delta holds each entry of its layer under its own escaped path, as it was; and in a directory,
      the opaque marker exactly if the directory was opaque and, where the lowers are known, some layer
      below has something at the very same path. */
  lemma MarksKeptExactlyIf(layers: seq<Layer>, overLowers: bool, upper: Node, path: seq<string>)
    requires History(layers) && Upper(upper) && Has(upper, path)
    ensures Under(upper, path).Some? && Found(Capture(upper, Lowers(layers, overLowers)), path).Some?
    ensures var entry, stored := Under(upper, path).value, Found(Capture(upper, Lowers(layers, overLowers)), path).value;
            if entry.Dir? then
              stored.Dir? && !stored.sealed
              && (OPAQUE_NAME in stored.kids <==> entry.sealed && (overLowers ==> SomeLayerHas(layers, path)))
            else stored == entry
  {
    hide Store, InLower, Has, Under, Found, InAnyLower, SomeLayerHas, DropIdleMarks;
    HasIsUnder(upper, path);
    WhatIsThereIsClean(upper, path);
    if overLowers {
      var lowers := Stored(layers);
      DroppingKeepsNames(upper, [], lowers);
      DroppingKeepsEntries(upper, [], lowers, path);
      FoundWhereStored(DropIdleMarks(upper, [], lowers), path);
      DroppedUnder(upper, [], lowers, path);
      StoredHistoryHasExactlyIf(layers, path);
      assert [] + path == path;
      var entry := Under(upper, path).value;
      DroppedAlone(entry, path, lowers);
      StoredAlone(DropIdleMarks(entry, path, lowers));
    } else {
      FoundWhereStored(upper, path);
      StoredAlone(Under(upper, path).value);
    }
  }

  lemma DroppedAlone(node: Node, path: seq<string>, lowers: seq<Node>)
    ensures var dropped := DropIdleMarks(node, path, lowers);
            if node.Dir? then dropped.Dir? && (dropped.sealed <==> node.sealed && InAnyLower(lowers, path)) else dropped == node
  {
  }

  lemma StoredAlone(node: Node)
    requires CleanTree(node) && !node.Whiteout?
    ensures if node.Dir? then Store(node).Dir? && !Store(node).sealed && (OPAQUE_NAME in Store(node).kids <==> node.sealed)
            else Store(node) == node
  {
    hide Escape, WhiteoutMarker, Decoded, Clean, CleanTree, Store;
    if node.Dir? {
      StoredKids(node, "");
    } else {
      StoredLeaf(node);
    }
  }
}
