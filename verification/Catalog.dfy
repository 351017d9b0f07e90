/** Advancing the snapshots a catalog's repositories are pinned to. */
module Catalog {
  import opened Lexicographic
  import opened Options
  import opened Pins
  import opened Sorting
  import opened TextOrder
  import opened Texts

  datatype Pin = Pin(name: string, target: string, snapshot: string)

  /** What asking to advance comes to. `Refused` is before anything is written; `Unwritten` is a pin the
      declaration does not spell the way it should. */
  datatype Outcome = Refused(current: string) | Unwritten(current: string) | Advanced(moves: map<string, string>)

  type Newest = seq<Pin> -> string

  /** The repositories on one snapshot, in the order of the catalog. */
  function Group(repositories: seq<Pin>, snapshot: string): (group: seq<Pin>)
    ensures forall pin :: pin in group <==> pin in repositories && pin.snapshot == snapshot
  {
    if repositories == [] then []
    else
      var last := repositories[|repositories| - 1];
      assert repositories == repositories[..|repositories| - 1] + [last];
      Group(repositories[..|repositories| - 1], snapshot) + if last.snapshot == snapshot then [last] else []
  }

  function Snapshots(repositories: seq<Pin>): set<string> {
    set pin | pin in repositories :: pin.snapshot
  }

  /** A group moves if all of it is selected and there is something newer. */
  predicate Moves(repositories: seq<Pin>, selected: set<string>, newest: Newest, snapshot: string) {
    && snapshot in Snapshots(repositories)
    && (forall pin :: pin in Group(repositories, snapshot) ==> pin.target in selected)
    && newest(Group(repositories, snapshot)) != snapshot
  }

  function Planned(repositories: seq<Pin>, selected: set<string>, newest: Newest): map<string, string> {
    map snapshot | snapshot in Snapshots(repositories) && Moves(repositories, selected, newest, snapshot)
      :: newest(Group(repositories, snapshot))
  }

  /** A group would land on a snapshot that another group holds, or is about to. */
  predicate Clashes(snapshots: set<string>, planned: map<string, string>, current: string) {
    && current in planned
    && (planned[current] in snapshots - {current}
        || exists other :: other in planned && other != current && planned[other] == planned[current])
  }

  /** What is refused: a move to where another group is, or to where another is to go. */
  lemma ClashesExactlyIf(repositories: seq<Pin>, planned: map<string, string>, current: string)
    ensures Clashes(Snapshots(repositories), planned, current) <==>
            && current in planned
            && (|| (exists pin :: pin in repositories && pin.snapshot == planned[current] && pin.snapshot != current)
                || (exists other :: other in planned.Keys - {current} && planned[other] == planned[current]))
  {
    if current in planned {
      assert planned[current] in Snapshots(repositories) <==> exists pin :: pin in repositories && pin.snapshot == planned[current];
      assert forall other :: other in planned.Keys - {current} <==> other in planned && other != current;
    }
  }

  ghost predicate Grouped(repositories: seq<Pin>, groups: map<string, seq<Pin>>) {
    groups.Keys == Snapshots(repositories) && forall snapshot :: snapshot in groups ==> groups[snapshot] == Group(repositories, snapshot)
  }

  lemma NoGroup(repositories: seq<Pin>, snapshot: string)
    ensures snapshot !in Snapshots(repositories) ==> Group(repositories, snapshot) == []
  {
    if Group(repositories, snapshot) != [] {
      assert Group(repositories, snapshot)[0] in Group(repositories, snapshot);
    }
  }

  lemma GroupOfMore(repositories: seq<Pin>, pin: Pin, snapshot: string)
    ensures Group(repositories + [pin], snapshot) == Group(repositories, snapshot) + if pin.snapshot == snapshot then [pin] else []
  {
    assert (repositories + [pin])[..|repositories|] == repositories;
  }

  lemma SnapshotsOfMore(repositories: seq<Pin>, pin: Pin)
    ensures Snapshots(repositories + [pin]) == Snapshots(repositories) + {pin.snapshot}
  {
  }

  lemma GroupsAnother(repositories: seq<Pin>, groups: map<string, seq<Pin>>, pin: Pin)
    requires Grouped(repositories, groups)
    ensures Grouped(repositories + [pin], groups[pin.snapshot := (if pin.snapshot in groups then groups[pin.snapshot] else []) + [pin]])
  {
    hide Group, Snapshots;
    var more, after := repositories + [pin], groups[pin.snapshot := (if pin.snapshot in groups then groups[pin.snapshot] else []) + [pin]];
    SnapshotsOfMore(repositories, pin);
    NoGroup(repositories, pin.snapshot);
    forall snapshot | snapshot in after
      ensures after[snapshot] == Group(more, snapshot)
    {
      GroupOfMore(repositories, pin, snapshot);
      assert snapshot != pin.snapshot ==> Group(repositories, snapshot) + [] == Group(repositories, snapshot);
    }
  }

  method Groups(repositories: seq<Pin>) returns (groups: map<string, seq<Pin>>)
    ensures Grouped(repositories, groups)
  {
    hide Grouped;
    groups := map[];
    assert Grouped([], groups) by { NoGroups(); }
    for i := 0 to |repositories|
      invariant Grouped(repositories[..i], groups)
    {
      var pin := repositories[i];
      assert repositories[..i + 1] == repositories[..i] + [pin];
      GroupsAnother(repositories[..i], groups, pin);
      groups := groups[pin.snapshot := (if pin.snapshot in groups then groups[pin.snapshot] else []) + [pin]];
    }
    assert repositories[..|repositories|] == repositories;
  }

  lemma NoGroups()
    ensures Grouped([], map[])
  {
  }

  function Restricted(planned: map<string, string>, keys: set<string>): map<string, string> {
    map current | current in planned && current in keys :: planned[current]
  }

  lemma NextRestricted(planned: map<string, string>, keys: set<string>, current: string)
    ensures Restricted(planned, keys + {current}) ==
            if current in planned then Restricted(planned, keys)[current := planned[current]] else Restricted(planned, keys)
  {
  }

  lemma PlannedIf(repositories: seq<Pin>, selected: set<string>, newest: Newest, snapshot: string)
    requires snapshot in Snapshots(repositories)
    ensures var planned := Planned(repositories, selected, newest);
            && (snapshot in planned <==> Moves(repositories, selected, newest, snapshot))
            && (snapshot in planned ==> planned[snapshot] == newest(Group(repositories, snapshot)))
  {
  }

  method Plan(repositories: seq<Pin>, selected: set<string>, newest: Newest) returns (planned: map<string, string>, order: seq<string>)
    ensures planned == Planned(repositories, selected, newest)
    ensures Distinct(order) && Elements(order) == planned.Keys
  {
    hide Group, Planned, Snapshots, InTextOrder;
    var groups := Groups(repositories);
    var snapshots := SortTexts(groups.Keys);
    planned, order := map[], [];
    ghost var whole := Planned(repositories, selected, newest);
    assert Restricted(whole, Elements(snapshots[..0])) == map[];
    for i := 0 to |snapshots|
      invariant planned == Restricted(whole, Elements(snapshots[..i]))
      invariant Distinct(order) && Elements(order) == planned.Keys
    {
      var current := snapshots[i];
      assert current in Elements(snapshots);
      assert Elements(snapshots[..i + 1]) == Elements(snapshots[..i]) + {current};
      PlannedIf(repositories, selected, newest, current);
      NextRestricted(whole, Elements(snapshots[..i]), current);
      assert current !in planned;
      var pins := groups[current];
      if forall pin :: pin in pins ==> pin.target in selected {
        var wanted := newest(pins);
        if wanted != current {
          OneMoreElement(order, current);
          planned, order := planned[current := wanted], order + [current];
        }
      }
    }
    assert snapshots[..|snapshots|] == snapshots;
    OnlySnapshotsArePlanned(repositories, selected, newest);
  }

  lemma OneMoreElement(order: seq<string>, current: string)
    requires Distinct(order) && current !in Elements(order)
    ensures Distinct(order + [current]) && Elements(order + [current]) == Elements(order) + {current}
  {
  }

  lemma OnlySnapshotsArePlanned(repositories: seq<Pin>, selected: set<string>, newest: Newest)
    ensures Restricted(Planned(repositories, selected, newest), Snapshots(repositories)) == Planned(repositories, selected, newest)
  {
  }

  method FirstClash(snapshots: set<string>, planned: map<string, string>, order: seq<string>) returns (clash: Option<string>)
    requires Elements(order) == planned.Keys
    ensures clash.None? <==> forall current :: current in planned ==> !Clashes(snapshots, planned, current)
    ensures clash.Some? ==> Clashes(snapshots, planned, clash.value)
  {
    hide Clashes;
    for i := 0 to |order|
      invariant forall j :: 0 <= j < i ==> !Clashes(snapshots, planned, order[j])
    {
      assert order[i] in Elements(order);
      if Clashes(snapshots, planned, order[i]) {
        return Some(order[i]);
      }
    }
    assert forall current :: current in planned ==> current in Elements(order);
    return None;
  }

  /** No group moves onto a snapshot of the catalog. */
  ghost predicate Fresh(snapshots: set<string>, planned: map<string, string>) {
    forall current :: current in planned ==> current in snapshots && planned[current] !in snapshots
  }

  lemma RestrictedIsPlain(planned: map<string, string>, keys: set<string>)
    requires AllPlain(planned)
    ensures AllPlain(Restricted(planned, keys))
  {
  }

  lemma NobodyMovesOnto(snapshots: set<string>, planned: map<string, string>, keys: set<string>, current: string)
    requires Fresh(snapshots, planned) && current in snapshots
    ensures current !in Restricted(planned, keys).Values
  {
  }

  /** Rewrite one pin after another. */
  method Rewrite(text: string, attribute: string, planned: map<string, string>, order: seq<string>, ghost snapshots: set<string>)
    returns (missing: Option<string>, after: string)
    requires '"' !in attribute && AllPlain(planned) && Fresh(snapshots, planned)
    requires Distinct(order) && Elements(order) == planned.Keys
    ensures missing.None? ==> after == Moved(text, attribute, planned)
    ensures missing.None? <==> forall current :: current in planned ==> Contains(text, Literal(attribute, current))
    ensures missing.Some? ==> missing.value in planned && !Contains(text, Literal(attribute, missing.value))
  {
    hide Literal, Plain, Moved, Fresh, AllPlain, Contains, Restricted;
    after := text;
    NothingMoves(text, attribute);
    RestrictedEnds(planned);
    assert Elements(order[..0]) == {};
    for i := 0 to |order|
      invariant after == Moved(text, attribute, Restricted(planned, Elements(order[..i])))
      invariant forall j :: 0 <= j < i ==> Contains(text, Literal(attribute, order[j]))
    {
      var current := order[i];
      ghost var sofar := Restricted(planned, Elements(order[..i]));
      assert current in Elements(order);
      assert Elements(order[..i + 1]) == Elements(order[..i]) + {current};
      RestrictedHolds(planned, Elements(order[..i]), current);
      PlannedIsPlain(snapshots, planned, current);
      RestrictedIsPlain(planned, Elements(order[..i]));
      if !Contains(after, Literal(attribute, current)) {
        if Contains(text, Literal(attribute, current)) {
          MovingKeepsOthers(text, attribute, sofar, current);
        }
        return Some(current), after;
      }
      NobodyMovesOnto(snapshots, planned, Elements(order[..i]), current);
      MovingAddsNone(text, attribute, sofar, current);
      NextRestricted(planned, Elements(order[..i]), current);
      RestrictedIsPlain(planned, Elements(order[..i + 1]));
      RewritingMovesOneMore(text, attribute, sofar, current, planned[current]);
      after := Replace(after, Literal(attribute, current), Literal(attribute, planned[current]));
    }
    assert order[..|order|] == order;
    assert forall current :: current in planned ==> current in Elements(order);
    return None, after;
  }

  lemma RestrictedEnds(planned: map<string, string>)
    ensures Restricted(planned, {}) == map[] && Restricted(planned, planned.Keys) == planned
  {
  }

  lemma RestrictedHolds(planned: map<string, string>, keys: set<string>, current: string)
    ensures current in Restricted(planned, keys) <==> current in planned && current in keys
    ensures forall other :: other in Restricted(planned, keys) ==> other in keys && other in planned && Restricted(planned, keys)[other] == planned[other]
  {
  }

  lemma PlannedIsPlain(snapshots: set<string>, planned: map<string, string>, current: string)
    requires AllPlain(planned) && Fresh(snapshots, planned) && current in planned
    ensures Plain(current) && Plain(planned[current]) && current in snapshots
  {
  }

  /** Advance each distinct pin once, so that repositories sharing one stay on one snapshot. */
  method Advance(repositories: seq<Pin>, selected: set<string>, newest: Newest, text: string, attribute: string)
    returns (outcome: Outcome, after: string)
    requires '"' !in attribute && AllPlain(Planned(repositories, selected, newest))
    ensures outcome.Refused? <==> exists current :: Clashes(Snapshots(repositories), Planned(repositories, selected, newest), current)
    ensures outcome.Refused? ==> after == text
    ensures outcome.Unwritten? ==> outcome.current in Planned(repositories, selected, newest)
                                   && !Contains(text, Literal(attribute, outcome.current))
    ensures outcome.Advanced? ==>
              && outcome.moves == Planned(repositories, selected, newest)
              && after == Moved(text, attribute, outcome.moves)
              && forall current :: current in outcome.moves ==> Contains(text, Literal(attribute, current))
  {
    hide Moves, Clashes, Literal, Moved, Contains, AllPlain;
    var planned, order := Plan(repositories, selected, newest);
    var clash := FirstClash(Snapshots(repositories), planned, order);
    if clash.Some? {
      return Refused(clash.value), text;
    }
    OnlyPlannedClash(Snapshots(repositories), planned);
    NoClashIsFresh(repositories, selected, newest);
    var missing;
    missing, after := Rewrite(text, attribute, planned, order, Snapshots(repositories));
    outcome := if missing.Some? then Unwritten(missing.value) else Advanced(planned);
  }

  lemma OnlyPlannedClash(snapshots: set<string>, planned: map<string, string>)
    ensures forall current :: Clashes(snapshots, planned, current) ==> current in planned
  {
  }

  lemma NoClashIsFresh(repositories: seq<Pin>, selected: set<string>, newest: Newest)
    requires var planned := Planned(repositories, selected, newest);
             forall current :: current in planned ==> !Clashes(Snapshots(repositories), planned, current)
    ensures Fresh(Snapshots(repositories), Planned(repositories, selected, newest))
  {
  }

  // What an advance keeps.

  function Landed(pin: Pin, moves: map<string, string>): string {
    if pin.snapshot in moves then moves[pin.snapshot] else pin.snapshot
  }

  /** Two repositories share a snapshot after an advance that was not refused exactly if they did
      before. */
  lemma AdvancingKeepsTheGroups(repositories: seq<Pin>, selected: set<string>, newest: Newest, a: Pin, b: Pin)
    requires forall current :: !Clashes(Snapshots(repositories), Planned(repositories, selected, newest), current)
    requires a in repositories && b in repositories
    ensures var moves := Planned(repositories, selected, newest);
            Landed(a, moves) == Landed(b, moves) <==> a.snapshot == b.snapshot
  {
    hide Moves;
    var snapshots, moves := Snapshots(repositories), Planned(repositories, selected, newest);
    assert a.snapshot in snapshots && b.snapshot in snapshots;
    assert !Clashes(snapshots, moves, a.snapshot) && !Clashes(snapshots, moves, b.snapshot);
    if a.snapshot in moves {
      assert moves[a.snapshot] != a.snapshot by { PlannedMoves(repositories, selected, newest, a.snapshot); }
    }
    if b.snapshot in moves {
      assert moves[b.snapshot] != b.snapshot by { PlannedMoves(repositories, selected, newest, b.snapshot); }
    }
  }

  lemma PlannedMoves(repositories: seq<Pin>, selected: set<string>, newest: Newest, current: string)
    requires current in Planned(repositories, selected, newest)
    ensures Planned(repositories, selected, newest)[current] != current
  {
  }

  /** A snapshot is left exactly if some repository is on it, every repository on it was selected, and
      there is something newer for them; and what is newest for them is where they go. */
  lemma GroupMovesExactlyIf(repositories: seq<Pin>, selected: set<string>, newest: Newest, snapshot: string)
    ensures var planned := Planned(repositories, selected, newest);
            && (snapshot in planned <==>
                  && (exists pin :: pin in repositories && pin.snapshot == snapshot)
                  && (forall pin :: pin in repositories && pin.snapshot == snapshot ==> pin.target in selected)
                  && newest(Group(repositories, snapshot)) != snapshot)
            && (snapshot in planned ==> planned[snapshot] == newest(Group(repositories, snapshot)))
  {
    assert snapshot in Snapshots(repositories) <==> exists pin :: pin in repositories && pin.snapshot == snapshot;
    forall pin
      ensures pin in Group(repositories, snapshot) <==> pin in repositories && pin.snapshot == snapshot
    {
    }
  }

  /** Only a repository all of whose group was selected moves. */
  lemma OnlyWholeGroupsMove(repositories: seq<Pin>, selected: set<string>, newest: Newest, a: Pin, b: Pin)
    requires a in repositories && b in repositories && a.snapshot == b.snapshot
    requires Landed(a, Planned(repositories, selected, newest)) != a.snapshot
    ensures b.target in selected
  {
    assert b in Group(repositories, a.snapshot);
  }

  /** Refusing has a reason even where nobody would end up together: here one group would move onto a
      snapshot another is about to leave, and rewriting one pin after the other would move the first
      group twice. */
  lemma MovingAlongAChainMixesGroups(attribute: string)
    requires '"' !in attribute
    ensures var text, moves := Literal(attribute, "a") + Literal(attribute, "b"), map["a" := "b", "b" := "c"];
            var rewritten := Replace(Replace(text, Literal(attribute, "a"), Literal(attribute, "b")), Literal(attribute, "b"), Literal(attribute, "c"));
            && Moved(text, attribute, moves) == Literal(attribute, "b") + Literal(attribute, "c")
            && rewritten == Literal(attribute, "c") + Literal(attribute, "c")
  {
    hide Plain;
    var a, b, c := Literal(attribute, "a"), Literal(attribute, "b"), Literal(attribute, "c");
    var moves := map["a" := "b", "b" := "c"];
    assert Plain("a") && Plain("b") && Plain("c") by { LettersArePlain(); }
    assert AllPlain(moves);
    MovesThis(a + b, attribute, moves, "a");
    assert (a + b)[|a|..] == b && b[|b|..] == "";
    MovesThis(b, attribute, moves, "b");
    assert c + "" == c && b + "" == b;
    forall k | 0 <= k < |b|
      ensures !(a <= (b + "")[k..])
    {
      OnlyThisBegins(attribute, "b", "", "a", k);
    }
    ReplaceHits(b, a, b);
    ReplaceNothing(b, "", a, b);
    ReplaceHits(b, b, c);
    ReplaceHits("", b, c);
  }

  lemma LettersArePlain()
    ensures Plain("a") && Plain("b") && Plain("c")
  {
  }
}
