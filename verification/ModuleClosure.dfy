/** What loading a set of kernel modules takes: the modules they need, and the firmware those name. */
module ModuleClosure {
  import opened Options
  import opened Sorting
  import opened TextOrder

  /** What is known of one module name: its file, unless it is built in, its modinfo fields, and the
      names it depends on, softly or not. */
  datatype Module = Module(path: Option<string>, fields: seq<(string, string)>, needs: seq<string>)

  type Index = map<string, Module>

  datatype Closure = Closure(modules: map<string, Option<string>>, neededBy: map<string, seq<string>>,
                             firmware: map<string, seq<string>>, missing: seq<string>)

  /** A name with neither a file nor any field is one nobody installed. */
  predicate Resolved(index: Index, name: string) {
    name in index && (index[name].path.Some? || index[name].fields != [])
  }

  /** A chain of modules, each needing the next. */
  ghost predicate Chain(index: Index, names: set<string>, chain: seq<string>) {
    && chain != [] && chain[0] in names
    && forall i :: 0 <= i < |chain| - 1 ==> Resolved(index, chain[i]) && chain[i + 1] in index[chain[i]].needs
  }

  ghost predicate Reachable(index: Index, names: set<string>, name: string) {
    exists chain :: Chain(index, names, chain) && chain[|chain| - 1] == name
  }

  ghost predicate Requests(index: Index, modules: set<string>, requester: string, name: string) {
    requester in modules && requester in index && name in index[requester].needs
  }

  function FirmwareOf(fields: seq<(string, string)>): (files: seq<string>)
    ensures forall file :: file in files <==> ("firmware", file) in fields
  {
    if fields == [] then []
    else
      var (key, value) := fields[|fields| - 1];
      assert fields == fields[..|fields| - 1] + [(key, value)];
      FirmwareOf(fields[..|fields| - 1]) + if key == "firmware" then [value] else []
  }

  ghost predicate Declares(index: Index, modules: set<string>, declarer: string, file: string) {
    declarer in modules && declarer in index && ("firmware", file) in index[declarer].fields
  }

  lemma SeedsAreReachable(index: Index, names: set<string>, name: string)
    requires name in names
    ensures Reachable(index, names, name)
  {
    assert Chain(index, names, [name]);
  }

  lemma NeedsAreReachable(index: Index, names: set<string>, name: string, need: string)
    requires Reachable(index, names, name) && Resolved(index, name) && need in index[name].needs
    ensures Reachable(index, names, need)
  {
    var chain :| Chain(index, names, chain) && chain[|chain| - 1] == name;
    assert Chain(index, names, chain + [need]);
  }

  /** Whatever holds the names asked for and everything its resolved modules need holds all that is
      reachable. */
  lemma {:induction false} ClosedHoldsChain(index: Index, names: set<string>, closed: set<string>, chain: seq<string>)
    requires names <= closed && forall name, need :: name in closed && Resolved(index, name) && need in index[name].needs ==> need in closed
    requires Chain(index, names, chain)
    ensures chain[|chain| - 1] in closed
  {
    if |chain| > 1 {
      ClosedHoldsChain(index, names, closed, chain[..|chain| - 1]);
      var name := chain[|chain| - 2];
      assert Resolved(index, name) && chain[|chain| - 1] in index[name].needs;
    }
  }

  // Relations kept as maps of sets, the way they are filled.

  function Add(relation: map<string, set<string>>, key: string, value: string): map<string, set<string>> {
    relation[key := (if key in relation then relation[key] else {}) + {value}]
  }

  /** A map of sets holds exactly these pairs, and no key without any. */
  ghost predicate HoldsPairs(relation: map<string, set<string>>, pairs: iset<(string, string)>) {
    && (forall key :: key in relation ==> relation[key] != {})
    && (forall key, value :: (key, value) in pairs <==> key in relation && value in relation[key])
  }

  lemma AddPair(relation: map<string, set<string>>, pairs: iset<(string, string)>, key: string, value: string)
    requires HoldsPairs(relation, pairs)
    ensures HoldsPairs(Add(relation, key, value), pairs + iset{(key, value)})
  {
  }

  ghost function NeedPairs(index: Index, modules: set<string>): iset<(string, string)> {
    iset need: string, name: string | Requests(index, modules, name, need) :: (need, name)
  }

  ghost function FirmwarePairs(index: Index, modules: set<string>): iset<(string, string)> {
    iset file: string, name: string | Declares(index, modules, name, file) :: (file, name)
  }

  /** These pairs, and one of each key with this value. */
  ghost function WithEach(pairs: iset<(string, string)>, keys: seq<string>, value: string): iset<(string, string)> {
    if keys == [] then pairs else WithEach(pairs, keys[..|keys| - 1], value) + iset{(keys[|keys| - 1], value)}
  }

  lemma {:induction false} WithEachHolds(pairs: iset<(string, string)>, keys: seq<string>, one: string)
    ensures forall key, value :: (key, value) in WithEach(pairs, keys, one) <==> (key, value) in pairs || (value == one && key in keys)
  {
    if keys != [] {
      WithEachHolds(pairs, keys[..|keys| - 1], one);
      assert keys == keys[..|keys| - 1] + [keys[|keys| - 1]];
    }
  }

  lemma NextNeeds(index: Index, modules: set<string>, name: string)
    requires name in index
    ensures WithEach(NeedPairs(index, modules), index[name].needs, name) == NeedPairs(index, modules + {name})
  {
    hide WithEach;
    var needs := index[name].needs;
    WithEachHolds(NeedPairs(index, modules), needs, name);
    forall pair: (string, string)
      ensures pair in WithEach(NeedPairs(index, modules), needs, name) <==> pair in NeedPairs(index, modules + {name})
    {
      var (key, value) := pair;
    }
  }

  lemma NextFirmware(index: Index, modules: set<string>, name: string)
    requires name in index
    ensures WithEach(FirmwarePairs(index, modules), FirmwareOf(index[name].fields), name) == FirmwarePairs(index, modules + {name})
  {
    hide WithEach, FirmwareOf;
    var files := FirmwareOf(index[name].fields);
    WithEachHolds(FirmwarePairs(index, modules), files, name);
    forall pair: (string, string)
      ensures pair in WithEach(FirmwarePairs(index, modules), files, name) <==> pair in FirmwarePairs(index, modules + {name})
    {
      var (key, value) := pair;
    }
  }

  method AddNeeds(needs: seq<string>, name: string, needed: map<string, set<string>>, seen: set<string>,
                  ghost pairs: iset<(string, string)>)
    returns (after: map<string, set<string>>, more: seq<string>)
    requires HoldsPairs(needed, pairs)
    ensures HoldsPairs(after, WithEach(pairs, needs, name))
    ensures forall need :: need in more <==> need in needs && need !in seen
  {
    hide HoldsPairs;
    after, more := needed, [];
    for i := 0 to |needs|
      invariant HoldsPairs(after, WithEach(pairs, needs[..i], name))
      invariant forall need :: need in more <==> need in needs[..i] && need !in seen
    {
      assert needs[..i + 1][..i] == needs[..i];
      AddPair(after, WithEach(pairs, needs[..i], name), needs[i], name);
      after := Add(after, needs[i], name);
      if needs[i] !in seen {
        more := more + [needs[i]];
      }
    }
    assert needs[..|needs|] == needs;
  }

  method AddFirmware(fields: seq<(string, string)>, name: string, firmware: map<string, set<string>>,
                     ghost pairs: iset<(string, string)>)
    returns (after: map<string, set<string>>)
    requires HoldsPairs(firmware, pairs)
    ensures HoldsPairs(after, WithEach(pairs, FirmwareOf(fields), name))
  {
    hide HoldsPairs;
    after := firmware;
    for i := 0 to |fields|
      invariant HoldsPairs(after, WithEach(pairs, FirmwareOf(fields[..i]), name))
    {
      assert fields[..i + 1][..i] == fields[..i];
      var files := FirmwareOf(fields[..i]);
      if fields[i].0 == "firmware" {
        assert (files + [fields[i].1])[..|files|] == files;
        AddPair(after, WithEach(pairs, files, name), fields[i].1, name);
        after := Add(after, fields[i].1, name);
      } else {
        assert files + [] == files;
      }
    }
    assert fields[..|fields|] == fields;
  }

  method InOrder(relation: map<string, set<string>>) returns (ordered: map<string, seq<string>>)
    ensures ordered.Keys == relation.Keys && forall key :: key in relation ==> ordered[key] == InTextOrder(relation[key])
  {
    ordered := map[];
    var todo := relation.Keys;
    while todo != {}
      invariant todo <= relation.Keys && ordered.Keys == relation.Keys - todo
      invariant forall key :: key in ordered ==> ordered[key] == InTextOrder(relation[key])
      decreases |todo|
    {
      var key :| key in todo;
      var values := SortTexts(relation[key]);
      ordered := ordered[key := values];
      todo := todo - {key};
    }
  }

  ghost function Universe(index: Index, names: set<string>): set<string> {
    names + set name, need | name in index && need in index[name].needs :: need
  }

  /** What has been seen, with what is still to do, is reachable, and leaves nothing out. */
  ghost predicate Frontier(index: Index, names: set<string>, seen: set<string>, todo: set<string>) {
    && seen + todo <= Universe(index, names) && names <= seen + todo
    && (forall name :: name in seen + todo ==> Reachable(index, names, name))
    && (forall name, need :: name in seen && Resolved(index, name) && need in index[name].needs ==> need in seen + todo)
  }

  lemma FrontierStarts(index: Index, names: set<string>)
    ensures Frontier(index, names, {}, names)
  {
    hide Reachable;
    forall name | name in names
      ensures Reachable(index, names, name)
    {
      SeedsAreReachable(index, names, name);
    }
  }

  lemma FrontierMoves(index: Index, names: set<string>, seen: set<string>, todo: set<string>, name: string, more: set<string>)
    requires Frontier(index, names, seen, todo + {name})
    requires Resolved(index, name) && name !in seen ==> (forall need :: need in more <==> need in index[name].needs && need !in seen + {name})
    requires !Resolved(index, name) || name in seen ==> more == {}
    ensures Frontier(index, names, seen + {name}, todo + more)
  {
    hide Reachable, Universe;
    assert name in todo + {name};
    forall need | need in more
      ensures Reachable(index, names, need) && need in Universe(index, names)
    {
      NeedsAreReachable(index, names, name, need);
      NeedsAreInUniverse(index, names, name, need);
    }
    forall one, need | one in seen + {name} && Resolved(index, one) && need in index[one].needs
      ensures need in seen + {name} + (todo + more)
    {
      if one in seen {
        assert need in seen + (todo + {name});
      }
    }
  }

  lemma NeedsAreInUniverse(index: Index, names: set<string>, name: string, need: string)
    requires name in index && need in index[name].needs
    ensures need in Universe(index, names)
  {
  }

  lemma FrontierEnds(index: Index, names: set<string>, seen: set<string>, name: string)
    requires Frontier(index, names, seen, {})
    ensures name in seen <==> Reachable(index, names, name)
  {
    if Reachable(index, names, name) {
      var chain :| Chain(index, names, chain) && chain[|chain| - 1] == name;
      ClosedHoldsChain(index, names, seen, chain);
    }
  }

  lemma Progress(index: Index, names: set<string>, seen: set<string>, todo: set<string>, name: string)
    requires Frontier(index, names, seen, todo) && name in todo && name !in seen
    ensures |Universe(index, names) - (seen + {name})| < |Universe(index, names) - seen|
  {
    hide Universe;
    var rest := Universe(index, names) - (seen + {name});
    assert Universe(index, names) - seen == rest + {name};
  }

  /** Record what one module pulls in, and what of it is still to be looked at. */
  method Visit(index: Index, name: string, neededBy: map<string, set<string>>, firmware: map<string, set<string>>,
               seen: set<string>, ghost modules: set<string>)
    returns (needed: map<string, set<string>>, files: map<string, set<string>>, more: seq<string>)
    requires name in index
    requires HoldsPairs(neededBy, NeedPairs(index, modules)) && HoldsPairs(firmware, FirmwarePairs(index, modules))
    ensures HoldsPairs(needed, NeedPairs(index, modules + {name})) && HoldsPairs(files, FirmwarePairs(index, modules + {name}))
    ensures forall need :: need in more <==> need in index[name].needs && need !in seen
  {
    hide HoldsPairs, NeedPairs, FirmwarePairs, WithEach, FirmwareOf;
    NextFirmware(index, modules, name);
    NextNeeds(index, modules, name);
    files := AddFirmware(index[name].fields, name, firmware, FirmwarePairs(index, modules));
    needed, more := AddNeeds(index[name].needs, name, neededBy, seen, NeedPairs(index, modules));
  }

  /** Every name seen is among the modules or missing. */
  ghost predicate Recorded(index: Index, seen: set<string>, modules: map<string, Option<string>>, missing: set<string>) {
    && (forall name :: name in modules <==> name in seen && Resolved(index, name))
    && (forall name :: name in missing <==> name in seen && !Resolved(index, name))
    && (forall name :: name in modules ==> name in index && modules[name] == index[name].path)
  }

  lemma RecordsAnother(index: Index, seen: set<string>, modules: map<string, Option<string>>, missing: set<string>, name: string)
    requires Recorded(index, seen, modules, missing)
    ensures if Resolved(index, name) then Recorded(index, seen + {name}, modules[name := index[name].path], missing)
                                          && modules[name := index[name].path].Keys == modules.Keys + {name}
            else Recorded(index, seen + {name}, modules, missing + {name})
  {
  }

  lemma LastElement(names: seq<string>)
    requires names != []
    ensures Elements(names) == Elements(names[..|names| - 1]) + {names[|names| - 1]}
  {
    assert names == names[..|names| - 1] + [names[|names| - 1]];
  }

  lemma AllElements(a: seq<string>, b: seq<string>)
    ensures Elements(a + b) == Elements(a) + Elements(b)
  {
  }

  /** Work through every name asked for and everything those need. */
  method Collect(index: Index, names: set<string>)
    returns (modules: map<string, Option<string>>, neededBy: map<string, set<string>>, firmware: map<string, set<string>>,
             missing: set<string>)
    ensures forall name :: name in modules <==> Reachable(index, names, name) && Resolved(index, name)
    ensures forall name :: name in missing <==> Reachable(index, names, name) && !Resolved(index, name)
    ensures forall name :: name in modules ==> name in index && modules[name] == index[name].path
    ensures HoldsPairs(neededBy, NeedPairs(index, modules.Keys))
    ensures HoldsPairs(firmware, FirmwarePairs(index, modules.Keys))
  {
    ghost var all: set<string>;
    modules, neededBy, firmware, missing, all := Work(index, names);
    forall name
      ensures name in all <==> Reachable(index, names, name)
    {
      FrontierEnds(index, names, all, name);
    }
  }

  method Work(index: Index, names: set<string>)
    returns (modules: map<string, Option<string>>, neededBy: map<string, set<string>>, firmware: map<string, set<string>>,
             missing: set<string>, ghost all: set<string>)
    ensures Frontier(index, names, all, {}) && Recorded(index, all, modules, missing)
    ensures HoldsPairs(neededBy, NeedPairs(index, modules.Keys))
    ensures HoldsPairs(firmware, FirmwarePairs(index, modules.Keys))
  {
    hide HoldsPairs, NeedPairs, FirmwarePairs, Frontier, Universe, InTextOrder, Recorded, Elements;
    modules, neededBy, firmware, missing := map[], map[], map[], {};
    var seen: set<string> := {};
    var todo := SortTexts(names);
    NothingYet(index);
    FrontierStarts(index, names);
    assert modules.Keys == {};
    while todo != []
      invariant Frontier(index, names, seen, Elements(todo)) && Recorded(index, seen, modules, missing)
      invariant HoldsPairs(neededBy, NeedPairs(index, modules.Keys))
      invariant HoldsPairs(firmware, FirmwarePairs(index, modules.Keys))
      decreases |Universe(index, names) - seen|, |todo|
    {
      var name := todo[|todo| - 1];
      LastElement(todo);
      if name !in seen {
        Progress(index, names, seen, Elements(todo), name);
      }
      todo := todo[..|todo| - 1];
      if name in seen {
        FrontierMoves(index, names, seen, Elements(todo), name, {});
        assert seen + {name} == seen && Elements(todo) + {} == Elements(todo);
        continue;
      }
      RecordsAnother(index, seen, modules, missing, name);
      if !Resolved(index, name) {
        FrontierMoves(index, names, seen, Elements(todo), name, {});
        assert Elements(todo) + {} == Elements(todo);
        seen, missing := seen + {name}, missing + {name};
        continue;
      }
      var more;
      neededBy, firmware, more := Visit(index, name, neededBy, firmware, seen + {name}, modules.Keys);
      InElements(more);
      FrontierMoves(index, names, seen, Elements(todo), name, Elements(more));
      AllElements(todo, more);
      modules, seen, todo := modules[name := index[name].path], seen + {name}, todo + more;
    }
    all := seen;
    NoElements();
  }

  lemma InElements(names: seq<string>)
    ensures forall name :: name in names <==> name in Elements(names)
  {
  }

  lemma NoElements()
    ensures Elements<string>([]) == {}
  {
  }

  lemma NothingYet(index: Index)
    ensures HoldsPairs(map[], NeedPairs(index, {})) && HoldsPairs(map[], FirmwarePairs(index, {}))
    ensures Recorded(index, {}, map[], {})
  {
  }

  /** Resolve names to their modules and firmware, recording everything that pulled each one in. The
      answer is all there is to reach, and says so whatever order it was found in. */
  method Close(index: Index, names: set<string>) returns (closure: Closure)
    ensures forall name :: name in closure.modules <==>
              Reachable(index, names, name) && name in index && (index[name].path.Some? || index[name].fields != [])
    ensures forall name :: name in closure.missing <==>
              Reachable(index, names, name) && !(name in index && (index[name].path.Some? || index[name].fields != []))
    ensures Distinct(closure.missing) && closure.missing == InTextOrder(Elements(closure.missing))
    ensures forall name :: name in closure.modules ==> name in index && closure.modules[name] == index[name].path
    ensures forall name :: name in closure.neededBy <==> exists requester :: Requests(index, closure.modules.Keys, requester, name)
    ensures forall name, requester :: name in closure.neededBy ==>
              (requester in closure.neededBy[name] <==> Requests(index, closure.modules.Keys, requester, name))
    ensures forall file :: file in closure.firmware <==> exists name :: Declares(index, closure.modules.Keys, name, file)
    ensures forall file, name :: file in closure.firmware ==>
              (name in closure.firmware[file] <==> Declares(index, closure.modules.Keys, name, file))
  {
    hide Reachable, InTextOrder, Resolved, NeedPairs, FirmwarePairs, Requests, Declares, HoldsPairs;
    ResolvedMeans(index);
    var modules, neededBy, firmware, missing := Collect(index, names);
    var requesters := InOrder(neededBy);
    var declarers := InOrder(firmware);
    var absent := SortTexts(missing);
    assert forall name :: name in absent <==> name in Elements(absent);
    PairsBothWays(neededBy, requesters, NeedPairs(index, modules.Keys));
    PairsBothWays(firmware, declarers, FirmwarePairs(index, modules.Keys));
    PairsAre(index, modules.Keys);
    closure := Closure(modules, requesters, declarers, absent);
  }

  lemma PairsAre(index: Index, modules: set<string>)
    ensures forall name, requester :: (name, requester) in NeedPairs(index, modules) <==> Requests(index, modules, requester, name)
    ensures forall name, requester :: (name, requester) in FirmwarePairs(index, modules) <==> Declares(index, modules, requester, name)
  {
  }

  lemma ResolvedMeans(index: Index)
    ensures forall name :: Resolved(index, name) <==> name in index && (index[name].path.Some? || index[name].fields != [])
  {
  }

  lemma PairsBothWays(relation: map<string, set<string>>, ordered: map<string, seq<string>>, pairs: iset<(string, string)>)
    requires HoldsPairs(relation, pairs)
    requires ordered.Keys == relation.Keys && forall key :: key in relation ==> ordered[key] == InTextOrder(relation[key])
    ensures forall key :: key in ordered <==> exists value :: (key, value) in pairs
    ensures forall key, value :: key in ordered ==> (value in ordered[key] <==> (key, value) in pairs)
  {
    forall key | key in relation
      ensures exists value :: (key, value) in pairs
    {
      var value :| value in relation[key];
      assert (key, value) in pairs;
    }
    forall key, value | key in ordered
      ensures value in ordered[key] <==> (key, value) in pairs
    {
      assert value in ordered[key] <==> value in Elements(InTextOrder(relation[key]));
    }
  }
}
